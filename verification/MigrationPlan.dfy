/** Which migration files a run takes, and where it ends (migrate/plan.go, migrate/history.go:24-31). */
module MigrationPlan {

  datatype Direction = Up | Down

  /** One direction of a file: none, text that does not split into statements, or its statements. */
  datatype Section = Missing | Broken | Sql(statements: seq<string>)

  datatype Migration = Migration(version: string, up: Section, down: Section)

  datatype Step = Step(version: string, statements: seq<string>)

  datatype Plan = Plan(direction: Direction, currentVersion: string, targetVersion: string, createsHistory: bool,
    steps: seq<Step>)

  datatype PlanError =
    | BadCount | Unmanaged | TooMany
    | NoFile(version: string) | Irreversible(version: string) | BadSection(version: string)

  datatype PlanResult = Planned(plan: Plan) | Refused(error: PlanError)

  /** The latest registration. */
  function Top(applied: seq<string>): string {
    if |applied| == 0 then "" else applied[|applied| - 1]
  }

  // ---- the plan, said directly ----

  /** Files that are not registered, in the order of the files. */
  function Pending(migrations: seq<Migration>, applied: seq<string>): seq<string> {
    if |migrations| == 0 then []
    else
      Pending(migrations[..|migrations| - 1], applied) +
      if migrations[|migrations| - 1].version in applied then [] else [migrations[|migrations| - 1].version]
  }

  function Reversed(applied: seq<string>): (r: seq<string>)
    ensures |r| == |applied| && forall i | 0 <= i < |r| :: r[i] == applied[|applied| - 1 - i]
  {
    seq(|applied|, i requires 0 <= i < |applied| => applied[|applied| - 1 - i])
  }

  function Candidates(migrations: seq<Migration>, applied: seq<string>, direction: Direction): seq<string> {
    if direction == Up then Pending(migrations, applied) else Reversed(applied)
  }

  function Chosen(candidates: seq<string>, count: nat): seq<string>
    requires count <= |candidates|
  {
    if count > 0 then candidates[..count] else candidates
  }

  predicate HasFile(migrations: seq<Migration>, version: string) {
    exists m <- migrations :: m.version == version
  }

  /** The file of a version: the last one of that name. */
  predicate IsFileOf(migrations: seq<Migration>, k: int, version: string) {
    && 0 <= k < |migrations| && migrations[k].version == version
    && forall j | k < j < |migrations| :: migrations[j].version != version
  }

  ghost predicate IsLatest(migrations: seq<Migration>, version: string, m: Migration) {
    exists k :: IsFileOf(migrations, k, version) && migrations[k] == m
  }

  datatype StepResult = Ready(step: Step) | NotReady(error: PlanError)

  /** A step runs what its file says: the up section on the way up, the down section on the way down. */
  ghost predicate Runs(migrations: seq<Migration>, direction: Direction, step: Step) {
    step.statements != [] && exists k :: IsFileOf(migrations, k, step.version) && RunsSection(migrations[k], direction,
      step.statements)
  }

  predicate RunsSection(m: Migration, direction: Direction, statements: seq<string>) {
    && (direction == Up ==> m.up == Sql(statements))
    && (direction == Down ==> m.down == Sql(statements))
  }

  /** Why a version gives no step: no file, no way down, or a section that is no list of statements. */
  ghost predicate CannotRun(migrations: seq<Migration>, direction: Direction, version: string, e: PlanError) {
    match e
    case NoFile(v) => v == version && !HasFile(migrations, version)
    case Irreversible(v) =>
      v == version && direction == Down && exists k :: IsFileOf(migrations, k, version) && migrations[k].down == Missing
    case BadSection(v) =>
      v == version && exists k :: IsFileOf(migrations, k, version) && Unrunnable(migrations[k], direction)
    case _ => false
  }

  predicate Unrunnable(m: Migration, direction: Direction) {
    && (direction == Up ==> m.up == Missing || m.up == Broken || m.up == Sql([]))
    && (direction == Down ==> m.down == Broken || m.down == Sql([]))
  }

  ghost predicate CanRun(migrations: seq<Migration>, direction: Direction, version: string) {
    exists step: Step :: step.version == version && Runs(migrations, direction, step)
  }

  /** The history after the steps of a plan. */
  function After(applied: seq<string>, direction: Direction, versions: seq<string>): seq<string> {
    if direction == Up then applied + versions
    else if |versions| <= |applied| then applied[..|applied| - |versions|] else []
  }

  function Versions(steps: seq<Step>): (v: seq<string>)
    ensures |v| == |steps|
  {
    seq(|steps|, i requires 0 <= i < |steps| => steps[i].version)
  }

  /** A plan does what was asked: the chosen versions, each with the statements of its file, ending where the
      history will end. */
  ghost predicate IsPlan(p: Plan, migrations: seq<Migration>, applied: seq<string>, managed: bool,
    direction: Direction, count: nat) {
    var candidates := Candidates(migrations, applied, direction);
    && p.direction == direction && p.currentVersion == Top(applied)
    && count <= |candidates| && Versions(p.steps) == Chosen(candidates, count)
    && (forall i | 0 <= i < |p.steps| :: Runs(migrations, direction, p.steps[i]))
    && p.targetVersion == Top(After(applied, direction, Versions(p.steps)))
    && (p.createsHistory <==> p.steps != [] && !managed)
  }

  /** Why a plan is refused, the first reason in the order of the checks. */
  ghost predicate IsRefusal(
    e: PlanError, migrations: seq<Migration>, applied: seq<string>, tables: nat, managed: bool, direction: Direction,
      count: int)
  {
    var candidates := Candidates(migrations, applied, direction);
    if count < 0 || (direction == Down && count == 0) then e == BadCount
    else if tables > 0 && !managed then e == Unmanaged
    else if count > |candidates| then e == TooMany
    else
      var chosen := Chosen(candidates, count);
      exists i: nat | i < |chosen| ::
        CannotRun(migrations, direction, chosen[i], e) &&
        forall j | 0 <= j < i :: CanRun(migrations, direction, chosen[j])
  }

  // ---- the plan as it is built ----

  method BuildPlan(migrations: seq<Migration>, applied: seq<string>, tables: nat, managed: bool,
    direction: Direction, count: int)
    returns (result: PlanResult)
    ensures result.Planned? ==> count >= 0 && IsPlan(result.plan, migrations, applied, managed, direction, count)
    ensures result.Planned? ==> (direction == Down ==> count > 0) && (tables > 0 ==> managed)
    ensures result.Refused? ==> IsRefusal(result.error, migrations, applied, tables, managed, direction, count)
  {
    hide Runs, CannotRun, Top, IsRefusal, Candidates, IsLatest;
    CheckedFirst(migrations, applied, tables, managed, direction, count);
    var p := Plan(direction, Top(applied), Top(applied), false, []);
    if count < 0 || (direction == Down && count == 0) {
      return Refused(BadCount);
    }
    if tables > 0 && !managed {
      return Refused(Unmanaged);
    }
    var byVersion := FilesByVersion(migrations);
    var versions := CollectCandidates(migrations, applied, direction);
    if count > |versions| {
      return Refused(TooMany);
    }
    if count > 0 {
      versions := versions[..count];
    }
    for index := 0 to |versions|
      invariant |p.steps| == index && p == Plan(direction, Top(applied), Top(applied), false, p.steps)
      invariant forall i | 0 <= i < index :: p.steps[i].version == versions[i]
      invariant forall i | 0 <= i < index :: Runs(migrations, direction, p.steps[i])
      invariant forall i | 0 <= i < index :: CanRun(migrations, direction, versions[i])
    {
      var made := MakeStep(byVersion, migrations, versions[index], direction);
      if made.NotReady? {
        RefusedAt(migrations, applied, tables, managed, direction, count, versions, index, made.error);
        return Refused(made.error);
      }
      p := p.(steps := p.steps + [made.step]);
    }
    assert Versions(p.steps) == versions;
    if |p.steps| > 0 {
      p := p.(createsHistory := !managed);
      if direction == Up {
        p := p.(targetVersion := p.steps[|p.steps| - 1].version);
      } else {
        p := p.(targetVersion := "");
        var remaining := |applied| - |p.steps|;
        if remaining > 0 {
          p := p.(targetVersion := applied[remaining - 1]);
        }
      }
    }
    DownIsAll(migrations, applied);
    TargetIsTop(applied, direction, Versions(p.steps));
    result := Planned(p);
  }

  lemma CheckedFirst(migrations: seq<Migration>, applied: seq<string>, tables: nat, managed: bool,
    direction: Direction, count: int)
    ensures var bad := count < 0 || (direction == Down && count == 0); var unmanaged := tables > 0 && !managed;
      && (bad ==> IsRefusal(BadCount, migrations, applied, tables, managed, direction, count))
      && (!bad && unmanaged ==> IsRefusal(Unmanaged, migrations, applied, tables, managed, direction, count))
      && (!bad && !unmanaged && count > |Candidates(migrations, applied, direction)| ==>
            IsRefusal(TooMany, migrations, applied, tables, managed, direction, count))
  {
  }

  lemma RefusedAt(
    migrations: seq<Migration>, applied: seq<string>, tables: nat, managed: bool, direction: Direction, count: int,
    chosen: seq<string>, i: nat, e: PlanError)
    requires count >= 0 && (direction == Down ==> count > 0) && (tables > 0 ==> managed)
    requires count <= |Candidates(migrations, applied, direction)|
    requires chosen == Chosen(Candidates(migrations, applied, direction), count)
    requires i < |chosen| && CannotRun(migrations, direction, chosen[i], e)
    requires forall j | 0 <= j < i :: CanRun(migrations, direction, chosen[j])
    ensures IsRefusal(e, migrations, applied, tables, managed, direction, count)
  {
    hide CannotRun, CanRun, Candidates;
  }

  lemma DownIsAll(migrations: seq<Migration>, applied: seq<string>)
    ensures |Candidates(migrations, applied, Down)| == |applied|
  {
  }

  lemma TargetIsTop(applied: seq<string>, direction: Direction, versions: seq<string>)
    requires direction == Down ==> |versions| <= |applied|
    ensures Top(After(applied, direction, versions)) ==
      if |versions| == 0 then Top(applied)
      else if direction == Up then versions[|versions| - 1]
      else if |applied| > |versions| then applied[|applied| - |versions| - 1] else ""
  {
  }

  /** The map holds the file of every version among the first `n` files. */
  ghost predicate HoldsFiles(byVersion: map<string, Migration>, migrations: seq<Migration>, n: nat)
    requires n <= |migrations|
  {
    && (forall k | 0 <= k < n :: migrations[k].version in byVersion)
    && forall v <- byVersion :: IsLatest(migrations[..n], v, byVersion[v])
  }

  method FilesByVersion(migrations: seq<Migration>) returns (byVersion: map<string, Migration>)
    ensures forall v :: v in byVersion <==> HasFile(migrations, v)
    ensures forall v <- byVersion :: IsLatest(migrations, v, byVersion[v])
  {
    byVersion := map[];
    for index := 0 to |migrations|
      invariant HoldsFiles(byVersion, migrations, index)
    {
      FilesGrow(byVersion, migrations, index);
      byVersion := byVersion[migrations[index].version := migrations[index]];
    }
    assert migrations[..|migrations|] == migrations;
    forall v
      ensures v in byVersion <==> HasFile(migrations, v)
    {
      if m :| m in migrations && m.version == v {
        var k :| 0 <= k < |migrations| && migrations[k] == m;
      }
    }
  }

  lemma FilesGrow(byVersion: map<string, Migration>, migrations: seq<Migration>, n: nat)
    requires n < |migrations| && HoldsFiles(byVersion, migrations, n)
    ensures HoldsFiles(byVersion[migrations[n].version := migrations[n]], migrations, n + 1)
  {
    hide IsLatest;
    var more := byVersion[migrations[n].version := migrations[n]];
    forall v <- more
      ensures IsLatest(migrations[..n + 1], v, more[v])
    {
      if v == migrations[n].version {
        LastIsLatest(migrations, n);
      } else {
        LatestStays(migrations, n, v, more[v]);
      }
    }
  }

  lemma LastIsLatest(migrations: seq<Migration>, n: nat)
    requires n < |migrations|
    ensures IsLatest(migrations[..n + 1], migrations[n].version, migrations[n])
  {
    assert IsFileOf(migrations[..n + 1], n, migrations[n].version);
  }

  lemma LatestStays(migrations: seq<Migration>, n: nat, version: string, m: Migration)
    requires n < |migrations| && migrations[n].version != version && IsLatest(migrations[..n], version, m)
    ensures IsLatest(migrations[..n + 1], version, m)
  {
    var front, all := migrations[..n], migrations[..n + 1];
    var k :| IsFileOf(front, k, version) && front[k] == m;
    assert forall j | 0 <= j < n :: front[j] == all[j];
    assert all[n] == migrations[n];
    assert IsFileOf(all, k, version);
  }

  method CollectCandidates(migrations: seq<Migration>, applied: seq<string>,
    direction: Direction) returns (versions: seq<string>)
    ensures versions == Candidates(migrations, applied, direction)
  {
    versions := [];
    if direction == Up {
      for index := 0 to |migrations|
        invariant versions == Pending(migrations[..index], applied)
      {
        if migrations[index].version !in applied {
          versions := versions + [migrations[index].version];
        }
        assert migrations[..index + 1][..index] == migrations[..index];
      }
      assert migrations[..|migrations|] == migrations;
    } else {
      var i := |applied|;
      while i > 0
        invariant 0 <= i <= |applied| && |versions| == |applied| - i
        invariant forall k | 0 <= k < |versions| :: versions[k] == applied[|applied| - 1 - k]
      {
        i := i - 1;
        versions := versions + [applied[i]];
      }
    }
  }

  method MakeStep(
    byVersion: map<string, Migration>, ghost migrations: seq<Migration>, version: string, direction: Direction)
    returns (made: StepResult)
    requires forall v :: v in byVersion <==> HasFile(migrations, v)
    requires forall v <- byVersion :: IsLatest(migrations, v, byVersion[v])
    ensures made.Ready? ==> made.step.version == version && Runs(migrations, direction, made.step)
    ensures made.NotReady? ==> CannotRun(migrations, direction, version, made.error)
  {
    if version !in byVersion {
      return NotReady(NoFile(version));
    }
    var m := byVersion[version];
    ghost var k :| IsFileOf(migrations, k, version) && migrations[k] == m;
    if direction == Down && m.down == Missing {
      return NotReady(Irreversible(version));
    }
    var section := if direction == Down then m.down else m.up;
    if !section.Sql? || |section.statements| == 0 {
      return NotReady(BadSection(version));
    }
    made := Ready(Step(version, section.statements));
  }

  // ---- what a plan contains ----

  /** The pending versions are those of files that are not registered. */
  lemma {:induction false} PendingExact(migrations: seq<Migration>, applied: seq<string>)
    ensures forall v :: v in Pending(migrations, applied) <==> v !in applied && HasFile(migrations, v)
  {
    if |migrations| > 0 {
      var front, last := migrations[..|migrations| - 1], migrations[|migrations| - 1];
      PendingExact(front, applied);
      assert migrations == front + [last];
      forall v
        ensures HasFile(migrations, v) <==> last.version == v || HasFile(front, v)
      {
        assert last in migrations;
        if m :| m in front && m.version == v {
          assert m in migrations;
        }
      }
    }
  }

  /** A reversal takes the latest registrations, newest first, so each step removes the top of the history. */
  lemma DownRemovesTop(p: Plan, migrations: seq<Migration>, applied: seq<string>, managed: bool, count: nat, k: nat)
    requires IsPlan(p, migrations, applied, managed, Down, count) && k < |p.steps|
    ensures k < |applied| && p.steps[k].version == Top(After(applied, Down, Versions(p.steps)[..k]))
    ensures After(applied, Down, Versions(p.steps)[..k + 1]) ==
      After(applied, Down, Versions(p.steps)[..k])[..|After(applied, Down, Versions(p.steps)[..k])| - 1]
  {
    hide Runs;
    var versions := Versions(p.steps);
    assert versions[k] == Reversed(applied)[k];
  }

  /** The versions an up run takes: some unregistered files in the order of the files, none of them passed over. */
  ghost predicate InFileOrder(migrations: seq<Migration>, applied: seq<string>, versions: seq<string>, at: seq<int>) {
    && |at| == |versions|
    && (forall i | 0 <= i < |at| :: 0 <= at[i] < |migrations| && migrations[at[i]].version == versions[i])
    && (forall i, j | 0 <= i < j < |at| :: at[i] < at[j])
    && forall k | 0 <= k < |migrations| :: k in at <==> migrations[k].version !in applied
  }

  /** Pending versions stand in the order of their files, one for each file that is not registered. */
  lemma {:induction false} PendingInFileOrder(migrations: seq<Migration>, applied: seq<string>) returns (at: seq<int>)
    ensures InFileOrder(migrations, applied, Pending(migrations, applied), at)
  {
    if |migrations| == 0 {
      at := [];
    } else {
      var n := |migrations| - 1;
      var front := PendingInFileOrder(migrations[..n], applied);
      at := if migrations[n].version in applied then front else front + [n];
      OrderGrows(migrations, applied, Pending(migrations[..n], applied), front, n);
      assert migrations[..n + 1] == migrations;
    }
  }

  lemma OrderGrows(migrations: seq<Migration>, applied: seq<string>, versions: seq<string>, at: seq<int>, n: nat)
    requires n < |migrations| && InFileOrder(migrations[..n], applied, versions, at)
    ensures InFileOrder(migrations[..n + 1], applied,
      versions + if migrations[n].version in applied then [] else [migrations[n].version],
      if migrations[n].version in applied then at else at + [n])
  {
    var front, all := migrations[..n], migrations[..n + 1];
    assert forall k | 0 <= k < n :: front[k] == all[k];
    assert forall i | 0 <= i < |at| :: at[i] < n;
    var more := if migrations[n].version in applied then at else at + [n];
    forall k | 0 <= k < |all|
      ensures k in more <==> all[k].version !in applied
    {
      assert k in more <==> k in at || (k == n && migrations[n].version !in applied);
    }
  }

  /** The step's statements are the up section of its file. */
  ghost predicate RunsUp(migrations: seq<Migration>, step: Step) {
    exists k :: IsFileOf(migrations, k, step.version) && migrations[k].up == Sql(step.statements)
  }

  ghost predicate RunsDown(migrations: seq<Migration>, step: Step) {
    exists k :: IsFileOf(migrations, k, step.version) && migrations[k].down == Sql(step.statements)
  }

  /** An up plan runs, in the order of the files, the up sections of the first files that are not registered. */
  lemma UpRunsUpSections(p: Plan, migrations: seq<Migration>, applied: seq<string>, managed: bool, count: nat)
    returns (at: seq<int>)
    requires IsPlan(p, migrations, applied, managed, Up, count)
    ensures InFileOrder(migrations, applied, Pending(migrations, applied), at)
    ensures |p.steps| == (if count > 0 then count else |at|) <= |at|
    ensures forall i | 0 <= i < |p.steps| ::
      p.steps[i].version == migrations[at[i]].version && RunsUp(migrations, p.steps[i])
  {
    at := PendingInFileOrder(migrations, applied);
    assert Versions(p.steps) == Chosen(Pending(migrations, applied), count);
    forall i | 0 <= i < |p.steps|
      ensures p.steps[i].version == migrations[at[i]].version && RunsUp(migrations, p.steps[i])
    {
      assert Versions(p.steps)[i] == Pending(migrations, applied)[i];
      assert Runs(migrations, Up, p.steps[i]);
    }
  }

  /** A down plan runs the down sections of the latest registrations, newest first. */
  lemma DownRunsDownSections(p: Plan, migrations: seq<Migration>, applied: seq<string>, managed: bool, count: nat)
    requires IsPlan(p, migrations, applied, managed, Down, count) && count > 0
    ensures |p.steps| == count <= |applied|
    ensures forall i | 0 <= i < count ::
      p.steps[i].version == applied[|applied| - 1 - i] && RunsDown(migrations, p.steps[i])
  {
    assert Versions(p.steps) == Chosen(Reversed(applied), count);
    forall i | 0 <= i < count
      ensures p.steps[i].version == applied[|applied| - 1 - i] && RunsDown(migrations, p.steps[i])
    {
      assert Versions(p.steps)[i] == Reversed(applied)[i];
      assert Runs(migrations, Down, p.steps[i]);
    }
  }
}
