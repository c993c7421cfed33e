/** Applying or reverting migration files with a failure possible at every call (migrate/apply.go:11-108,
    migrate/event.go, migrate/history.go:58-86). */
module MigrationRun {
  import opened SqlValues
  import opened MigrationPlan

  datatype Phase = SqlPhase | RecordApplied | RemoveApplied | CreateTable

  datatype State = Started | Succeeded | Failed | Unexecuted

  datatype Event = Event(version: string, phase: Phase, statement: nat, sql: string, state: State)

  /** How a call into the database, the file system or the listener goes. A failing call may still have had
      its effect. */
  datatype Effect = Works | Fails | FailsAfterEffect

  // ---- the statements of a plan ----

  function StepEvents(step: Step, n: nat): (es: seq<Event>)
    requires n <= |step.statements|
    ensures |es| == n
  {
    seq(n, i requires 0 <= i < n => Event(step.version, SqlPhase, i + 1, step.statements[i], Started))
  }

  /** Every statement of the plan, in the order of execution. */
  function Todo(steps: seq<Step>): seq<Event> {
    if |steps| == 0 then []
    else Todo(steps[..|steps| - 1]) + StepEvents(steps[|steps| - 1], |steps[|steps| - 1].statements|)
  }

  lemma {:induction false} TodoPrefix(steps: seq<Step>, c: nat)
    requires c <= |steps|
    ensures Todo(steps[..c]) <= Todo(steps)
  {
    if c < |steps| {
      TodoPrefix(steps[..|steps| - 1], c);
      assert steps[..|steps| - 1][..c] == steps[..c];
    } else {
      assert steps[..c] == steps;
    }
  }

  lemma TodoStep(steps: seq<Step>, c: nat)
    requires c < |steps|
    ensures Todo(steps[..c + 1]) == Todo(steps[..c]) + StepEvents(steps[c], |steps[c].statements|)
  {
    assert steps[..c + 1][..c] == steps[..c];
  }

  /** The events that report a statement as unexecuted. */
  function Reported(events: seq<Event>): seq<Event> {
    if |events| == 0 then []
    else
      var last := events[|events| - 1];
      Reported(events[..|events| - 1]) + if last.state == Unexecuted then [last] else []
  }

  function AsUnexecuted(events: seq<Event>): (r: seq<Event>)
    ensures |r| == |events|
  {
    seq(|events|, i requires 0 <= i < |events| => events[i].(state := Unexecuted))
  }

  /** The events that report how a statement ended that was sent. */
  function Told(events: seq<Event>): seq<Event> {
    if |events| == 0 then []
    else Told(events[..|events| - 1]) + if TellsEnd(events[|events| - 1]) then [events[|events| - 1]] else []
  }

  predicate TellsEnd(e: Event) {
    e.phase == SqlPhase && (e.state == Succeeded || e.state == Failed)
  }

  /** One event for each statement, saying whether it worked. */
  function AsTold(executed: seq<Event>, outcomes: seq<Effect>): (r: seq<Event>)
    requires |executed| == |outcomes|
    ensures |r| == |executed|
  {
    seq(|executed|, i requires 0 <= i < |executed| =>
      executed[i].(state := if outcomes[i] == Works then Succeeded else Failed))
  }

  /** The first `n` statements sent worked. */
  predicate WorkedUpTo(outcomes: seq<Effect>, n: nat) {
    n <= |outcomes| && forall i | 0 <= i < n :: outcomes[i] == Works
  }

  lemma ReportedGrows(events: seq<Event>, e: Event)
    ensures Reported(events + [e]) == Reported(events) + if e.state == Unexecuted then [e] else []
    ensures Told(events + [e]) == Told(events) + if TellsEnd(e) then [e] else []
  {
    assert (events + [e])[..|events|] == events;
  }

  predicate AllDistinct(versions: seq<string>) {
    forall i, j | 0 <= i < j < |versions| :: versions[i] != versions[j]
  }

  /** DELETE ... WHERE version = ?. */
  function Removed(history: seq<string>, version: string): (r: seq<string>)
    ensures |r| <= |history|
  {
    if |history| == 0 then []
    else Removed(history[..|history| - 1],
      version) + if history[|history| - 1] == version then [] else [history[|history| - 1]]
  }

  lemma {:induction false} NothingRemoved(history: seq<string>, version: string)
    requires version !in history
    ensures Removed(history, version) == history
  {
    if |history| > 0 {
      NothingRemoved(history[..|history| - 1], version);
    }
  }

  lemma TopRemoved(history: seq<string>)
    requires |history| > 0 && AllDistinct(history)
    ensures Removed(history, Top(history)) == history[..|history| - 1]
  {
    NothingRemoved(history[..|history| - 1], Top(history));
  }

  /** The plan fits the history it was made for. */
  ghost predicate Fits(steps: seq<Step>, applied: seq<string>, direction: Direction) {
    && (direction == Up ==> AllDistinct(applied + Versions(steps)))
    && (direction == Down ==> AllDistinct(applied) && |steps| <= |applied|)
    && (direction == Down ==> forall k | 0 <= k < |steps| :: steps[k].version == applied[|applied| - 1 - k])
  }

  /** A call was announced, and if the listener took that, how it ended. */
  ghost predicate Announced(before: seq<Event>, after: seq<Event>, start: Event, worked: bool) {
    || after == before + [start]
    || after == before + [start, start.(state := if worked then Succeeded else Failed)]
  }

  /** The runner, the version table it keeps, what reached the server, and what the listener was told. */
  class Runner {
    const decisions: seq<Effect>
    var taken: nat
    var history: seq<string>
    var stack: seq<string>
    var events: seq<Event>
    var executed: seq<Event>
    var sent: nat
    var version: string
    var completed: seq<string>
    var snapshotUpdated: bool
    ghost var outcomes: seq<Effect>
    ghost var unclear: bool

    constructor (decisions: seq<Effect>, history: seq<string>)
      ensures this.decisions == decisions && this.history == history && Idle()
    {
      this.decisions, this.history, taken, stack, events, executed, sent := decisions, history, 0, [], [], [], 0;
      version, completed, snapshotUpdated, outcomes, unclear := "", [], false, [], false;
    }

    ghost predicate Idle()
      reads this
    {
      events == [] && executed == [] && sent == 0 && completed == [] && outcomes == [] && !unclear
    }

    ghost predicate FaultFree() {
      forall d <- decisions :: d == Works
    }

    /** How the n-th call goes. */
    ghost function Decision(n: nat): Effect {
      if n < |decisions| then decisions[n] else Works
    }

    method Decide() returns (effect: Effect)
      modifies `taken
      ensures effect == Decision(old(taken)) && taken == old(taken) + 1
      ensures FaultFree() ==> effect == Works
    {
      effect := if taken < |decisions| then decisions[taken] else Works;
      assert taken < |decisions| ==> decisions[taken] in decisions;
      taken := taken + 1;
    }

    /** Tells the listener, which may fail. */
    method Emit(event: Event) returns (ok: bool)
      modifies `taken, `events
      ensures events == old(events) + [event] && taken == old(taken) + 1
      ensures ok <==> Decision(old(taken)) == Works
      ensures FaultFree() ==> ok
    {
      events := events + [event];
      var effect := Decide();
      ok := effect == Works;
    }

    /** One SQL statement between its two events: it is sent only when the first event is accepted, its outcome is
        that of this very call, and the second event tells it. */
    method ExecuteStatement(event: Event) returns (ok: bool)
      requires event.state == Started && event.phase == SqlPhase && |executed| == |outcomes|
      modifies `taken, `events, `executed, `sent, `outcomes
      ensures sent == old(sent) + if Decision(old(taken)) == Works then 1 else 0
      ensures sent == old(sent) ==>
        !ok && executed == old(executed) && outcomes == old(outcomes) && Told(events) == Told(old(events))
      ensures sent > old(sent) ==>
        && executed == old(executed) + [event] && outcomes == old(outcomes) + [Decision(old(taken) + 1)]
        && Told(events) == Told(old(events)) + AsTold([event], [Decision(old(taken) + 1)])
        && (ok <==> Decision(old(taken) + 1) == Works && Decision(old(taken) + 2) == Works)
      ensures Reported(events) == Reported(old(events))
      ensures FaultFree() ==> ok
    {
      hide Reported, Told, AsTold;
      ReportedGrows(events, event);
      ok := Emit(event);
      if !ok {
        return;
      }
      sent := sent + 1;
      executed := executed + [event];
      var effect := Decide();
      outcomes := outcomes + [effect];
      var after := event.(state := if effect == Works then Succeeded else Failed);
      ReportedGrows(events, after);
      OneTold(event, effect);
      var logged := Emit(after);
      ok := effect == Works && logged;
    }

    /** Registers or unregisters a file between two events. */
    method RecordVersion(name: string, direction: Direction) returns (ok: bool)
      requires history == stack && AllDistinct(history)
      requires direction == Down ==> |stack| > 0 && name == Top(stack)
      requires !unclear
      modifies `taken, `events, `history, `stack, `version, `completed, `unclear
      ensures completed == old(completed) || completed == old(completed) + [name]
      ensures ok ==> completed == old(completed) + [name]
      ensures completed == old(completed) ==> stack == old(stack) && version == old(version)
      ensures |completed| > |old(completed)| ==>
        stack == After(old(stack), direction, [name]) && version == Top(stack) && !unclear
      ensures !unclear ==> history == stack
      ensures var phase := if direction == Up then RecordApplied else RemoveApplied;
        Announced(old(events), events, Event(name, phase, 0, "", Started), |completed| > |old(completed)|)
      ensures ok ==> |events| == |old(events)| + 2
      ensures Reported(events) == Reported(old(events)) && Told(events) == Told(old(events))
      ensures FaultFree() ==> ok
    {
      hide Reported, Told, Removed, AllDistinct;
      var event := Event(name, if direction == Down then RemoveApplied else RecordApplied, 0, "", Started);
      ReportedGrows(events, event);
      ok := Emit(event);
      if !ok {
        return;
      }
      var effect := Decide();
      var works := effect == Works;
      if effect != Fails {
        if direction == Up {
          history := history + [name];
        } else {
          var rest := Removed(history, name);
          TopRemoved(history);
          works := works && |history| - |rest| == 1;
          history := rest;
        }
      }
      if works {
        stack := if direction == Up then stack + [name] else stack[..|stack| - 1];
        version := Top(stack);
        completed := completed + [name];
      } else {
        unclear := effect != Fails;
      }
      var after := event.(state := if works then Succeeded else Failed);
      ReportedGrows(events, after);
      var logged := Emit(after);
      ok := works && logged;
    }

    method CreateHistory() returns (ok: bool)
      modifies `taken, `events
      ensures Announced(old(events), events, Event("", CreateTable, 0, "", Started), true) ||
        Announced(old(events), events, Event("", CreateTable, 0, "", Started), false)
      ensures ok ==> |events| == |old(events)| + 2
      ensures Reported(events) == Reported(old(events)) && Told(events) == Told(old(events))
      ensures FaultFree() ==> ok
    {
      var event := Event("", CreateTable, 0, "", Started);
      ReportedGrows(events, event);
      ok := Emit(event);
      if !ok {
        return;
      }
      var effect := Decide();
      var after := event.(state := if effect == Works then Succeeded else Failed);
      ReportedGrows(events, after);
      var logged := Emit(after);
      ok := effect == Works && logged;
    }

    method Output() returns (ok: bool)
      modifies `taken, `snapshotUpdated
      ensures ok ==> snapshotUpdated
      ensures FaultFree() ==> ok
    {
      var effect := Decide();
      ok := effect == Works;
      if ok {
        snapshotUpdated := true;
      }
    }

    /** The statements of one file: every one sent worked, but perhaps the last. */
    method RunStatements(step: Step, ghost todo: seq<Event>, ghost start: nat) returns (ok: bool)
      requires start <= |todo| && sent == start && executed == todo[..start] && |outcomes| == start
      requires WorkedUpTo(outcomes, start) && Told(events) == AsTold(executed, outcomes)
      requires start + |step.statements| <= |todo|
      requires todo[start..start + |step.statements|] == StepEvents(step, |step.statements|)
      modifies `taken, `events, `executed, `sent, `outcomes
      ensures start <= sent <= start + |step.statements| && executed == todo[..sent] && |outcomes| == sent
      ensures WorkedUpTo(outcomes, start) && (sent > 0 ==> WorkedUpTo(outcomes, sent - 1))
      ensures Told(events) == AsTold(executed, outcomes)
      ensures ok ==> sent == start + |step.statements| && WorkedUpTo(outcomes, sent)
      ensures Reported(events) == Reported(old(events))
      ensures FaultFree() ==> ok
    {
      hide Reported, Told, AsTold;
      for i := 0 to |step.statements|
        invariant sent == |outcomes| == start + i && executed == todo[..sent] && WorkedUpTo(outcomes, sent)
        invariant Reported(events) == Reported(old(events)) && Told(events) == AsTold(executed, outcomes)
      {
        var event := Event(step.version, SqlPhase, i + 1, step.statements[i], Started);
        assert event == todo[start..start + |step.statements|][i] == todo[start + i];
        ghost var earlier, results, calls := executed, outcomes, taken;
        ok := ExecuteStatement(event);
        ToldOne(earlier, results, event, Decision(calls + 1));
        if !ok {
          return;
        }
      }
      ok := true;
    }

    /** Where a run stands after `c` whole files and perhaps part of the next. */
    ghost predicate Standing(steps: seq<Step>, applied: seq<string>, direction: Direction, c: nat)
      requires c <= |steps|
      reads this
    {
      && sent <= |Todo(steps)| && executed == Todo(steps)[..sent] && |outcomes| == sent
      && WorkedUpTo(outcomes, |Todo(steps[..c])|) && (sent > 0 ==> WorkedUpTo(outcomes, sent - 1))
      && Told(events) == AsTold(executed, outcomes)
      && completed == Versions(steps)[..c]
      && stack == After(applied, direction, completed) && version == Top(stack)
      && (!unclear ==> history == stack)
      && Reported(events) == []
    }

    /** After `c` whole files, with nothing begun. */
    ghost predicate Between(steps: seq<Step>, applied: seq<string>, direction: Direction, c: nat)
      requires c <= |steps|
      reads this
    {
      Standing(steps, applied, direction, c) && sent == |Todo(steps[..c])| && !unclear
    }

    /** One file: its statements, its record, and the snapshot. */
    method RunFile(steps: seq<Step>, applied: seq<string>, direction: Direction,
      index: nat) returns (ok: bool, ghost c: nat)
      requires Fits(steps, applied, direction) && index < |steps| && Between(steps, applied, direction, index)
      modifies this
      ensures index <= c <= index + 1 && Standing(steps, applied, direction, c)
      ensures ok ==> c == index + 1 && Between(steps, applied, direction, c) && snapshotUpdated
      ensures FaultFree() ==> ok
    {
      hide Todo, Reported, Told, AsTold, Top, AllDistinct, Fits, Announced;
      snapshotUpdated := false;
      c := index;
      TodoStep(steps, index);
      TodoPrefix(steps, index + 1);
      ok := RunStatements(steps[index], Todo(steps), sent);
      if !ok {
        return;
      }
      StackReady(steps, applied, direction, index);
      ok := RecordVersion(steps[index].version, direction);
      AfterNext(steps, applied, direction, index);
      c := |completed|;
      if !ok {
        return;
      }
      var effect := Decide();
      if effect != Works {
        return false, c;
      }
      ok := Output();
    }

    method RunPlan(plan: Plan, applied: seq<string>, managed: bool) returns (ok: bool, ghost c: nat)
      requires Idle() && history == applied && version == Top(applied) && Fits(plan.steps, applied, plan.direction)
      modifies this
      ensures c <= |plan.steps| && Standing(plan.steps, applied, plan.direction, c)
      ensures ok ==> c == |plan.steps| && Between(plan.steps, applied, plan.direction, c) && snapshotUpdated
      ensures FaultFree() ==> ok
    {
      hide Todo, Reported, Told, AsTold, Top, Fits, Announced;
      var steps := plan.steps;
      stack := applied;
      c := 0;
      StartStanding(steps, applied, plan.direction);
      var effect := Decide();
      if effect != Works {
        return false, c;
      }
      if |steps| == 0 {
        ok := Output();
        return ok, c;
      }
      if !managed {
        ok := CreateHistory();
        if !ok {
          return;
        }
      }
      hide Runner.Standing;
      for index := 0 to |steps|
        invariant c == index && Between(steps, applied, plan.direction, c)
        invariant c > 0 ==> snapshotUpdated
      {
        ok, c := RunFile(steps, applied, plan.direction, index);
        if !ok {
          return;
        }
      }
      ok := true;
    }

    /** What was planned but not sent is reported, each statement once, even when the listener fails. */
    method ReportUnexecuted(todo: seq<Event>)
      requires sent <= |todo|
      modifies `taken, `events
      ensures Reported(events) == Reported(old(events)) + AsUnexecuted(todo[sent..])
      ensures Told(events) == Told(old(events))
    {
      hide Reported, Told;
      for i := sent to |todo|
        invariant Reported(events) == Reported(old(events)) + AsUnexecuted(todo[sent..i])
        invariant Told(events) == Told(old(events))
      {
        var event := todo[i].(state := Unexecuted);
        ReportedGrows(events, event);
        assert todo[sent..i + 1] == todo[sent..i] + [todo[i]];
        assert AsUnexecuted(todo[sent..i + 1]) == AsUnexecuted(todo[sent..i]) + [event];
        var _ := Emit(event);
      }
      assert todo[sent..|todo|] == todo[sent..];
    }

    /** A whole run. Whatever fails and whenever: what was sent is a prefix of the plan; the completed files are a
        prefix of its versions, and every statement of theirs worked; of all that was sent only the last may have
        failed, and the listener was told how each one ended; the version is the top of the recorded
        history; what was not sent is reported as unexecuted, once each, and nothing else is. A run in which
        nothing fails ends at the planned version. */
    method Apply(migrations: seq<Migration>, tables: nat, managed: bool, direction: Direction, count: int)
      returns (ok: bool, planned: Option<Plan>, ghost c: nat)
      requires Idle() && AllDistinct(history) && (!managed ==> history == [])
      requires forall i, j | 0 <= i < j < |migrations| :: migrations[i].version != migrations[j].version
      modifies this
      ensures planned.None? ==> !ok && executed == [] && events == [] && completed == [] && history == old(history)
      ensures planned.Some? ==>
        && count >= 0 && IsPlan(planned.value, migrations, old(history), managed, direction, count)
        && c <= |planned.value.steps|
        && var steps := planned.value.steps;
        && sent <= |Todo(steps)| && executed == Todo(steps)[..sent]
        && completed == Versions(steps)[..c]
        && |outcomes| == sent && Told(events) == AsTold(executed, outcomes)
        && WorkedUpTo(outcomes, |Todo(steps[..c])|) && (sent > 0 ==> WorkedUpTo(outcomes, sent - 1))
        && version == Top(After(old(history), direction, completed))
        && (!unclear ==> history == After(old(history), direction, completed))
        && Reported(events) == (if ok then [] else AsUnexecuted(Todo(steps)[sent..]))
      ensures ok ==>
        && planned.Some? && c == |planned.value.steps| && sent
          == |Todo(planned.value.steps)| && WorkedUpTo(outcomes, sent)
        && version == planned.value.targetVersion == Top(history) && snapshotUpdated
      ensures FaultFree() && planned.Some? ==> ok
    {
      hide Todo, Reported, Told, AsTold, Top, AllDistinct, IsPlan, After;
      c := 0;
      var effect := Decide();
      if effect != Works {
        return false, None, c;
      }
      var applied := history;
      version := Top(applied);
      var result := BuildPlan(migrations, applied, tables, managed, direction, count);
      if result.Refused? {
        return false, None, c;
      }
      planned := Some(result.plan);
      PlanFits(result.plan, migrations, applied, managed, direction, count);
      ok, c := RunPlan(result.plan, applied, managed);
      if !ok {
        var todo := PlannedEvents(result.plan.steps);
        ReportUnexecuted(todo);
      }
      EndsAtTarget(result.plan, migrations, applied, managed, direction, count);
      assert result.plan.steps[..|result.plan.steps|] == result.plan.steps;
    }
  }

  /** The events of a plan, listed before anything runs. */
  method PlannedEvents(steps: seq<Step>) returns (todo: seq<Event>)
    ensures todo == Todo(steps)
  {
    todo := [];
    for s := 0 to |steps|
      invariant todo == Todo(steps[..s])
    {
      ghost var before := todo;
      for i := 0 to |steps[s].statements|
        invariant todo == before + StepEvents(steps[s], i)
      {
        todo := todo + [Event(steps[s].version, SqlPhase, i + 1, steps[s].statements[i], Started)];
        assert StepEvents(steps[s], i + 1) == StepEvents(steps[s], i) + [StepEvents(steps[s], i + 1)[i]];
      }
      TodoStep(steps, s);
    }
    assert steps[..|steps|] == steps;
  }

  lemma PlanFits(p: Plan, migrations: seq<Migration>, applied: seq<string>, managed: bool,
    direction: Direction, count: nat)
    requires IsPlan(p, migrations, applied, managed, direction, count) && AllDistinct(applied)
    requires forall i, j | 0 <= i < j < |migrations| :: migrations[i].version != migrations[j].version
    ensures p.direction == direction && Fits(p.steps, applied, direction)
  {
    hide Runs;
    var versions := Versions(p.steps);
    if direction == Up {
      PendingDistinct(migrations, applied);
      assert forall i | 0 <= i < |versions| :: versions[i] == Pending(migrations, applied)[i];
      var all := applied + versions;
      forall i, j | 0 <= i < j < |all|
        ensures all[i] != all[j]
      {
        assert j >= |applied| ==> Pending(migrations, applied)[j - |applied|] in Pending(migrations, applied);
      }
    } else {
      forall k | 0 <= k < |p.steps|
        ensures p.steps[k].version == applied[|applied| - 1 - k]
      {
        assert versions[k] == Reversed(applied)[k];
      }
    }
  }

  lemma {:induction false} PendingDistinct(migrations: seq<Migration>, applied: seq<string>)
    requires forall i, j | 0 <= i < j < |migrations| :: migrations[i].version != migrations[j].version
    ensures AllDistinct(Pending(migrations, applied))
    ensures forall v <- Pending(migrations, applied) :: v !in applied
  {
    PendingExact(migrations, applied);
    if |migrations| > 0 {
      var front := migrations[..|migrations| - 1];
      PendingDistinct(front, applied);
      PendingExact(front, applied);
      forall v <- Pending(front, applied)
        ensures v != migrations[|migrations| - 1].version
      {
        var m :| m in front && m.version == v;
        var i :| 0 <= i < |front| && front[i] == m;
        assert migrations[i] == m;
      }
    }
  }

  lemma EndsAtTarget(p: Plan, migrations: seq<Migration>, applied: seq<string>, managed: bool,
    direction: Direction, count: nat)
    requires IsPlan(p, migrations, applied, managed, direction, count)
    ensures Top(After(applied, direction, Versions(p.steps)[..|p.steps|])) == p.targetVersion
  {
    assert Versions(p.steps)[..|p.steps|] == Versions(p.steps);
  }

  lemma OneTold(event: Event, effect: Effect)
    ensures AsTold([event], [effect]) == [event.(state := if effect == Works then Succeeded else Failed)]
  {
  }

  lemma ToldOne(executed: seq<Event>, outcomes: seq<Effect>, event: Event, effect: Effect)
    requires |executed| == |outcomes|
    ensures AsTold(executed + [event], outcomes + [effect]) == AsTold(executed, outcomes) + AsTold([event], [effect])
  {
  }

  lemma StartStanding(steps: seq<Step>, applied: seq<string>, direction: Direction)
    ensures Todo(steps[..0]) == [] && Reported([]) == [] && Told([]) == AsTold([], []) && Versions(steps)[..0] == []
    ensures After(applied, direction, []) == applied
  {
  }

  /** Before file `k` is recorded, the recorded versions are distinct and a reversal finds its file on top. */
  lemma StackReady(steps: seq<Step>, applied: seq<string>, direction: Direction, k: nat)
    requires k < |steps| && Fits(steps, applied, direction)
    ensures var stack := After(applied, direction, Versions(steps)[..k]);
      AllDistinct(stack) && (direction == Down ==> |stack| > 0 && steps[k].version == Top(stack))
  {
    var stack := After(applied, direction, Versions(steps)[..k]);
    if direction == Up {
      assert forall i | 0 <= i < |stack| :: stack[i] == (applied + Versions(steps))[i];
    }
  }

  lemma AfterNext(steps: seq<Step>, applied: seq<string>, direction: Direction, k: nat)
    requires k < |steps| && Fits(steps, applied, direction)
    ensures Versions(steps)[..k + 1] == Versions(steps)[..k] + [steps[k].version]
    ensures After(After(applied, direction, Versions(steps)[..k]), direction, [steps[k].version])
      == After(applied, direction, Versions(steps)[..k + 1])
  {
  }
}
