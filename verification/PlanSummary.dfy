/** Rebuilding the operator tree of an EXPLAIN result from its indentation (orm/plan_summary.go:44-110). */
module PlanSummary {
  import opened SqlValues

  datatype Tree = Node(name: string, children: seq<Tree>)

  // ---- printing with indentation ----

  const CORNER := '\U{2514}'
  const BRANCH := '\U{251C}'
  const DASH := '\U{2500}'
  const BAR := '\U{2502}'

  /** Letters and digits, which start an operator name. */
  predicate IsNameChar(c: char) {
    'a' <= c <= 'z' || 'A' <= c <= 'Z' || '0' <= c <= '9'
  }

  predicate Named(t: Tree) {
    t.name != "" && IsNameChar(t.name[0]) && forall c <- t.children :: Named(c)
  }

  /** The lines of a tree: its own line after `own`, its children's after `prefix`. */
  function Lines(t: Tree, prefix: string, own: string): (ls: seq<string>)
    ensures |ls| > 0
    decreases t, 0
  {
    [own + t.name] + ChildLines(t.children, prefix)
  }

  /** The last child gets a corner and nothing below it, the others a branch and a bar. */
  function ChildLines(ts: seq<Tree>, prefix: string): seq<string>
    decreases ts, 1
  {
    if |ts| == 0 then []
    else
      Lines(ts[0], prefix + [if |ts| == 1 then ' ' else BAR, ' '],
        prefix + [if |ts| == 1 then CORNER else BRANCH, DASH])
      + ChildLines(ts[1..], prefix)
  }

  function Printed(t: Tree): seq<string> {
    Lines(t, "", "")
  }

  /** A join over a selection and a reader, as the server prints it. */
  lemma PrintedExample()
    ensures var plan := Node("Join_9", [Node("Selection_4", [Node("TableReader_3", [])]), Node("IndexLookUp_7", [])]);
      Printed(plan) == ["Join_9", "\U{251C}\U{2500}Selection_4", "\U{2502} \U{2514}\U{2500}TableReader_3",
                        "\U{2514}\U{2500}IndexLookUp_7"]
  {
    var reader, lookup := Node("TableReader_3", []), Node("IndexLookUp_7", []);
    var selection := Node("Selection_4", [reader]);
    assert [selection, lookup][1..] == [lookup] && [lookup][1..] == [] && [reader][1..] == [];
    LineOf(lookup, "");
    LineOf(reader, "\U{2502} ");
    assert "" + [BAR, ' '] == "\U{2502} ";
    assert "" + [CORNER, DASH] + lookup.name == "\U{2514}\U{2500}IndexLookUp_7";
    assert "\U{2502} " + [CORNER, DASH] + reader.name == "\U{2502} \U{2514}\U{2500}TableReader_3";
    assert "" + [BRANCH, DASH] + selection.name == "\U{251C}\U{2500}Selection_4";
    assert Lines(selection, "" + [BAR, ' '], "" + [BRANCH, DASH])
        == ["" + [BRANCH, DASH] + selection.name] + ChildLines([reader], "" + [BAR, ' ']);
    assert "" + "Join_9" == "Join_9";
  }

  lemma LineOf(leaf: Tree, prefix: string)
    requires leaf.children == []
    ensures ChildLines([leaf], prefix) == [prefix + [CORNER, DASH] + leaf.name]
  {
    assert [leaf][1..] == [] && ChildLines([], prefix) == [] && ChildLines([], prefix + [' ', ' ']) == [];
    assert Lines(leaf, prefix + [' ', ' '], prefix + [CORNER, DASH]) == [prefix + [CORNER, DASH] + leaf.name] + [];
  }

  // ---- depths in preorder ----

  function Depths(t: Tree, d: nat): (ds: seq<nat>)
    ensures |ds| > 0
    decreases t, 0
  {
    [d] + ChildDepths(t.children, d + 1)
  }

  function ChildDepths(ts: seq<Tree>, d: nat): seq<nat>
    decreases ts, 1
  {
    if |ts| == 0 then [] else Depths(ts[0], d) + ChildDepths(ts[1..], d)
  }

  /** The position of the parent of every node of a subtree that starts at position `at`. */
  function Parents(t: Tree, at: nat, parent: int): (ps: seq<int>)
    ensures |ps| == |Depths(t, 0)|
    decreases t, 0
  {
    SameSize(t, 0, 0);
    ChildSameSize(t.children, 1, 0);
    [parent] + ChildParents(t.children, at + 1, at)
  }

  function ChildParents(ts: seq<Tree>, at: nat, parent: int): (ps: seq<int>)
    ensures |ps| == |ChildDepths(ts, 0)|
    decreases ts, 1
  {
    if |ts| == 0 then []
    else Parents(ts[0], at, parent) + ChildParents(ts[1..], at + |Depths(ts[0], 0)|, parent)
  }

  lemma {:induction false} SameSize(t: Tree, d: nat, e: nat)
    ensures |Depths(t, d)| == |Depths(t, e)|
    decreases t, 0
  {
    ChildSameSize(t.children, d + 1, e + 1);
  }

  lemma {:induction false} ChildSameSize(ts: seq<Tree>, d: nat, e: nat)
    ensures |ChildDepths(ts, d)| == |ChildDepths(ts, e)|
    decreases ts, 1
  {
    if |ts| > 0 {
      SameSize(ts[0], d, e);
      ChildSameSize(ts[1..], d, e);
    }
  }

  // ---- reading one line ----

  function NameStart(line: string): (n: nat)
    ensures n <= |line| && forall i | 0 <= i < n :: !IsNameChar(line[i])
    ensures n < |line| ==> 'a' <= line[n] <= 'z' || 'A' <= line[n] <= 'Z' || '0' <= line[n] <= '9'
  {
    if line == "" || IsNameChar(line[0]) then 0 else 1 + NameStart(line[1..])
  }

  /** Indentation: pairs of a blank or a bar and a blank. */
  predicate Indentation(s: string) {
    |s| % 2 == 0 && forall i | 0 <= i < |s| / 2 :: (s[2 * i] == ' ' || s[2 * i] == BAR) && s[2 * i + 1] == ' '
  }

  predicate Prefixed(s: string) {
    |s| >= 2 && |s| % 2 == 0 && s[|s| - 1] == DASH && (s[|s| - 2] == CORNER || s[|s| - 2] == BRANCH)
      && Indentation(s[..|s| - 2])
  }

  method PlanTreeDepth(id: string) returns (depth: Option<nat>)
    ensures depth == DepthOf(id)
  {
    var start := NameStart(id);
    if start == |id| {
      return None;
    }
    var prefix := id[..start];
    if |prefix| == 0 {
      return Some(0);
    }
    if |prefix| % 2 != 0 || |prefix| < 2 || prefix[|prefix| - 1] != DASH ||
        (prefix[|prefix| - 2] != CORNER && prefix[|prefix| - 2] != BRANCH) {
      return None;
    }
    var i := 0;
    while i < |prefix| / 2 - 1
      invariant 0 <= i <= |prefix| / 2 - 1
      invariant forall k | 0 <= k < i :: (prefix[2 * k] == ' ' || prefix[2 * k] == BAR) && prefix[2 * k + 1] == ' '
    {
      if (prefix[2 * i] != ' ' && prefix[2 * i] != BAR) || prefix[2 * i + 1] != ' ' {
        assert prefix[..|prefix| - 2][2 * i] == prefix[2 * i] && prefix[..|prefix| - 2][2 * i + 1] == prefix[2 * i + 1];
        return None;
      }
      i := i + 1;
    }
    forall k | 0 <= k < |prefix| / 2 - 1
      ensures prefix[..|prefix| - 2][2 * k] == prefix[2 * k] && prefix[..|prefix| - 2][2 * k + 1] == prefix[2 * k + 1]
    {
    }
    depth := Some(|prefix| / 2);
  }

  function DepthOf(id: string): Option<nat> {
    var start := NameStart(id);
    if start == |id| then None
    else if start == 0 then Some(0)
    else if Prefixed(id[..start]) then Some(start / 2)
    else None
  }

  lemma {:induction false} NameStartsAfter(own: string, name: string)
    requires name != "" && IsNameChar(name[0]) && forall c <- own :: !IsNameChar(c)
    ensures NameStart(own + name) == |own|
  {
    var line := own + name;
    assert forall i | 0 <= i < |own| :: line[i] == own[i] && own[i] in own;
    assert line[|own|] == name[0];
  }

  lemma IndentationGrows(prefix: string, c: char)
    requires Indentation(prefix) && (c == ' ' || c == BAR)
    ensures Indentation(prefix + [c, ' '])
  {
    var s := prefix + [c, ' '];
    forall i | 0 <= i < |s| / 2
      ensures (s[2 * i] == ' ' || s[2 * i] == BAR) && s[2 * i + 1] == ' '
    {
      if i < |prefix| / 2 {
        assert s[2 * i] == prefix[2 * i] && s[2 * i + 1] == prefix[2 * i + 1];
      }
    }
  }

  lemma IndentationHasNoName(s: string)
    requires Indentation(s)
    ensures forall c <- s :: !IsNameChar(c)
  {
    forall i | 0 <= i < |s|
      ensures !IsNameChar(s[i])
    {
      assert s[2 * (i / 2)] == ' ' || s[2 * (i / 2)] == BAR;
      assert s[2 * (i / 2) + 1] == ' ';
    }
  }

  /** A child's line has the depth of its indentation. */
  lemma LineDepth(prefix: string, last: bool, name: string)
    requires Indentation(prefix) && name != "" && IsNameChar(name[0])
    ensures DepthOf(prefix + [if last then CORNER else BRANCH, DASH] + name) == Some(|prefix| / 2 + 1)
  {
    var own := prefix + [if last then CORNER else BRANCH, DASH];
    IndentationHasNoName(prefix);
    NameStartsAfter(own, name);
    assert (own + name)[..|own|] == own && own[..|own| - 2] == prefix;
  }

  ghost predicate ReadsAs(lines: seq<string>, depths: seq<nat>) {
    |lines| == |depths| && forall i | 0 <= i < |lines| :: DepthOf(lines[i]) == Some(depths[i])
  }

  /** Reading the printed lines gives the depths in preorder. */
  lemma {:induction false} ChildLinesRead(ts: seq<Tree>, prefix: string)
    requires Indentation(prefix) && forall t <- ts :: Named(t)
    ensures ReadsAs(ChildLines(ts, prefix), ChildDepths(ts, |prefix| / 2 + 1))
    decreases ts
  {
    hide DepthOf, Indentation, ReadsAs;
    if |ts| == 0 {
      NothingReads();
    } else {
      var last := |ts| == 1;
      var t, inner := ts[0], prefix + [if last then ' ' else BAR, ' '];
      assert t in ts && forall c <- ts[1..] :: c in ts;
      LineDepth(prefix, last, t.name);
      IndentationGrows(prefix, if last then ' ' else BAR);
      ChildLinesRead(t.children, inner);
      ChildLinesRead(ts[1..], prefix);
      var own := prefix + [if last then CORNER else BRANCH, DASH];
      ReadsTogether(own + t.name, |prefix| / 2
        + 1, ChildLines(t.children, inner), ChildDepths(t.children, |inner| / 2 + 1),
        ChildLines(ts[1..], prefix), ChildDepths(ts[1..], |prefix| / 2 + 1));
      assert |inner| / 2 == |prefix| / 2 + 1;
    }
  }

  lemma NothingReads()
    ensures ReadsAs([], [])
  {
  }

  lemma ReadsTogether(line: string, d: nat, a: seq<string>, ad: seq<nat>, b: seq<string>, bd: seq<nat>)
    requires DepthOf(line) == Some(d) && ReadsAs(a, ad) && ReadsAs(b, bd)
    ensures ReadsAs([line] + a + b, [d] + ad + bd)
  {
    hide DepthOf;
  }

  lemma PrintedReads(t: Tree)
    requires Named(t)
    ensures ReadsAs(Printed(t), Depths(t, 0))
  {
    hide DepthOf;
    ChildLinesRead(t.children, "");
    NameStartsAfter("", t.name);
    assert "" + t.name == t.name;
    RootReads(t.name);
    NothingReads();
    ReadsTogether(t.name, 0, ChildLines(t.children, ""), ChildDepths(t.children, 1), [], []);
    assert [t.name] + ChildLines(t.children, "") + [] == Printed(t);
    assert [0] + ChildDepths(t.children, 1) + [] == Depths(t, 0);
  }

  lemma RootReads(name: string)
    requires name != "" && IsNameChar(name[0])
    ensures DepthOf(name) == Some(0)
  {
  }

  // ---- which depth sequences are trees ----

  /** Starts at depth `d` and never goes above it; goes down one level at a time. */
  predicate Steps(ds: seq<nat>, d: nat) {
    && (|ds| > 0 ==> ds[0] == d) && (forall i | 0 <= i < |ds| :: ds[i] >= d)
    && forall i | 0 < i < |ds| :: ds[i] <= ds[i - 1] + 1
  }

  /** The condition the summary checks: one root first, every other line one level at most below the line above. */
  predicate SingleRooted(ds: seq<nat>) {
    |ds| > 0 && ds[0] == 0 && forall i | 0 < i < |ds| :: 0 < ds[i] <= ds[i - 1] + 1
  }

  lemma {:induction false} DepthsStep(t: Tree, d: nat)
    ensures Steps(Depths(t, d), d) && forall i | 0 < i < |Depths(t, d)| :: Depths(t, d)[i] > d
    decreases t, 0
  {
    ChildDepthsStep(t.children, d + 1);
  }

  lemma {:induction false} ChildDepthsStep(ts: seq<Tree>, d: nat)
    ensures Steps(ChildDepths(ts, d), d)
    decreases ts, 1
  {
    hide Depths;
    if |ts| > 0 {
      DepthsStep(ts[0], d);
      ChildDepthsStep(ts[1..], d);
    }
  }

  /** Where the next subtree at depth `d` starts. */
  function NextAt(ds: seq<nat>, d: nat, from: nat): (n: nat)
    requires from <= |ds|
    ensures from <= n <= |ds| && (n < |ds| ==> ds[n] <= d) && forall i | from <= i < n :: ds[i] > d
    decreases |ds| - from
  {
    if from == |ds| || ds[from] <= d then from else NextAt(ds, d, from + 1)
  }

  function Forest(ds: seq<nat>, d: nat): seq<Tree>
    requires Steps(ds, d)
    decreases |ds|
  {
    if |ds| == 0 then []
    else
      var n := NextAt(ds, d, 1);
      assert n > 1 ==> ds[1] == d + 1;
      [Node("", Forest(ds[1..n], d + 1))] + Forest(ds[n..], d)
  }

  lemma {:induction false} ForestDepths(ds: seq<nat>, d: nat)
    requires Steps(ds, d)
    ensures ChildDepths(Forest(ds, d), d) == ds
    decreases |ds|
  {
    hide ChildDepths, Depths, Forest, Steps;
    NoDepths(d);
    ForestUnfolds(ds, d);
    if |ds| > 0 {
      var n := NextAt(ds, d, 1);
      ForestDepths(ds[1..n], d + 1);
      ForestDepths(ds[n..], d);
      FirstDepths(Forest(ds[1..n], d + 1), Forest(ds[n..], d), d);
      assert ds == [d] + ds[1..n] + ds[n..];
    }
  }

  lemma ForestUnfolds(ds: seq<nat>, d: nat)
    requires Steps(ds, d)
    ensures |ds| == 0 ==> Forest(ds, d) == []
    ensures |ds| > 0 ==>
      var n := NextAt(ds, d, 1);
      && n <= |ds| && ds[0] == d && Steps(ds[1..n], d + 1) && Steps(ds[n..], d)
      && Forest(ds, d) == [Node("", Forest(ds[1..n], d + 1))] + Forest(ds[n..], d)
  {
    if |ds| > 0 {
      assert NextAt(ds, d, 1) > 1 ==> ds[1] == d + 1;
    }
  }

  lemma NoDepths(d: nat)
    ensures ChildDepths([], d) == []
  {
  }

  lemma FirstDepths(inner: seq<Tree>, rest: seq<Tree>, d: nat)
    ensures ChildDepths([Node("", inner)] + rest, d) == [d] + ChildDepths(inner, d + 1) + ChildDepths(rest, d)
  {
    var ts := [Node("", inner)] + rest;
    assert ts[1..] == rest;
    assert Depths(ts[0], d) == [d] + ChildDepths(inner, d + 1);
  }

  lemma TreeIsSingleRooted(t: Tree)
    ensures SingleRooted(Depths(t, 0))
  {
    hide Depths;
    DepthsStep(t, 0);
  }

  lemma SingleRootedIsTree(ds: seq<nat>)
    requires SingleRooted(ds)
    ensures exists t :: Depths(t, 0) == ds
  {
    hide ChildDepths;
    assert Steps(ds[1..], 1);
    ForestDepths(ds[1..], 1);
    var t := Node("", Forest(ds[1..], 1));
    assert Depths(t, 0) == [0] + ds[1..] == ds;
  }

  /** A depth sequence is accepted exactly when it is the preorder of some single-rooted tree. */
  lemma AcceptedIffTree(ds: seq<nat>)
    ensures SingleRooted(ds) <==> exists t :: Depths(t, 0) == ds
  {
    hide Depths, SingleRooted;
    if SingleRooted(ds) {
      SingleRootedIsTree(ds);
    }
    if t :| Depths(t, 0) == ds {
      TreeIsSingleRooted(t);
    }
  }

  // ---- which line is whose parent ----

  /** The last position before `n` with depth `d`, or -1. */
  function LastAt(ds: seq<nat>, n: nat, d: int): (j: int)
    requires n <= |ds|
    ensures -1 <= j < n && (j >= 0 ==> ds[j] == d) && forall i | j < i < n :: ds[i] != d
  {
    if n == 0 then -1 else if ds[n - 1] == d then n - 1 else LastAt(ds, n - 1, d)
  }

  function ParentAt(ds: seq<nat>, i: nat): int
    requires i < |ds|
  {
    LastAt(ds, i, ds[i] as int - 1)
  }

  lemma {:induction false} LastIs(ds: seq<nat>, n: nat, d: int, j: nat)
    requires j < n <= |ds| && ds[j] == d && forall i | j < i < n :: ds[i] != d
    ensures LastAt(ds, n, d) == j
  {
  }

  /** The true parents are the last shallower lines, subtree by subtree. */
  lemma {:induction false} TrueParents(ds: seq<nat>, t: Tree, d: nat, at: nat)
    requires at + |Depths(t, d)| <= |ds| && ds[at..at + |Depths(t, d)|] == Depths(t, d)
    ensures |Parents(t, at, LastAt(ds, at, d as int - 1))| == |Depths(t, d)|
    ensures forall k | at <= k < at + |Depths(t, d)| :: Parents(t, at,
      LastAt(ds, at, d as int - 1))[k - at] == ParentAt(ds, k)
    decreases t, 0
  {
    hide ChildParents, ChildDepths, LastAt;
    var whole := Depths(t, d);
    SameSize(t, d, 0);
    var inner := ChildDepths(t.children, d + 1);
    assert inner == whole[1..];
    assert ds[at] == whole[0] == d;
    assert ds[at + 1..at + 1 + |inner|] == inner by {
      assert ds[at..at + |whole|][1..] == ds[at + 1..at + |whole|];
    }
    TrueChildParents(ds, t.children, d + 1, at + 1, at);
    ParentsAre(t, at, LastAt(ds, at, d as int - 1));
    var ps := Parents(t, at, LastAt(ds, at, d as int - 1));
    forall k | at <= k < at + |whole|
      ensures ps[k - at] == ParentAt(ds, k)
    {
      if k > at {
        assert ps[k - at] == ChildParents(t.children, at + 1, at)[k - (at + 1)];
      }
    }
  }

  lemma ParentsAre(t: Tree, at: nat, parent: int)
    ensures Parents(t, at, parent) == [parent] + ChildParents(t.children, at + 1, at)
  {
  }

  lemma {:induction false} TrueChildParents(ds: seq<nat>, ts: seq<Tree>, d: nat, at: nat, parent: nat)
    requires d > 0 && parent < at && ds != [] && parent < |ds| && ds[parent] == d - 1
    requires at + |ChildDepths(ts, d)| <= |ds| && ds[at..at + |ChildDepths(ts, d)|] == ChildDepths(ts, d)
    requires forall i | parent < i < at :: ds[i] >= d
    ensures |ChildParents(ts, at, parent)| == |ChildDepths(ts, d)|
    ensures forall k | at <= k < at + |ChildDepths(ts, d)| :: ChildParents(ts, at, parent)[k - at] == ParentAt(ds, k)
    decreases ts, 1
  {
    hide LastAt, Parents, Depths;
    ChildSameSize(ts, d, 0);
    if |ts| > 0 {
      var first, rest := Depths(ts[0], d), ChildDepths(ts[1..], d);
      var whole := ChildDepths(ts, d);
      assert whole == first + rest;
      assert ds[at..at + |first|] == first by {
        assert ds[at..at + |whole|][..|first|] == ds[at..at + |first|];
      }
      LastIs(ds, at, d as int - 1, parent);
      TrueParents(ds, ts[0], d, at);
      SameSize(ts[0], d, 0);
      var next := at + |first|;
      assert ds[next..next + |rest|] == rest by {
        assert ds[at..at + |whole|][|first|..] == ds[next..next + |rest|];
      }
      DepthsStep(ts[0], d);
      forall i | parent < i < next
        ensures ds[i] >= d
      {
        assert i >= at ==> ds[i] == first[i - at];
      }
      TrueChildParents(ds, ts[1..], d, next, parent);
      var ps := ChildParents(ts, at, parent);
      assert ps == Parents(ts[0], at, parent) + ChildParents(ts[1..], next, parent);
      forall k | at <= k < at + |whole|
        ensures ps[k - at] == ParentAt(ds, k)
      {
        assert k >= next ==> ps[k - at] == ChildParents(ts[1..], next, parent)[k - next];
      }
    }
  }

  // ---- the summary ----

  datatype Summary = Summary(treeKnown: bool, parents: seq<int>, children: seq<seq<nat>>)

  /** The positions whose parent is `p`, in order. */
  function ChildrenOf(parents: seq<int>, n: nat, p: int): seq<nat>
    requires n <= |parents|
  {
    if n == 0 then [] else ChildrenOf(parents, n - 1, p) + if parents[n - 1] == p then [n - 1] else []
  }

  /** Reads the lines of a plan: the tree is known exactly when each line has a depth and the depths form one
      tree; then every line has its parent, and every operator its children in order. */
  method SummarizeReadPlan(ids: seq<string>) returns (s: Summary)
    ensures s.treeKnown <==> exists ds :: ReadsAs(ids, ds) && SingleRooted(ds)
    ensures s.treeKnown ==> exists ds ::
      && ReadsAs(ids, ds) && |s.parents| == |s.children| == |ids|
      && (forall i | 0 <= i < |ids| :: s.parents[i] == ParentAt(ds, i))
      && (forall p | 0 <= p < |ids| :: s.children[p] == ChildrenOf(s.parents, |ids|, p))
  {
    hide DepthOf, LastAt, ReadsAs, SingleRooted;
    NothingReads();
    NoLines(ids);
    var unknown := Summary(false, [], []);
    if |ids| == 0 {
      return unknown;
    }
    var parents: seq<int>, stack: seq<nat>, depths: seq<nat> := [], [], [];
    for i := 0 to |ids|
      invariant |parents| == |depths| == i && ReadsAs(ids[..i], depths)
      invariant i > 0 ==> SingleRooted(depths)
      invariant |stack| == if i == 0 then 0 else depths[i - 1] + 1
      invariant forall k | 0 <= k < |stack| :: stack[k] == LastAt(depths, i, k)
      invariant forall k | 0 <= k < i :: -1 <= parents[k] < k && parents[k] == ParentAt(depths, k)
    {
      var depth := PlanTreeDepth(ids[i]);
      if depth.None? || (i == 0 && depth.value != 0) || (i != 0 && (depth.value == 0 || depth.value > |stack|)) {
        NotATree(ids, i, depths);
        return unknown;
      }
      var parent: int := -1;
      if depth.value != 0 {
        parent := stack[depth.value - 1];
      }
      DepthAdded(ids, i, depths, depth.value);
      ParentAdded(depths, depth.value);
      depths := depths + [depth.value];
      parents := parents + [parent];
      stack := stack[..depth.value] + [i];
    }
    assert ids[..|ids|] == ids;
    var children := AppendChildren(parents);
    s := Summary(true, parents, children);
  }

  lemma {:induction false} SameLast(ds: seq<nat>, more: nat, n: nat, d: int)
    requires n <= |ds|
    ensures LastAt(ds + [more], n, d) == LastAt(ds, n, d)
  {
    if n > 0 {
      SameLast(ds, more, n - 1, d);
    }
  }

  lemma ParentAdded(ds: seq<nat>, d: nat)
    ensures forall k | 0 <= k < |ds| :: ParentAt(ds + [d], k) == ParentAt(ds, k)
    ensures ParentAt(ds + [d], |ds|) == LastAt(ds, |ds|, d as int - 1)
    ensures d == 0 ==> LastAt(ds, |ds|, d as int - 1) == -1
    ensures forall k: nat | k < d :: LastAt(ds + [d], |ds| + 1, k) == LastAt(ds, |ds|, k)
    ensures LastAt(ds + [d], |ds| + 1, d) == |ds|
  {
    hide LastAt;
    forall k | 0 <= k < |ds|
      ensures ParentAt(ds + [d], k) == ParentAt(ds, k)
    {
      SameLast(ds, d, k, ds[k] as int - 1);
    }
    SameLast(ds, d, |ds|, d as int - 1);
    forall k: nat | k < d
      ensures LastAt(ds + [d], |ds| + 1, k) == LastAt(ds, |ds|, k)
    {
      SameLast(ds, d, |ds|, k);
      OtherLast(ds, d, k);
    }
    LastIs(ds + [d], |ds| + 1, d, |ds|);
  }

  lemma OtherLast(ds: seq<nat>, d: nat, k: nat)
    requires k < d
    ensures LastAt(ds + [d], |ds| + 1, k) == LastAt(ds + [d], |ds|, k)
  {
  }

  lemma DepthAdded(ids: seq<string>, i: nat, ds: seq<nat>, d: nat)
    requires i < |ids| && ReadsAs(ids[..i], ds) && DepthOf(ids[i]) == Some(d)
    requires if i == 0 then d == 0 else SingleRooted(ds) && 0 < d <= ds[i - 1] + 1
    ensures ReadsAs(ids[..i + 1], ds + [d]) && SingleRooted(ds + [d])
  {
    hide DepthOf;
  }

  lemma NotATree(ids: seq<string>, i: nat, ds: seq<nat>)
    requires i < |ids| && ReadsAs(ids[..i], ds)
    requires DepthOf(ids[i]).None? || (if i == 0 then DepthOf(ids[i]).value != 0
      else DepthOf(ids[i]).value == 0 || DepthOf(ids[i]).value > ds[i - 1] + 1)
    ensures forall all :: ReadsAs(ids, all) ==> !SingleRooted(all)
  {
    hide DepthOf;
    forall all | ReadsAs(ids, all)
      ensures !SingleRooted(all)
    {
      assert DepthOf(ids[i]) == Some(all[i]);
      assert i > 0 ==> DepthOf(ids[..i][i - 1]) == Some(ds[i - 1]) == Some(all[i - 1]);
    }
  }

  lemma NoLines(ids: seq<string>)
    ensures |ids| == 0 ==> forall ds :: ReadsAs(ids, ds) ==> !SingleRooted(ds)
    ensures ids[..0] == []
  {
  }

  method AppendChildren(parents: seq<int>) returns (children: seq<seq<nat>>)
    requires forall k | 0 <= k < |parents| :: -1 <= parents[k] < k
    ensures |children| == |parents| && forall p | 0 <= p < |parents| :: children[p] == ChildrenOf(parents, |parents|, p)
  {
    children := seq(|parents|, _ => []);
    for i := 0 to |parents|
      invariant |children| == |parents| && forall p | 0 <= p < |parents| :: children[p] == ChildrenOf(parents, i, p)
    {
      if parents[i] >= 0 {
        children := children[parents[i] := children[parents[i]] + [i]];
      }
    }
  }

  /** The summary of a printed tree: every node's parent is the node it was printed under. */
  lemma SummaryRecoversTree(t: Tree, ds: seq<nat>)
    requires Named(t) && ReadsAs(Printed(t), ds)
    ensures ds == Depths(t, 0) && SingleRooted(ds)
    ensures |Parents(t, 0, -1)| == |ds| && forall i | 0 <= i < |ds| :: ParentAt(ds, i) == Parents(t, 0, -1)[i]
  {
    hide DepthOf;
    PrintedReads(t);
    assert forall i | 0 <= i < |ds| :: Some(ds[i]) == DepthOf(Printed(t)[i]) == Some(Depths(t, 0)[i]);
    DepthsStep(t, 0);
    assert ds[0..0 + |ds|] == ds;
    TrueParents(ds, t, 0, 0);
  }
}
