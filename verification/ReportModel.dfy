/**
  What the report operations compute, over two snapshots of a set of reports: a `Tree` with the
  links and weights, and the `Values` with everything that changes while work is reported.
 */
module ReportModel {
  import opened Wrappers
  import opened ReportTypes

  type Id = ExecutionReportData

  datatype Links = Links(parent: Option<Id>, subs: seq<Id>, weight: nat, depth: nat)

  datatype Vals = Vals(
    status: ExecutionStatus, progress: Progress, warning: bool, error: bool, seen: seq<ExecutionEvent>)

  type Tree = map<Id, Links>
  type Values = map<Id, Vals>

  /** A report's links agree with those of its parent and of its sub reports. */
  ghost predicate Linked(t: Tree, h: nat, x: Id)
    requires x in t
  {
    && t[x].depth <= h
    && (t[x].parent.Some? ==>
          && t[x].parent.value in t && x in t[t[x].parent.value].subs
          && t[x].depth == t[t[x].parent.value].depth + 1)
    && (forall c | c in t[x].subs :: c in t && t[c].parent == Some(x) && t[c].depth == t[x].depth + 1)
    && (forall i, j | 0 <= i < j < |t[x].subs| :: t[x].subs[i] != t[x].subs[j])
  }

  /** All links agree, so nothing is its own ancestor, and no depth exceeds `h`. */
  ghost predicate Forest(t: Tree, h: nat) {
    forall x {:trigger Linked(t, h, x)} | x in t :: Linked(t, h, x)
  }

  /** The parent a report has. */
  ghost function Up(t: Tree, h: nat, x: Id): (p: Id)
    requires Forest(t, h) && x in t && t[x].parent.Some?
    ensures p in t && t[x].parent == Some(p) && x in t[p].subs && t[x].depth == t[p].depth + 1
  {
    assert Linked(t, h, x);
    t[x].parent.value
  }

  /** The sub reports a report has. */
  ghost function Subs(t: Tree, h: nat, x: Id): (s: seq<Id>)
    requires Forest(t, h) && x in t
    ensures s == t[x].subs
    ensures forall c | c in s :: c in t && t[c].parent == Some(x) && t[c].depth == t[x].depth + 1 <= h
  {
    assert Linked(t, h, x);
    assert forall c | c in t[x].subs :: Linked(t, h, c);
    t[x].subs
  }

  /** These are sub reports of the report. */
  ghost predicate Among(t: Tree, h: nat, x: Id, subs: seq<Id>)
    requires Forest(t, h) && x in t
  {
    forall i | 0 <= i < |subs| :: subs[i] in Subs(t, h, x)
  }

  ghost predicate Fits(t: Tree, h: nat, m: Values) {
    Forest(t, h) && m.Keys == t.Keys
  }

  /** `a` is `x` itself or one of its ancestors. */
  ghost predicate Above(t: Tree, h: nat, a: Id, x: Id)
    requires Forest(t, h) && x in t
    decreases t[x].depth
  {
    a == x || (t[x].parent.Some? && Above(t, h, a, Up(t, h, x)))
  }

  lemma {:induction false} AboveIsHigher(t: Tree, h: nat, a: Id, x: Id)
    requires Forest(t, h) && x in t && Above(t, h, a, x)
    ensures a in t && t[a].depth <= t[x].depth && (a != x ==> t[a].depth < t[x].depth)
    decreases t[x].depth
  {
    if a != x {
      AboveIsHigher(t, h, a, Up(t, h, x));
    }
  }

  lemma {:induction false} AboveIsTransitive(t: Tree, h: nat, a: Id, b: Id, x: Id)
    requires Forest(t, h) && x in t && b in t && Above(t, h, a, b) && Above(t, h, b, x)
    ensures Above(t, h, a, x)
    decreases t[x].depth
  {
    if b != x {
      AboveIsTransitive(t, h, a, b, Up(t, h, x));
    }
  }

  // ---------- building ----------

  /** The depth a report gets when the tree under `c` is hung under `x`. */
  ghost function ShiftedDepth(t: Tree, h: nat, x: Id, c: Id, y: Id): nat
    requires Forest(t, h) && x in t && c in t && y in t
  {
    if Above(t, h, c, y) then
      AboveIsHigher(t, h, c, y);
      t[y].depth - t[c].depth + t[x].depth + 1
    else t[y].depth
  }

  ghost function Added(t: Tree, h: nat, x: Id, c: Id): Tree
    requires Forest(t, h) && x in t && c in t
  {
    map y | y in t :: Links(
      if y == c then Some(x) else t[y].parent,
      if y == x then t[x].subs + [c] else t[y].subs,
      t[y].weight,
      ShiftedDepth(t, h, x, c, y))
  }

  /** Hanging a parentless report under one that is not below it keeps the forest well built. */
  lemma {:induction false} AddedIsForest(t: Tree, h: nat, x: Id, c: Id)
    requires Forest(t, h) && x in t && c in t && t[c].parent.None? && !Above(t, h, c, x)
    ensures Forest(Added(t, h, x, c), 2 * h + 1)
  {
    var after := Added(t, h, x, c);
    forall y | y in t ensures Linked(after, 2 * h + 1, y) {
      assert Linked(t, h, y) && Linked(t, h, x) && Linked(t, h, c);
      if t[y].parent.Some? {
        assert Above(t, h, c, y) <==> y == c || Above(t, h, c, Up(t, h, y));
      }
      forall s | s in Subs(t, h, y) ensures s != c && (Above(t, h, c, s) <==> Above(t, h, c, y)) {
        assert Up(t, h, s) == y;
      }
    }
  }

  /** The links as adding `c` to the sub reports of `x` leaves them, whatever depths they are given. */
  ghost predicate Relinked(t: Tree, after: Tree, x: Id, c: Id) {
    && after.Keys == t.Keys
    && forall y | y in t ::
         && after[y].parent == (if y == c then Some(x) else t[y].parent)
         && after[y].subs == (if y == x then t[y].subs + [c] else t[y].subs)
  }

  /** Conversely, the links are well built afterwards only if the report added had no parent and is not above. */
  lemma {:induction false} AddedIsForestOnlyIf(t: Tree, h: nat, x: Id, c: Id, after: Tree, k: nat)
    requires Forest(t, h) && x in t && c in t && Relinked(t, after, x, c) && Forest(after, k)
    ensures t[c].parent.None? && !Above(t, h, c, x)
  {
    if t[c].parent.Some? {
      ListedTwice(t, after, k, x, c, Up(t, h, c));
    } else if Above(t, h, c, x) {
      RelinkedDepth(t, h, x, c, after, k, x);
      TooDeep(t, after, k, x, c);
    }
  }

  lemma {:induction false} ListedTwice(t: Tree, after: Tree, k: nat, x: Id, c: Id, p: Id)
    requires Relinked(t, after, x, c) && x in t && c in t && p in t && c in t[p].subs
    ensures !Linked(after, k, p)
  {
    var i :| 0 <= i < |t[p].subs| && t[p].subs[i] == c;
    assert after[p].subs[i] == c;
    if p == x {
      assert after[p].subs[|t[p].subs|] == c;
    }
  }

  lemma {:induction false} TooDeep(t: Tree, after: Tree, k: nat, x: Id, c: Id)
    requires Relinked(t, after, x, c) && x in t && c in t && after[c].depth <= after[x].depth
    ensures !Linked(after, k, c)
  {
  }

  lemma {:induction false} RelinkedDepth(t: Tree, h: nat, x: Id, c: Id, after: Tree, k: nat, y: Id)
    requires Forest(t, h) && x in t && c in t && Relinked(t, after, x, c) && Forest(after, k)
    requires y in t && Above(t, h, c, y)
    ensures after[c].depth <= after[y].depth
    decreases t[y].depth
  {
    if y != c {
      RelinkedDepth(t, h, x, c, after, k, Up(t, h, y));
      assert Linked(after, k, y);
    }
  }

  /** An event reaches the observers of its origin and of every ancestor, once each. */
  ghost function Notify(t: Tree, h: nat, m: Values, origin: Id, kind: ExecutionEventType): (r: Values)
    requires Fits(t, h, m) && origin in t
    ensures r.Keys == m.Keys
  {
    map x | x in m :: if Above(t, h, x, origin) then m[x].(seen := m[x].seen + [ExecutionEvent(origin, kind)]) else m[x]
  }

  // ---------- progress ----------

  ghost function TotalWeight(t: Tree, subs: seq<Id>): nat
    requires forall c | c in subs :: c in t
  {
    if subs == [] then 0 else t[subs[0]].weight + TotalWeight(t, subs[1..])
  }

  ghost function TotalProgress(t: Tree, m: Values, subs: seq<Id>): nat
    requires forall c | c in subs :: c in t && c in m
  {
    if subs == [] then 0 else m[subs[0]].progress * t[subs[0]].weight + TotalProgress(t, m, subs[1..])
  }

  /** The report has a sub report that takes part in its progress. */
  ghost predicate HasActive(t: Tree, h: nat, x: Id)
    requires Forest(t, h) && x in t
  {
    TotalWeight(t, Subs(t, h, x)) > 0
  }

  /** The rounded weighted mean of the progress of a report's active sub reports. */
  ghost function Mean(t: Tree, h: nat, m: Values, x: Id): Progress
    requires Fits(t, h, m) && x in t && HasActive(t, h, x)
  {
    ProgressFromInt(RoundedRatio(TotalProgress(t, m, Subs(t, h, x)), TotalWeight(t, Subs(t, h, x))))
  }

  /** The report counts in its parent's progress. */
  ghost predicate Joined(t: Tree, x: Id)
    requires x in t
  {
    t[x].weight != 0 && t[x].parent.Some?
  }

  ghost function PropagateProgress(t: Tree, h: nat, m: Values, x: Id): (r: Values)
    requires Fits(t, h, m) && x in t
    ensures r.Keys == m.Keys
    decreases t[x].depth, 0
  {
    if Joined(t, x) then UpdateProgress(t, h, m, Up(t, h, x)) else m
  }

  ghost function UpdateProgress(t: Tree, h: nat, m: Values, x: Id): (r: Values)
    requires Fits(t, h, m) && x in t
    ensures r.Keys == m.Keys
    decreases t[x].depth, 2
  {
    if !HasActive(t, h, x) then m else ChangeProgress(t, h, m, x, Mean(t, h, m, x))
  }

  /** The write of a new progress value with its notification and its propagation upwards. */
  ghost function ChangeProgress(t: Tree, h: nat, m: Values, x: Id, p: Progress): (r: Values)
    requires Fits(t, h, m) && x in t
    ensures r.Keys == m.Keys
    decreases t[x].depth, 1
  {
    PropagateProgress(t, h, Notify(t, h, m[x := m[x].(progress := p)], x, ProgressChanged), x)
  }

  ghost function SetProgress(t: Tree, h: nat, m: Values, x: Id, p: Progress): (r: Values)
    requires Fits(t, h, m) && x in t
    ensures r.Keys == m.Keys
  {
    if m[x].progress == p then m else ChangeProgress(t, h, m, x, p)
  }

  // ---------- status ----------

  /** The status with the sticky flags it raises. */
  function WithStatus(v: Vals, s: ExecutionStatus): Vals {
    v.(status := s, error := v.error || s == Error, warning := v.warning || s == Warning)
  }

  ghost function SetStatus(t: Tree, h: nat, m: Values, x: Id, s: ExecutionStatus): (r: Values)
    requires Fits(t, h, m) && x in t
    ensures r.Keys == m.Keys
    decreases h - t[x].depth, |Subs(t, h, x)| + 1
  {
    if m[x].status == s then m else
    var changed := Notify(t, h, m[x := WithStatus(m[x], s)], x, StatusChanged);
    var finished := if s == Finished then SetProgress(t, h, changed, x, 100) else changed;
    if s == Cancelled then CancelSubs(t, h, finished, x, Subs(t, h, x)) else finished
  }

  /** Cancels those of some sub reports of `x` that are not final, in order. */
  ghost function CancelSubs(t: Tree, h: nat, m: Values, x: Id, subs: seq<Id>): (r: Values)
    requires Fits(t, h, m) && x in t && Among(t, h, x, subs)
    ensures r.Keys == m.Keys
    decreases h - t[x].depth, |subs|
  {
    if subs == [] then m else
    var c := subs[0];
    CancelSubs(t, h, if IsFinal(m[c].status) then m else SetStatus(t, h, m, c, Cancelled), x, subs[1..])
  }

  /** The flags a log message raises. */
  function WithLog(v: Vals, category: ExecutionLogCategory): Vals {
    v.(error := v.error || category == ErrorLog, warning := v.warning || category == WarningLog)
  }

  ghost function Logged(t: Tree, h: nat, m: Values, x: Id, category: ExecutionLogCategory): (r: Values)
    requires Fits(t, h, m) && x in t
    ensures r.Keys == m.Keys
  {
    Notify(t, h, m[x := WithLog(m[x], category)], x, MessageAdded)
  }

  // ---------- the status guard ----------

  ghost function GuardInit(t: Tree, h: nat, m: Values, x: Id): (r: Values)
    requires Fits(t, h, m) && x in t
    ensures r.Keys == m.Keys
  {
    if m[x].status == Pending then SetStatus(t, h, m, x, Running) else m
  }

  datatype SubVerdict = SubVerdict(values: Values, warning: bool, error: bool)

  /** What finishing a report does to one of its sub reports, and what it learns from it. */
  ghost function FinishSub(t: Tree, h: nat, v: SubVerdict, c: Id): (r: SubVerdict)
    requires Fits(t, h, v.values) && c in t
    ensures r.values.Keys == v.values.Keys
  {
    var m := v.values;
    match m[c].status
    case Pending => v.(values := SetStatus(t, h, m, c, Cancelled))
    case Running =>
      if m[c].error then v.(values := SetStatus(t, h, m, c, Error), error := true)
      else if m[c].warning then v.(values := SetStatus(t, h, m, c, Warning), warning := true)
      else v
    case Warning => v.(warning := true)
    case Error => v.(error := true)
    case _ => v
  }

  ghost function FinishSubs(t: Tree, h: nat, v: SubVerdict, subs: seq<Id>): (r: SubVerdict)
    requires Fits(t, h, v.values) && forall c | c in subs :: c in t
    ensures r.values.Keys == v.values.Keys
    decreases |subs|
  {
    if subs == [] then v else FinishSubs(t, h, FinishSub(t, h, v, subs[0]), subs[1..])
  }

  /** The end of a guard; `thrown` tells whether an exception is unwinding the stack. */
  ghost function GuardFinish(t: Tree, h: nat, m: Values, x: Id, thrown: bool): (r: Values)
    requires Fits(t, h, m) && x in t
    ensures r.Keys == m.Keys
  {
    var v := FinishSubs(t, h, SubVerdict(m, false, false), Subs(t, h, x));
    var after := v.values;
    if after[x].status != Running && after[x].status != CancelRequest then after
    else if v.error || after[x].error || thrown then SetStatus(t, h, after, x, Error)
    else if v.warning || after[x].warning then SetStatus(t, h, after, x, Warning)
    else SetStatus(t, h, after, x, Finished)
  }

  // ---------- busy ----------

  ghost predicate Busy(t: Tree, h: nat, m: Values, x: Id)
    requires Fits(t, h, m) && x in t
    decreases h - t[x].depth
  {
    !IsFinal(m[x].status) || exists c | c in Subs(t, h, x) :: Busy(t, h, m, c)
  }
}
