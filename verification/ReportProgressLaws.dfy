/** What setting a progress does to a report tree: who changes, to what, and who hears of it. */
module ReportProgressLaws {
  import opened Wrappers
  import opened ReportTypes
  import opened ReportModel
  import opened Sequences

  // ---------- the reports a change reaches ----------

  /** A report and the ancestors joined to it by non-zero weights, innermost first. */
  ghost function Chain(t: Tree, h: nat, x: Id): seq<Id>
    requires Forest(t, h) && x in t
    decreases t[x].depth
  {
    [x] + if Joined(t, x) then Chain(t, h, Up(t, h, x)) else []
  }

  lemma {:induction false} ChainIsAbove(t: Tree, h: nat, x: Id, a: Id)
    requires Forest(t, h) && x in t && a in Chain(t, h, x)
    ensures a in t && Above(t, h, a, x) && t[a].depth <= t[x].depth && (a != x ==> t[a].depth < t[x].depth)
    decreases t[x].depth
  {
    if a != x {
      ChainIsAbove(t, h, Up(t, h, x), a);
    }
  }

  /** The events of one kind that report `y` hears when the reports of `origins` each raise one. */
  ghost function Heard(t: Tree, h: nat, y: Id, origins: seq<Id>, kind: ExecutionEventType): seq<ExecutionEvent>
    requires Forest(t, h)
  {
    if origins == [] then []
    else (if origins[0] in t && Above(t, h, y, origins[0]) then [ExecutionEvent(origins[0], kind)] else []) +
         Heard(t, h, y, origins[1..], kind)
  }

  lemma {:induction false} HeardConcat(t: Tree, h: nat, y: Id, a: seq<Id>, b: seq<Id>, kind: ExecutionEventType)
    requires Forest(t, h)
    ensures Heard(t, h, y, a + b, kind) == Heard(t, h, y, a, kind) + Heard(t, h, y, b, kind)
  {
    if a == [] {
      assert a + b == b;
    } else {
      assert (a + b)[1..] == a[1..] + b;
      HeardConcat(t, h, y, a[1..], b, kind);
    }
  }

  // ---------- sums over sub reports ----------

  lemma {:induction false} TotalProgressDependsOnSubs(t: Tree, m: Values, n: Values, subs: seq<Id>)
    requires forall c | c in subs :: c in t && c in m && c in n && (t[c].weight != 0 ==> m[c].progress == n[c].progress)
    ensures TotalProgress(t, m, subs) == TotalProgress(t, n, subs)
  {
    if subs != [] {
      TotalProgressDependsOnSubs(t, m, n, subs[1..]);
    }
  }

  lemma {:induction false} TotalProgressMonotone(t: Tree, m: Values, n: Values, subs: seq<Id>)
    requires forall c | c in subs :: c in t && c in m && c in n && m[c].progress <= n[c].progress
    ensures TotalProgress(t, m, subs) <= TotalProgress(t, n, subs)
  {
    if subs != [] {
      TotalProgressMonotone(t, m, n, subs[1..]);
      var w := t[subs[0]].weight;
      assert m[subs[0]].progress * w <= n[subs[0]].progress * w;
    }
  }

  lemma {:induction false} ScaledBounds(lo: nat, p: nat, hi: nat, w: nat)
    requires lo <= p <= hi
    ensures lo * w <= p * w <= hi * w
  {
  }

  lemma {:induction false} Distributes(k: nat, a: nat, b: nat)
    ensures k * (a + b) == k * a + k * b
  {
  }

  lemma {:induction false} TotalProgressBounds(t: Tree, m: Values, subs: seq<Id>, lo: nat, hi: nat)
    requires forall c | c in subs :: c in t && c in m && (t[c].weight != 0 ==> lo <= m[c].progress <= hi)
    ensures lo * TotalWeight(t, subs) <= TotalProgress(t, m, subs) <= hi * TotalWeight(t, subs)
  {
    if subs != [] {
      TotalProgressBounds(t, m, subs[1..], lo, hi);
      var w, rest := t[subs[0]].weight, TotalWeight(t, subs[1..]);
      if w != 0 {
        ScaledBounds(lo, m[subs[0]].progress, hi, w);
      }
      Distributes(lo, w, rest);
      Distributes(hi, w, rest);
    }
  }

  /** Neither the byte nor the clamp ever changes the rounded mean. */
  lemma {:induction false} MeanIsUnclamped(t: Tree, h: nat, m: Values, x: Id)
    requires Fits(t, h, m) && x in t && HasActive(t, h, x)
    ensures Mean(t, h, m, x) == RoundedRatio(TotalProgress(t, m, Subs(t, h, x)), TotalWeight(t, Subs(t, h, x)))
  {
    TotalProgressBounds(t, m, Subs(t, h, x), 0, 100);
    RoundedRatioBounds(TotalProgress(t, m, Subs(t, h, x)), TotalWeight(t, Subs(t, h, x)), 0, 100);
  }

  /** The mean lies between any bounds on the active sub reports. */
  lemma {:induction false} MeanWithinActiveSubs(t: Tree, h: nat, m: Values, x: Id, lo: nat, hi: nat)
    requires Fits(t, h, m) && x in t && HasActive(t, h, x)
    requires forall c | c in Subs(t, h, x) && t[c].weight != 0 :: lo <= m[c].progress <= hi
    ensures lo <= Mean(t, h, m, x) <= hi
  {
    MeanIsUnclamped(t, h, m, x);
    TotalProgressBounds(t, m, Subs(t, h, x), lo, hi);
    RoundedRatioBounds(TotalProgress(t, m, Subs(t, h, x)), TotalWeight(t, Subs(t, h, x)), lo, hi);
  }

  lemma {:induction false} JoinedSubIsCounted(t: Tree, subs: seq<Id>, c: Id)
    requires (forall s | s in subs :: s in t) && c in subs
    ensures t[c].weight <= TotalWeight(t, subs)
  {
    if c != subs[0] {
      JoinedSubIsCounted(t, subs[1..], c);
    }
  }

  // ---------- one change ----------

  /** Two states of a report differ at most in progress and in the events heard. */
  predicate SameButProgress(v: Vals, w: Vals) {
    w == v.(progress := w.progress, seen := w.seen)
  }

  /** The write itself, with its notification. */
  ghost function Written(t: Tree, h: nat, m: Values, x: Id, p: Progress): (r: Values)
    requires Fits(t, h, m) && x in t
    ensures r.Keys == m.Keys
  {
    Notify(t, h, m[x := m[x].(progress := p)], x, ProgressChanged)
  }

  lemma {:induction false} WrittenIsHeard(t: Tree, h: nat, m: Values, x: Id, p: Progress, y: Id)
    requires Fits(t, h, m) && x in t && y in t
    ensures var written := Written(t, h, m, x, p);
            && SameButProgress(m[y], written[y])
            && written[y].progress == (if y == x then p else m[y].progress)
            && written[y].seen == m[y].seen + Heard(t, h, y, [x], ProgressChanged)
  {
    assert Heard(t, h, y, [], ProgressChanged) == [];
  }

  /** A change passes on to the parent of a joined report as a change to the parent's new mean. */
  lemma {:induction false} ChangePassesOn(t: Tree, h: nat, m: Values, x: Id, p: Progress)
    requires Fits(t, h, m) && x in t && Joined(t, x)
    ensures var parent := Up(t, h, x); var written := Written(t, h, m, x, p);
            && HasActive(t, h, parent)
            && ChangeProgress(t, h, m, x, p) == ChangeProgress(t, h, written, parent, Mean(t, h, written, parent))
  {
    var parent, written := Up(t, h, x), Written(t, h, m, x, p);
    JoinedSubIsCounted(t, Subs(t, h, parent), x);
    assert ChangeProgress(t, h, m, x, p) == PropagateProgress(t, h, written, x);
    assert PropagateProgress(t, h, written, x) == UpdateProgress(t, h, written, parent);
  }

  /**
    After a report's progress changed: it has the new value, every ancestor joined to it by
    non-zero weights has the rounded mean of its own active sub reports as they now are, and no
    other report's progress changed.
   */
  lemma {:induction false} ChangeReachesTheChain(t: Tree, h: nat, m: Values, x: Id, p: Progress)
    requires Fits(t, h, m) && x in t
    ensures var after := ChangeProgress(t, h, m, x, p); var chain := Chain(t, h, x);
            && (forall a | a in chain :: a in t)
            && after[x].progress == p
            && (forall a | a in chain && a != x :: HasActive(t, h, a) && after[a].progress == Mean(t, h, after, a))
            && (forall y | y in t && y !in chain :: after[y].progress == m[y].progress)
    decreases t[x].depth
  {
    var after := ChangeProgress(t, h, m, x, p);
    if Joined(t, x) {
      var written, parent := Written(t, h, m, x, p), Up(t, h, x);
      ChangePassesOn(t, h, m, x, p);
      ChangeReachesTheChain(t, h, written, parent, Mean(t, h, written, parent));
      forall a | a in Chain(t, h, parent) ensures a in t && a != x && t[a].depth <= t[parent].depth {
        ChainIsAbove(t, h, parent, a);
      }
      assert Mean(t, h, after, parent) == Mean(t, h, written, parent) by {
        forall c | c in Subs(t, h, parent) ensures after[c].progress == written[c].progress {
          assert t[c].depth == t[parent].depth + 1;
        }
        TotalProgressDependsOnSubs(t, after, written, Subs(t, h, parent));
      }
    }
  }

  /**
    Each report the change reaches originates exactly one event, innermost first, which it and its
    ancestors hear; nothing but progress and the heard events changes anywhere.
   */
  lemma {:induction false} ChangeIsHeardAlongTheChain(t: Tree, h: nat, m: Values, x: Id, p: Progress, y: Id)
    requires Fits(t, h, m) && x in t && y in t
    ensures var after := ChangeProgress(t, h, m, x, p);
            && SameButProgress(m[y], after[y])
            && after[y].seen == m[y].seen + Heard(t, h, y, Chain(t, h, x), ProgressChanged)
    decreases t[x].depth
  {
    WrittenIsHeard(t, h, m, x, p, y);
    if Joined(t, x) {
      var written, parent := Written(t, h, m, x, p), Up(t, h, x);
      ChangePassesOn(t, h, m, x, p);
      ChangeIsHeardAlongTheChain(t, h, written, parent, Mean(t, h, written, parent), y);
      assert Chain(t, h, x) == [x] + Chain(t, h, parent);
      HeardConcat(t, h, y, [x], Chain(t, h, parent), ProgressChanged);
      Associates(m[y].seen, Heard(t, h, y, [x], ProgressChanged), Heard(t, h, y, Chain(t, h, parent), ProgressChanged));
    } else {
      assert ChangeProgress(t, h, m, x, p) == Written(t, h, m, x, p) && Chain(t, h, x) == [x];
    }
  }

  // ---------- monotonicity ----------

  /** The report shows the rounded mean of its active sub reports. */
  ghost predicate Consistent(t: Tree, h: nat, m: Values, x: Id)
    requires Fits(t, h, m) && x in t
  {
    HasActive(t, h, x) ==> m[x].progress == Mean(t, h, m, x)
  }

  /** Raising a report's progress lowers none of the ancestors that were consistent. */
  lemma {:induction false} RaisingNeverLowers(t: Tree, h: nat, m: Values, x: Id, p: Progress, y: Id)
    requires Fits(t, h, m) && x in t && y in t && m[x].progress <= p
    requires forall a | a in Chain(t, h, x) && a != x :: a in t && Consistent(t, h, m, a)
    ensures m[y].progress <= ChangeProgress(t, h, m, x, p)[y].progress
    decreases t[x].depth
  {
    WrittenIsHeard(t, h, m, x, p, y);
    if Joined(t, x) {
      var written, parent := Written(t, h, m, x, p), Up(t, h, x);
      ChangePassesOn(t, h, m, x, p);
      assert Chain(t, h, x) == [x] + Chain(t, h, parent) && parent in Chain(t, h, parent);
      WritingRaisesTheMean(t, h, m, x, p);
      forall a | a in Chain(t, h, parent) && a != parent ensures a in t && Consistent(t, h, written, a) {
        ChainIsAbove(t, h, parent, a);
        WritingBelowKeepsConsistency(t, h, m, x, p, a);
      }
      RaisingNeverLowers(t, h, written, parent, Mean(t, h, written, parent), y);
    } else {
      assert ChangeProgress(t, h, m, x, p) == Written(t, h, m, x, p);
    }
  }

  lemma {:induction false} WritingRaisesTheMean(t: Tree, h: nat, m: Values, x: Id, p: Progress)
    requires Fits(t, h, m) && x in t && Joined(t, x) && m[x].progress <= p
    requires HasActive(t, h, Up(t, h, x)) && Consistent(t, h, m, Up(t, h, x))
    ensures var written, parent := Written(t, h, m, x, p), Up(t, h, x);
            written[parent].progress <= Mean(t, h, written, parent)
  {
    var written, parent := Written(t, h, m, x, p), Up(t, h, x);
    assert written[parent].progress == m[parent].progress;
    MeanIsMonotone(t, h, m, written, parent);
  }

  /** A write below an ancestor's own sub reports leaves that ancestor consistent. */
  lemma {:induction false} WritingBelowKeepsConsistency(t: Tree, h: nat, m: Values, x: Id, p: Progress, a: Id)
    requires Fits(t, h, m) && x in t && Joined(t, x)
    requires a in Chain(t, h, Up(t, h, x)) && a != Up(t, h, x)
    requires a in t && Consistent(t, h, m, a)
    ensures Consistent(t, h, Written(t, h, m, x, p), a)
  {
    ChainIsAbove(t, h, Up(t, h, x), a);
    assert forall c | c in Subs(t, h, a) :: t[c].depth == t[a].depth + 1;
    TotalProgressDependsOnSubs(t, m, Written(t, h, m, x, p), Subs(t, h, a));
  }

  lemma {:induction false} MeanIsMonotone(t: Tree, h: nat, m: Values, n: Values, x: Id)
    requires Fits(t, h, m) && Fits(t, h, n) && x in t && HasActive(t, h, x)
    requires forall y | y in t :: m[y].progress <= n[y].progress
    ensures Mean(t, h, m, x) <= Mean(t, h, n, x)
  {
    MeanIsUnclamped(t, h, m, x);
    MeanIsUnclamped(t, h, n, x);
    TotalProgressMonotone(t, m, n, Subs(t, h, x));
    var subs := Subs(t, h, x);
    RoundedRatioMonotone(TotalProgress(t, m, subs), TotalProgress(t, n, subs), TotalWeight(t, subs));
  }

  // ---------- trees whose leaves alone are set ----------

  ghost predicate AllConsistent(t: Tree, h: nat, m: Values)
    requires Fits(t, h, m)
  {
    forall x | x in t :: Consistent(t, h, m, x)
  }

  /** A tree just built shows no progress anywhere, and is consistent. */
  lemma {:induction false} FreshTreeIsConsistent(t: Tree, h: nat, m: Values)
    requires Fits(t, h, m) && forall x | x in t :: m[x].progress == 0
    ensures AllConsistent(t, h, m)
  {
    forall x | x in t && HasActive(t, h, x) ensures Mean(t, h, m, x) == 0 {
      FreshMeanIsZero(t, h, m, x);
    }
  }

  lemma {:induction false} FreshMeanIsZero(t: Tree, h: nat, m: Values, x: Id)
    requires Fits(t, h, m) && x in t && HasActive(t, h, x) && forall y | y in t :: m[y].progress == 0
    ensures Mean(t, h, m, x) == 0
  {
    MeanWithinActiveSubs(t, h, m, x, 0, 0);
  }

  /** Setting a report without active sub reports keeps every report's mean exact to rounding. */
  lemma {:induction false} LeafUpdateKeepsConsistency(t: Tree, h: nat, m: Values, x: Id, p: Progress)
    requires Fits(t, h, m) && x in t && AllConsistent(t, h, m) && !HasActive(t, h, x)
    ensures AllConsistent(t, h, SetProgress(t, h, m, x, p))
  {
    var after := SetProgress(t, h, m, x, p);
    if m[x].progress != p {
      ChangeReachesTheChain(t, h, m, x, p);
      forall y | y in t && HasActive(t, h, y) ensures after[y].progress == Mean(t, h, after, y) {
        if y !in Chain(t, h, x) {
          forall c | c in Subs(t, h, y) && t[c].weight != 0 ensures after[c].progress == m[c].progress {
            if c in Chain(t, h, x) {
              NextInChain(t, h, x, c);
            }
          }
          TotalProgressDependsOnSubs(t, m, after, Subs(t, h, y));
        }
      }
    }
  }

  lemma {:induction false} NextInChain(t: Tree, h: nat, x: Id, c: Id)
    requires Forest(t, h) && x in t && c in Chain(t, h, x) && c in t && Joined(t, c)
    ensures Up(t, h, c) in Chain(t, h, x)
    decreases t[x].depth
  {
    var rest := if Joined(t, x) then Chain(t, h, Up(t, h, x)) else [];
    assert Chain(t, h, x) == [x] + rest;
    if c == x {
      assert Up(t, h, c) in Chain(t, h, Up(t, h, c));
    } else {
      NextInChain(t, h, Up(t, h, x), c);
    }
  }

  datatype LeafUpdate = LeafUpdate(leaf: Id, progress: Progress)

  /** A run of progress updates. */
  ghost function Updated(t: Tree, h: nat, m: Values, run: seq<LeafUpdate>): (r: Values)
    requires Fits(t, h, m) && forall u | u in run :: u.leaf in t
    ensures r.Keys == m.Keys
  {
    if run == [] then m
    else SetProgress(t, h, Updated(t, h, m, run[..|run| - 1]), run[|run| - 1].leaf, run[|run| - 1].progress)
  }

  /** In a tree built first, any run of leaf updates leaves every report at its rounded mean. */
  lemma {:induction false} LeafRunsStayConsistent(t: Tree, h: nat, m: Values, run: seq<LeafUpdate>)
    requires Fits(t, h, m) && AllConsistent(t, h, m)
    requires forall u | u in run :: u.leaf in t && !HasActive(t, h, u.leaf)
    ensures AllConsistent(t, h, Updated(t, h, m, run))
  {
    if run != [] {
      LeafRunsStayConsistent(t, h, m, run[..|run| - 1]);
      var last := run[|run| - 1];
      LeafUpdateKeepsConsistency(t, h, Updated(t, h, m, run[..|run| - 1]), last.leaf, last.progress);
    }
  }

  // ---------- the rounding error ----------

  /** The exact nested weighted mean of the leaves below a report. */
  ghost function Exact(t: Tree, h: nat, m: Values, x: Id): real
    requires Fits(t, h, m) && x in t
    decreases h - t[x].depth, |Subs(t, h, x)| + 1
  {
    if HasActive(t, h, x) then ExactTotal(t, h, m, x, Subs(t, h, x)) / TotalWeight(t, Subs(t, h, x)) as real
    else m[x].progress as real
  }

  ghost function ExactTotal(t: Tree, h: nat, m: Values, x: Id, subs: seq<Id>): real
    requires Fits(t, h, m) && x in t && Among(t, h, x, subs)
    decreases h - t[x].depth, |subs|
  {
    if subs == [] then 0.0 else
    Weighed(Exact(t, h, m, subs[0]), t[subs[0]].weight) + ExactTotal(t, h, m, x, subs[1..])
  }

  /** Levels of active nesting below a report. */
  ghost function Levels(t: Tree, h: nat, x: Id): nat
    requires Forest(t, h) && x in t
    decreases h - t[x].depth, |Subs(t, h, x)| + 1
  {
    if HasActive(t, h, x) then 1 + DeepestLevels(t, h, x, Subs(t, h, x)) else 0
  }

  ghost function DeepestLevels(t: Tree, h: nat, x: Id, subs: seq<Id>): nat
    requires Forest(t, h) && x in t && Among(t, h, x, subs)
    decreases h - t[x].depth, |subs|
  {
    if subs == [] then 0 else
    var rest := DeepestLevels(t, h, x, subs[1..]);
    if t[subs[0]].weight == 0 || Levels(t, h, subs[0]) < rest then rest else Levels(t, h, subs[0])
  }

  /** A value counted `w` times. */
  ghost function Weighed(a: real, w: nat): real {
    if w == 0 then 0.0 else a + Weighed(a, w - 1)
  }

  lemma {:induction false} WeighedIsProduct(a: real, w: nat)
    ensures Weighed(a, w) == a * w as real
  {
    if w > 0 {
      WeighedIsProduct(a, w - 1);
      assert a * w as real == a + a * (w - 1) as real;
    }
  }

  lemma {:induction false} WeighedCast(p: nat, w: nat)
    ensures (p * w) as real == Weighed(p as real, w)
  {
    WeighedIsProduct(p as real, w);
    CastProduct(p, w);
  }

  lemma {:induction false} WeighedWithin(a: real, b: real, tolerance: real, w: nat)
    requires Within(a, b, tolerance)
    ensures Within(Weighed(a, w), Weighed(b, w), Weighed(tolerance, w))
  {
    if w > 0 {
      WeighedWithin(a, b, tolerance, w - 1);
    }
  }

  lemma {:induction false} WeighedMonotone(a: real, b: real, w: nat)
    requires w == 0 || a <= b
    ensures Weighed(a, w) <= Weighed(b, w)
  {
    if w > 0 {
      WeighedMonotone(a, b, w - 1);
    }
  }

  lemma {:induction false} WeighedSum(a: real, w: nat, k: nat)
    ensures Weighed(a, w + k) == Weighed(a, w) + Weighed(a, k)
  {
    if w > 0 {
      WeighedSum(a, w - 1, k);
    }
  }

  /** The two values are no further apart than the tolerance. */
  predicate Within(a: real, b: real, tolerance: real) {
    -tolerance <= a - b <= tolerance
  }

  /** Half a point per level. */
  function Half(levels: nat): real {
    levels as real / 2.0
  }

  /** The report is off the exact mean by at most half a point per level of nesting. */
  ghost predicate Near(t: Tree, h: nat, m: Values, x: Id)
    requires Fits(t, h, m) && x in t
  {
    Within(m[x].progress as real, Exact(t, h, m, x), Half(Levels(t, h, x)))
  }

  /** What the tolerances of some sub reports add up to, weighted. */
  ghost function TotalTolerance(t: Tree, h: nat, x: Id, subs: seq<Id>): real
    requires Forest(t, h) && x in t && Among(t, h, x, subs)
  {
    if subs == [] then 0.0
    else Weighed(Half(Levels(t, h, subs[0])), t[subs[0]].weight) + TotalTolerance(t, h, x, subs[1..])
  }

  /** In a consistent tree every report is off its exact mean by at most half a point per level of nesting. */
  lemma {:induction false} RoundingErrorBound(t: Tree, h: nat, m: Values, x: Id)
    requires Fits(t, h, m) && x in t && AllConsistent(t, h, m)
    ensures Near(t, h, m, x)
    decreases h - t[x].depth, |Subs(t, h, x)| + 1
  {
    if HasActive(t, h, x) {
      TotalErrorBound(t, h, m, x, Subs(t, h, x));
      assert Consistent(t, h, m, x);
      MeanErrorStep(t, h, m, x);
    }
  }

  lemma {:induction false} TotalErrorBound(t: Tree, h: nat, m: Values, x: Id, subs: seq<Id>)
    requires Fits(t, h, m) && x in t && AllConsistent(t, h, m) && Among(t, h, x, subs)
    ensures Within(TotalProgress(t, m, subs) as real, ExactTotal(t, h, m, x, subs), TotalTolerance(t, h, x, subs))
    decreases h - t[x].depth, |subs|
  {
    if subs != [] {
      RoundingErrorBound(t, h, m, subs[0]);
      TotalErrorBound(t, h, m, x, subs[1..]);
      TotalErrorStep(t, h, m, x, subs[0], subs[1..]);
      assert subs == [subs[0]] + subs[1..];
    }
  }

  lemma {:induction false} TotalErrorStep(t: Tree, h: nat, m: Values, x: Id, c: Id, rest: seq<Id>)
    requires Fits(t, h, m) && x in t && c in Subs(t, h, x) && Among(t, h, x, rest) && Near(t, h, m, c)
    requires Within(TotalProgress(t, m, rest) as real, ExactTotal(t, h, m, x, rest), TotalTolerance(t, h, x, rest))
    ensures var subs := [c] + rest;
            Within(TotalProgress(t, m, subs) as real, ExactTotal(t, h, m, x, subs), TotalTolerance(t, h, x, subs))
  {
    assert ([c] + rest)[1..] == rest;
    WeighedCast(m[c].progress, t[c].weight);
    WeighedWithin(m[c].progress as real, Exact(t, h, m, c), Half(Levels(t, h, c)), t[c].weight);
  }

  lemma {:induction false} DeepestIsLargest(t: Tree, h: nat, x: Id, subs: seq<Id>)
    requires Forest(t, h) && x in t && Among(t, h, x, subs)
    ensures forall i | 0 <= i < |subs| ::
            t[subs[i]].weight == 0 || Levels(t, h, subs[i]) <= DeepestLevels(t, h, x, subs)
  {
    if subs != [] {
      DeepestIsLargest(t, h, x, subs[1..]);
      forall i | 0 <= i < |subs|
        ensures t[subs[i]].weight == 0 || Levels(t, h, subs[i]) <= DeepestLevels(t, h, x, subs)
      {
        if i > 0 {
          assert subs[i] == subs[1..][i - 1];
        }
      }
    }
  }

  lemma {:induction false} ToleranceBound(t: Tree, h: nat, x: Id, subs: seq<Id>, half: real)
    requires Forest(t, h) && x in t && Among(t, h, x, subs)
    requires forall i | 0 <= i < |subs| :: t[subs[i]].weight == 0 || Half(Levels(t, h, subs[i])) <= half
    ensures TotalTolerance(t, h, x, subs) <= Weighed(half, TotalWeight(t, subs))
  {
    if subs != [] {
      ToleranceBound(t, h, x, subs[1..], half);
      WeighedMonotone(Half(Levels(t, h, subs[0])), half, t[subs[0]].weight);
      WeighedSum(half, t[subs[0]].weight, TotalWeight(t, subs[1..]));
    }
  }

  lemma {:induction false} ToleranceOfSubs(t: Tree, h: nat, x: Id)
    requires Forest(t, h) && x in t
    ensures var subs := Subs(t, h, x);
            TotalTolerance(t, h, x, subs) <= Weighed(Half(DeepestLevels(t, h, x, subs)), TotalWeight(t, subs))
  {
    DeepestIsLargest(t, h, x, Subs(t, h, x));
    ToleranceBound(t, h, x, Subs(t, h, x), Half(DeepestLevels(t, h, x, Subs(t, h, x))));
  }

  lemma {:induction false} MeanErrorStep(t: Tree, h: nat, m: Values, x: Id)
    requires Fits(t, h, m) && x in t && HasActive(t, h, x) && m[x].progress == Mean(t, h, m, x)
    requires var subs := Subs(t, h, x);
             Within(TotalProgress(t, m, subs) as real, ExactTotal(t, h, m, x, subs), TotalTolerance(t, h, x, subs))
    ensures Near(t, h, m, x)
  {
    var subs := Subs(t, h, x);
    MeanIsUnclamped(t, h, m, x);
    ToleranceOfSubs(t, h, x);
    RoundedMeanStep(
      TotalProgress(t, m, subs), TotalWeight(t, subs), m[x].progress,
      ExactTotal(t, h, m, x, subs), DeepestLevels(t, h, x, subs));
  }

  /**
    In a tree built first, after any run of leaf updates, every report shows the rounded mean of its
    sub reports and is within half a point per level of the exact nested mean of the leaves.
   */
  lemma {:induction false} LeafRunsStayNearExact(t: Tree, h: nat, m: Values, run: seq<LeafUpdate>, x: Id)
    requires Fits(t, h, m) && x in t && forall y | y in t :: m[y].progress == 0
    requires forall u | u in run :: u.leaf in t && !HasActive(t, h, u.leaf)
    ensures Consistent(t, h, Updated(t, h, m, run), x)
    ensures Near(t, h, Updated(t, h, m, run), x)
  {
    FreshTreeIsConsistent(t, h, m);
    LeafRunsStayConsistent(t, h, m, run);
    RoundingErrorBound(t, h, Updated(t, h, m, run), x);
  }

  // ---------- the arithmetic of the steps ----------

  lemma {:induction false} RoundedMeanStep(total: nat, weight: nat, mean: nat, exact: real, levels: nat)
    requires weight > 0 && mean == RoundedRatio(total, weight)
    requires Within(total as real, exact, Weighed(Half(levels), weight))
    ensures Within(mean as real, exact / weight as real, Half(1 + levels))
  {
    NearestScaled(total, weight, mean);
    ScaledMeanStep(total as real, weight, mean as real, exact, Half(levels));
  }

  lemma {:induction false} ScaledMeanStep(total: real, weight: nat, mean: real, exact: real, half: real)
    requires weight > 0 && Within(mean * weight as real, total, weight as real / 2.0)
    requires Within(total, exact, Weighed(half, weight))
    ensures Within(mean, exact / weight as real, 0.5 + half)
  {
    WeighedIsProduct(half, weight);
    Quotient(exact, weight as real);
    MeanStep(mean, exact / weight as real, weight as real, total, exact, half);
  }

  lemma {:induction false} NearestScaled(total: nat, weight: nat, mean: nat)
    requires weight > 0 && mean == RoundedRatio(total, weight)
    ensures Within(mean as real * weight as real, total as real, weight as real / 2.0)
  {
    RoundedRatioIsNearest(total, weight);
    CastProduct(mean, weight);
  }

  lemma {:induction false} MeanStep(mean: real, q: real, w: real, total: real, exact: real, d: real)
    requires w > 0.0 && q * w == exact
    requires Within(mean * w, total, w / 2.0) && Within(total, exact, d * w)
    ensures Within(mean, q, 0.5 + d)
  {
    Unscale(mean, q, d, w, mean * w, exact, d * w);
    Unscale(q, mean, d, w, exact, mean * w, d * w);
  }

  lemma {:induction false} Unscale(a: real, b: real, d: real, w: real, aw: real, bw: real, dw: real)
    requires w > 0.0 && aw == a * w && bw == b * w && dw == d * w && aw - bw <= w / 2.0 + dw
    ensures a - b <= 0.5 + d
  {
    var gap := a - b - 0.5 - d;
    assert gap * w == aw - bw - w / 2.0 - dw;
    if gap > 0.0 {
      PositiveProduct(gap, w);
    }
  }

  lemma {:induction false} PositiveProduct(a: real, b: real)
    requires a > 0.0 && b > 0.0
    ensures a * b > 0.0
  {
  }

  lemma {:induction false} Quotient(a: real, b: real)
    requires b > 0.0
    ensures a / b * b == a
  {
  }

  lemma {:induction false} CastProduct(a: nat, b: nat)
    ensures (a * b) as real == a as real * b as real
  {
  }
}
