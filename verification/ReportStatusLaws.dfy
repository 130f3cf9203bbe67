/** Cancelling, finishing and being busy: what a status change does to a whole report tree. */
module ReportStatusLaws {
  import opened Wrappers
  import opened ReportTypes
  import opened ReportModel
  import opened ReportProgressLaws
  import opened Sequences

  // ---------- ancestors ----------

  /** Two ancestors at one depth are the same, so no report lies below two siblings. */
  lemma {:induction false} OneAncestorPerDepth(t: Tree, h: nat, a: Id, b: Id, x: Id)
    requires Forest(t, h) && x in t && Above(t, h, a, x) && Above(t, h, b, x)
    requires a in t && b in t && t[a].depth == t[b].depth
    ensures a == b
    decreases t[x].depth
  {
    AboveIsHigher(t, h, a, x);
    AboveIsHigher(t, h, b, x);
    if a != x {
      OneAncestorPerDepth(t, h, a, b, Up(t, h, x));
    }
  }

  /** A report below another, other than itself, lies below one of its sub reports. */
  lemma {:induction false} BelowOneSub(t: Tree, h: nat, x: Id, y: Id) returns (c: Id)
    requires Forest(t, h) && x in t && y in t && Above(t, h, x, y) && x != y
    ensures c in Subs(t, h, x) && Above(t, h, c, y)
    decreases t[y].depth
  {
    if Up(t, h, y) == x {
      c := y;
    } else {
      c := BelowOneSub(t, h, x, Up(t, h, y));
    }
  }

  /** The report lies below one of the given ones. */
  ghost predicate BelowAny(t: Tree, h: nat, subs: seq<Id>, y: Id)
    requires Forest(t, h) && y in t
  {
    exists i | 0 <= i < |subs| :: Above(t, h, subs[i], y)
  }

  ghost predicate Distinct(subs: seq<Id>) {
    forall i, j | 0 <= i < j < |subs| :: subs[i] != subs[j]
  }

  lemma {:induction false} SubsAreDistinct(t: Tree, h: nat, x: Id)
    requires Forest(t, h) && x in t
    ensures Distinct(Subs(t, h, x)) && Among(t, h, x, Subs(t, h, x))
  {
    assert Linked(t, h, x);
  }

  /** What lies below the first of some distinct siblings lies below none of the others. */
  lemma {:induction false} SiblingsAreApart(t: Tree, h: nat, x: Id, subs: seq<Id>, y: Id)
    requires Forest(t, h) && x in t && y in t && subs != [] && Among(t, h, x, subs) && Distinct(subs)
    requires Above(t, h, subs[0], y)
    ensures !BelowAny(t, h, subs[1..], y)
  {
    if BelowAny(t, h, subs[1..], y) {
      var i :| 0 <= i < |subs[1..]| && Above(t, h, subs[1..][i], y);
      OneAncestorPerDepth(t, h, subs[0], subs[i + 1], y);
    }
  }

  lemma {:induction false} ParentIsNotBelow(t: Tree, h: nat, x: Id, subs: seq<Id>)
    requires Forest(t, h) && x in t && Among(t, h, x, subs)
    ensures !BelowAny(t, h, subs, x)
  {
    if BelowAny(t, h, subs, x) {
      var i :| 0 <= i < |subs| && Above(t, h, subs[i], x);
      AboveIsHigher(t, h, subs[i], x);
    }
  }

  lemma {:induction false} BelowAnyStep(t: Tree, h: nat, subs: seq<Id>, y: Id)
    requires Forest(t, h) && y in t && subs != []
    ensures BelowAny(t, h, subs, y) <==> Above(t, h, subs[0], y) || BelowAny(t, h, subs[1..], y)
  {
    if BelowAny(t, h, subs, y) && !Above(t, h, subs[0], y) {
      var i :| 0 <= i < |subs| && Above(t, h, subs[i], y);
      assert subs[i] == subs[1..][i - 1];
    }
    if BelowAny(t, h, subs[1..], y) {
      var i :| 0 <= i < |subs[1..]| && Above(t, h, subs[1..][i], y);
      assert subs[i + 1] == subs[1..][i];
    }
  }

  lemma {:induction false} BelowIffSelfOrBelowSubs(t: Tree, h: nat, x: Id, y: Id)
    requires Forest(t, h) && x in t && y in t
    ensures Above(t, h, x, y) <==> x == y || BelowAny(t, h, Subs(t, h, x), y)
  {
    var subs := Subs(t, h, x);
    if Above(t, h, x, y) && x != y {
      var c := BelowOneSub(t, h, x, y);
      assert c in subs;
    }
    if BelowAny(t, h, subs, y) {
      var i :| 0 <= i < |subs| && Above(t, h, subs[i], y);
      assert subs[i] in subs && Above(t, h, x, subs[i]);
      AboveIsTransitive(t, h, x, subs[i], y);
    }
  }

  // ---------- busy ----------

  lemma {:induction false} BusyBelow(t: Tree, h: nat, m: Values, x: Id, y: Id)
    requires Fits(t, h, m) && x in t && y in t && Above(t, h, x, y) && Busy(t, h, m, y)
    ensures Busy(t, h, m, x)
    decreases t[y].depth
  {
    if x != y {
      assert y in Subs(t, h, Up(t, h, y));
      BusyBelow(t, h, m, x, Up(t, h, y));
    }
  }

  lemma {:induction false} BusyReport(t: Tree, h: nat, m: Values, x: Id) returns (y: Id)
    requires Fits(t, h, m) && x in t && Busy(t, h, m, x)
    ensures y in t && Above(t, h, x, y) && !IsFinal(m[y].status)
    decreases h - t[x].depth
  {
    if !IsFinal(m[x].status) {
      y := x;
    } else {
      var c :| c in Subs(t, h, x) && Busy(t, h, m, c);
      y := BusyReport(t, h, m, c);
      AboveIsTransitive(t, h, x, c, y);
    }
  }

  /** A report is busy exactly when it or a report below it has no final status. */
  lemma {:induction false} BusyIff(t: Tree, h: nat, m: Values, x: Id)
    requires Fits(t, h, m) && x in t
    ensures Busy(t, h, m, x) <==> exists y | y in t :: Above(t, h, x, y) && !IsFinal(m[y].status)
  {
    if Busy(t, h, m, x) {
      var y := BusyReport(t, h, m, x);
    }
    if y :| y in t && Above(t, h, x, y) && !IsFinal(m[y].status) {
      BusyBelow(t, h, m, x, y);
    }
  }

  // ---------- the cancellation cascade ----------

  /** A cancelled report and the reports the cancellation reaches below it, in pre-order. */
  ghost function Hits(t: Tree, h: nat, m: Values, x: Id): seq<Id>
    requires Fits(t, h, m) && x in t
    decreases h - t[x].depth, |Subs(t, h, x)| + 1
  {
    [x] + HitsBelow(t, h, m, x, Subs(t, h, x))
  }

  ghost function HitsBelow(t: Tree, h: nat, m: Values, x: Id, subs: seq<Id>): seq<Id>
    requires Fits(t, h, m) && x in t && Among(t, h, x, subs)
    decreases h - t[x].depth, |subs|
  {
    if subs == [] then []
    else (if IsFinal(m[subs[0]].status) then [] else Hits(t, h, m, subs[0])) + HitsBelow(t, h, m, x, subs[1..])
  }

  /** The cancellation of `r` reaches `y`: every report on the way down from `r`, `y` included, is not final. */
  ghost predicate Reached(t: Tree, h: nat, m: Values, r: Id, y: Id)
    requires Fits(t, h, m) && y in t
    decreases t[y].depth
  {
    y == r || (!IsFinal(m[y].status) && t[y].parent.Some? && Reached(t, h, m, r, Up(t, h, y)))
  }

  lemma {:induction false} HitsAreBelow(t: Tree, h: nat, m: Values, x: Id, y: Id)
    requires Fits(t, h, m) && x in t && y in Hits(t, h, m, x)
    ensures y in t && Above(t, h, x, y)
    decreases h - t[x].depth, |Subs(t, h, x)| + 1
  {
    if y != x {
      var subs := Subs(t, h, x);
      HitsBelowAreBelow(t, h, m, x, subs, y);
      BelowIffSelfOrBelowSubs(t, h, x, y);
    }
  }

  lemma {:induction false} HitsBelowAreBelow(t: Tree, h: nat, m: Values, x: Id, subs: seq<Id>, y: Id)
    requires Fits(t, h, m) && x in t && Among(t, h, x, subs) && y in HitsBelow(t, h, m, x, subs)
    ensures y in t && BelowAny(t, h, subs, y)
    decreases h - t[x].depth, |subs|
  {
    if !IsFinal(m[subs[0]].status) && y in Hits(t, h, m, subs[0]) {
      HitsAreBelow(t, h, m, subs[0], y);
    } else {
      HitsBelowAreBelow(t, h, m, x, subs[1..], y);
      BelowAnyStep(t, h, subs, y);
    }
  }

  /** The values agree on the status of everything below the given reports. */
  ghost predicate AgreeBelow(t: Tree, h: nat, m: Values, n: Values, subs: seq<Id>)
    requires Fits(t, h, m) && Fits(t, h, n)
  {
    forall y | y in t && BelowAny(t, h, subs, y) :: m[y].status == n[y].status
  }

  lemma {:induction false} HitsBelowDependOnStatuses(t: Tree, h: nat, m: Values, n: Values, x: Id, subs: seq<Id>)
    requires Fits(t, h, m) && Fits(t, h, n) && x in t && Among(t, h, x, subs) && AgreeBelow(t, h, m, n, subs)
    ensures HitsBelow(t, h, m, x, subs) == HitsBelow(t, h, n, x, subs)
    decreases h - t[x].depth, |subs|
  {
    if subs != [] {
      var c := subs[0];
      assert Above(t, h, c, c) && BelowAny(t, h, subs, c);
      forall y | y in t && BelowAny(t, h, Subs(t, h, c), y) ensures m[y].status == n[y].status {
        BelowIffSelfOrBelowSubs(t, h, c, y);
        BelowAnyStep(t, h, subs, y);
      }
      HitsBelowDependOnStatuses(t, h, m, n, c, Subs(t, h, c));
      forall y | y in t && BelowAny(t, h, subs[1..], y) ensures m[y].status == n[y].status {
        BelowAnyStep(t, h, subs, y);
      }
      HitsBelowDependOnStatuses(t, h, m, n, x, subs[1..]);
    }
  }

  /** What a cancellation does to one report. */
  function AfterCancel(v: Vals, hit: bool, heard: seq<ExecutionEvent>): Vals {
    v.(status := if hit then Cancelled else v.status, seen := v.seen + heard)
  }

  /**
    Cancelling a report that is not cancelled yet cancels exactly the reports it hits; each of them
    raises one event in pre-order, heard by itself and its ancestors, and nothing else changes.
   */
  lemma {:induction false} CancelHitsExactly(t: Tree, h: nat, m: Values, x: Id, y: Id)
    requires Fits(t, h, m) && x in t && y in t && m[x].status != Cancelled
    ensures var hits := Hits(t, h, m, x);
            SetStatus(t, h, m, x, Cancelled)[y] == AfterCancel(m[y], y in hits, Heard(t, h, y, hits, StatusChanged))
    decreases h - t[x].depth, |Subs(t, h, x)| + 1
  {
    var changed, subs := StatusWritten(t, h, m, x, Cancelled), Subs(t, h, x);
    SubsAreDistinct(t, h, x);
    ParentIsNotBelow(t, h, x, subs);
    HitsBelowDependOnStatuses(t, h, m, changed, x, subs);
    CancelSubsHitsExactly(t, h, changed, x, subs, y);
    StatusWriteIsHeard(t, h, m, x, Cancelled, y);
    HeardConcat(t, h, y, [x], HitsBelow(t, h, m, x, subs), StatusChanged);
    Associates(
      m[y].seen, Heard(t, h, y, [x], StatusChanged), Heard(t, h, y, HitsBelow(t, h, m, x, subs), StatusChanged));
  }

  /** The status write itself, with its notification. */
  ghost function StatusWritten(t: Tree, h: nat, m: Values, x: Id, s: ExecutionStatus): (r: Values)
    requires Fits(t, h, m) && x in t
    ensures r.Keys == m.Keys
  {
    Notify(t, h, m[x := WithStatus(m[x], s)], x, StatusChanged)
  }

  lemma {:induction false} StatusWriteIsHeard(t: Tree, h: nat, m: Values, x: Id, s: ExecutionStatus, y: Id)
    requires Fits(t, h, m) && x in t && y in t
    ensures var w := if y == x then WithStatus(m[x], s) else m[y];
            StatusWritten(t, h, m, x, s)[y] == w.(seen := m[y].seen + Heard(t, h, y, [x], StatusChanged))
  {
    assert Heard(t, h, y, [], StatusChanged) == [];
  }

  lemma {:induction false} CancelSubsHitsExactly(t: Tree, h: nat, m: Values, x: Id, subs: seq<Id>, y: Id)
    requires Fits(t, h, m) && x in t && y in t && Among(t, h, x, subs) && Distinct(subs)
    ensures var hits := HitsBelow(t, h, m, x, subs);
            CancelSubs(t, h, m, x, subs)[y] == AfterCancel(m[y], y in hits, Heard(t, h, y, hits, StatusChanged))
    decreases h - t[x].depth, |subs|
  {
    if subs == [] {
      assert m[y].seen + [] == m[y].seen;
    } else {
      var c, rest := subs[0], subs[1..];
      if IsFinal(m[c].status) {
        assert HitsBelow(t, h, m, x, subs) == HitsBelow(t, h, m, x, rest);
        CancelSubsHitsExactly(t, h, m, x, rest, y);
      } else {
        var n := SetStatus(t, h, m, c, Cancelled);
        CancelLeavesSiblings(t, h, m, x, subs);
        HitsBelowDependOnStatuses(t, h, m, n, x, rest);
        CancelSubsHitsExactly(t, h, n, x, rest, y);
        CancelHitsExactly(t, h, m, c, y);
        CancelsCompose(t, h, m[y], y, Hits(t, h, m, c), HitsBelow(t, h, m, x, rest));
      }
    }
  }

  lemma {:induction false} CancelLeavesSiblings(t: Tree, h: nat, m: Values, x: Id, subs: seq<Id>)
    requires Fits(t, h, m) && x in t && subs != [] && Among(t, h, x, subs) && Distinct(subs)
    requires m[subs[0]].status != Cancelled
    ensures AgreeBelow(t, h, m, SetStatus(t, h, m, subs[0], Cancelled), subs[1..])
    decreases h - t[x].depth, |subs|, 0
  {
    forall y | y in t && BelowAny(t, h, subs[1..], y)
      ensures m[y].status == SetStatus(t, h, m, subs[0], Cancelled)[y].status
    {
      CancelHitsExactly(t, h, m, subs[0], y);
      if y in Hits(t, h, m, subs[0]) {
        HitsAreBelow(t, h, m, subs[0], y);
        SiblingsAreApart(t, h, x, subs, y);
      }
    }
  }

  lemma {:induction false} CancelsCompose(t: Tree, h: nat, v: Vals, y: Id, first: seq<Id>, second: seq<Id>)
    requires Forest(t, h)
    ensures AfterCancel(
              AfterCancel(v, y in first, Heard(t, h, y, first, StatusChanged)),
              y in second, Heard(t, h, y, second, StatusChanged))
         == AfterCancel(v, y in first + second, Heard(t, h, y, first + second, StatusChanged))
  {
    HeardConcat(t, h, y, first, second, StatusChanged);
    Associates(v.seen, Heard(t, h, y, first, StatusChanged), Heard(t, h, y, second, StatusChanged));
  }

  /** A report is hit exactly when the cancellation reaches it through reports that are not final. */
  lemma {:induction false} HitIffReached(t: Tree, h: nat, m: Values, r: Id, y: Id)
    requires Fits(t, h, m) && r in t && y in t
    ensures y in Hits(t, h, m, r) <==> Reached(t, h, m, r, y)
    decreases h - t[r].depth, |Subs(t, h, r)| + 1
  {
    SubsAreDistinct(t, h, r);
    if y == r {
    } else if !Above(t, h, r, y) {
      if y in Hits(t, h, m, r) {
        HitsAreBelow(t, h, m, r, y);
      }
      if Reached(t, h, m, r, y) {
        ReachedIsBelow(t, h, m, r, y);
      }
    } else {
      var c := BelowOneSub(t, h, r, y);
      var k :| 0 <= k < |Subs(t, h, r)| && Subs(t, h, r)[k] == c;
      HitThroughOneSub(t, h, m, r, Subs(t, h, r), k, y);
      HitIffReached(t, h, m, c, y);
      ReachedThroughSub(t, h, m, r, c, y);
    }
  }

  lemma {:induction false} ReachedIsBelow(t: Tree, h: nat, m: Values, r: Id, y: Id)
    requires Fits(t, h, m) && y in t && Reached(t, h, m, r, y)
    ensures Above(t, h, r, y)
    decreases t[y].depth
  {
    if y != r {
      ReachedIsBelow(t, h, m, r, Up(t, h, y));
    }
  }

  lemma {:induction false} ReachedThroughSub(t: Tree, h: nat, m: Values, r: Id, c: Id, y: Id)
    requires Fits(t, h, m) && r in t && y in t && c in Subs(t, h, r) && Above(t, h, c, y)
    ensures Reached(t, h, m, r, y) <==> !IsFinal(m[c].status) && Reached(t, h, m, c, y)
    decreases t[y].depth
  {
    AboveIsHigher(t, h, c, y);
    if c == y {
      assert Up(t, h, y) == r && Reached(t, h, m, r, r);
    } else {
      ReachedThroughSub(t, h, m, r, c, Up(t, h, y));
    }
  }

  lemma {:induction false} HitThroughOneSub(t: Tree, h: nat, m: Values, x: Id, subs: seq<Id>, k: nat, y: Id)
    requires Fits(t, h, m) && x in t && y in t && Among(t, h, x, subs) && Distinct(subs)
    requires k < |subs| && Above(t, h, subs[k], y)
    ensures y in HitsBelow(t, h, m, x, subs) <==> !IsFinal(m[subs[k]].status) && y in Hits(t, h, m, subs[k])
  {
    var rest := subs[1..];
    if k == 0 {
      SiblingsAreApart(t, h, x, subs, y);
      if y in HitsBelow(t, h, m, x, rest) {
        HitsBelowAreBelow(t, h, m, x, rest, y);
      }
    } else {
      assert rest[k - 1] == subs[k];
      if y in Hits(t, h, m, subs[0]) {
        HitsAreBelow(t, h, m, subs[0], y);
        OneAncestorPerDepth(t, h, subs[0], subs[k], y);
      }
      HitThroughOneSub(t, h, m, x, rest, k - 1, y);
    }
  }

  /** Nothing is hit twice, so each report hit raises exactly one event. */
  lemma {:induction false} HitsAreDistinct(t: Tree, h: nat, m: Values, x: Id)
    requires Fits(t, h, m) && x in t
    ensures Distinct(Hits(t, h, m, x))
    decreases h - t[x].depth, |Subs(t, h, x)| + 1
  {
    var subs := Subs(t, h, x);
    SubsAreDistinct(t, h, x);
    HitsBelowAreDistinct(t, h, m, x, subs);
    ParentIsNotBelow(t, h, x, subs);
    if x in HitsBelow(t, h, m, x, subs) {
      HitsBelowAreBelow(t, h, m, x, subs, x);
    }
    DistinctConcat([x], HitsBelow(t, h, m, x, subs));
  }

  lemma {:induction false} HitsBelowAreDistinct(t: Tree, h: nat, m: Values, x: Id, subs: seq<Id>)
    requires Fits(t, h, m) && x in t && Among(t, h, x, subs) && Distinct(subs)
    ensures Distinct(HitsBelow(t, h, m, x, subs))
    decreases h - t[x].depth, |subs|
  {
    if subs != [] {
      var c, rest := subs[0], subs[1..];
      HitsBelowAreDistinct(t, h, m, x, rest);
      if !IsFinal(m[c].status) {
        HitsAreDistinct(t, h, m, c);
        forall y | y in Hits(t, h, m, c) ensures y !in HitsBelow(t, h, m, x, rest) {
          HitsAreBelow(t, h, m, c, y);
          SiblingsAreApart(t, h, x, subs, y);
          if y in HitsBelow(t, h, m, x, rest) {
            HitsBelowAreBelow(t, h, m, x, rest, y);
          }
        }
        DistinctConcat(Hits(t, h, m, c), HitsBelow(t, h, m, x, rest));
      } else {
        assert HitsBelow(t, h, m, x, subs) == HitsBelow(t, h, m, x, rest);
      }
    }
  }

  lemma {:induction false} DistinctConcat(a: seq<Id>, b: seq<Id>)
    requires Distinct(a) && Distinct(b) && forall y | y in a :: y !in b
    ensures Distinct(a + b)
  {
    forall i, j | 0 <= i < j < |a + b| ensures (a + b)[i] != (a + b)[j] {
      if i < |a| <= j {
        assert a[i] in a && b[j - |a|] in b;
      }
    }
  }

  /**
    After a cancellation the report is busy exactly when some other report below it was final and
    yet busy, for the cascade stops at it.
   */
  lemma {:induction false} BusyAfterCancelIff(t: Tree, h: nat, m: Values, r: Id)
    requires Fits(t, h, m) && r in t && m[r].status != Cancelled
    ensures Busy(t, h, SetStatus(t, h, m, r, Cancelled), r)
            <==> exists f | f in t :: f != r && Above(t, h, r, f) && IsFinal(m[f].status) && Busy(t, h, m, f)
  {
    if Busy(t, h, SetStatus(t, h, m, r, Cancelled), r) {
      var f := BusyFinalLeft(t, h, m, r);
    }
    if f :| f in t && f != r && Above(t, h, r, f) && IsFinal(m[f].status) && Busy(t, h, m, f) {
      BusyFinalStays(t, h, m, r, f);
    }
  }

  lemma {:induction false} BusyFinalLeft(t: Tree, h: nat, m: Values, r: Id) returns (f: Id)
    requires Fits(t, h, m) && r in t && m[r].status != Cancelled && Busy(t, h, SetStatus(t, h, m, r, Cancelled), r)
    ensures f in t && f != r && Above(t, h, r, f) && IsFinal(m[f].status) && Busy(t, h, m, f)
  {
    var y := BusyReport(t, h, SetStatus(t, h, m, r, Cancelled), r);
    CancelHitsExactly(t, h, m, r, y);
    HitIffReached(t, h, m, r, y);
    f := StoppedAt(t, h, m, r, y);
    BusyBelow(t, h, m, f, y);
  }

  lemma {:induction false} BusyFinalStays(t: Tree, h: nat, m: Values, r: Id, f: Id)
    requires Fits(t, h, m) && r in t && m[r].status != Cancelled
    requires f in t && f != r && Above(t, h, r, f) && IsFinal(m[f].status) && Busy(t, h, m, f)
    ensures Busy(t, h, SetStatus(t, h, m, r, Cancelled), r)
  {
    var y := BusyReport(t, h, m, f);
    NotReachedBelowFinal(t, h, m, r, f, y);
    HitIffReached(t, h, m, r, y);
    CancelHitsExactly(t, h, m, r, y);
    AboveIsTransitive(t, h, r, f, y);
    BusyBelow(t, h, SetStatus(t, h, m, r, Cancelled), r, y);
  }

  lemma {:induction false} StoppedAt(t: Tree, h: nat, m: Values, r: Id, y: Id) returns (f: Id)
    requires Fits(t, h, m) && r in t && y in t && Above(t, h, r, y) && !Reached(t, h, m, r, y)
    ensures f in t && f != r && Above(t, h, r, f) && Above(t, h, f, y) && IsFinal(m[f].status)
    decreases t[y].depth
  {
    if IsFinal(m[y].status) {
      f := y;
    } else {
      f := StoppedAt(t, h, m, r, Up(t, h, y));
    }
  }

  lemma {:induction false} NotReachedBelowFinal(t: Tree, h: nat, m: Values, r: Id, f: Id, y: Id)
    requires Fits(t, h, m) && r in t && f in t && y in t && Above(t, h, r, f) && Above(t, h, f, y)
    requires f != r && IsFinal(m[f].status)
    ensures !Reached(t, h, m, r, y)
    decreases t[y].depth
  {
    AboveIsHigher(t, h, r, f);
    AboveIsHigher(t, h, f, y);
    if y != f {
      NotReachedBelowFinal(t, h, m, r, f, Up(t, h, y));
    }
  }

  // ---------- finishing ----------

  /** A status set, other than a cancellation, touches the status and the flags of its report alone. */
  lemma {:induction false} SetStatusTouchesOne(t: Tree, h: nat, m: Values, x: Id, s: ExecutionStatus, y: Id)
    requires Fits(t, h, m) && x in t && y in t && s != Cancelled
    ensures var v := if y == x && m[x].status != s then WithStatus(m[x], s) else m[y];
            SameButProgress(v, SetStatus(t, h, m, x, s)[y])
  {
    if m[x].status != s {
      var changed := StatusWritten(t, h, m, x, s);
      StatusWriteIsHeard(t, h, m, x, s, y);
      if s == Finished && changed[x].progress != 100 {
        ChangeIsHeardAlongTheChain(t, h, changed, x, 100, y);
      }
    }
  }

  /**
    Setting another status, short of a cancellation, changes the status of its report alone, raises the
    flag that goes with it, and is heard once; finishing also raises the events of the progress it sets.
   */
  lemma {:induction false} SetStatusMeans(t: Tree, h: nat, m: Values, x: Id, s: ExecutionStatus, y: Id)
    requires Fits(t, h, m) && x in t && y in t && s != Cancelled && m[x].status != s
    ensures var after := SetStatus(t, h, m, x, s)[y];
            && after.status == (if y == x then s else m[y].status)
            && (after.error <==> m[y].error || (y == x && s == Error))
            && (after.warning <==> m[y].warning || (y == x && s == Warning))
            && after.seen == m[y].seen + (Heard(t, h, y, [x], StatusChanged) +
                 if s == Finished && m[x].progress != 100 then Heard(t, h, y, Chain(t, h, x), ProgressChanged) else [])
  {
    var changed := StatusWritten(t, h, m, x, s);
    StatusWriteIsHeard(t, h, m, x, s, y);
    if s == Finished && m[x].progress != 100 {
      ChangeIsHeardAlongTheChain(t, h, changed, x, 100, y);
      Associates(
        m[y].seen, Heard(t, h, y, [x], StatusChanged), Heard(t, h, y, Chain(t, h, x), ProgressChanged));
    }
  }

  /**
    A report set finished shows full progress; unless it did before, the ancestors joined to it show the
    means of their sub reports as they now are. No other progress changes.
   */
  lemma {:induction false} FinishedShowsFullProgress(t: Tree, h: nat, m: Values, x: Id)
    requires Fits(t, h, m) && x in t && m[x].status != Finished
    ensures var after := SetStatus(t, h, m, x, Finished); var chain := Chain(t, h, x);
            && after[x].progress == 100 && (forall a | a in chain :: a in t)
            && (m[x].progress != 100 ==>
                  forall a | a in chain && a != x :: HasActive(t, h, a) && after[a].progress == Mean(t, h, after, a))
            && (forall y | y in t && (m[x].progress == 100 || y !in chain) :: after[y].progress == m[y].progress)
  {
    var changed := StatusWritten(t, h, m, x, Finished);
    forall y | y in t ensures changed[y].progress == m[y].progress {
      StatusWriteIsHeard(t, h, m, x, Finished, y);
    }
    ChangeReachesTheChain(t, h, changed, x, 100);
  }

  /** No other status changes any progress. */
  lemma {:induction false} OtherStatusesKeepProgress(t: Tree, h: nat, m: Values, x: Id, s: ExecutionStatus, y: Id)
    requires Fits(t, h, m) && x in t && y in t && s != Finished
    ensures SetStatus(t, h, m, x, s)[y].progress == m[y].progress
  {
    if m[x].status != s {
      if s == Cancelled {
        CancelHitsExactly(t, h, m, x, y);
      } else {
        StatusWriteIsHeard(t, h, m, x, s, y);
      }
    }
  }

  /** Setting a status changes the progress of the report and of its ancestors at most. */
  lemma {:induction false} SetStatusKeepsProgressElsewhere(t: Tree, h: nat, m: Values, x: Id, s: ExecutionStatus, y: Id)
    requires Fits(t, h, m) && x in t && y in t && !Above(t, h, y, x)
    ensures SetStatus(t, h, m, x, s)[y].progress == m[y].progress
  {
    if s != Finished {
      OtherStatusesKeepProgress(t, h, m, x, s, y);
    } else if m[x].status != s {
      FinishedShowsFullProgress(t, h, m, x);
      if y in Chain(t, h, x) {
        ChainIsAbove(t, h, x, y);
      }
    }
  }

  /** Some report below `x` has logged an error, or finishes under an uncaught exception. */
  ghost predicate ErrorWithin(t: Tree, h: nat, m: Values, thrown: set<Id>, x: Id)
    requires Fits(t, h, m) && x in t
  {
    exists y | y in t :: Above(t, h, x, y) && (m[y].error || y in thrown)
  }

  ghost predicate WarningWithin(t: Tree, h: nat, m: Values, x: Id)
    requires Fits(t, h, m) && x in t
  {
    exists y | y in t :: Above(t, h, x, y) && m[y].warning
  }

  /** The status a finished report tree should show at `x`. */
  ghost function Verdict(t: Tree, h: nat, m: Values, thrown: set<Id>, x: Id): ExecutionStatus
    requires Fits(t, h, m) && x in t
  {
    if ErrorWithin(t, h, m, thrown, x) then Error
    else if WarningWithin(t, h, m, x) then Warning
    else Finished
  }

  /** The guards of some reports end, one after the other. */
  ghost function FinishAll(t: Tree, h: nat, m: Values, order: seq<Id>, thrown: set<Id>): (r: Values)
    requires Fits(t, h, m) && forall x | x in order :: x in t
    ensures r.Keys == m.Keys
  {
    if order == [] then m
    else
      var last := order[|order| - 1];
      GuardFinish(t, h, FinishAll(t, h, m, order[..|order| - 1], thrown), last, last in thrown)
  }

  /** Every report ends once, after all of its sub reports. */
  ghost predicate BottomUp(t: Tree, h: nat, order: seq<Id>)
    requires Forest(t, h)
  {
    && Distinct(order)
    && forall i | 0 <= i < |order| :: order[i] in t && forall c | c in Subs(t, h, order[i]) :: c in order[..i]
  }

  /** The verdict of a report follows from its own flags and the verdicts of its sub reports. */
  lemma {:induction false} VerdictFromSubs(t: Tree, h: nat, m: Values, thrown: set<Id>, x: Id)
    requires Fits(t, h, m) && x in t
    ensures var subs := Subs(t, h, x);
            && (ErrorWithin(t, h, m, thrown, x) <==>
                m[x].error || x in thrown || exists i | 0 <= i < |subs| :: Verdict(t, h, m, thrown, subs[i]) == Error)
            && (!ErrorWithin(t, h, m, thrown, x) ==>
                (WarningWithin(t, h, m, x)
                 <==> m[x].warning || exists i | 0 <= i < |subs| :: Verdict(t, h, m, thrown, subs[i]) == Warning))
  {
    ErrorFromSubs(t, h, m, thrown, x);
    if !ErrorWithin(t, h, m, thrown, x) {
      WarningFromSubs(t, h, m, thrown, x);
    }
  }

  lemma {:induction false} ErrorFromSubs(t: Tree, h: nat, m: Values, thrown: set<Id>, x: Id)
    requires Fits(t, h, m) && x in t
    ensures var subs := Subs(t, h, x);
            ErrorWithin(t, h, m, thrown, x)
            <==> m[x].error || x in thrown || exists i | 0 <= i < |subs| :: Verdict(t, h, m, thrown, subs[i]) == Error
  {
    var subs := Subs(t, h, x);
    if y :| y in t && Above(t, h, x, y) && (m[y].error || y in thrown) {
      BelowIffSelfOrBelowSubs(t, h, x, y);
      if y != x {
        var i :| 0 <= i < |subs| && Above(t, h, subs[i], y);
        assert Verdict(t, h, m, thrown, subs[i]) == Error;
      }
    }
    if i :| 0 <= i < |subs| && Verdict(t, h, m, thrown, subs[i]) == Error {
      var y :| y in t && Above(t, h, subs[i], y) && (m[y].error || y in thrown);
      AboveIsTransitive(t, h, x, subs[i], y);
    }
  }

  lemma {:induction false} WarningFromSubs(t: Tree, h: nat, m: Values, thrown: set<Id>, x: Id)
    requires Fits(t, h, m) && x in t && !ErrorWithin(t, h, m, thrown, x)
    ensures var subs := Subs(t, h, x);
            WarningWithin(t, h, m, x)
            <==> m[x].warning || exists i | 0 <= i < |subs| :: Verdict(t, h, m, thrown, subs[i]) == Warning
  {
    var subs := Subs(t, h, x);
    if y :| y in t && Above(t, h, x, y) && m[y].warning {
      BelowIffSelfOrBelowSubs(t, h, x, y);
      if y != x {
        var i :| 0 <= i < |subs| && Above(t, h, subs[i], y);
        if ErrorWithin(t, h, m, thrown, subs[i]) {
          var z :| z in t && Above(t, h, subs[i], z) && (m[z].error || z in thrown);
          AboveIsTransitive(t, h, x, subs[i], z);
        }
        assert Verdict(t, h, m, thrown, subs[i]) == Warning;
      }
    }
    if i :| 0 <= i < |subs| && Verdict(t, h, m, thrown, subs[i]) == Warning {
      var y :| y in t && Above(t, h, subs[i], y) && m[y].warning;
      AboveIsTransitive(t, h, x, subs[i], y);
    }
  }

  /** Finishing leaves sub reports that were finished by their own guards alone and collects their verdicts. */
  lemma {:induction false} FinishSubsCollects(t: Tree, h: nat, v: SubVerdict, subs: seq<Id>)
    requires Fits(t, h, v.values) && (forall c | c in subs :: c in t)
    requires forall i | 0 <= i < |subs| :: v.values[subs[i]].status in [Finished, Warning, Error]
    ensures FinishSubs(t, h, v, subs) == v.(error := v.error || AnyStatus(v.values, subs, Error),
                                            warning := v.warning || AnyStatus(v.values, subs, Warning))
    decreases |subs|
  {
    if subs != [] {
      FinishSubsCollects(t, h, FinishSub(t, h, v, subs[0]), subs[1..]);
    }
  }

  /** Some of the reports has the status. */
  predicate AnyStatus(m: Values, subs: seq<Id>, s: ExecutionStatus)
    requires forall i | 0 <= i < |subs| :: subs[i] in m
  {
    subs != [] && (m[subs[0]].status == s || AnyStatus(m, subs[1..], s))
  }

  lemma {:induction false} AnyStatusIff(m: Values, subs: seq<Id>, s: ExecutionStatus)
    requires forall i | 0 <= i < |subs| :: subs[i] in m
    ensures AnyStatus(m, subs, s) <==> exists i | 0 <= i < |subs| :: m[subs[i]].status == s
  {
    if subs != [] {
      var rest := subs[1..];
      AnyStatusIff(m, rest, s);
      assert forall i | 0 <= i < |rest| :: rest[i] == subs[i + 1];
      assert forall i | 0 < i < |subs| :: subs[i] == rest[i - 1];
    }
  }

  /** The report's own guard sets its verdict, once all its sub reports have theirs. */
  lemma {:induction false} GuardSetsTheVerdict(t: Tree, h: nat, m: Values, n: Values, x: Id, thrown: set<Id>)
    requires Fits(t, h, m) && Fits(t, h, n) && x in t
    requires SameButProgress(m[x], n[x]) && m[x].status == Running
    requires forall c | c in Subs(t, h, x) :: n[c].status == Verdict(t, h, m, thrown, c)
    ensures GuardFinish(t, h, n, x, x in thrown) == SetStatus(t, h, n, x, Verdict(t, h, m, thrown, x))
  {
    FinishSubsCollects(t, h, SubVerdict(n, false, false), Subs(t, h, x));
    AnyStatusIff(n, Subs(t, h, x), Error);
    AnyStatusIff(n, Subs(t, h, x), Warning);
    VerdictFromSubs(t, h, m, thrown, x);
  }

  lemma {:induction false} GuardFinishSettles(t: Tree, h: nat, m: Values, n: Values, x: Id, thrown: set<Id>, y: Id)
    requires Fits(t, h, m) && Fits(t, h, n) && x in t && y in t
    requires SameButProgress(m[x], n[x]) && m[x].status == Running
    requires forall c | c in Subs(t, h, x) :: n[c].status == Verdict(t, h, m, thrown, c)
    ensures var after := GuardFinish(t, h, n, x, x in thrown);
            && (if y == x then after[y].status == Verdict(t, h, m, thrown, x) else SameButProgress(n[y], after[y]))
            && (after[x].status == Finished ==> after[x].progress == 100)
            && (!Above(t, h, y, x) ==> after[y].progress == n[y].progress)
  {
    var verdict := Verdict(t, h, m, thrown, x);
    GuardSetsTheVerdict(t, h, m, n, x, thrown);
    SetStatusTouchesOne(t, h, n, x, verdict, y);
    SetStatusTouchesOne(t, h, n, x, verdict, x);
    FinishedShowsFullProgress(t, h, n, x);
    if !Above(t, h, y, x) {
      SetStatusKeepsProgressElsewhere(t, h, n, x, verdict, y);
    }
  }

  lemma {:induction false} BottomUpPrefix(t: Tree, h: nat, order: seq<Id>)
    requires Forest(t, h) && BottomUp(t, h, order) && order != []
    ensures BottomUp(t, h, order[..|order| - 1])
  {
    var rest := order[..|order| - 1];
    forall i | 0 <= i < |rest| ensures rest[i] in t && forall c | c in Subs(t, h, rest[i]) :: c in rest[..i] {
      assert rest[i] == order[i] && rest[..i] == order[..i];
    }
  }

  /**
    When the guards of running reports end in any order that puts sub reports before their parents,
    every one of them gets its verdict, those that end finished show full progress, and no other
    report's status or flags change.
   */
  lemma {:induction false} FinishAllSettles(t: Tree, h: nat, m: Values, order: seq<Id>, thrown: set<Id>, y: Id)
    requires Fits(t, h, m) && y in t && BottomUp(t, h, order)
    requires forall x | x in order :: x in t && m[x].status == Running
    ensures var after := FinishAll(t, h, m, order, thrown);
            if y in order then
              && after[y].status == Verdict(t, h, m, thrown, y)
              && (after[y].status == Finished ==> after[y].progress == 100)
            else SameButProgress(m[y], after[y])
    decreases |order|
  {
    if order != [] {
      var rest, last := order[..|order| - 1], order[|order| - 1];
      var n := FinishAll(t, h, m, rest, thrown);
      BottomUpPrefix(t, h, order);
      assert order == rest + [last] && last !in rest;
      FinishAllSettles(t, h, m, rest, thrown, y);
      FinishAllSettles(t, h, m, rest, thrown, last);
      forall c | c in Subs(t, h, last) ensures n[c].status == Verdict(t, h, m, thrown, c) {
        FinishAllSettles(t, h, m, rest, thrown, c);
      }
      GuardFinishSettles(t, h, m, n, last, thrown, y);
      if y in rest && Above(t, h, y, last) {
        EverythingBelowEnds(t, h, rest, y, last);
      }
    }
  }

  /** A report whose whole tree has been finished is at rest. */
  lemma {:induction false} FinishedTreeIsNotBusy(t: Tree, h: nat, m: Values, order: seq<Id>, thrown: set<Id>, x: Id)
    requires Fits(t, h, m) && BottomUp(t, h, order) && x in order
    requires forall y | y in order :: y in t && m[y].status == Running
    ensures !Busy(t, h, FinishAll(t, h, m, order, thrown), x)
  {
    var after := FinishAll(t, h, m, order, thrown);
    if Busy(t, h, after, x) {
      var y := BusyReport(t, h, after, x);
      EverythingBelowEnds(t, h, order, x, y);
      FinishAllSettles(t, h, m, order, thrown, y);
    }
  }

  lemma {:induction false} EverythingBelowEnds(t: Tree, h: nat, order: seq<Id>, x: Id, y: Id)
    requires Forest(t, h) && BottomUp(t, h, order) && x in order && y in t && Above(t, h, x, y)
    ensures y in order
    decreases t[y].depth
  {
    if x != y {
      EverythingBelowEnds(t, h, order, x, Up(t, h, y));
      var i :| 0 <= i < |order| && order[i] == Up(t, h, y);
      assert y in Subs(t, h, order[i]);
      assert y in order[..i];
    }
  }

  /**
    Finishing a report does not always leave its sub reports final: one that was asked to cancel, or
    that still runs and logged nothing bad, keeps its status.
   */
  lemma {:induction false} FinishSubIsFinalIff(t: Tree, h: nat, v: SubVerdict, c: Id)
    requires Fits(t, h, v.values) && c in t
    ensures IsFinal(FinishSub(t, h, v, c).values[c].status)
            <==> v.values[c].status != CancelRequest
                 && (v.values[c].status == Running ==> v.values[c].error || v.values[c].warning)
  {
    var m := v.values;
    match m[c].status
    case Pending => CancelHitsExactly(t, h, m, c, c);
    case Running =>
      SetStatusTouchesOne(t, h, m, c, Error, c);
      SetStatusTouchesOne(t, h, m, c, Warning, c);
    case _ =>
  }

  // ---------- one guard on any tree ----------

  predicate EndsInError(v: Vals) {
    v.status == Error || (v.status == Running && v.error)
  }

  predicate EndsInWarning(v: Vals) {
    v.status == Warning || (v.status == Running && v.warning && !v.error)
  }

  /** The status a sub report has after its parent's guard: what was never started is cancelled. */
  function SubOutcome(v: Vals): ExecutionStatus {
    if v.status == Pending then Cancelled
    else if EndsInError(v) then Error
    else if EndsInWarning(v) then Warning
    else v.status
  }

  /**
    What the end of a guard does to any report, its sub reports finished or not: pending sub reports are
    cancelled, running ones end if they have logged an error or a warning; then the report itself, unless
    it already ended, ends with the worst of its own flags and of what its sub reports ended with.
   */
  lemma {:induction false} GuardFinishOutcome(t: Tree, h: nat, m: Values, x: Id, thrown: bool)
    requires Fits(t, h, m) && x in t
    ensures var after := GuardFinish(t, h, m, x, thrown); var subs := Subs(t, h, x);
            && (forall c | c in subs :: after[c].status == SubOutcome(m[c]))
            && after[x].status ==
               (if m[x].status != Running && m[x].status != CancelRequest then m[x].status
                else if thrown || m[x].error || exists c | c in subs :: EndsInError(m[c]) then Error
                else if m[x].warning || exists c | c in subs :: EndsInWarning(m[c]) then Warning
                else Finished)
  {
    var v, subs := SubVerdict(m, false, false), Subs(t, h, x);
    SubsAreDistinct(t, h, x);
    FinishSubsTouchNoOther(t, h, v, x, subs, x);
    FinishSubsLearn(t, h, v, x, subs);
    var n := FinishSubs(t, h, v, subs).values;
    forall c | c in subs ensures GuardFinish(t, h, m, x, thrown)[c].status == SubOutcome(m[c]) {
      FinishSubsEnd(t, h, v, x, subs, c);
      StatusTouchesNoOther(t, h, n, x, c);
    }
    SetStatusTouchesOne(t, h, n, x, Error, x);
    SetStatusTouchesOne(t, h, n, x, Warning, x);
    SetStatusTouchesOne(t, h, n, x, Finished, x);
  }

  lemma {:induction false} StatusTouchesNoOther(t: Tree, h: nat, m: Values, x: Id, y: Id)
    requires Fits(t, h, m) && x in t && y in t && x != y
    ensures forall s | s != Cancelled :: SetStatus(t, h, m, x, s)[y].status == m[y].status
  {
    forall s | s != Cancelled ensures SetStatus(t, h, m, x, s)[y].status == m[y].status {
      SetStatusTouchesOne(t, h, m, x, s, y);
    }
  }

  /** Finishing some sub reports touches neither the others nor the report itself. */
  lemma {:induction false} FinishSubsTouchNoOther(t: Tree, h: nat, v: SubVerdict, x: Id, subs: seq<Id>, y: Id)
    requires Fits(t, h, v.values) && x in t && Among(t, h, x, subs) && (y == x || y in Subs(t, h, x)) && y !in subs
    ensures SameButProgress(v.values[y], FinishSubs(t, h, v, subs).values[y])
    decreases |subs|
  {
    if subs != [] {
      FinishSubTouchesNoOther(t, h, v, x, subs[0], y);
      FinishSubsTouchNoOther(t, h, FinishSub(t, h, v, subs[0]), x, subs[1..], y);
    }
  }

  /** Each of the sub reports has its outcome. */
  lemma {:induction false} FinishSubsEnd(t: Tree, h: nat, v: SubVerdict, x: Id, subs: seq<Id>, y: Id)
    requires Fits(t, h, v.values) && x in t && Among(t, h, x, subs) && Distinct(subs) && y in subs
    ensures FinishSubs(t, h, v, subs).values[y].status == SubOutcome(v.values[y])
    decreases |subs|
  {
    var c, rest, w := subs[0], subs[1..], FinishSub(t, h, v, subs[0]);
    FinishSubTouchesNoOther(t, h, v, x, c, y);
    if y == c {
      FinishSubsTouchNoOther(t, h, w, x, rest, y);
    } else {
      FinishSubsEnd(t, h, w, x, rest, y);
      SameOutcome(v.values[y], w.values[y]);
    }
  }

  lemma {:induction false} SameOutcome(v: Vals, w: Vals)
    requires SameButProgress(v, w)
    ensures SubOutcome(v) == SubOutcome(w)
  {
  }

  /** What finishing some sub reports learns from them. */
  lemma {:induction false} FinishSubsLearn(t: Tree, h: nat, v: SubVerdict, x: Id, subs: seq<Id>)
    requires Fits(t, h, v.values) && x in t && Among(t, h, x, subs) && Distinct(subs)
    ensures var r := FinishSubs(t, h, v, subs);
            && (r.error <==> v.error || SomeEndsInError(v.values, subs))
            && (r.warning <==> v.warning || SomeEndsInWarning(v.values, subs))
    decreases |subs|
  {
    if subs != [] {
      var c, rest := subs[0], subs[1..];
      var w := FinishSub(t, h, v, c);
      FinishSubLearns(t, h, v, c);
      FinishSubsLearn(t, h, w, x, rest);
      forall s | s in rest ensures SameButProgress(v.values[s], w.values[s]) {
        FinishSubTouchesNoOther(t, h, v, x, c, s);
      }
      SomeEndAlike(v.values, w.values, rest);
      SomeEndsFirstOrLater(v.values, subs);
    }
  }

  ghost predicate SomeEndsInError(m: Values, subs: seq<Id>)
    requires forall c | c in subs :: c in m
  {
    exists c | c in subs :: EndsInError(m[c])
  }

  ghost predicate SomeEndsInWarning(m: Values, subs: seq<Id>)
    requires forall c | c in subs :: c in m
  {
    exists c | c in subs :: EndsInWarning(m[c])
  }

  lemma {:induction false} SomeEndAlike(m: Values, n: Values, subs: seq<Id>)
    requires forall c | c in subs :: c in m && c in n && SameButProgress(m[c], n[c])
    ensures SomeEndsInError(m, subs) <==> SomeEndsInError(n, subs)
    ensures SomeEndsInWarning(m, subs) <==> SomeEndsInWarning(n, subs)
  {
  }

  lemma {:induction false} SomeEndsFirstOrLater(m: Values, subs: seq<Id>)
    requires subs != [] && forall c | c in subs :: c in m
    ensures SomeEndsInError(m, subs) <==> EndsInError(m[subs[0]]) || SomeEndsInError(m, subs[1..])
    ensures SomeEndsInWarning(m, subs) <==> EndsInWarning(m[subs[0]]) || SomeEndsInWarning(m, subs[1..])
  {
    assert subs == [subs[0]] + subs[1..];
  }

  lemma {:induction false} FinishSubLearns(t: Tree, h: nat, v: SubVerdict, c: Id)
    requires Fits(t, h, v.values) && c in t
    ensures var w := FinishSub(t, h, v, c);
            && (w.error <==> v.error || EndsInError(v.values[c]))
            && (w.warning <==> v.warning || EndsInWarning(v.values[c]))
  {
  }

  /** Finishing a sub report touches no sibling of it and not its parent. */
  lemma {:induction false} FinishSubTouchesNoOther(t: Tree, h: nat, v: SubVerdict, x: Id, c: Id, y: Id)
    requires Fits(t, h, v.values) && x in t && c in Subs(t, h, x) && (y == x || y in Subs(t, h, x))
    ensures var after := FinishSub(t, h, v, c).values;
            if y == c then after[y].status == SubOutcome(v.values[y]) else SameButProgress(v.values[y], after[y])
  {
    var m := v.values;
    match m[c].status
    case Pending => CancelTouchesNoOther(t, h, m, x, c, y);
    case Running =>
      if m[c].error {
        SetStatusTouchesOne(t, h, m, c, Error, y);
      } else if m[c].warning {
        SetStatusTouchesOne(t, h, m, c, Warning, y);
      }
    case _ =>
  }

  lemma {:induction false} CancelTouchesNoOther(t: Tree, h: nat, m: Values, x: Id, c: Id, y: Id)
    requires Fits(t, h, m) && x in t && c in Subs(t, h, x) && (y == x || y in Subs(t, h, x))
    requires m[c].status != Cancelled
    ensures var after := SetStatus(t, h, m, c, Cancelled);
            if y == c then after[y].status == Cancelled else SameButProgress(m[y], after[y])
  {
    CancelHitsExactly(t, h, m, c, y);
    if y in Hits(t, h, m, c) {
      HitsAreBelow(t, h, m, c, y);
      AboveIsHigher(t, h, c, y);
    }
  }

  // ---------- setting the same again ----------

  /** Setting a status or a progress a second time changes nothing and is not heard. */
  lemma {:induction false} SettingAgainIsSilent(t: Tree, h: nat, m: Values, x: Id, s: ExecutionStatus, p: Progress)
    requires Fits(t, h, m) && x in t
    ensures var once := SetStatus(t, h, m, x, s); SetStatus(t, h, once, x, s) == once
    ensures var once := ReportModel.SetProgress(t, h, m, x, p); ReportModel.SetProgress(t, h, once, x, p) == once
  {
    if s != Cancelled {
      SetStatusTouchesOne(t, h, m, x, s, x);
    } else if m[x].status != Cancelled {
      CancelHitsExactly(t, h, m, x, x);
    }
    ChangeReachesTheChain(t, h, m, x, p);
  }
}
