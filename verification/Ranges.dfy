/** Intersection of two sorted lists of disjoint closed ranges. */
module Ranges {
  import opened Wrappers

  datatype Range = Range(begin: int, end: int) {
    predicate Contains(v: int) {
      begin <= v <= end
    }
  }

  function Max(a: int, b: int): int {
    if a < b then b else a
  }

  function Min(a: int, b: int): int {
    if b < a then b else a
  }

  predicate HasOverlap(lhs: Range, rhs: Range) {
    lhs.Contains(rhs.begin) || lhs.Contains(rhs.end) || rhs.Contains(lhs.begin) || rhs.Contains(lhs.end)
  }

  function GetOverlap(lhs: Range, rhs: Range): Option<Range> {
    if !HasOverlap(lhs, rhs) then None
    else Some(Range(Max(lhs.begin, rhs.begin), Min(lhs.end, rhs.end)))
  }

  /** The comparator of the search: the left range lies wholly before the right one. */
  predicate Before(lhs: Range, rhs: Range) {
    lhs.end < rhs.begin
  }

  predicate NonEmpty(r: Range) {
    r.begin <= r.end
  }

  /** Of two ranges that are not empty, neither lies before the other exactly when they share a point. */
  lemma {:induction false} OverlapIff(a: Range, b: Range)
    requires NonEmpty(a) && NonEmpty(b)
    ensures HasOverlap(a, b) <==> !Before(a, b) && !Before(b, a)
    ensures HasOverlap(a, b) <==> exists v :: a.Contains(v) && b.Contains(v)
    ensures HasOverlap(a, b) ==> NonEmpty(GetOverlap(a, b).value)
    ensures forall v :: (GetOverlap(a, b).Some? && GetOverlap(a, b).value.Contains(v)) <==>
            a.Contains(v) && b.Contains(v)
  {
    if HasOverlap(a, b) {
      assert a.Contains(Max(a.begin, b.begin)) && b.Contains(Max(a.begin, b.begin));
    }
  }

  /** Non-empty ranges in increasing order, no two sharing a point. */
  ghost predicate Sorted(rs: seq<Range>) {
    && (forall i | 0 <= i < |rs| :: NonEmpty(rs[i]))
    && (forall i, j | 0 <= i < j < |rs| :: Before(rs[i], rs[j]))
  }

  ghost predicate Covers(rs: seq<Range>, v: int) {
    exists i | 0 <= i < |rs| :: rs[i].Contains(v)
  }

  // ---------- the binary searches ----------

  /** The first position whose range does not lie before the given one. */
  method LowerBound(rs: seq<Range>, value: Range) returns (lo: nat)
    requires Sorted(rs) && NonEmpty(value)
    ensures lo <= |rs|
    ensures forall i | 0 <= i < lo :: Before(rs[i], value)
    ensures forall i | lo <= i < |rs| :: !Before(rs[i], value)
  {
    lo := 0;
    var len: nat := |rs|;
    while len != 0
      invariant lo + len <= |rs|
      invariant forall i | 0 <= i < lo :: Before(rs[i], value)
      invariant forall i | lo + len <= i < |rs| :: !Before(rs[i], value)
      decreases len
    {
      var half := len / 2;
      var middle := lo + half;
      if Before(rs[middle], value) {
        forall i | 0 <= i < middle ensures Before(rs[i], value) {
          assert Before(rs[i], rs[middle]);
        }
        lo, len := middle + 1, len - half - 1;
      } else {
        forall i | middle < i < |rs| ensures !Before(rs[i], value) {
          assert Before(rs[middle], rs[i]);
        }
        len := half;
      }
    }
  }

  /** The first position from `from` on that the given range lies before. */
  method UpperBound(rs: seq<Range>, from: nat, value: Range) returns (hi: nat)
    requires Sorted(rs) && NonEmpty(value) && from <= |rs|
    ensures from <= hi <= |rs|
    ensures forall i | from <= i < hi :: !Before(value, rs[i])
    ensures forall i | hi <= i < |rs| :: Before(value, rs[i])
  {
    hi := from;
    var len: nat := |rs| - from;
    while len != 0
      invariant from <= hi && hi + len <= |rs|
      invariant forall i | from <= i < hi :: !Before(value, rs[i])
      invariant forall i | hi + len <= i < |rs| :: Before(value, rs[i])
      decreases len
    {
      var half := len / 2;
      var middle := hi + half;
      if Before(value, rs[middle]) {
        forall i | middle < i < |rs| ensures Before(value, rs[i]) {
          assert Before(rs[middle], rs[i]);
        }
        len := half;
      } else {
        forall i | from <= i < middle ensures !Before(value, rs[i]) {
          assert Before(rs[i], rs[middle]);
        }
        hi, len := middle + 1, len - half - 1;
      }
    }
  }

  /** The ranges that overlap the given one stand next to each other; this finds where. */
  method EqualRange(rs: seq<Range>, value: Range) returns (lo: nat, hi: nat)
    requires Sorted(rs) && NonEmpty(value)
    ensures lo <= hi <= |rs|
    ensures forall i | 0 <= i < |rs| :: HasOverlap(value, rs[i]) <==> lo <= i < hi
  {
    lo := LowerBound(rs, value);
    hi := UpperBound(rs, lo, value);
    forall i | 0 <= i < |rs| ensures HasOverlap(value, rs[i]) <==> lo <= i < hi {
      OverlapIff(value, rs[i]);
    }
  }

  // ---------- what merging means ----------

  /** The overlaps of one range with each of a list, in order. */
  function Overlaps(r: Range, rs: seq<Range>): seq<Range> {
    if rs == [] then []
    else (if HasOverlap(r, rs[0]) then [GetOverlap(r, rs[0]).value] else []) + Overlaps(r, rs[1..])
  }

  function Merged(a: seq<Range>, b: seq<Range>): seq<Range> {
    if a == [] then [] else Overlaps(a[0], b) + Merged(a[1..], b)
  }

  lemma {:induction false} OverlapsConcat(r: Range, x: seq<Range>, y: seq<Range>)
    ensures Overlaps(r, x + y) == Overlaps(r, x) + Overlaps(r, y)
  {
    if x == [] {
      assert x + y == y;
    } else {
      assert (x + y)[1..] == x[1..] + y;
      OverlapsConcat(r, x[1..], y);
    }
  }

  lemma {:induction false} NoOverlaps(r: Range, rs: seq<Range>)
    requires forall i | 0 <= i < |rs| :: !HasOverlap(r, rs[i])
    ensures Overlaps(r, rs) == []
  {
    if rs != [] {
      NoOverlaps(r, rs[1..]);
    }
  }

  lemma {:induction false} OverlapsWithin(r: Range, rs: seq<Range>, lo: nat, hi: nat)
    requires lo <= hi <= |rs| && forall i | 0 <= i < |rs| && HasOverlap(r, rs[i]) :: lo <= i < hi
    ensures Overlaps(r, rs) == Overlaps(r, rs[lo..hi])
  {
    assert rs == rs[..lo] + rs[lo..hi] + rs[hi..];
    OverlapsConcat(r, rs[..lo] + rs[lo..hi], rs[hi..]);
    OverlapsConcat(r, rs[..lo], rs[lo..hi]);
    NoOverlaps(r, rs[..lo]);
    NoOverlaps(r, rs[hi..]);
  }

  lemma {:induction false} MergedConcat(x: seq<Range>, y: seq<Range>, b: seq<Range>)
    ensures Merged(x + y, b) == Merged(x, b) + Merged(y, b)
  {
    if x == [] {
      assert x + y == y;
    } else {
      assert (x + y)[1..] == x[1..] + y;
      MergedConcat(x[1..], y, b);
    }
  }

  lemma {:induction false} OneMore(a: seq<Range>, i: nat, b: seq<Range>)
    requires i < |a|
    ensures Merged(a[..i + 1], b) == Merged(a[..i], b) + Overlaps(a[i], b)
  {
    assert a[..i + 1] == a[..i] + [a[i]];
    MergedConcat(a[..i], [a[i]], b);
    assert Merged([a[i]], b) == Overlaps(a[i], b) + Merged([], b);
  }

  lemma {:induction false} OneMoreOverlap(r: Range, rs: seq<Range>, j: nat)
    requires j < |rs| && HasOverlap(r, rs[j])
    ensures Overlaps(r, rs[..j + 1]) == Overlaps(r, rs[..j]) + [GetOverlap(r, rs[j]).value]
  {
    assert rs[..j + 1] == rs[..j] + [rs[j]];
    OverlapsConcat(r, rs[..j], [rs[j]]);
    assert Overlaps(r, [rs[j]]) == [GetOverlap(r, rs[j]).value] + Overlaps(r, []);
  }

  /** The intersection as the program computes it: the overlap it takes for each selected pair always exists. */
  method Merge(rngs1: seq<Range>, rngs2: seq<Range>) returns (result: seq<Range>)
    requires Sorted(rngs1) && Sorted(rngs2)
    ensures result == Merged(rngs1, rngs2)
    ensures Sorted(result)
    ensures forall v :: Covers(result, v) <==> Covers(rngs1, v) && Covers(rngs2, v)
    ensures rngs1 != [] && rngs2 != [] ==> |result| <= |rngs1| + |rngs2| - 1
  {
    result := [];
    for i := 0 to |rngs1|
      invariant result == Merged(rngs1[..i], rngs2)
    {
      var range := rngs1[i];
      var lo, hi := EqualRange(rngs2, range);
      ghost var before := result;
      assert before + Overlaps(range, rngs2[lo..hi][..0]) == before;
      for j := lo to hi
        invariant result == before + Overlaps(range, rngs2[lo..hi][..j - lo])
      {
        assert rngs2[lo..hi][j - lo] == rngs2[j];
        var overlap := GetOverlap(range, rngs2[j]);
        assert overlap.Some?;
        OneMoreOverlap(range, rngs2[lo..hi], j - lo);
        result := result + [overlap.value];
      }
      assert rngs2[lo..hi][..hi - lo] == rngs2[lo..hi];
      OverlapsWithin(range, rngs2, lo, hi);
      OneMore(rngs1, i, rngs2);
    }
    assert rngs1[..|rngs1|] == rngs1;
    MergedIsSorted(rngs1, rngs2);
    MergedCoversTheIntersection(rngs1, rngs2);
    if rngs1 != [] && rngs2 != [] {
      MergedIsShort(rngs1, rngs2);
    }
  }

  // ---------- which ranges come out ----------

  lemma {:induction false} InOverlaps(r: Range, rs: seq<Range>, x: Range)
    ensures x in Overlaps(r, rs) <==> exists j | 0 <= j < |rs| :: GetOverlap(r, rs[j]) == Some(x)
  {
    if rs != [] {
      InOverlaps(r, rs[1..], x);
      if j :| 0 <= j < |rs[1..]| && GetOverlap(r, rs[1..][j]) == Some(x) {
        assert rs[j + 1] == rs[1..][j];
      }
      if j :| 0 <= j < |rs| && GetOverlap(r, rs[j]) == Some(x) {
        assert j == 0 || rs[1..][j - 1] == rs[j];
      }
    }
  }

  /** The ranges that come out are the overlaps of the pairs that have one. */
  lemma {:induction false} InMerged(a: seq<Range>, b: seq<Range>, x: Range)
    ensures x in Merged(a, b) <==> exists i, j | 0 <= i < |a| && 0 <= j < |b| :: GetOverlap(a[i], b[j]) == Some(x)
  {
    if a != [] {
      InMerged(a[1..], b, x);
      InOverlaps(a[0], b, x);
      if i, j :| 0 <= i < |a[1..]| && 0 <= j < |b| && GetOverlap(a[1..][i], b[j]) == Some(x) {
        assert a[i + 1] == a[1..][i];
      }
      if i, j :| 0 <= i < |a| && 0 <= j < |b| && GetOverlap(a[i], b[j]) == Some(x) {
        assert i == 0 || a[1..][i - 1] == a[i];
      }
    }
  }

  /** The points covered by the result are exactly those covered by both lists. */
  lemma {:induction false} MergedCoversTheIntersection(a: seq<Range>, b: seq<Range>)
    requires Sorted(a) && Sorted(b)
    ensures forall v :: Covers(Merged(a, b), v) <==> Covers(a, v) && Covers(b, v)
  {
    forall v ensures Covers(Merged(a, b), v) <==> Covers(a, v) && Covers(b, v) {
      if k :| 0 <= k < |Merged(a, b)| && Merged(a, b)[k].Contains(v) {
        InMerged(a, b, Merged(a, b)[k]);
        var i, j :| 0 <= i < |a| && 0 <= j < |b| && GetOverlap(a[i], b[j]) == Some(Merged(a, b)[k]);
        OverlapIff(a[i], b[j]);
        assert a[i].Contains(v) && b[j].Contains(v);
      }
      if i, j :| 0 <= i < |a| && 0 <= j < |b| && a[i].Contains(v) && b[j].Contains(v) {
        OverlapIff(a[i], b[j]);
        var x := GetOverlap(a[i], b[j]).value;
        InMerged(a, b, x);
        var k :| 0 <= k < |Merged(a, b)| && Merged(a, b)[k] == x;
      }
    }
  }

  lemma {:induction false} SortedConcat(x: seq<Range>, y: seq<Range>)
    requires Sorted(x) && Sorted(y) && forall p, q | p in x && q in y :: Before(p, q)
    ensures Sorted(x + y)
  {
    var s := x + y;
    forall i, j | 0 <= i < j < |s| ensures Before(s[i], s[j]) {
      if i < |x| <= j {
        assert s[i] in x && s[j] in y;
      }
    }
  }

  lemma {:induction false} OverlapsAreSorted(r: Range, rs: seq<Range>)
    requires NonEmpty(r) && Sorted(rs)
    ensures Sorted(Overlaps(r, rs))
  {
    if rs != [] {
      OverlapsAreSorted(r, rs[1..]);
      OverlapIff(r, rs[0]);
      if HasOverlap(r, rs[0]) {
        var x := GetOverlap(r, rs[0]).value;
        forall q | q in Overlaps(r, rs[1..]) ensures Before(x, q) {
          InOverlaps(r, rs[1..], q);
          var j :| 0 <= j < |rs[1..]| && GetOverlap(r, rs[1..][j]) == Some(q);
          assert Before(rs[0], rs[j + 1]);
        }
        SortedConcat([x], Overlaps(r, rs[1..]));
      } else {
        assert Overlaps(r, rs) == Overlaps(r, rs[1..]);
      }
    }
  }

  lemma {:induction false} MergedIsSorted(a: seq<Range>, b: seq<Range>)
    requires Sorted(a) && Sorted(b)
    ensures Sorted(Merged(a, b))
  {
    if a != [] {
      MergedIsSorted(a[1..], b);
      OverlapsAreSorted(a[0], b);
      forall p, q | p in Overlaps(a[0], b) && q in Merged(a[1..], b) ensures Before(p, q) {
        InOverlaps(a[0], b, p);
        InMerged(a[1..], b, q);
        var i, j :| 0 <= i < |a[1..]| && 0 <= j < |b| && GetOverlap(a[1..][i], b[j]) == Some(q);
        assert Before(a[0], a[i + 1]);
      }
      SortedConcat(Overlaps(a[0], b), Merged(a[1..], b));
    }
  }

  // ---------- commutativity ----------

  lemma {:induction false} SortedIsUnique(x: seq<Range>, y: seq<Range>)
    requires Sorted(x) && Sorted(y) && forall r :: r in x <==> r in y
    ensures x == y
  {
    if x == [] {
      if y != [] {
        FirstIsMember(y);
      }
    } else {
      assert x[0] in y;
      var i :| 0 <= i < |y| && y[i] == x[0];
      assert y[0] in x;
      var j :| 0 <= j < |x| && x[j] == y[0];
      assert i == 0;
      forall r ensures r in x[1..] <==> r in y[1..] {
        TailMembers(x, r);
        TailMembers(y, r);
      }
      SortedIsUnique(x[1..], y[1..]);
      assert x == [x[0]] + x[1..] && y == [y[0]] + y[1..];
    }
  }

  lemma {:induction false} FirstIsMember(x: seq<Range>)
    requires x != []
    ensures x[0] in x
  {
  }

  lemma {:induction false} TailMembers(x: seq<Range>, r: Range)
    requires Sorted(x) && x != []
    ensures r in x[1..] <==> r in x && r != x[0]
  {
    if r in x[1..] {
      var i :| 0 <= i < |x[1..]| && x[1..][i] == r;
      assert Before(x[0], x[i + 1]);
    }
    if r in x && r != x[0] {
      var i :| 0 <= i < |x| && x[i] == r;
      assert x[1..][i - 1] == r;
    }
  }

  /** Merging does not depend on which list comes first. */
  lemma {:induction false} MergedCommutes(a: seq<Range>, b: seq<Range>)
    requires Sorted(a) && Sorted(b)
    ensures Merged(a, b) == Merged(b, a)
  {
    MergedIsSorted(a, b);
    MergedIsSorted(b, a);
    forall r ensures r in Merged(a, b) <==> r in Merged(b, a) {
      InBothOrders(a, b, r);
      InBothOrders(b, a, r);
    }
    SortedIsUnique(Merged(a, b), Merged(b, a));
  }

  lemma {:induction false} OverlapCommutes(a: Range, b: Range)
    ensures GetOverlap(a, b) == GetOverlap(b, a)
  {
  }

  lemma {:induction false} InBothOrders(a: seq<Range>, b: seq<Range>, r: Range)
    ensures r in Merged(a, b) ==> r in Merged(b, a)
  {
    if r in Merged(a, b) {
      InMerged(a, b, r);
      var i, j :| 0 <= i < |a| && 0 <= j < |b| && GetOverlap(a[i], b[j]) == Some(r);
      OverlapCommutes(a[i], b[j]);
      InMerged(b, a, r);
    }
  }

  // ---------- size ----------

  lemma {:induction false} OverlapsCount(r: Range, rs: seq<Range>)
    ensures |Overlaps(r, rs)| <= |rs|
  {
    if rs != [] {
      OverlapsCount(r, rs[1..]);
    }
  }

  /** Ranges that lie before everything on one side add nothing. */
  lemma {:induction false} MergedSkips(a: seq<Range>, b: seq<Range>, k: nat)
    requires Sorted(a) && Sorted(b) && k <= |b| && forall i, j | 0 <= i < |a| && 0 <= j < k :: Before(b[j], a[i])
    ensures Merged(a, b) == Merged(a, b[k..])
  {
    if a != [] {
      assert forall i | 0 <= i < |a[1..]| :: a[1..][i] == a[i + 1];
      MergedSkips(a[1..], b, k);
      OverlapsSkip(a[0], b, k);
    }
  }

  lemma {:induction false} OverlapsSkip(r: Range, rs: seq<Range>, k: nat)
    requires NonEmpty(r) && Sorted(rs) && k <= |rs| && forall j | 0 <= j < k :: Before(rs[j], r)
    ensures Overlaps(r, rs) == Overlaps(r, rs[k..])
  {
    forall j | 0 <= j < |rs| && HasOverlap(r, rs[j]) ensures k <= j {
      OverlapIff(r, rs[j]);
    }
    OverlapsWithin(r, rs, k, |rs|);
    assert rs[k..|rs|] == rs[k..];
  }

  /**
    Two lists that are not empty have at most one overlap fewer than ranges: from one overlapping
    pair to the next, the sum of the two positions goes up.
   */
  lemma {:induction false} MergedIsShort(a: seq<Range>, b: seq<Range>)
    requires Sorted(a) && Sorted(b) && a != [] && b != []
    ensures |Merged(a, b)| <= |a| + |b| - 1
  {
    var rest := a[1..];
    OverlapsCount(a[0], b);
    if rest != [] {
      var k := LastOverlap(a[0], b);
      if k.None? {
        NoOverlaps(a[0], b);
        MergedIsShort(rest, b);
      } else {
        var last := k.value;
        forall i, j | 0 <= i < |rest| && 0 <= j < last ensures Before(b[j], rest[i]) {
          OverlapIff(a[0], b[last]);
          assert Before(b[j], b[last]) && Before(a[0], a[i + 1]);
        }
        MergedSkips(rest, b, last);
        MergedIsShort(rest, b[last..]);
        OverlapsWithin(a[0], b, 0, last + 1);
        OverlapsCount(a[0], b[0..last + 1]);
      }
    }
  }

  lemma {:induction false} LastOverlap(r: Range, rs: seq<Range>) returns (k: Option<nat>)
    ensures k.None? ==> forall j | 0 <= j < |rs| :: !HasOverlap(r, rs[j])
    ensures k.Some? ==> k.value < |rs| && HasOverlap(r, rs[k.value])
    ensures k.Some? ==> forall j | k.value < j < |rs| :: !HasOverlap(r, rs[j])
  {
    if rs == [] {
      k := None;
    } else if HasOverlap(r, rs[|rs| - 1]) {
      k := Some(|rs| - 1);
    } else {
      k := LastOverlap(r, rs[..|rs| - 1]);
    }
  }
}
