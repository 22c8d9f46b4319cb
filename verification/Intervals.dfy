/** Busy-interval sweeps of the timeline tools, against the set of cycles covered. */
module Intervals {
  import opened Arithmetic

  /** [start, end). */
  type Interval = (int, int)

  function Range(a: int, b: int): (s: set<int>)
    ensures forall x :: x in s <==> a <= x < b
    ensures |s| == if a < b then b - a else 0
    decreases b - a
  {
    if b <= a then {} else Range(a, b - 1) + {b - 1}
  }

  /** The cycles lying in some interval. */
  function Covered(iv: seq<Interval>): set<int> {
    if iv == [] then {} else Range(iv[0].0, iv[0].1) + Covered(iv[1..])
  }

  predicate LexLe(p: Interval, q: Interval) {
    p.0 < q.0 || (p.0 == q.0 && p.1 <= q.1)
  }

  ghost predicate SortedLex(iv: seq<Interval>) {
    forall i, j :: 0 <= i < j < |iv| ==> LexLe(iv[i], iv[j])
  }

  function Insert(p: Interval, iv: seq<Interval>): (r: seq<Interval>)
    requires SortedLex(iv)
    ensures SortedLex(r) && |r| == |iv| + 1 && forall q :: q in r <==> q == p || q in iv
  {
    if iv == [] then [p]
    else if LexLe(p, iv[0]) then [p] + iv
    else
      assert forall q :: q in iv <==> q == iv[0] || q in iv[1..];
      assert forall q :: q in iv[1..] ==> LexLe(iv[0], q);
      var rest := Insert(p, iv[1..]);
      assert forall i :: 0 <= i < |rest| ==> rest[i] in rest && LexLe(iv[0], rest[i]);
      [iv[0]] + rest
  }

  /** Tuples in increasing order, as Python's sorted gives them. */
  function Sorted(iv: seq<Interval>): (r: seq<Interval>)
    ensures SortedLex(r) && |r| == |iv|
  {
    if iv == [] then [] else Insert(iv[0], Sorted(iv[1..]))
  }

  lemma {:induction false} InsertPermutes(p: Interval, iv: seq<Interval>)
    requires SortedLex(iv)
    ensures multiset(Insert(p, iv)) == multiset(iv) + multiset{p}
  {
    if iv != [] && !LexLe(p, iv[0]) {
      InsertPermutes(p, iv[1..]);
      assert iv == [iv[0]] + iv[1..];
    }
  }

  /** Sorting permutes, by start and then by end. */
  lemma {:induction false} SortedPermutes(iv: seq<Interval>)
    ensures multiset(Sorted(iv)) == multiset(iv)
    ensures var s := Sorted(iv);
            forall i, j :: 0 <= i < j < |s| ==> s[i].0 <= s[j].0 && (s[i].0 == s[j].0 ==> s[i].1 <= s[j].1)
  {
    if iv != [] {
      SortedPermutes(iv[1..]);
      InsertPermutes(iv[0], Sorted(iv[1..]));
      assert iv == [iv[0]] + iv[1..];
    }
  }

  lemma {:induction false} CoveredMember(iv: seq<Interval>, x: int)
    ensures x in Covered(iv) <==> exists p :: p in iv && p.0 <= x < p.1
  {
    if iv != [] {
      CoveredMember(iv[1..], x);
      if p :| p in iv && p.0 <= x < p.1 {
        assert p == iv[0] || p in iv[1..];
      }
    }
  }

  /** Coverage does not depend on order or multiplicity. */
  lemma SameCover(a: seq<Interval>, b: seq<Interval>)
    requires forall p :: p in a <==> p in b
    ensures Covered(a) == Covered(b)
  {
    forall x
      ensures x in Covered(a) <==> x in Covered(b)
    {
      CoveredMember(a, x);
      CoveredMember(b, x);
    }
  }

  lemma SortKeepsCover(iv: seq<Interval>)
    ensures forall p :: p in Sorted(iv) <==> p in iv
    ensures Covered(Sorted(iv)) == Covered(iv)
  {
    SortedPermutes(iv);
    forall p
      ensures p in Sorted(iv) <==> p in iv
    {
      assert p in multiset(Sorted(iv)) <==> p in multiset(iv);
    }
    SameCover(Sorted(iv), iv);
  }

  lemma {:induction false} CoveredConcat(a: seq<Interval>, b: seq<Interval>)
    ensures Covered(a + b) == Covered(a) + Covered(b)
  {
    if a == [] {
      assert a + b == b;
    } else {
      assert (a + b)[1..] == a[1..] + b;
      CoveredConcat(a[1..], b);
    }
  }

  /** No interval ends before it starts. */
  ghost predicate Ordered(iv: seq<Interval>) {
    forall i :: 0 <= i < |iv| ==> iv[i].0 <= iv[i].1
  }

  /** Every interval ends before any later one starts. */
  ghost predicate Spaced(iv: seq<Interval>) {
    forall i, j :: 0 <= i < j < |iv| ==> iv[i].1 < iv[j].0
  }

  /** Sorted, disjoint, and with a gap between neighbours. */
  ghost predicate Separated(iv: seq<Interval>) {
    Ordered(iv) && Spaced(iv)
  }

  /** p lies within an interval of out. */
  ghost predicate Within(p: Interval, out: seq<Interval>) {
    exists i :: 0 <= i < |out| && out[i].0 <= p.0 && p.1 <= out[i].1
  }

  ghost predicate Starts(iv: seq<Interval>, a: int) {
    exists i :: 0 <= i < |iv| && iv[i].0 == a
  }

  ghost predicate Ends(iv: seq<Interval>, b: int) {
    exists i :: 0 <= i < |iv| && iv[i].1 == b
  }

  /** Every interval of iv lies within one of out; each of those starts and ends where some of iv do. */
  ghost predicate Tight(iv: seq<Interval>, out: seq<Interval>) {
    && (forall i :: 0 <= i < |iv| ==> Within(iv[i], out))
    && forall i :: 0 <= i < |out| ==> Starts(iv, out[i].0) && Ends(iv, out[i].1)
  }

  /** p merged into the last interval of out if it starts no later than that ends, else appended. */
  ghost function Merge(out: seq<Interval>, p: Interval): seq<Interval> {
    var n := |out| - 1;
    if out != [] && p.0 <= out[n].1 then out[n := (out[n].0, Max(out[n].1, p.1))] else out + [p]
  }

  lemma MergeWithin(out: seq<Interval>, p: Interval, q: Interval)
    ensures Within(q, out) ==> Within(q, Merge(out, p))
    ensures out == [] || out[|out| - 1].0 <= p.0 ==> Within(p, Merge(out, p))
  {
    var next := Merge(out, p);
    if Within(q, out) {
      var i :| 0 <= i < |out| && out[i].0 <= q.0 && q.1 <= out[i].1;
      assert next[i].0 <= q.0 && q.1 <= next[i].1;
    }
    assert next[|next| - 1].1 >= p.1;
  }

  lemma MergeEnds(iv: seq<Interval>, out: seq<Interval>, p: Interval, i: int)
    requires 0 <= i < |Merge(out, p)| && forall k :: 0 <= k < |out| ==> Starts(iv, out[k].0) && Ends(iv, out[k].1)
    ensures Starts(iv + [p], Merge(out, p)[i].0) && Ends(iv + [p], Merge(out, p)[i].1)
  {
    var more := iv + [p];
    assert more[|iv|] == p;
    if i < |out| {
      var j, k :| 0 <= j < |iv| && 0 <= k < |iv| && iv[j].0 == out[i].0 && iv[k].1 == out[i].1;
      assert more[j] == iv[j] && more[k] == iv[k];
    }
  }

  lemma TightStep(iv: seq<Interval>, out: seq<Interval>, p: Interval)
    requires Tight(iv, out) && (out == [] || out[|out| - 1].0 <= p.0)
    ensures Tight(iv + [p], Merge(out, p))
  {
    hide Within, Starts, Ends, Merge;
    forall i | 0 <= i < |iv + [p]|
      ensures Within((iv + [p])[i], Merge(out, p))
    {
      MergeWithin(out, p, (iv + [p])[i]);
    }
    forall i | 0 <= i < |Merge(out, p)|
      ensures Starts(iv + [p], Merge(out, p)[i].0) && Ends(iv + [p], Merge(out, p)[i].1)
    {
      MergeEnds(iv, out, p, i);
    }
  }

  /** out is the union of the sorted prefix s[..k], its last interval starting no later than s[k-1]. */
  ghost predicate UnionSoFar(s: seq<Interval>, k: nat, out: seq<Interval>) {
    && k <= |s| && Spaced(out) && Covered(out) == Covered(s[..k]) && (out == [] <==> k == 0)
    && (Ordered(s) ==> Ordered(out))
    && (k > 0 ==> out[|out| - 1].0 <= s[k - 1].0)
  }

  lemma LastStart(s: seq<Interval>, k: nat, out: seq<Interval>)
    requires UnionSoFar(s, k, out) && k < |s| && SortedLex(s)
    ensures out == [] || out[|out| - 1].0 <= s[k].0
  {
    hide Covered, Spaced, Ordered;
    if k > 0 { assert LexLe(s[k - 1], s[k]); }
  }

  lemma UnionStep(s: seq<Interval>, k: nat, out: seq<Interval>)
    requires UnionSoFar(s, k, out) && k < |s| && SortedLex(s)
    ensures UnionSoFar(s, k + 1, Merge(out, s[k]))
  {
    LastStart(s, k, out);
    hide Covered, Range, SortedLex, Spaced, Ordered;
    assert s[..k + 1] == s[..k] + [s[k]];
    CoveredConcat(s[..k], [s[k]]);
    if out != [] && s[k].0 <= out[|out| - 1].1 {
      MergeLast(out, s[k].0, s[k].1);
    } else {
      AppendLast(out, s[k]);
      OneOrdered(s, k);
    }
  }

  lemma OneOrdered(s: seq<Interval>, k: nat)
    requires k < |s|
    ensures Ordered(s) ==> s[k].0 <= s[k].1
  {
  }

  lemma AppendLast(out: seq<Interval>, p: Interval)
    requires Spaced(out) && (out == [] || out[|out| - 1].0 <= p.0) && (out == [] || out[|out| - 1].1 < p.0)
    ensures Spaced(out + [p]) && Covered(out + [p]) == Covered(out) + Covered([p])
    ensures Ordered(out) && p.0 <= p.1 ==> Ordered(out + [p])
  {
    hide Covered;
    CoveredConcat(out, [p]);
  }

  lemma UnionTight(s: seq<Interval>, k: nat, out: seq<Interval>)
    requires UnionSoFar(s, k, out) && k < |s| && SortedLex(s) && Tight(s[..k], out)
    ensures Tight(s[..k + 1], Merge(out, s[k]))
  {
    hide *;
    LastStart(s, k, out);
    assert s[..k + 1] == s[..k] + [s[k]];
    TightStep(s[..k], out, s[k]);
  }

  /** Sort, then merge each interval into the last one it meets or touches. */
  method Union(iv: seq<Interval>) returns (out: seq<Interval>)
    ensures Spaced(out) && Covered(out) == Covered(iv)
    ensures Tight(iv, out)
    ensures Ordered(iv) ==> Separated(out)
  {
    hide Spaced, Ordered, Sorted, Tight;
    var s := Sorted(iv);
    SortKeepsCover(iv);
    SortKeepsOrdered(iv);
    out := [];
    NothingMerged(s);
    for k := 0 to |s|
      invariant UnionSoFar(s, k, out) && Tight(s[..k], out)
    {
      var (a, b) := s[k];
      UnionStep(s, k, out);
      UnionTight(s, k, out);
      if out != [] && a <= out[|out| - 1].1 {
        out := out[|out| - 1 := (out[|out| - 1].0, Max(out[|out| - 1].1, b))];
      } else {
        out := out + [(a, b)];
      }
    }
    assert s[..|s|] == s;
    SameEnds(iv, out);
  }

  lemma SameEnds(iv: seq<Interval>, out: seq<Interval>)
    requires Tight(Sorted(iv), out)
    ensures Tight(iv, out)
  {
    SortedPermutes(iv);
    var s := Sorted(iv);
    hide Within, Sorted;
    forall i | 0 <= i < |iv|
      ensures Within(iv[i], out)
    {
      assert iv[i] in multiset(s);
      var j :| 0 <= j < |s| && s[j] == iv[i];
    }
    forall j | 0 <= j < |s|
      ensures Starts(iv, s[j].0) && Ends(iv, s[j].1)
    {
      assert s[j] in multiset(iv);
      var i :| 0 <= i < |iv| && iv[i] == s[j];
    }
  }

  lemma SortKeepsOrdered(iv: seq<Interval>)
    ensures Ordered(iv) ==> Ordered(Sorted(iv))
  {
    SortedPermutes(iv);
    forall i | 0 <= i < |Sorted(iv)|
      ensures Sorted(iv)[i] in iv
    {
      assert Sorted(iv)[i] in multiset(Sorted(iv));
    }
  }

  lemma NothingMerged(s: seq<Interval>)
    ensures UnionSoFar(s, 0, []) && Tight(s[..0], [])
  {
  }

  lemma MergeLast(out: seq<Interval>, a: int, b: int)
    requires out != [] && Spaced(out) && out[|out| - 1].0 <= a <= out[|out| - 1].1
    ensures var n := |out| - 1;
            var merged := out[n := (out[n].0, Max(out[n].1, b))];
            Spaced(merged) && Covered(merged) == Covered(out) + Covered([(a, b)])
            && (Ordered(out) ==> Ordered(merged))
  {
    hide Covered, Range;
    var n := |out| - 1;
    var merged := out[n := (out[n].0, Max(out[n].1, b))];
    assert out == out[..n] + [out[n]] && merged == out[..n] + [merged[n]];
    CoveredConcat(out[..n], [out[n]]);
    CoveredConcat(out[..n], [merged[n]]);
    CoveredOne(out[n]);
    CoveredOne(merged[n]);
    CoveredOne((a, b));
    JoinRanges(out[n].0, out[n].1, a, b);
  }

  lemma JoinRanges(s: int, e: int, a: int, b: int)
    requires s <= a <= e
    ensures Range(s, Max(e, b)) == Range(s, e) + Range(a, b)
  {
  }

  lemma CoveredOne(p: Interval)
    ensures Covered([p]) == Range(p.0, p.1)
  {
  }

  /** sum(b - a). */
  function Total(iv: seq<Interval>): int {
    if iv == [] then 0 else iv[0].1 - iv[0].0 + Total(iv[1..])
  }

  lemma DisjointSize(a: set<int>, b: set<int>)
    requires a !! b
    ensures |a + b| == |a| + |b|
  {
  }

  lemma SeparatedTail(iv: seq<Interval>)
    requires Separated(iv) && iv != []
    ensures Separated(iv[1..])
    ensures forall x :: x in Covered(iv[1..]) ==> iv[0].1 < x
  {
    forall x | x in Covered(iv[1..])
      ensures iv[0].1 < x
    {
      CoveredMember(iv[1..], x);
      var p :| p in iv[1..] && p.0 <= x < p.1;
      var j :| 0 <= j < |iv[1..]| && iv[1..][j] == p;
      assert iv[j + 1] == p;
    }
  }

  /** The total of a union is the number of cycles covered. */
  lemma {:induction false} TotalCounts(iv: seq<Interval>)
    requires Separated(iv)
    ensures Total(iv) == |Covered(iv)|
  {
    if iv != [] {
      SeparatedTail(iv);
      TotalCounts(iv[1..]);
      DisjointSize(Range(iv[0].0, iv[0].1), Covered(iv[1..]));
    }
  }

  /** Cycles shared by two intervals: max(0, min(ends) - max(starts)). */
  function Shared(p: Interval, q: Interval): nat {
    Max(0, Min(p.1, q.1) - Max(p.0, q.0))
  }

  function SharedRow(p: Interval, y: seq<Interval>): nat {
    if y == [] then 0 else Shared(p, y[0]) + SharedRow(p, y[1..])
  }

  /** The pairwise double sum. */
  function Overlap(x: seq<Interval>, y: seq<Interval>): nat {
    if x == [] then 0 else SharedRow(x[0], y) + Overlap(x[1..], y)
  }

  lemma RangeMeet(p: Interval, q: Interval)
    ensures Range(p.0, p.1) * Range(q.0, q.1) == Range(Max(p.0, q.0), Min(p.1, q.1))
  {
    hide Range;
  }

  lemma SharedCounts(p: Interval, q: Interval)
    ensures |Range(p.0, p.1) * Range(q.0, q.1)| == Shared(p, q)
  {
    hide Range;
    RangeMeet(p, q);
  }

  lemma SplitSize(r: set<int>, a: set<int>, b: set<int>)
    requires a !! b
    ensures |r * (a + b)| == |r * a| + |r * b|
  {
    assert r * (a + b) == r * a + r * b;
    DisjointSize(r * a, r * b);
  }

  lemma {:induction false} RowCounts(p: Interval, y: seq<Interval>)
    requires Separated(y)
    ensures SharedRow(p, y) == |Range(p.0, p.1) * Covered(y)|
  {
    var R := Range(p.0, p.1);
    if y == [] {
      assert R * Covered(y) == {};
    } else {
      SeparatedTail(y);
      RowCounts(p, y[1..]);
      SharedCounts(p, y[0]);
      SplitSize(R, Range(y[0].0, y[0].1), Covered(y[1..]));
    }
  }

  /** The pairwise sum counts the cycles lying in both sets. */
  lemma {:induction false} OverlapCounts(x: seq<Interval>, y: seq<Interval>)
    requires Separated(x) && Separated(y)
    ensures Overlap(x, y) == |Covered(x) * Covered(y)|
  {
    if x == [] {
      assert Covered(x) * Covered(y) == {};
    } else {
      SeparatedTail(x);
      OverlapCounts(x[1..], y);
      RowCounts(x[0], y);
      SplitSize(Covered(y), Range(x[0].0, x[0].1), Covered(x[1..]));
      assert Covered(x) * Covered(y) == Covered(y) * Covered(x);
      assert Covered(x[1..]) * Covered(y) == Covered(y) * Covered(x[1..]);
      assert Range(x[0].0, x[0].1) * Covered(y) == Covered(y) * Range(x[0].0, x[0].1);
    }
  }

  /** An interval ending before every later one starts shares with the first only. */
  lemma {:induction false} RowStops(p: Interval, y: seq<Interval>)
    requires forall j :: 0 <= j < |y| ==> p.1 <= y[j].0
    ensures SharedRow(p, y) == 0
  {
    if y != [] { RowStops(p, y[1..]); }
  }

  /** Dropping an interval of y that ends by the end of x's first. */
  lemma {:induction false} ColumnStops(x: seq<Interval>, y: seq<Interval>)
    requires y != [] && forall i :: 0 <= i < |x| ==> y[0].1 <= x[i].0
    ensures Overlap(x, y) == Overlap(x, y[1..])
  {
    if x != [] { ColumnStops(x[1..], y); }
  }

  /** One step of the two-pointer walk accounts for everything the dropped interval shares. */
  lemma WalkStep(x: seq<Interval>, y: seq<Interval>)
    requires x != [] && y != [] && Separated(x) && Separated(y)
    ensures x[0].1 < y[0].1 ==> Overlap(x, y) == Shared(x[0], y[0]) + Overlap(x[1..], y)
    ensures x[0].1 >= y[0].1 ==> Overlap(x, y) == Shared(x[0], y[0]) + Overlap(x, y[1..])
  {
    if x[0].1 < y[0].1 { RowStops(x[0], y[1..]); } else { ColumnStops(x[1..], y); }
  }

  /** The two-pointer overlap: the pairwise sum, which is the number of shared cycles. */
  method Ov(x: seq<Interval>, y: seq<Interval>) returns (p: int)
    requires Separated(x) && Separated(y)
    ensures p == Overlap(x, y) == |Covered(x) * Covered(y)|
  {
    var i, j := 0, 0;
    p := 0;
    assert x[0..] == x && y[0..] == y;
    while i < |x| && j < |y|
      invariant 0 <= i <= |x| && 0 <= j <= |y|
      invariant p + Overlap(x[i..], y[j..]) == Overlap(x, y)
      decreases |x| - i + |y| - j
    {
      assert x[i..][0] == x[i] && x[i..][1..] == x[i + 1..];
      assert y[j..][0] == y[j] && y[j..][1..] == y[j + 1..];
      WalkStep(x[i..], y[j..]);
      var a, b := Max(x[i].0, y[j].0), Min(x[i].1, y[j].1);
      if a < b { p := p + b - a; }
      if x[i].1 < y[j].1 { i := i + 1; } else { j := j + 1; }
    }
    NothingLeft(x[i..], y[j..]);
    OverlapCounts(x, y);
  }

  lemma {:induction false} NothingLeft(x: seq<Interval>, y: seq<Interval>)
    requires x == [] || y == []
    ensures Overlap(x, y) == 0
  {
    if x != [] { NothingLeft(x[1..], y); }
  }

  function Proper(iv: seq<Interval>): (r: seq<Interval>)
    ensures forall p :: p in r <==> p in iv && p.0 < p.1
  {
    if iv == [] then []
    else Proper(iv[..|iv| - 1]) + (if iv[|iv| - 1].1 > iv[|iv| - 1].0 then [iv[|iv| - 1]] else [])
  }

  lemma ProperCover(iv: seq<Interval>)
    ensures Covered(Proper(iv)) == Covered(iv)
  {
    forall x
      ensures x in Covered(Proper(iv)) <==> x in Covered(iv)
    {
      CoveredMember(Proper(iv), x);
      CoveredMember(iv, x);
    }
  }

  /** tot counts the sorted prefix iv[..k], which ends at ce and is solid from the last start on. */
  ghost predicate SweptTo(iv: seq<Interval>, k: nat, tot: int, started: bool, ce: int) {
    var C := Covered(iv[..if k <= |iv| then k else 0]);
    && k <= |iv| && (started <==> k > 0) && tot == |C|
    && (k > 0 ==> iv[k - 1].0 < ce && (forall x :: x in C ==> x < ce) && Range(iv[k - 1].0, ce) <= C)
  }

  lemma NextCover(iv: seq<Interval>, k: nat)
    requires k < |iv|
    ensures Covered(iv[..k + 1]) == Covered(iv[..k]) + Range(iv[k].0, iv[k].1)
  {
    hide Covered, Range;
    assert iv[..k + 1] == iv[..k] + [iv[k]];
    CoveredConcat(iv[..k], [iv[k]]);
    CoveredOne(iv[k]);
  }

  /** The next interval starts a new run. */
  lemma SweepGap(iv: seq<Interval>, k: nat, tot: int, started: bool, ce: int)
    requires SweptTo(iv, k, tot, started, ce) && k < |iv| && iv[k].0 < iv[k].1 && (!started || iv[k].0 > ce)
    ensures SweptTo(iv, k + 1, tot + iv[k].1 - iv[k].0, true, iv[k].1)
  {
    hide Covered;
    NextCover(iv, k);
    if k == 0 { NothingCovered(iv); }
    DisjointSize(Covered(iv[..k]), Range(iv[k].0, iv[k].1));
  }

  /** The next interval starts within the current run. */
  lemma SweepJoin(iv: seq<Interval>, k: nat, tot: int, ce: int)
    requires SweptTo(iv, k, tot, true, ce) && k < |iv| && SortedLex(iv) && iv[k].0 < iv[k].1 && iv[k].0 <= ce
    ensures SweptTo(iv, k + 1, if iv[k].1 > ce then tot + iv[k].1 - ce else tot, true, Max(iv[k].1, ce))
  {
    hide Covered;
    NextCover(iv, k);
    assert LexLe(iv[k - 1], iv[k]);
    ExtendCover(Covered(iv[..k]), iv[k - 1].0, iv[k].0, iv[k].1, ce);
  }

  lemma SweepStep(iv: seq<Interval>, k: nat, tot: int, started: bool, ce: int)
    requires SweptTo(iv, k, tot, started, ce) && k < |iv| && SortedLex(iv) && iv[k].0 < iv[k].1
    ensures var (a, b) := iv[k];
            if !started || a > ce then SweptTo(iv, k + 1, tot + b - a, true, b)
            else if b > ce then SweptTo(iv, k + 1, tot + b - ce, true, b)
            else SweptTo(iv, k + 1, tot, true, ce)
  {
    hide SweptTo, SortedLex;
    if !started || iv[k].0 > ce { SweepGap(iv, k, tot, started, ce); } else { SweepJoin(iv, k, tot, ce); }
  }

  lemma NothingCovered(iv: seq<Interval>)
    ensures Covered(iv[..0]) == {}
  {
  }

  lemma ExtendCover(C: set<int>, s: int, a: int, b: int, ce: int)
    requires s <= a <= ce && a < b && Range(s, ce) <= C && forall x :: x in C ==> x < ce
    ensures |C + Range(a, b)| == |C| + if b > ce then b - ce else 0
    ensures Range(a, Max(b, ce)) <= C + Range(a, b)
  {
    if b > ce {
      assert C + Range(a, b) == C + Range(ce, b);
      DisjointSize(C, Range(ce, b));
    } else {
      assert Range(a, b) <= Range(s, ce);
      assert C + Range(a, b) == C;
    }
  }

  /** Total length of the union, with a running end; empty and reversed intervals are skipped. */
  method UnionLength(intervals: seq<Interval>) returns (tot: int)
    ensures tot == |Covered(intervals)|
  {
    hide Covered, Sorted, Proper, SweptTo;
    var iv := Sorted(Proper(intervals));
    SortKeepsCover(Proper(intervals));
    ProperCover(intervals);
    tot := 0;
    var started, ce := false, 0;
    SweepStart(iv);
    for k := 0 to |iv|
      invariant SweptTo(iv, k, tot, started, ce)
    {
      var (a, b) := iv[k];
      assert iv[k] in Proper(intervals);
      SweepStep(iv, k, tot, started, ce);
      if !started || a > ce {
        tot, started, ce := tot + b - a, true, b;
      } else if b > ce {
        SweepStarted(iv, k, tot, started, ce);
        tot, ce := tot + b - ce, b;
      } else {
        SweepStarted(iv, k, tot, started, ce);
      }
    }
    SweepEnd(iv, tot, started, ce);
  }

  lemma SweepStart(iv: seq<Interval>)
    ensures SweptTo(iv, 0, 0, false, 0)
  {
  }

  lemma SweepStarted(iv: seq<Interval>, k: nat, tot: int, started: bool, ce: int)
    requires SweptTo(iv, k, tot, started, ce) && started
    ensures SweptTo(iv, k, tot, true, ce)
  {
  }

  lemma SweepEnd(iv: seq<Interval>, tot: int, started: bool, ce: int)
    requires SweptTo(iv, |iv|, tot, started, ce)
    ensures tot == |Covered(iv)|
  {
    assert iv[..|iv|] == iv;
  }
}
