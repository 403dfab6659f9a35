/** The overlap and merge helpers of the RTTM plotter
    (tools/rttm/visualize.py, `find_overlaps` and `merge_intervals`).
    A segment or interval is a closed range `[start, end]` of seconds; the
    Python dictionaries are modelled as values and both helpers as pure
    functions returning new sequences. */
module Intervals {

  datatype Interval = Interval(start: real, end: real)

  function Max(a: real, b: real): real { if a >= b then a else b }
  function Min(a: real, b: real): real { if a <= b then a else b }

  /** The point `x` lies in the closed interval. */
  predicate Contains(iv: Interval, x: real) {
    iv.start <= x <= iv.end
  }

  /** Some interval of `s` contains `x`. */
  ghost predicate Covers(s: seq<Interval>, x: real) {
    exists i :: 0 <= i < |s| && Contains(s[i], x)
  }

  /** Two different positions of `s` both contain `x`. */
  ghost predicate InTwo(s: seq<Interval>, x: real) {
    exists p, q :: 0 <= p < |s| && 0 <= q < |s| && p != q && Contains(s[p], x) && Contains(s[q], x)
  }

  predicate SortedByStart(s: seq<Interval>) {
    forall i, j :: 0 <= i < j < |s| ==> s[i].start <= s[j].start
  }

  /** Each interval starts strictly after every earlier one ends. */
  predicate Separated(s: seq<Interval>) {
    forall i, j :: 0 <= i < j < |s| ==> s[i].end < s[j].start
  }

  /** No interval ends before it starts (a segment of non-negative
      duration). */
  predicate Proper(s: seq<Interval>) {
    forall i :: 0 <= i < |s| ==> s[i].start <= s[i].end
  }

  // ---------------------------------------------------------------------
  // Python's `sorted(..., key=lambda x: x["start"])` (stable).

  function InsertByStart(x: Interval, s: seq<Interval>): (r: seq<Interval>)
    requires SortedByStart(s)
    ensures SortedByStart(r)
    ensures multiset(r) == multiset(s) + multiset{x}
    ensures |r| == |s| + 1
  {
    if s == [] || x.start <= s[0].start then [x] + s
    else
      var t := InsertByStart(x, s[1..]);
      StartBoundKept(s[0].start, x, s[1..], t);
      ConsByStart(s[0], t);
      assert s == [s[0]] + s[1..];
      [s[0]] + t
  }

  /** An interval starting no later than every one of a sorted sequence
      may go in front of it. */
  lemma ConsByStart(y: Interval, t: seq<Interval>)
    requires SortedByStart(t) && forall k :: 0 <= k < |t| ==> y.start <= t[k].start
    ensures SortedByStart([y] + t)
  {
    forall i, j | 0 <= i < j < |[y] + t| ensures ([y] + t)[i].start <= ([y] + t)[j].start {
      assert ([y] + t)[j] == t[j - 1];
      if i > 0 { assert ([y] + t)[i] == t[i - 1]; }
    }
  }

  /** A lower bound of the starts of `x` and of `s` bounds the starts of a
      reordering of `s` with `x` added. */
  lemma StartBoundKept(lo: real, x: Interval, s: seq<Interval>, t: seq<Interval>)
    requires multiset(t) == multiset(s) + multiset{x}
    requires lo <= x.start && forall i :: 0 <= i < |s| ==> lo <= s[i].start
    ensures forall k :: 0 <= k < |t| ==> lo <= t[k].start
  {
    forall k | 0 <= k < |t| ensures lo <= t[k].start {
      assert t[k] in multiset(t);
      if t[k] != x {
        assert t[k] in multiset(s);
        var i :| 0 <= i < |s| && s[i] == t[k];
      }
    }
  }

  function SortByStart(s: seq<Interval>): (r: seq<Interval>)
    ensures SortedByStart(r)
    ensures multiset(r) == multiset(s)
    ensures |r| == |s|
  {
    if s == [] then []
    else
      assert s == [s[0]] + s[1..];
      InsertByStart(s[0], SortByStart(s[1..]))
  }

  lemma CoversConcat(a: seq<Interval>, b: seq<Interval>, x: real)
    ensures Covers(a + b, x) <==> Covers(a, x) || Covers(b, x)
  {
    if Covers(a + b, x) {
      var i :| 0 <= i < |a + b| && Contains((a + b)[i], x);
      if i >= |a| { assert b[i - |a|] == (a + b)[i]; }
    }
    if Covers(b, x) {
      var i :| 0 <= i < |b| && Contains(b[i], x);
      assert (a + b)[|a| + i] == b[i];
    }
    if Covers(a, x) {
      var i :| 0 <= i < |a| && Contains(a[i], x);
      assert (a + b)[i] == a[i];
    }
  }

  /** Reordering does not change which points are covered. */
  lemma CoversPermutation(a: seq<Interval>, b: seq<Interval>, x: real)
    requires multiset(a) == multiset(b)
    ensures Covers(a, x) <==> Covers(b, x)
  {
    if Covers(a, x) {
      var i :| 0 <= i < |a| && Contains(a[i], x);
      assert a[i] in multiset(b);
      var j :| 0 <= j < |b| && b[j] == a[i];
    }
    if Covers(b, x) {
      var i :| 0 <= i < |b| && Contains(b[i], x);
      assert b[i] in multiset(a);
      var j :| 0 <= j < |a| && a[j] == b[i];
    }
  }

  // ---------------------------------------------------------------------
  // `merge_intervals`

  lemma ProperPermutation(a: seq<Interval>, b: seq<Interval>)
    requires multiset(a) == multiset(b)
    ensures Proper(b) ==> Proper(a)
  {
    if Proper(b) {
      forall i | 0 <= i < |a| ensures a[i].start <= a[i].end {
        assert a[i] in multiset(b);
      }
    }
  }

  lemma CoversCons(head: Interval, rest: seq<Interval>, x: real)
    ensures Covers([head] + rest, x) <==> Contains(head, x) || Covers(rest, x)
  {
    CoversConcat([head], rest, x);
    if Contains(head, x) { assert [head][0] == head; }
  }

  lemma CoversSnoc(init: seq<Interval>, last: Interval, x: real)
    ensures Covers(init + [last], x) <==> Covers(init, x) || Contains(last, x)
  {
    CoversConcat(init, [last], x);
    if Contains(last, x) { assert [last][0] == last; }
  }

  /** What the loop of `merge_intervals` keeps: `merged` so far is sorted
      and separated, and every interval still to visit starts no earlier
      than its last one. */
  predicate MergeReady(acc: seq<Interval>, rest: seq<Interval>) {
    acc != [] && SortedByStart(acc) && Separated(acc) && SortedByStart(rest) &&
    forall j :: 0 <= j < |rest| ==> acc[|acc| - 1].start <= rest[j].start
  }

  /** One visit of the loop: `cur` extends the last merged interval when it
      starts no later than that one's end, and is appended otherwise. */
  function Absorb(acc: seq<Interval>, cur: Interval): (r: seq<Interval>)
    requires acc != []
    ensures r != [] && |r| <= |acc| + 1
  {
    var last := acc[|acc| - 1];
    if cur.start <= last.end then acc[..|acc| - 1] + [Interval(last.start, Max(last.end, cur.end))]
    else acc + [cur]
  }

  lemma AbsorbReady(acc: seq<Interval>, rest: seq<Interval>)
    requires MergeReady(acc, rest) && rest != []
    ensures MergeReady(Absorb(acc, rest[0]), rest[1..])
  {
  }

  /** A visit neither adds nor loses a covered point. */
  lemma AbsorbCovers(acc: seq<Interval>, cur: Interval, x: real)
    requires acc != [] && acc[|acc| - 1].start <= cur.start
    ensures Covers(Absorb(acc, cur), x) <==> Covers(acc, x) || Contains(cur, x)
  {
    var n := |acc|;
    var last := acc[n - 1];
    assert acc == acc[..n - 1] + [last];
    CoversSnoc(acc[..n - 1], last, x);
    if cur.start <= last.end {
      CoversSnoc(acc[..n - 1], Interval(last.start, Max(last.end, cur.end)), x);
    } else {
      CoversSnoc(acc, cur, x);
    }
  }

  /** The loop of `merge_intervals`: `acc` is `merged` so far, `rest` the
      sorted intervals still to visit. */
  function MergeInto(acc: seq<Interval>, rest: seq<Interval>): (r: seq<Interval>)
    requires MergeReady(acc, rest)
    ensures r != [] && |r| <= |acc| + |rest|
    ensures SortedByStart(r) && Separated(r)
    ensures Proper(acc) && Proper(rest) ==> Proper(r)
    decreases |rest|
  {
    if rest == [] then acc
    else
      AbsorbReady(acc, rest);
      MergeInto(Absorb(acc, rest[0]), rest[1..])
  }

  /** Coalescing neither adds nor loses a covered point. */
  lemma {:induction false} MergeIntoCovers(acc: seq<Interval>, rest: seq<Interval>, x: real)
    requires MergeReady(acc, rest)
    ensures Covers(MergeInto(acc, rest), x) <==> Covers(acc, x) || Covers(rest, x)
    decreases |rest|
  {
    if rest != [] {
      assert rest == [rest[0]] + rest[1..];
      CoversCons(rest[0], rest[1..], x);
      AbsorbReady(acc, rest);
      AbsorbCovers(acc, rest[0], x);
      MergeIntoCovers(Absorb(acc, rest[0]), rest[1..], x);
    }
  }

  /** The loop of `merge_intervals` over the whole sorted list. */
  function MergeSorted(t: seq<Interval>): (r: seq<Interval>)
    requires t != [] && SortedByStart(t)
    ensures r != [] && |r| <= |t|
    ensures SortedByStart(r) && Separated(r)
    ensures Proper(t) ==> Proper(r)
  {
    assert t == [t[0]] + t[1..];
    MergeInto([t[0]], t[1..])
  }

  /** `merge_intervals`: sorts by start, then coalesces every interval that
      starts no later than the running end of the previous one. */
  function MergeIntervals(s: seq<Interval>): (r: seq<Interval>)
    ensures r == [] <==> s == []
    ensures |r| <= |s|
    ensures SortedByStart(r) && Separated(r)
    ensures forall x :: Covers(r, x) <==> Covers(s, x)
    ensures Proper(s) ==> Proper(r)
  {
    if s == [] then []
    else
      var t := SortByStart(s);
      ProperPermutation(t, s);
      var r := MergeSorted(t);
      assert forall x :: Covers(r, x) <==> Covers(s, x) by {
        forall x ensures Covers(r, x) <==> Covers(s, x) {
          assert t == [t[0]] + t[1..];
          MergeIntoCovers([t[0]], t[1..], x);
          CoversConcat([t[0]], t[1..], x);
          CoversPermutation(t, s, x);
        }
      }
      r
  }

  // ---------------------------------------------------------------------
  // A proper, separated list is fixed by the points it covers.

  /** The first start is the least covered point. */
  lemma FirstStart(a: seq<Interval>)
    requires Proper(a) && Separated(a) && a != []
    ensures Covers(a, a[0].start)
    ensures forall x :: Covers(a, x) ==> a[0].start <= x
  {
    assert Contains(a[0], a[0].start);
    forall x | Covers(a, x) ensures a[0].start <= x {
      var i :| 0 <= i < |a| && Contains(a[i], x);
      if i > 0 { assert a[0].end < a[i].start; }
    }
  }

  /** Past the first interval, the rest covers exactly what lies beyond
      its end. */
  lemma TailCovers(a: seq<Interval>, x: real)
    requires Proper(a) && Separated(a) && a != []
    ensures Covers(a[1..], x) <==> Covers(a, x) && a[0].end < x
  {
    if Covers(a[1..], x) {
      var i :| 0 <= i < |a[1..]| && Contains(a[1..][i], x);
      assert a[1..][i] == a[i + 1];
      assert a[0].end < a[i + 1].start;
    }
    if Covers(a, x) && a[0].end < x {
      var i :| 0 <= i < |a| && Contains(a[i], x);
      assert i != 0;
      assert a[1..][i - 1] == a[i];
    }
  }

  /** Two covers with the same first start: the second's first interval
      cannot end later, or the points just past the first's end would be
      covered by one and not the other. */
  lemma FirstEndNotLater(a: seq<Interval>, b: seq<Interval>)
    requires Proper(a) && Separated(a) && Proper(b) && Separated(b)
    requires a != [] && b != [] && a[0].start == b[0].start
    requires forall x :: Covers(a, x) <==> Covers(b, x)
    ensures b[0].end <= a[0].end
  {
    if a[0].end < b[0].end {
      var hi := if |a| == 1 then b[0].end else Min(b[0].end, a[1].start);
      var y := (a[0].end + hi) / 2.0;
      assert Contains(b[0], y);
      forall i | 0 <= i < |a| ensures !Contains(a[i], y) {
        if i > 1 { assert a[1].end < a[i].start; }
      }
      assert Covers(b, y);
      assert false;
    }
  }

  lemma {:induction false} CanonicalCover(a: seq<Interval>, b: seq<Interval>)
    requires Proper(a) && Separated(a) && Proper(b) && Separated(b)
    requires forall x :: Covers(a, x) <==> Covers(b, x)
    ensures a == b
    decreases |a|
  {
    if a != [] { FirstStart(a); }
    if b != [] { FirstStart(b); }
    assert a != [] <==> b != [];
    if a != [] {
      assert a[0].start == b[0].start;
      FirstEndNotLater(a, b);
      FirstEndNotLater(b, a);
      forall x ensures Covers(a[1..], x) <==> Covers(b[1..], x) {
        TailCovers(a, x);
        TailCovers(b, x);
      }
      CanonicalCover(a[1..], b[1..]);
      assert a == [a[0]] + a[1..] && b == [b[0]] + b[1..];
    }
  }

  /** For segments of non-negative duration, the merged list is the only
      sorted list of disjoint proper intervals covering exactly the points
      the segments cover. */
  lemma MergeIntervalsUnique(s: seq<Interval>, r: seq<Interval>)
    requires Proper(s) && Proper(r) && Separated(r)
    requires forall x :: Covers(r, x) <==> Covers(s, x)
    ensures r == MergeIntervals(s)
  {
    CanonicalCover(r, MergeIntervals(s));
  }

  // ---------------------------------------------------------------------
  // `find_overlaps`

  /** The inner loop of `find_overlaps` for `current = seg[i]`, at `j`,
      with `runEnd` the current segment's end as extended so far. */
  function Scan(seg: seq<Interval>, i: nat, j: nat, runEnd: real): seq<Interval>
    requires i < j <= |seg|
    decreases |seg| - j
  {
    if j == |seg| then []
    else if runEnd > seg[j].start then
      [Interval(Max(seg[i].start, seg[j].start), Min(runEnd, seg[j].end))]
        + Scan(seg, i, j + 1, Max(runEnd, seg[j].end))
    else []
  }

  /** The outer loop of `find_overlaps`, from `i` on. */
  function PairOverlaps(seg: seq<Interval>, i: nat): seq<Interval>
    decreases |seg| - i
  {
    if i >= |seg| then [] else Scan(seg, i, i + 1, seg[i].end) + PairOverlaps(seg, i + 1)
  }

  /** `find_overlaps`: the merged regions where the (start-sorted) segments
      overlap. */
  function FindOverlaps(segs: seq<Interval>): (r: seq<Interval>)
    ensures SortedByStart(r) && Separated(r)
  {
    MergeIntervals(PairOverlaps(SortByStart(segs), 0))
  }

  // ---------------------------------------------------------------------
  // What `find_overlaps` finds.

  /** Every point an inner loop reports lies in its segment `j'` and in the
      segment `k` whose end is the running end. */
  lemma {:induction false} ScanSound(seg: seq<Interval>, i: nat, j: nat, runEnd: real, k: nat, x: real)
    requires SortedByStart(seg)
    requires i <= k < j <= |seg| && runEnd == seg[k].end
    requires Covers(Scan(seg, i, j, runEnd), x)
    ensures InTwo(seg, x)
    decreases |seg| - j
  {
    var sc := Scan(seg, i, j, runEnd);
    var n :| 0 <= n < |sc| && Contains(sc[n], x);
    var head := Interval(Max(seg[i].start, seg[j].start), Min(runEnd, seg[j].end));
    var tail := Scan(seg, i, j + 1, Max(runEnd, seg[j].end));
    assert sc == [head] + tail;
    if n == 0 {
      assert Contains(seg[j], x) && Contains(seg[k], x);
    } else {
      assert Contains(tail[n - 1], x);
      if runEnd >= seg[j].end {
        ScanSound(seg, i, j + 1, Max(runEnd, seg[j].end), k, x);
      } else {
        ScanSound(seg, i, j + 1, Max(runEnd, seg[j].end), j, x);
      }
    }
  }

  lemma {:induction false} PairOverlapsSound(seg: seq<Interval>, i: nat, x: real)
    requires SortedByStart(seg)
    requires Covers(PairOverlaps(seg, i), x)
    ensures InTwo(seg, x)
    decreases |seg| - i
  {
    if i < |seg| {
      CoversConcat(Scan(seg, i, i + 1, seg[i].end), PairOverlaps(seg, i + 1), x);
      if Covers(Scan(seg, i, i + 1, seg[i].end), x) {
        ScanSound(seg, i, i + 1, seg[i].end, i, x);
      } else {
        PairOverlapsSound(seg, i + 1, x);
      }
    }
  }

  /** The inner loop of segment `a` reaches every later segment `b` that
      starts strictly before `a` ends, and reports each point they share. */
  lemma {:induction false} ScanComplete(seg: seq<Interval>, a: nat, j: nat, runEnd: real, b: nat, x: real)
    requires SortedByStart(seg)
    requires a < j <= b < |seg|
    requires runEnd >= seg[a].end && seg[b].start < seg[a].end
    requires Contains(seg[b], x) && x <= seg[a].end
    ensures Covers(Scan(seg, a, j, runEnd), x)
    decreases b - j
  {
    var head := Interval(Max(seg[a].start, seg[j].start), Min(runEnd, seg[j].end));
    var tail := Scan(seg, a, j + 1, Max(runEnd, seg[j].end));
    assert Scan(seg, a, j, runEnd) == [head] + tail;
    if j == b {
      assert Contains(head, x);
      assert ([head] + tail)[0] == head;
    } else {
      ScanComplete(seg, a, j + 1, Max(runEnd, seg[j].end), b, x);
      var n :| 0 <= n < |tail| && Contains(tail[n], x);
      assert ([head] + tail)[n + 1] == tail[n];
    }
  }

  lemma {:induction false} PairOverlapsComplete(seg: seq<Interval>, i: nat, a: nat, b: nat, x: real)
    requires SortedByStart(seg)
    requires i <= a < b < |seg|
    requires seg[b].start < seg[a].end
    requires Contains(seg[b], x) && x <= seg[a].end
    ensures Covers(PairOverlaps(seg, i), x)
    decreases a - i
  {
    CoversConcat(Scan(seg, i, i + 1, seg[i].end), PairOverlaps(seg, i + 1), x);
    if i == a {
      ScanComplete(seg, a, a + 1, seg[a].end, b, x);
    } else {
      PairOverlapsComplete(seg, i + 1, a, b, x);
    }
  }

  /** Two different positions of one sequence land on two different
      positions of any reordering of it. */
  lemma TransferPair(s: seq<Interval>, t: seq<Interval>, p: nat, q: nat) returns (a: nat, b: nat)
    requires multiset(s) == multiset(t)
    requires p < |s| && q < |s| && p != q
    ensures a < |t| && b < |t| && a != b && t[a] == s[p] && t[b] == s[q]
  {
    assert s[p] in multiset(t);
    a :| 0 <= a < |t| && t[a] == s[p];
    assert s[q] in multiset(s) - multiset{s[p]} by {
      var s' := s[..p] + s[p + 1..];
      MultisetRemoveAt(s, p);
      var k := if q < p then q else q - 1;
      assert s'[k] == s[q];
    }
    var t' := t[..a] + t[a + 1..];
    assert s[q] in multiset(t') by {
      MultisetRemoveAt(t, a);
    }
    var c :| 0 <= c < |t'| && t'[c] == s[q];
    b := if c < a then c else c + 1;
    assert t[b] == t'[c];
  }

  lemma MultisetRemoveAt(s: seq<Interval>, i: nat)
    requires i < |s|
    ensures multiset(s[..i] + s[i + 1..]) == multiset(s) - multiset{s[i]}
  {
    assert s == s[..i] + [s[i]] + s[i + 1..];
  }

  lemma InTwoPermutation(s: seq<Interval>, t: seq<Interval>, x: real)
    requires multiset(s) == multiset(t)
    requires InTwo(s, x)
    ensures InTwo(t, x)
  {
    var p, q :| 0 <= p < |s| && 0 <= q < |s| && p != q && Contains(s[p], x) && Contains(s[q], x);
    var a, b := TransferPair(s, t, p, q);
  }

  /** Every reported point lies in at least two different input segments. */
  lemma FindOverlapsSound(segs: seq<Interval>, x: real)
    requires Covers(FindOverlaps(segs), x)
    ensures InTwo(segs, x)
  {
    var t := SortByStart(segs);
    PairOverlapsSound(t, 0, x);
    InTwoPermutation(t, segs, x);
  }

  /** Every point shared by two different segments whose common part has
      positive length is reported. */
  lemma FindOverlapsComplete(segs: seq<Interval>, p: nat, q: nat, x: real)
    requires p < |segs| && q < |segs| && p != q
    requires Max(segs[p].start, segs[q].start) < Min(segs[p].end, segs[q].end)
    requires Contains(segs[p], x) && Contains(segs[q], x)
    ensures Covers(FindOverlaps(segs), x)
  {
    var t := SortByStart(segs);
    var a, b := TransferPair(segs, t, p, q);
    if a < b {
      PairOverlapsComplete(t, 0, a, b, x);
    } else {
      PairOverlapsComplete(t, 0, b, a, x);
    }
  }

  /** Segments of positive length that pairwise at most touch
      (`end == next.start`) have no overlap at all: the test is strict. */
  lemma TouchingSegmentsDoNotOverlap(segs: seq<Interval>)
    requires forall i :: 0 <= i < |segs| ==> segs[i].start < segs[i].end
    requires forall p, q :: 0 <= p < |segs| && 0 <= q < |segs| && p != q ==>
      Min(segs[p].end, segs[q].end) <= Max(segs[p].start, segs[q].start)
    ensures FindOverlaps(segs) == []
  {
    var t := SortByStart(segs);
    forall a | 0 <= a < |t| ensures Scan(t, a, a + 1, t[a].end) == [] {
      if a + 1 < |t| {
        var p, q := TransferPair(t, segs, a, a + 1);
        assert t[a].start < t[a].end by {
          assert t[a] in multiset(segs);
        }
        assert t[a + 1].start < t[a + 1].end by {
          assert t[a + 1] in multiset(segs);
        }
      }
    }
    NoScanNoPairs(t, 0);
  }

  lemma {:induction false} NoScanNoPairs(t: seq<Interval>, i: nat)
    requires forall a :: 0 <= a < |t| ==> Scan(t, a, a + 1, t[a].end) == []
    ensures PairOverlaps(t, i) == []
    decreases |t| - i
  {
    if i < |t| {
      NoScanNoPairs(t, i + 1);
    }
  }

  /** The example of the repository's `test_merge_intervals`. */
  lemma MergeIntervalsExample()
    ensures MergeIntervals([Interval(0.0, 10.0), Interval(5.0, 15.0), Interval(20.0, 30.0)])
         == [Interval(0.0, 15.0), Interval(20.0, 30.0)]
  {
    var s := [Interval(0.0, 10.0), Interval(5.0, 15.0), Interval(20.0, 30.0)];
    SortedExample();
    assert s[1..] == [Interval(5.0, 15.0), Interval(20.0, 30.0)];
    MergeIntoExample();
  }

  lemma MergeIntoExample()
    ensures MergeInto([Interval(0.0, 10.0)], [Interval(5.0, 15.0), Interval(20.0, 30.0)])
         == [Interval(0.0, 15.0), Interval(20.0, 30.0)]
  {
    var a := Interval(0.0, 10.0);
    var b := Interval(5.0, 15.0);
    var c := Interval(20.0, 30.0);
    var m := Interval(0.0, 15.0);
    assert MergeReady([a], [b, c]) && MergeReady([m], [c]) && MergeReady([m, c], []);
    assert Absorb([a], b) == [m] by {
      assert [a][..0] + [m] == [m];
    }
    assert MergeInto([a], [b, c]) == MergeInto([m], [c]) by {
      assert [b, c][1..] == [c];
    }
    assert Absorb([m], c) == [m, c];
    assert MergeInto([m], [c]) == MergeInto([m, c], []) by {
      assert [c][1..] == [];
    }
  }

  lemma SortedExample()
    ensures SortByStart([Interval(0.0, 10.0), Interval(5.0, 15.0), Interval(20.0, 30.0)])
         == [Interval(0.0, 10.0), Interval(5.0, 15.0), Interval(20.0, 30.0)]
  {
    var s := [Interval(0.0, 10.0), Interval(5.0, 15.0), Interval(20.0, 30.0)];
    assert SortByStart([s[2]]) == [s[2]];
    assert SortByStart(s[1..]) == s[1..] by {
      assert s[1..][1..] == [s[2]];
      assert InsertByStart(s[1], [s[2]]) == s[1..];
    }
    assert InsertByStart(s[0], s[1..]) == s;
  }

  /** A single interval is already merged. */
  lemma MergeSingle(v: Interval)
    ensures MergeIntervals([v]) == [v]
  {
    assert SortByStart([v]) == [v];
    assert [v][1..] == [];
  }

  /** The pairwise overlaps of the sorted example segments. */
  lemma ExamplePairs()
    ensures PairOverlaps([Interval(0.0, 10.0), Interval(5.0, 15.0), Interval(20.0, 30.0)], 0)
         == [Interval(5.0, 10.0)]
  {
    var s := [Interval(0.0, 10.0), Interval(5.0, 15.0), Interval(20.0, 30.0)];
    assert Scan(s, 0, 1, 10.0) == [Interval(5.0, 10.0)] by {
      assert Scan(s, 0, 2, 15.0) == [];
    }
    assert PairOverlaps(s, 1) == [] by {
      assert Scan(s, 1, 2, 15.0) == [];
      assert PairOverlaps(s, 2) == [] by {
        assert Scan(s, 2, 3, 30.0) == [];
      }
    }
  }

  /** The example of the repository's `test_find_overlaps`. */
  lemma FindOverlapsExample()
    ensures FindOverlaps([Interval(0.0, 10.0), Interval(5.0, 15.0), Interval(20.0, 30.0)])
         == [Interval(5.0, 10.0)]
  {
    SortedExample();
    ExamplePairs();
    MergeSingle(Interval(5.0, 10.0));
  }
}
