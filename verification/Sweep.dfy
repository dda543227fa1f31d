/** Own time of spans, as tools/bench/app-result.py measures it: a span's
    duration without the union of its direct children's intervals. Times are
    whole nanoseconds. */
module Sweep {

  datatype Interval = Interval(left: int, right: int)

  function Max(a: int, b: int): int { if a < b then b else a }
  function Min(a: int, b: int): int { if a < b then a else b }

  predicate Holds(x: Interval, t: int) {
    x.left <= t < x.right
  }

  predicate Covers(xs: seq<Interval>, t: int) {
    exists i :: 0 <= i < |xs| && Holds(xs[i], t)
  }

  /** The instants from `lo` to `hi` that some interval holds. */
  ghost function Points(xs: seq<Interval>, lo: int, hi: int): set<int> {
    set t: int | lo <= t < hi && Covers(xs, t)
  }

  // ----- Sorting

  /** The order of pairs: by left end, then by right end. */
  predicate Leq(a: Interval, b: Interval) {
    a.left < b.left || (a.left == b.left && a.right <= b.right)
  }

  predicate Ascending(xs: seq<Interval>) {
    forall i, j :: 0 <= i < j < |xs| ==> Leq(xs[i], xs[j])
  }

  function Insert(x: Interval, xs: seq<Interval>): (r: seq<Interval>)
    ensures multiset(r) == multiset(xs) + multiset{x}
    ensures forall y :: y in r <==> y == x || y in xs
  {
    if xs == [] || Leq(x, xs[0]) then [x] + xs
    else
      assert xs == [xs[0]] + xs[1..];
      [xs[0]] + Insert(x, xs[1..])
  }

  lemma {:induction false} InsertAscends(x: Interval, xs: seq<Interval>)
    requires Ascending(xs)
    ensures Ascending(Insert(x, xs))
  {
    if xs != [] && !Leq(x, xs[0]) {
      var rest := Insert(x, xs[1..]);
      InsertAscends(x, xs[1..]);
      forall i | 0 <= i < |rest| ensures Leq(xs[0], rest[i]) {
        assert rest[i] == x || rest[i] in xs[1..];
      }
    }
  }

  /** The list in order. */
  function Sorted(xs: seq<Interval>): (r: seq<Interval>)
    ensures multiset(r) == multiset(xs)
    ensures forall y :: y in r <==> y in xs
  {
    if xs == [] then []
    else
      assert xs == [xs[0]] + xs[1..];
      Insert(xs[0], Sorted(xs[1..]))
  }

  lemma {:induction false} SortedAscends(xs: seq<Interval>)
    ensures Ascending(Sorted(xs))
  {
    if xs != [] {
      SortedAscends(xs[1..]);
      InsertAscends(xs[0], Sorted(xs[1..]));
    }
  }

  // ----- The sweep

  function Clip(start: int, end: int, x: Interval): Interval {
    Interval(Max(start, x.left), Min(end, x.right))
  }

  function Clipped(start: int, end: int, xs: seq<Interval>): (r: seq<Interval>)
    ensures |r| == |xs|
  {
    seq(|xs|, i requires 0 <= i < |xs| => Clip(start, end, xs[i]))
  }

  ghost function Range(lo: int, hi: int): set<int> {
    set t: int | lo <= t < hi && Holds(Interval(lo, hi), t)
  }

  lemma {:induction false} RangeSize(lo: int, hi: int)
    ensures |Range(lo, hi)| == Max(0, hi - lo)
    decreases Max(0, hi - lo)
  {
    if lo < hi {
      assert Range(lo, hi) == Range(lo, hi - 1) + {hi - 1};
      RangeSize(lo, hi - 1);
    } else {
      assert Range(lo, hi) == {};
    }
  }

  lemma {:induction false} CoversSnoc(xs: seq<Interval>, i: nat, t: int)
    requires i < |xs|
    ensures Covers(xs[..i + 1], t) <==> Covers(xs[..i], t) || Holds(xs[i], t)
  {
    if Covers(xs[..i + 1], t) {
      var j :| 0 <= j <= i && Holds(xs[..i + 1][j], t);
      if j < i {
        assert Holds(xs[..i][j], t);
      }
    }
    if Covers(xs[..i], t) {
      var j :| 0 <= j < i && Holds(xs[..i][j], t);
      assert Holds(xs[..i + 1][j], t);
    }
    assert xs[..i + 1][i] == xs[i];
  }

  /** Before the cursor, an ascending list adds nothing new. */
  lemma {:induction false} NothingNewBeforeCursor(xs: seq<Interval>, i: nat, start: int, cursor: int, t: int)
    requires Ascending(xs) && i < |xs| && start <= xs[i].left
    requires cursor == start || exists j :: 0 <= j < i && xs[j].right == cursor
    requires Holds(xs[i], t) && t < cursor
    ensures Covers(xs[..i], t)
  {
    var m :| 0 <= m < i && xs[m].right == cursor;
    assert Leq(xs[m], xs[i]);
    assert Holds(xs[..i][m], t);
  }

  lemma {:induction false} CoveredBeforeCursor(xs: seq<Interval>, i: nat, cursor: int, t: int)
    requires i <= |xs| && Covers(xs[..i], t)
    requires forall j :: 0 <= j < i ==> xs[j].right <= cursor
    ensures t < cursor
  {
    var j :| 0 <= j < i && Holds(xs[..i][j], t);
    assert xs[j].right <= cursor;
  }

  /** One more interval of an ascending list adds the instants from the cursor on. */
  lemma {:induction false} SweepStep(xs: seq<Interval>, i: nat, start: int, cursor: int)
    requires Ascending(xs) && i < |xs| && start <= xs[i].left && start <= cursor
    requires forall j :: 0 <= j < i ==> xs[j].right <= cursor
    requires cursor == start || exists j :: 0 <= j < i && xs[j].right == cursor
    ensures Points(xs[..i + 1], start, Max(cursor, xs[i].right)) ==
            Points(xs[..i], start, cursor) + Range(Max(xs[i].left, cursor), xs[i].right)
  {
    forall t ensures t in Points(xs[..i + 1], start, Max(cursor, xs[i].right)) <==>
                     t in Points(xs[..i], start, cursor) || t in Range(Max(xs[i].left, cursor), xs[i].right) {
      CoversSnoc(xs, i, t);
      if Covers(xs[..i], t) {
        CoveredBeforeCursor(xs, i, cursor, t);
      } else if Holds(xs[i], t) && t < cursor {
        NothingNewBeforeCursor(xs, i, start, cursor, t);
      }
    }
  }

  lemma {:induction false} PointsGrow(xs: seq<Interval>, i: nat, start: int, cursor: int)
    requires Ascending(xs) && i < |xs| && start <= xs[i].left && start <= cursor
    requires forall j :: 0 <= j < i ==> xs[j].right <= cursor
    requires cursor == start || exists j :: 0 <= j < i && xs[j].right == cursor
    ensures |Points(xs[..i + 1], start, Max(cursor, xs[i].right))| ==
            |Points(xs[..i], start, cursor)| + Max(0, xs[i].right - Max(xs[i].left, cursor))
  {
    SweepStep(xs, i, start, cursor);
    RangeSize(Max(xs[i].left, cursor), xs[i].right);
    assert Points(xs[..i], start, cursor) !! Range(Max(xs[i].left, cursor), xs[i].right);
  }

  lemma {:induction false} SameMembersSameCover(xs: seq<Interval>, ys: seq<Interval>, t: int)
    requires forall x :: x in xs ==> x in ys
    requires Covers(xs, t)
    ensures Covers(ys, t)
  {
    var i :| 0 <= i < |xs| && Holds(xs[i], t);
    assert xs[i] in ys;
    var j :| 0 <= j < |ys| && ys[j] == xs[i];
    assert Holds(ys[j], t);
  }

  lemma {:induction false} ClippedCovers(start: int, end: int, xs: seq<Interval>, t: int)
    ensures Covers(Clipped(start, end, xs), t) <==> Covers(xs, t) && start <= t < end
  {
    var cs := Clipped(start, end, xs);
    if Covers(cs, t) {
      var j :| 0 <= j < |cs| && Holds(cs[j], t);
      assert Holds(xs[j], t);
    }
    if Covers(xs, t) && start <= t < end {
      var j :| 0 <= j < |xs| && Holds(xs[j], t);
      assert Holds(cs[j], t);
    }
  }

  /** The sorted, clipped list covers what the children cover inside the parent. */
  lemma {:induction false} SweepCovers(start: int, end: int, xs: seq<Interval>, hi: int)
    requires forall i :: 0 <= i < |Sorted(Clipped(start, end, xs))| ==> Sorted(Clipped(start, end, xs))[i].right <= hi
    ensures Points(Sorted(Clipped(start, end, xs)), start, hi) == Points(xs, start, end)
  {
    var cs := Clipped(start, end, xs);
    var ys := Sorted(cs);
    forall t ensures t in Points(ys, start, hi) <==> t in Points(xs, start, end) {
      ClippedCovers(start, end, xs, t);
      if Covers(cs, t) {
        SameMembersSameCover(cs, ys, t);
      }
      if Covers(ys, t) {
        SameMembersSameCover(ys, cs, t);
        assert ys[..|ys|] == ys;
        CoveredBeforeCursor(ys, |ys|, hi, t);
      }
    }
  }

  /** After `i` intervals the cursor stands at the largest right end so far, and
      `covered` counts the instants before it. */
  ghost predicate SweptTo(xs: seq<Interval>, i: nat, start: int, cursor: int, covered: int)
    requires i <= |xs|
  {
    && start <= cursor
    && (forall j :: 0 <= j < i ==> xs[j].right <= cursor)
    && (cursor == start || exists j :: 0 <= j < i && xs[j].right == cursor)
    && covered == |Points(xs[..i], start, cursor)|
  }

  lemma {:induction false} SweepOn(xs: seq<Interval>, i: nat, start: int, cursor: int, covered: int)
    requires Ascending(xs) && i < |xs| && start <= xs[i].left && SweptTo(xs, i, start, cursor, covered)
    ensures SweptTo(xs, i + 1, start, Max(cursor, xs[i].right), covered + Max(0, xs[i].right - Max(xs[i].left, cursor)))
  {
    PointsGrow(xs, i, start, cursor);
    assert xs[i].right == Max(cursor, xs[i].right) || cursor == Max(cursor, xs[i].right);
  }

  lemma {:induction false} SweepBegins(xs: seq<Interval>, start: int)
    ensures SweptTo(xs, 0, start, start, 0)
  {
    assert Points(xs[..0], start, start) == {};
  }

  lemma {:induction false} SweepEnds(start: int, end: int, children: seq<Interval>, cursor: int, covered: int)
    requires var xs := Sorted(Clipped(start, end, children)); SweptTo(xs, |xs|, start, cursor, covered)
    ensures covered == |Points(children, start, end)|
  {
    var xs := Sorted(Clipped(start, end, children));
    assert xs[..|xs|] == xs;
    SweepCovers(start, end, children, cursor);
  }

  lemma {:induction false} ClippedStarts(start: int, end: int, children: seq<Interval>, i: nat)
    requires i < |Sorted(Clipped(start, end, children))|
    ensures start <= Sorted(Clipped(start, end, children))[i].left
  {
    assert Sorted(Clipped(start, end, children))[i] in Clipped(start, end, children);
  }

  /** The time that the children cover: the size of the union of their
      intervals inside the parent, for every list of intervals. */
  method Covered(start: int, end: int, children: seq<Interval>) returns (covered: int)
    ensures covered == |Points(children, start, end)|
  {
    var intervals := Sorted(Clipped(start, end, children));
    SortedAscends(Clipped(start, end, children));
    covered := 0;
    var cursor := start;
    SweepBegins(intervals, start);
    for i := 0 to |intervals|
      invariant SweptTo(intervals, i, start, cursor, covered)
    {
      ClippedStarts(start, end, children, i);
      SweepOn(intervals, i, start, cursor, covered);
      var left, right := intervals[i].left, intervals[i].right;
      covered := covered + Max(0, right - Max(left, cursor));
      cursor := Max(cursor, right);
    }
    SweepEnds(start, end, children, cursor, covered);
  }

  ghost function Own(start: int, end: int, children: seq<Interval>): int {
    end - start - |Points(children, start, end)|
  }

  /** Own time lies between nothing and the duration. */
  lemma {:induction false} OwnTimeBounds(start: int, end: int, children: seq<Interval>)
    requires start <= end
    ensures 0 <= Own(start, end, children) <= end - start
  {
    RangeSize(start, end);
    SubsetSize(Points(children, start, end), Range(start, end));
  }

  lemma {:induction false} SubsetSize(a: set<int>, b: set<int>)
    requires a <= b
    ensures |a| <= |b|
  {
    assert b == a + (b - a);
  }

  /** Own time depends on the covered instants only, not on the order of the
      children or on repeats. */
  lemma {:induction false} OwnTimeOfCoverage(start: int, end: int, xs: seq<Interval>, ys: seq<Interval>)
    requires forall t :: start <= t < end ==> (Covers(xs, t) <==> Covers(ys, t))
    ensures Own(start, end, xs) == Own(start, end, ys)
  {
    assert Points(xs, start, end) == Points(ys, start, end);
  }

  // ----- Nested, disjoint children

  predicate Nested(start: int, end: int, xs: seq<Interval>) {
    forall i :: 0 <= i < |xs| ==> start <= xs[i].left <= xs[i].right <= end
  }

  ghost predicate Disjoint(xs: seq<Interval>) {
    forall i, j, t :: 0 <= i < j < |xs| && Holds(xs[i], t) ==> !Holds(xs[j], t)
  }

  function Lengths(xs: seq<Interval>): int {
    if xs == [] then 0 else Lengths(xs[..|xs| - 1]) + xs[|xs| - 1].right - xs[|xs| - 1].left
  }

  /** The last of some disjoint intervals adds exactly its own instants. */
  lemma {:induction false} DisjointStep(start: int, end: int, xs: seq<Interval>, n: nat)
    requires |xs| == n + 1 && Nested(start, end, xs) && Disjoint(xs)
    ensures Points(xs, start, end) == Points(xs[..n], start, end) + Range(xs[n].left, xs[n].right)
    ensures Points(xs[..n], start, end) !! Range(xs[n].left, xs[n].right)
  {
    assert xs[..n + 1] == xs;
    forall t ensures t in Points(xs, start, end) <==> t in Points(xs[..n], start, end) + Range(xs[n].left, xs[n].right) {
      CoversSnoc(xs, n, t);
    }
    forall t | t in Points(xs[..n], start, end) ensures t !in Range(xs[n].left, xs[n].right) {
      var i :| 0 <= i < n && Holds(xs[..n][i], t);
      assert Holds(xs[i], t) && !Holds(xs[n], t);
    }
  }

  lemma {:induction false} DisjointPrefix(start: int, end: int, xs: seq<Interval>, n: nat)
    requires n <= |xs| && Nested(start, end, xs) && Disjoint(xs)
    ensures Nested(start, end, xs[..n]) && Disjoint(xs[..n])
  {
    forall i, j, t | 0 <= i < j < n && Holds(xs[..n][i], t) ensures !Holds(xs[..n][j], t) {
      assert Holds(xs[i], t);
    }
  }

  lemma {:induction false} DisjointAdds(start: int, end: int, xs: seq<Interval>)
    requires Nested(start, end, xs) && Disjoint(xs)
    ensures |Points(xs, start, end)| == Lengths(xs)
    decreases |xs|
  {
    if xs == [] {
      assert Points(xs, start, end) == {};
    } else {
      var n := |xs| - 1;
      DisjointPrefix(start, end, xs, n);
      DisjointAdds(start, end, xs[..n]);
      DisjointStep(start, end, xs, n);
      RangeSize(xs[n].left, xs[n].right);
    }
  }
}
