/** The descendant walk of tools/bench/app-result.py and the own times of the
    spans it selects. */
module SpanTree {
  import opened Optional
  import opened Sweep

  datatype Span = Span(id: string, parent: Option<string>, start: int, end: int)

  /** The spans of one trace are the values of a dictionary by span id. */
  predicate DistinctIds(spans: seq<Span>) {
    forall i, j :: 0 <= i < j < |spans| ==> spans[i].id != spans[j].id
  }

  function Children(spans: seq<Span>, id: string): seq<Span> {
    if spans == [] then []
    else (if spans[0].parent == Some(id) then [spans[0]] else []) + Children(spans[1..], id)
  }

  lemma {:induction false} ChildrenAre(spans: seq<Span>, id: string)
    ensures forall c :: c in Children(spans, id) <==> c in spans && c.parent == Some(id)
  {
    if spans != [] {
      ChildrenAre(spans[1..], id);
      assert spans == [spans[0]] + spans[1..];
    }
  }

  lemma {:induction false} EachChildOnce(spans: seq<Span>, id: string, c: Span)
    requires DistinctIds(spans)
    ensures multiset(Children(spans, id))[c] <= 1
  {
    if spans != [] {
      EachChildOnce(spans[1..], id, c);
      ChildrenAre(spans[1..], id);
      assert spans[0] !in spans[1..];
    }
  }

  function Find(spans: seq<Span>, id: string): Option<Span> {
    if spans == [] then None else if spans[0].id == id then Some(spans[0]) else Find(spans[1..], id)
  }

  lemma {:induction false} FindIs(spans: seq<Span>, id: string)
    ensures Find(spans, id).Some? ==> Find(spans, id).value in spans && Find(spans, id).value.id == id
    ensures Find(spans, id).None? ==> forall x :: x in spans ==> x.id != id
  {
    if spans != [] {
      FindIs(spans[1..], id);
      assert spans == [spans[0]] + spans[1..];
    }
  }

  function ParentOf(spans: seq<Span>, x: Span): Option<Span> {
    if x.parent.Some? then Find(spans, x.parent.value) else None
  }

  /** The span `k` levels above `x`. */
  function Up(spans: seq<Span>, x: Span, k: nat): Option<Span>
    decreases k
  {
    if k == 0 then Some(x)
    else if ParentOf(spans, x).None? then None
    else Up(spans, ParentOf(spans, x).value, k - 1)
  }

  ghost predicate Descends(spans: seq<Span>, x: Span, root: Span) {
    exists k: nat :: Up(spans, x, k) == Some(root)
  }

  /** A span that is above itself. */
  ghost predicate OnCycle(spans: seq<Span>, root: Span) {
    exists k: nat :: k > 0 && Up(spans, root, k) == Some(root)
  }

  lemma {:induction false} SameIdSameSpan(spans: seq<Span>, x: Span, y: Span)
    requires DistinctIds(spans) && x in spans && y in spans
    ensures x.id == y.id <==> x == y
  {
    var i :| 0 <= i < |spans| && spans[i] == x;
    var j :| 0 <= j < |spans| && spans[j] == y;
    if x.id == y.id {
      assert !(i < j) && !(j < i);
    }
  }

  lemma {:induction false} FoundById(spans: seq<Span>, x: Span)
    requires DistinctIds(spans) && x in spans
    ensures Find(spans, x.id) == Some(x)
  {
    FindIs(spans, x.id);
    SameIdSameSpan(spans, x, Find(spans, x.id).value);
  }

  // ----- The walk

  datatype Walk = Walk(selected: seq<Span>, pending: seq<Span>)

  function Step(spans: seq<Span>, w: Walk): Walk
    requires w.pending != []
  {
    var span := w.pending[|w.pending| - 1];
    Walk(w.selected + [span], w.pending[..|w.pending| - 1] + Children(spans, span.id))
  }

  function Advance(spans: seq<Span>, w: Walk): Walk {
    if w.pending == [] then w else Step(spans, w)
  }

  function WalkAfter(spans: seq<Span>, root: Span, n: nat): Walk {
    if n == 0 then Walk([], [root]) else Advance(spans, WalkAfter(spans, root, n - 1))
  }

  function Seen(w: Walk): multiset<Span> {
    multiset(w.selected) + multiset(w.pending)
  }

  ghost predicate ParentSelected(w: Walk, x: Span) {
    exists y :: y in w.selected && x.parent == Some(y.id)
  }

  ghost predicate SeenOnce(spans: seq<Span>, root: Span, w: Walk, x: Span) {
    Seen(w)[x] == 1 && x in spans && Descends(spans, x, root)
  }

  ghost predicate ChildrenSeen(spans: seq<Span>, w: Walk, x: Span) {
    forall c :: c in spans && c.parent == Some(x.id) ==> c in Seen(w)
  }

  ghost predicate Inv(spans: seq<Span>, root: Span, w: Walk) {
    && root in Seen(w)
    && (forall x :: x in Seen(w) ==> SeenOnce(spans, root, w, x))
    && (forall x {:trigger ParentSelected(w, x)} :: x in Seen(w) && x != root ==> ParentSelected(w, x))
    && (forall x :: x in w.selected ==> ChildrenSeen(spans, w, x))
  }

  lemma {:induction false} StepSees(spans: seq<Span>, w: Walk)
    requires w.pending != []
    ensures Seen(Step(spans, w)) == Seen(w) + multiset(Children(spans, w.pending[|w.pending| - 1].id))
  {
    assert w.pending == w.pending[..|w.pending| - 1] + [w.pending[|w.pending| - 1]];
  }

  lemma {:induction false} ChildDescends(spans: seq<Span>, c: Span, s: Span, root: Span)
    requires DistinctIds(spans) && s in spans && c.parent == Some(s.id) && Descends(spans, s, root)
    ensures Descends(spans, c, root)
    ensures c == root ==> OnCycle(spans, root)
  {
    var k: nat :| Up(spans, s, k) == Some(root);
    FoundById(spans, s);
    assert Up(spans, c, k + 1) == Some(root);
  }

  lemma {:induction false} SelectedNotPending(w: Walk, y: Span)
    requires y in w.selected && Seen(w)[y] == 1
    ensures y !in w.pending
  {
    assert multiset(w.selected)[y] >= 1;
    assert multiset(w.pending)[y] == 0;
  }

  /** A child of the popped span was not seen before. */
  lemma {:induction false} ChildIsNew(spans: seq<Span>, root: Span, w: Walk, c: Span)
    requires DistinctIds(spans) && !OnCycle(spans, root) && Inv(spans, root, w) && w.pending != []
    requires c in Children(spans, w.pending[|w.pending| - 1].id)
    ensures c !in Seen(w)
  {
    var s := w.pending[|w.pending| - 1];
    assert s in Seen(w);
    ChildrenAre(spans, s.id);
    ChildDescends(spans, c, s, root);
    forall y | y in w.selected ensures c.parent != Some(y.id) {
      assert y in Seen(w);
      SelectedNotPending(w, y);
      SameIdSameSpan(spans, y, s);
    }
    assert !ParentSelected(w, c);
  }

  lemma {:induction false} StepKeepsSeen(spans: seq<Span>, root: Span, w: Walk, x: Span)
    requires DistinctIds(spans) && !OnCycle(spans, root) && Inv(spans, root, w) && w.pending != []
    requires x in Seen(Step(spans, w))
    ensures Seen(Step(spans, w))[x] == 1 && x in spans && Descends(spans, x, root)
  {
    var s := w.pending[|w.pending| - 1];
    var cs := Children(spans, s.id);
    StepSees(spans, w);
    assert s in Seen(w);
    ChildrenAre(spans, s.id);
    if x in cs {
      ChildIsNew(spans, root, w, x);
      ChildDescends(spans, x, s, root);
      EachChildOnce(spans, s.id, x);
    }
  }

  lemma {:induction false} StepKeepsParent(spans: seq<Span>, root: Span, w: Walk, x: Span)
    requires Inv(spans, root, w) && w.pending != []
    requires x in Seen(Step(spans, w)) && x != root
    ensures ParentSelected(Step(spans, w), x)
  {
    StepSees(spans, w);
    if x in Seen(w) {
      assert ParentSelected(w, x);
    } else {
      ChildrenAre(spans, w.pending[|w.pending| - 1].id);
    }
  }

  lemma {:induction false} StepKeepsInv(spans: seq<Span>, root: Span, w: Walk)
    requires DistinctIds(spans) && !OnCycle(spans, root) && Inv(spans, root, w) && w.pending != []
    ensures Inv(spans, root, Step(spans, w))
  {
    var s, n := w.pending[|w.pending| - 1], Step(spans, w);
    forall x | x in Seen(n) ensures SeenOnce(spans, root, n, x) {
      StepKeepsSeen(spans, root, w, x);
    }
    forall x | x in Seen(n) && x != root ensures ParentSelected(n, x) {
      StepKeepsParent(spans, root, w, x);
    }
    StepSees(spans, w);
    ChildrenAre(spans, s.id);
    forall x | x in n.selected ensures ChildrenSeen(spans, n, x) {
      if x != s {
        assert x in w.selected && ChildrenSeen(spans, w, x);
      }
    }
  }

  lemma {:induction false} StartInv(spans: seq<Span>, root: Span)
    requires root in spans
    ensures Inv(spans, root, Walk([], [root]))
  {
    assert Up(spans, root, 0) == Some(root);
  }

  lemma {:induction false} AdvanceKeepsInv(spans: seq<Span>, root: Span, w: Walk)
    requires DistinctIds(spans) && !OnCycle(spans, root) && Inv(spans, root, w)
    ensures Inv(spans, root, Advance(spans, w))
  {
    if w.pending != [] {
      StepKeepsInv(spans, root, w);
    }
  }

  lemma {:induction false} WalkKeepsInv(spans: seq<Span>, root: Span, n: nat)
    requires DistinctIds(spans) && root in spans && !OnCycle(spans, root)
    ensures Inv(spans, root, WalkAfter(spans, root, n))
  {
    var w := Walk([], [root]);
    StartInv(spans, root);
    for i := 0 to n
      invariant w == WalkAfter(spans, root, i)
      invariant Inv(spans, root, w)
    {
      AdvanceKeepsInv(spans, root, w);
      w := Advance(spans, w);
    }
  }

  lemma {:induction false} SelectedFits(spans: seq<Span>, root: Span, w: Walk)
    requires DistinctIds(spans) && Inv(spans, root, w)
    ensures |w.selected| + |w.pending| <= |spans|
  {
    forall x ensures Seen(w)[x] <= multiset(spans)[x] {
      if x in Seen(w) {
        assert x in multiset(spans);
      }
    }
    assert multiset(spans) == Seen(w) + (multiset(spans) - Seen(w));
  }

  lemma {:induction false} StepsSelect(spans: seq<Span>, root: Span, n: nat)
    ensures var w := WalkAfter(spans, root, n);
            w.pending == [] || |w.selected| == n
  {
    if n > 0 {
      StepsSelect(spans, root, n - 1);
    }
  }

  /** Nothing is left to visit: the selection is exactly the root and the spans
      below it. */
  lemma {:induction false} SelectedAll(spans: seq<Span>, root: Span, w: Walk, x: Span, k: nat)
    requires DistinctIds(spans) && Inv(spans, root, w) && w.pending == []
    requires x in spans && Up(spans, x, k) == Some(root)
    ensures x in w.selected
    decreases k
  {
    if k == 0 {
      assert root in Seen(w);
    } else {
      var p := ParentOf(spans, x).value;
      FindIs(spans, x.parent.value);
      SelectedAll(spans, root, w, p, k - 1);
      assert ChildrenSeen(spans, w, p) && x in Seen(w);
    }
  }

  lemma {:induction false} SelectedExactly(spans: seq<Span>, root: Span, w: Walk)
    requires DistinctIds(spans) && Inv(spans, root, w) && w.pending == []
    ensures forall x :: x in spans ==> (x in w.selected <==> Descends(spans, x, root))
    ensures forall x :: x in w.selected ==> x in spans && multiset(w.selected)[x] == 1
  {
    forall x | x in spans && Descends(spans, x, root) ensures x in w.selected {
      var k: nat :| Up(spans, x, k) == Some(root);
      SelectedAll(spans, root, w, x, k);
    }
    forall x | x in w.selected ensures x in spans && multiset(w.selected)[x] == 1 && Descends(spans, x, root) {
      assert x in Seen(w) && SeenOnce(spans, root, w, x);
    }
  }

  // ----- A cycle through the root

  /** Some span of the root's own chain waits. */
  ghost predicate ChainWaits(spans: seq<Span>, root: Span, w: Walk) {
    exists i: nat, k: nat :: i < |w.pending| && Up(spans, root, k) == Some(w.pending[i])
  }

  lemma {:induction false} UpSplits(spans: seq<Span>, x: Span, k: nat)
    requires Up(spans, x, k + 1).Some?
    ensures Up(spans, x, k).Some? && ParentOf(spans, Up(spans, x, k).value) == Up(spans, x, k + 1)
    decreases k
  {
    if k > 0 {
      UpSplits(spans, ParentOf(spans, x).value, k - 1);
    }
  }

  lemma {:induction false} UpStays(spans: seq<Span>, x: Span, k: nat)
    requires x in spans && Up(spans, x, k).Some?
    ensures Up(spans, x, k).value in spans
    decreases k
  {
    if k > 0 {
      FindIs(spans, x.parent.value);
      UpStays(spans, ParentOf(spans, x).value, k - 1);
    }
  }

  /** Each span of the cycle has a child on the cycle. */
  lemma {:induction false} ChainGoesOn(spans: seq<Span>, root: Span, cycle: nat, k: nat) returns (j: nat)
    requires root in spans && cycle > 0 && Up(spans, root, cycle) == Some(root)
    requires Up(spans, root, k).Some?
    ensures Up(spans, root, j).Some?
    ensures Up(spans, root, j).value in Children(spans, Up(spans, root, k).value.id)
  {
    j := if k == 0 then cycle - 1 else k - 1;
    UpSplits(spans, root, j);
    UpStays(spans, root, j);
    FindIs(spans, Up(spans, root, j).value.parent.value);
    ChildrenAre(spans, Up(spans, root, k).value.id);
  }

  lemma {:induction false} CycleStep(spans: seq<Span>, root: Span, cycle: nat, w: Walk)
    requires root in spans && cycle > 0 && Up(spans, root, cycle) == Some(root)
    requires ChainWaits(spans, root, w)
    ensures w.pending != [] && ChainWaits(spans, root, Step(spans, w))
  {
    var next, last := Step(spans, w), |w.pending| - 1;
    var i: nat, k: nat :| i < |w.pending| && Up(spans, root, k) == Some(w.pending[i]);
    if i < last {
      assert next.pending[i] == w.pending[i];
    } else {
      var j := ChainGoesOn(spans, root, cycle, k);
      var c, cs := Up(spans, root, j).value, Children(spans, w.pending[last].id);
      assert c in cs;
      var m :| 0 <= m < |cs| && cs[m] == c;
      assert next.pending[last + m] == c;
    }
  }

  lemma {:induction false} CycleKeepsWaiting(spans: seq<Span>, root: Span, cycle: nat, n: nat)
    requires root in spans && cycle > 0 && Up(spans, root, cycle) == Some(root)
    ensures ChainWaits(spans, root, WalkAfter(spans, root, n))
  {
    if n == 0 {
      assert Up(spans, root, 0) == Some(WalkAfter(spans, root, 0).pending[0]);
    } else {
      CycleKeepsWaiting(spans, root, cycle, n - 1);
      CycleStep(spans, root, cycle, WalkAfter(spans, root, n - 1));
    }
  }

  ghost predicate Ends(spans: seq<Span>, root: Span) {
    exists n: nat :: WalkAfter(spans, root, n).pending == []
  }

  /** The walk ends exactly when the root is not above itself. */
  lemma {:induction false} WalkEndsExactly(spans: seq<Span>, root: Span)
    requires DistinctIds(spans) && root in spans
    ensures Ends(spans, root) <==> !OnCycle(spans, root)
  {
    if OnCycle(spans, root) {
      var k: nat :| k > 0 && Up(spans, root, k) == Some(root);
      forall n: nat ensures WalkAfter(spans, root, n).pending != [] {
        CycleKeepsWaiting(spans, root, k, n);
      }
    } else {
      var n := |spans| + 1;
      WalkKeepsInv(spans, root, n);
      SelectedFits(spans, root, WalkAfter(spans, root, n));
      StepsSelect(spans, root, n);
    }
  }

  /** A span that is its own parent is selected again at every step. */
  lemma {:induction false} SelfParentIsSelectedAgain(x: Span, n: nat)
    requires x.parent == Some(x.id)
    ensures WalkAfter([x], x, n).pending == [x] && |WalkAfter([x], x, n).selected| == n
  {
    if n > 0 {
      SelfParentIsSelectedAgain(x, n - 1);
      assert Children([x], x.id) == [x] + Children([x][1..], x.id) == [x];
      assert [] + [x] == [x];
    }
  }

  /** The walk from such a span does not end. */
  lemma {:induction false} SelfParentNeverEnds()
    ensures var x := Span("a", Some("a"), 0, 1);
            DistinctIds([x]) && OnCycle([x], x) && !Ends([x], x)
  {
    var x := Span("a", Some("a"), 0, 1);
    assert Find([x], "a") == Some(x);
    assert Up([x], x, 1) == Up([x], x, 0) == Some(x);
    forall n: nat ensures WalkAfter([x], x, n).pending != [] {
      SelfParentIsSelectedAgain(x, n);
    }
  }

  // ----- Own times

  function IntervalOf(x: Span): Interval {
    Interval(x.start, x.end)
  }

  function Intervals(xs: seq<Span>): (r: seq<Interval>)
    ensures |r| == |xs|
  {
    seq(|xs|, i requires 0 <= i < |xs| => IntervalOf(xs[i]))
  }

  ghost function OwnTime(spans: seq<Span>, x: Span): int {
    Own(x.start, x.end, Intervals(Children(spans, x.id)))
  }

  /** The children lie inside the span and do not overlap. */
  ghost predicate Neat(spans: seq<Span>, x: Span) {
    && Nested(x.start, x.end, Intervals(Children(spans, x.id)))
    && Disjoint(Intervals(Children(spans, x.id)))
  }

  function Durations(xs: seq<Span>): int {
    if xs == [] then 0 else Durations(xs[..|xs| - 1]) + xs[|xs| - 1].end - xs[|xs| - 1].start
  }

  function Sum(xs: seq<int>): int {
    if xs == [] then 0 else Sum(xs[..|xs| - 1]) + xs[|xs| - 1]
  }

  ghost function OwnTimes(spans: seq<Span>, xs: seq<Span>): (r: seq<int>)
    ensures |r| == |xs|
  {
    seq(|xs|, i requires 0 <= i < |xs| => OwnTime(spans, xs[i]))
  }

  lemma {:induction false} DurationsConcat(a: seq<Span>, b: seq<Span>)
    ensures Durations(a + b) == Durations(a) + Durations(b)
    decreases |b|
  {
    if b == [] {
      assert a + b == a;
    } else {
      assert (a + b)[..|a + b| - 1] == a + b[..|b| - 1];
      DurationsConcat(a, b[..|b| - 1]);
    }
  }

  lemma {:induction false} LengthsAreDurations(xs: seq<Span>)
    ensures Lengths(Intervals(xs)) == Durations(xs)
    decreases |xs|
  {
    if xs != [] {
      assert Intervals(xs)[..|xs| - 1] == Intervals(xs[..|xs| - 1]);
      LengthsAreDurations(xs[..|xs| - 1]);
    }
  }

  lemma {:induction false} NeatOwnTime(spans: seq<Span>, x: Span)
    requires Neat(spans, x)
    ensures OwnTime(spans, x) == x.end - x.start - Durations(Children(spans, x.id))
  {
    DisjointAdds(x.start, x.end, Intervals(Children(spans, x.id)));
    LengthsAreDurations(Children(spans, x.id));
  }

  /** Own times of the selected spans plus whole durations of the waiting ones. */
  ghost function Accounted(spans: seq<Span>, w: Walk): int {
    Sum(OwnTimes(spans, w.selected)) + Durations(w.pending)
  }

  lemma {:induction false} StepConserves(spans: seq<Span>, w: Walk)
    requires w.pending != [] && Neat(spans, w.pending[|w.pending| - 1])
    ensures Accounted(spans, Step(spans, w)) == Accounted(spans, w)
  {
    var s := w.pending[|w.pending| - 1];
    NeatOwnTime(spans, s);
    DurationsConcat(w.pending[..|w.pending| - 1], Children(spans, s.id));
    assert OwnTimes(spans, w.selected + [s])[..|w.selected|] == OwnTimes(spans, w.selected);
  }

  ghost predicate AllNeat(spans: seq<Span>, root: Span) {
    forall x :: x in spans && Descends(spans, x, root) ==> Neat(spans, x)
  }

  lemma {:induction false} StartAccounts(spans: seq<Span>, root: Span)
    ensures Accounted(spans, Walk([], [root])) == root.end - root.start
  {
    assert [root][..0] == [];
    assert Durations([root]) == Durations([root][..0]) + root.end - root.start;
    assert OwnTimes(spans, []) == [];
  }

  lemma {:induction false} NextIsNeat(spans: seq<Span>, root: Span, w: Walk)
    requires Inv(spans, root, w) && AllNeat(spans, root) && w.pending != []
    ensures Neat(spans, w.pending[|w.pending| - 1])
  {
    var s := w.pending[|w.pending| - 1];
    assert s in Seen(w) && SeenOnce(spans, root, w, s);
  }

  /** Every step of the walk keeps the total. */
  lemma {:induction false} WalkConserves(spans: seq<Span>, root: Span, w: Walk)
    requires Inv(spans, root, w) && w.pending != []
    ensures AllNeat(spans, root) ==> Accounted(spans, Step(spans, w)) == Accounted(spans, w)
  {
    if AllNeat(spans, root) {
      NextIsNeat(spans, root, w);
      StepConserves(spans, w);
    }
  }

  /** The root and every span below it, each once. With nested, disjoint children
      their own times sum to the duration of the root. */
  method Select(spans: seq<Span>, root: Span) returns (selected: seq<Span>)
    requires DistinctIds(spans) && root in spans && !OnCycle(spans, root)
    ensures forall x :: x in spans ==> (x in selected <==> Descends(spans, x, root))
    ensures forall x :: x in selected ==> x in spans && multiset(selected)[x] == 1
    ensures AllNeat(spans, root) ==> Sum(OwnTimes(spans, selected)) == root.end - root.start
  {
    selected := [];
    var pending := [root];
    ghost var w := Walk(selected, pending);
    StartInv(spans, root);
    StartAccounts(spans, root);
    while pending != []
      invariant w == Walk(selected, pending) && Inv(spans, root, w)
      invariant AllNeat(spans, root) ==> Accounted(spans, w) == root.end - root.start
      decreases |spans| - |selected|
    {
      SelectedFits(spans, root, w);
      StepKeepsInv(spans, root, w);
      WalkConserves(spans, root, w);
      var span := pending[|pending| - 1];
      pending := pending[..|pending| - 1] + Children(spans, span.id);
      selected := selected + [span];
      w := Step(spans, w);
    }
    SelectedExactly(spans, root, w);
  }

  /** The own time of each selected span. With nested, disjoint children they
      sum to the duration of the root. */
  method Measure(spans: seq<Span>, root: Span) returns (selected: seq<Span>, owns: seq<int>)
    requires DistinctIds(spans) && root in spans && !OnCycle(spans, root)
    ensures forall x :: x in spans ==> (x in selected <==> Descends(spans, x, root))
    ensures forall x :: x in selected ==> x in spans && multiset(selected)[x] == 1
    ensures |owns| == |selected|
    ensures forall i :: 0 <= i < |owns| ==> owns[i] == OwnTime(spans, selected[i])
    ensures AllNeat(spans, root) ==> Sum(owns) == root.end - root.start
  {
    selected := Select(spans, root);
    owns := [];
    for i := 0 to |selected|
      invariant |owns| == i
      invariant forall j :: 0 <= j < i ==> owns[j] == OwnTime(spans, selected[j])
    {
      var span := selected[i];
      var covered := Covered(span.start, span.end, Intervals(Children(spans, span.id)));
      owns := owns + [span.end - span.start - covered];
    }
    assert owns == OwnTimes(spans, selected);
  }
}
