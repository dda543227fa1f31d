/** The trace reader of test-support/infrastructure/telemetry.rs: an index of the
    spans of one trace, and for each PostgreSQL effect the walk up to the
    invocation it belongs to. The parent links may form cycles. */
module Ancestry {
  import opened Optional
  import opened KeyOrder

  /** `sound` says that the span finished and carries the host identity that its
      name asks for. */
  datatype Kind = Invocation(sound: bool) | Effect(sound: bool) | Other

  /** The identifiers are those that the reader takes from the fields, in lower
      case. A missing or invalid field gives None. */
  datatype Span = Span(traceId: Option<string>, spanId: Option<string>, parentSpanId: Option<string>, kind: Kind)

  type Index = map<string, Span>

  // ----- The index of a trace

  predicate InTrace(s: Span, trace: string) {
    s.traceId == Some(trace) && s.spanId.Some?
  }

  /** Every span belongs to the trace, and no two share an identifier. */
  predicate Indexable(spans: seq<Span>, trace: string) {
    && (forall i :: 0 <= i < |spans| ==> InTrace(spans[i], trace))
    && (forall i, j :: 0 <= i < j < |spans| ==> spans[i].spanId != spans[j].spanId)
  }

  ghost predicate Files(byId: Index, s: Span) {
    s.spanId.Some? && s.spanId.value in byId && byId[s.spanId.value] == s
  }

  ghost predicate Indexes(byId: Index, spans: seq<Span>) {
    && (forall i :: 0 <= i < |spans| ==> Files(byId, spans[i]))
    && (forall id :: id in byId ==> byId[id] in spans && byId[id].spanId == Some(id))
    && |byId| == |spans|
  }

  /** The spans by identifier. */
  function Table(spans: seq<Span>): Index {
    if spans == [] then map[]
    else
      var last, rest := spans[|spans| - 1], Table(spans[..|spans| - 1]);
      if last.spanId.Some? then rest[last.spanId.value := last] else rest
  }

  lemma {:induction false} RepeatIsRefused(spans: seq<Span>, i: nat, trace: string)
    requires i < |spans| && Indexes(Table(spans[..i]), spans[..i])
    requires spans[i].spanId.Some? && spans[i].spanId.value in Table(spans[..i])
    ensures !Indexable(spans, trace)
  {
    var earlier := Table(spans[..i])[spans[i].spanId.value];
    assert earlier in spans[..i];
    var j :| 0 <= j < i && spans[..i][j] == earlier;
    assert spans[j].spanId == spans[i].spanId;
  }

  lemma {:induction false} TableStep(spans: seq<Span>, i: nat)
    requires i < |spans| && spans[i].spanId.Some?
    ensures Table(spans[..i + 1]) == Table(spans[..i])[spans[i].spanId.value := spans[i]]
  {
    assert spans[..i + 1][..i] == spans[..i];
  }

  lemma {:induction false} IndexGrows(byId: Index, spans: seq<Span>, s: Span)
    requires Indexes(byId, spans) && s.spanId.Some? && s.spanId.value !in byId
    ensures Indexes(byId[s.spanId.value := s], spans + [s])
  {
    var id := s.spanId.value;
    forall i | 0 <= i < |spans + [s]| ensures Files(byId[id := s], (spans + [s])[i]) {
      assert i < |spans| ==> Files(byId, spans[i]);
    }
  }

  lemma {:induction false} IndexableGrows(byId: Index, spans: seq<Span>, s: Span, trace: string)
    requires Indexes(byId, spans) && Indexable(spans, trace) && InTrace(s, trace) && s.spanId.value !in byId
    ensures Indexable(spans + [s], trace)
  {
    forall i | 0 <= i < |spans| ensures spans[i].spanId != s.spanId {
      assert Files(byId, spans[i]);
    }
  }

  /** The first `i` spans are indexed. */
  ghost predicate Indexed(byId: Index, spans: seq<Span>, i: nat, trace: string)
    requires i <= |spans|
  {
    byId == Table(spans[..i]) && Indexable(spans[..i], trace) && Indexes(byId, spans[..i])
  }

  lemma {:induction false} IndexOn(byId: Index, spans: seq<Span>, i: nat, trace: string)
    requires i < |spans| && Indexed(byId, spans, i, trace)
    requires InTrace(spans[i], trace) && spans[i].spanId.value !in byId
    ensures Indexed(byId[spans[i].spanId.value := spans[i]], spans, i + 1, trace)
  {
    TableStep(spans, i);
    IndexGrows(byId, spans[..i], spans[i]);
    IndexableGrows(byId, spans[..i], spans[i], trace);
    assert spans[..i + 1] == spans[..i] + [spans[i]];
  }

  lemma {:induction false} IndexDone(byId: Index, spans: seq<Span>, trace: string)
    requires Indexed(byId, spans, |spans|, trace)
    ensures Indexable(spans, trace) && byId == Table(spans) && Indexes(byId, spans)
  {
    assert spans[..|spans|] == spans;
  }

  method IndexSpans(spans: seq<Span>, trace: string) returns (found: Option<Index>)
    ensures found.Some? <==>
              && (forall i :: 0 <= i < |spans| ==> spans[i].traceId == Some(trace) && spans[i].spanId.Some?)
              && (forall i, j :: 0 <= i < j < |spans| ==> spans[i].spanId != spans[j].spanId)
    ensures found.Some? ==> Indexable(spans, trace) && found.value == Table(spans) && Indexes(found.value, spans)
  {
    var byId: Index := map[];
    for i := 0 to |spans|
      invariant Indexed(byId, spans, i, trace)
    {
      var span := spans[i];
      if span.traceId != Some(trace) || span.spanId.None? {
        assert !InTrace(spans[i], trace);
        return None;
      }
      var id := span.spanId.value;
      if id in byId {
        RepeatIsRefused(spans, i, trace);
        return None;
      }
      IndexOn(byId, spans, i, trace);
      byId := byId[id := span];
    }
    IndexDone(byId, spans, trace);
    found := Some(byId);
  }

  // ----- The chain of parents

  /** The identifier `k` links up from `start`, through spans of the trace. */
  function Link(byId: Index, start: string, k: nat): Option<string> {
    if k == 0 then Some(start)
    else
      var below := Link(byId, start, k - 1);
      if below.Some? && below.value in byId then byId[below.value].parentSpanId else None
  }

  /** Link `k` is an invocation and no link before it is. */
  ghost predicate NearestAt(byId: Index, invocations: set<string>, start: string, k: nat) {
    && Link(byId, start, k).Some?
    && Link(byId, start, k).value in invocations
    && NoneBefore(byId, invocations, start, k)
  }

  ghost predicate NoneBefore(byId: Index, invocations: set<string>, start: string, k: nat) {
    forall j: nat :: j < k ==> Link(byId, start, j).Some? && Link(byId, start, j).value !in invocations
  }

  ghost predicate Reaches(byId: Index, invocations: set<string>, start: string) {
    exists k: nat :: Link(byId, start, k).Some? && Link(byId, start, k).value in invocations
  }

  /** The chain meets a span whose parent field holds no identifier before any invocation. */
  ghost predicate BreaksAt(byId: Index, invocations: set<string>, start: string, k: nat) {
    && NoneBefore(byId, invocations, start, k + 1)
    && Link(byId, start, k).value in byId
    && byId[Link(byId, start, k).value].parentSpanId.None?
  }

  datatype Ancestor = Found(id: string) | NoAncestor | BadIdentifier

  lemma {:induction false} LinksContinue(byId: Index, start: string, j: nat, k: nat)
    requires j <= k && Link(byId, start, k).Some?
    ensures Link(byId, start, j).Some?
    decreases k - j
  {
    if j < k {
      LinksContinue(byId, start, j + 1, k);
    }
  }

  /** Once a link repeats, the chain only repeats. */
  lemma {:induction false} CycleRepeats(byId: Index, start: string, j: nat, k: nat, m: nat) returns (i: nat)
    requires j < k && Link(byId, start, j) == Link(byId, start, k)
    ensures i < k && Link(byId, start, i) == Link(byId, start, m)
    decreases m
  {
    if m < k {
      i := m;
    } else {
      i := CycleRepeats(byId, start, j, k, m - 1);
      i := if i + 1 == k then j else i + 1;
    }
  }

  lemma {:induction false} CycleReachesNothing(byId: Index, invocations: set<string>, start: string, j: nat, k: nat)
    requires j < k && Link(byId, start, j) == Link(byId, start, k) && NoneBefore(byId, invocations, start, k)
    ensures !Reaches(byId, invocations, start)
    ensures forall m: nat :: !BreaksAt(byId, invocations, start, m)
  {
    forall m: nat ensures Link(byId, start, m).Some? && Link(byId, start, m).value !in invocations {
      var i := CycleRepeats(byId, start, j, k, m);
    }
    forall m: nat ensures !BreaksAt(byId, invocations, start, m) {
      assert Link(byId, start, m + 1).Some?;
    }
  }

  /** A chain that ends at `k` without an invocation reaches none. */
  lemma {:induction false} EndReachesNothing(byId: Index, invocations: set<string>, start: string, k: nat)
    requires NoneBefore(byId, invocations, start, k + 1) && Link(byId, start, k + 1).None?
    ensures !Reaches(byId, invocations, start)
  {
    forall m: nat | Link(byId, start, m).Some? ensures Link(byId, start, m).value !in invocations {
      if m > k {
        LinksContinue(byId, start, k + 1, m);
      }
    }
  }

  lemma {:induction false} LeavesWithoutBreaking(byId: Index, invocations: set<string>, start: string, k: nat, m: nat)
    requires NoneBefore(byId, invocations, start, k + 1) && Link(byId, start, k).value !in byId
    ensures !BreaksAt(byId, invocations, start, m)
  {
    if m < k {
      assert Link(byId, start, m + 1).Some?;
    } else if m > k {
      assert Link(byId, start, k + 1).None?;
    }
  }

  lemma {:induction false} NearestReaches(byId: Index, invocations: set<string>, start: string, k: nat, m: nat)
    requires NearestAt(byId, invocations, start, k)
    ensures Reaches(byId, invocations, start)
    ensures !BreaksAt(byId, invocations, start, m)
  {
    if m < k {
      assert Link(byId, start, m + 1).Some?;
    }
  }

  /** The walk ends for every index, also a cyclic one. It finds an invocation
      exactly when the chain reaches one, and then the nearest. */
  method FindInvocation(byId: Index, invocations: set<string>, start: string) returns (r: Ancestor)
    ensures r.Found? <==> Reaches(byId, invocations, start)
    ensures r.Found? ==> exists k: nat :: NearestAt(byId, invocations, start, k) && Link(byId, start, k) == Some(r.id)
    ensures r.BadIdentifier? <==> exists k: nat :: BreaksAt(byId, invocations, start, k)
  {
    var parent := start;
    var visited: set<string> := {};
    ghost var k: nat := 0;
    while parent !in invocations && parent !in visited
      invariant Link(byId, start, k) == Some(parent)
      invariant NoneBefore(byId, invocations, start, k)
      invariant forall id :: id in visited ==> exists j: nat :: j < k && Link(byId, start, j) == Some(id)
      decreases byId.Keys - visited
    {
      visited := visited + {parent};
      assert NoneBefore(byId, invocations, start, k + 1);
      if parent !in byId {
        EndReachesNothing(byId, invocations, start, k);
        forall m: nat ensures !BreaksAt(byId, invocations, start, m) {
          LeavesWithoutBreaking(byId, invocations, start, k, m);
        }
        return NoAncestor;
      }
      if byId[parent].parentSpanId.None? {
        EndReachesNothing(byId, invocations, start, k);
        assert BreaksAt(byId, invocations, start, k);
        return BadIdentifier;
      }
      parent := byId[parent].parentSpanId.value;
      k := k + 1;
    }
    if parent in invocations {
      assert NearestAt(byId, invocations, start, k);
      forall m: nat ensures !BreaksAt(byId, invocations, start, m) {
        NearestReaches(byId, invocations, start, k, m);
      }
      return Found(parent);
    }
    ghost var j: nat :| j < k && Link(byId, start, j) == Some(parent);
    CycleReachesNothing(byId, invocations, start, j, k);
    return NoAncestor;
  }

  /** There is one nearest invocation. */
  lemma {:induction false} NearestIsUnique(byId: Index, invocations: set<string>, start: string, j: nat, k: nat)
    requires NearestAt(byId, invocations, start, j) && NearestAt(byId, invocations, start, k)
    ensures j == k
  {
    assert !(j < k) && !(k < j);
  }

  // ----- The report of a request

  datatype EffectOf = EffectOf(id: string, invocation: string)

  datatype Report = Report(spans: nat, invocations: seq<string>, effects: seq<EffectOf>)

  function Invocations(byId: Index): set<string> {
    set id | id in byId && byId[id].kind.Invocation?
  }

  function Effects(byId: Index): set<string> {
    set id | id in byId && byId[id].kind.Effect?
  }

  /** The effect is sound, names a parent, and its chain reaches an invocation. */
  ghost predicate Attributed(byId: Index, id: string) {
    && id in byId && byId[id].kind == Effect(true)
    && byId[id].parentSpanId.Some?
    && Reaches(byId, Invocations(byId), byId[id].parentSpanId.value)
  }

  /** The reported invocation is the nearest one above the effect. */
  ghost predicate AttributedTo(byId: Index, e: EffectOf) {
    && e.id in byId && byId[e.id].parentSpanId.Some?
    && exists k: nat ::
         NearestAt(byId, Invocations(byId), byId[e.id].parentSpanId.value, k) &&
         Link(byId, byId[e.id].parentSpanId.value, k) == Some(e.invocation)
  }

  /** The effects in the order of their identifiers, each with its nearest invocation. */
  ghost predicate InOrder(byId: Index, effects: seq<EffectOf>) {
    && |effects| == |SortedKeys(Effects(byId))|
    && forall i :: 0 <= i < |effects| ==>
         effects[i].id == SortedKeys(Effects(byId))[i] && AttributedTo(byId, effects[i])
  }

  lemma {:induction false} EmptyKeys(s: set<string>)
    ensures SortedKeys(s) == [] <==> s == {}
  {
    if s != {} {
      var k :| k in s;
      assert k in SortedKeys(s);
    }
  }

  method AttributeEffects(byId: Index) returns (effects: Option<seq<EffectOf>>)
    ensures effects.Some? <==> forall id :: id in Effects(byId) ==> Attributed(byId, id)
    ensures effects.Some? ==> InOrder(byId, effects.value)
    ensures effects.Some? ==> (effects.value == [] <==> Effects(byId) == {})
  {
    var found: seq<EffectOf> := [];
    var keys := SortedKeys(Effects(byId));
    for i := 0 to |keys|
      invariant |found| == i
      invariant forall j :: 0 <= j < i ==> Attributed(byId, keys[j])
      invariant forall j :: 0 <= j < i ==> found[j].id == keys[j] && AttributedTo(byId, found[j])
    {
      var id := keys[i];
      assert id in Effects(byId);
      var span := byId[id];
      if !span.kind.sound || span.parentSpanId.None? {
        assert !Attributed(byId, id);
        return None;
      }
      var ancestor := FindInvocation(byId, Invocations(byId), span.parentSpanId.value);
      if !ancestor.Found? {
        assert !Attributed(byId, id);
        return None;
      }
      found := found + [EffectOf(id, ancestor.id)];
    }
    EmptyKeys(Effects(byId));
    effects := Some(found);
  }

  method CheckInvocations(byId: Index, invocations: seq<string>) returns (ok: bool)
    requires forall id :: id in invocations <==> id in Invocations(byId)
    ensures ok <==> forall id :: id in Invocations(byId) ==> byId[id].kind.sound
  {
    for i := 0 to |invocations|
      invariant forall id :: id in invocations[..i] ==> id in Invocations(byId) && byId[id].kind.sound
    {
      assert invocations[i] in Invocations(byId);
      if !byId[invocations[i]].kind.sound {
        return false;
      }
    }
    assert invocations[..|invocations|] == invocations;
    ok := true;
  }

  /** What `request_trace` asks of an indexed trace. */
  ghost predicate Complete(byId: Index) {
    && Invocations(byId) != {} && Effects(byId) != {}
    && (forall id :: id in Invocations(byId) ==> byId[id].kind.sound)
    && (forall id :: id in Effects(byId) ==> Attributed(byId, id))
  }

  ghost predicate Reports(r: Report, byId: Index) {
    r.spans == |byId| && r.invocations == SortedKeys(Invocations(byId)) && InOrder(byId, r.effects)
  }

  /** A report is given exactly for a complete trace. */
  method RequestTrace(spans: seq<Span>, trace: string) returns (r: Option<Report>)
    ensures r.Some? <==> spans != [] && Indexable(spans, trace) && Complete(Table(spans))
    ensures r.Some? ==> Reports(r.value, Table(spans)) && r.value.spans == |spans|
  {
    if spans == [] {
      return None;
    }
    var index := IndexSpans(spans, trace);
    if index.None? {
      return None;
    }
    var byId := index.value;
    var invocations := SortedKeys(Invocations(byId));
    var sound := CheckInvocations(byId, invocations);
    if !sound {
      return None;
    }
    var effects := AttributeEffects(byId);
    if effects.None? {
      return None;
    }
    EmptyKeys(Invocations(byId));
    if invocations == [] || effects.value == [] {
      return None;
    }
    r := Some(Report(|byId|, invocations, effects.value));
  }
}
