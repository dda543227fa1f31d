/** Form addresses of apps/platform_ui/src/fill.ts: the members of a nested value
    written as query values with dotted names, and the value rebuilt from them.

    A container keeps its members by name. The elements of a list are named by
    their indexes. Query values may be listed in any order. */
module Fill {
  import opened Optional
  import opened Decimals

  datatype Val = Leaf(text: string) | Undefined | Node(list: bool, entries: map<string, Val>)

  type Path = seq<string>

  /** The text of one member, with the path to it. */
  datatype Entry = Entry(path: Path, text: string)

  predicate DotFree(s: string) {
    '.' !in s
  }

  // ----- Names

  /** The name of a member below a name. */
  function Extend(name: string, member: string): string {
    if name == "" then member else name + "." + member
  }

  function NameOf(path: Path): string {
    if path == [] then "" else Extend(NameOf(path[..|path| - 1]), path[|path| - 1])
  }

  /** The members of a name: the text between its dots. */
  function Split(s: string): (r: seq<string>)
    ensures |r| > 0
    ensures forall i :: 0 <= i < |r| ==> DotFree(r[i])
  {
    if s == [] then [""]
    else
      var rest := Split(s[1..]);
      if s[0] == '.' then [""] + rest else [[s[0]] + rest[0]] + rest[1..]
  }

  lemma {:induction false} SplitPlain(s: string)
    requires DotFree(s)
    ensures Split(s) == [s]
  {
    if s != [] {
      SplitPlain(s[1..]);
      assert [s[0]] + s[1..] == s;
    }
  }

  /** A character in front of some members goes to the first of them, unless it
      is a dot. */
  function Prepend(c: char, members: seq<string>): seq<string>
    requires members != []
  {
    if c == '.' then [""] + members else [[c] + members[0]] + members[1..]
  }

  lemma {:induction false} SplitCons(c: char, s: string)
    ensures Split([c] + s) == Prepend(c, Split(s))
  {
    assert ([c] + s)[1..] == s;
  }

  lemma {:induction false} PrependConcat(c: char, a: seq<string>, b: seq<string>)
    requires a != []
    ensures Prepend(c, a + b) == Prepend(c, a) + b
  {
    assert (a + b)[1..] == a[1..] + b;
  }

  lemma {:induction false} SplitAtDot(a: string, b: string)
    ensures Split(a + "." + b) == Split(a) + Split(b)
    decreases |a|
  {
    if a == [] {
      assert a + "." + b == ['.'] + b;
      SplitCons('.', b);
    } else {
      assert a + "." + b == [a[0]] + (a[1..] + "." + b) && a == [a[0]] + a[1..];
      SplitAtDot(a[1..], b);
      SplitCons(a[0], a[1..] + "." + b);
      SplitCons(a[0], a[1..]);
      PrependConcat(a[0], Split(a[1..]), Split(b));
    }
  }

  /** A path whose name tells it: no member holds a dot, and an empty first
      member stands alone. */
  predicate Telling(path: Path) {
    && path != []
    && (forall i :: 0 <= i < |path| ==> DotFree(path[i]))
    && (path[0] == "" ==> |path| == 1)
  }

  lemma {:induction false} SplitName(path: Path)
    requires Telling(path)
    ensures Split(NameOf(path)) == path
    ensures |path| > 1 || path[0] != "" ==> NameOf(path) != ""
    decreases |path|
  {
    var n := |path| - 1;
    var init, last := path[..n], path[n];
    SplitPlain(last);
    if n == 0 {
      assert NameOf(init) == "";
      assert path == [last];
    } else {
      SplitName(init);
      SplitAtDot(NameOf(init), last);
      assert path == init + [last];
    }
  }

  /** Without dots in the members, no name starts with a dot. */
  lemma {:induction false} NamesStartPlain(path: Path)
    requires forall i :: 0 <= i < |path| ==> DotFree(path[i])
    ensures NameOf(path) == "" || NameOf(path)[0] != '.'
    decreases |path|
  {
    if path != [] {
      NamesStartPlain(path[..|path| - 1]);
      assert DotFree(path[|path| - 1]);
    }
  }

  // ----- Writing the members

  predicate LeafAt(v: Val, path: Path, text: string)
    decreases |path|
  {
    if path == [] then v == Leaf(text)
    else v.Node? && path[0] in v.entries && LeafAt(v.entries[path[0]], path[1..], text)
  }

  /** The query value comes from a leaf of `v`, which stands at `path`. */
  ghost predicate From(v: Val, path: Path, name: string, text: string) {
    exists p: Path :: LeafAt(v, p, text) && name == NameOf(path + p)
  }

  /** The query after the leaves of `v` were written over an earlier one. */
  ghost predicate Wrote(v: Val, path: Path, before: map<string, string>, after: map<string, string>) {
    && (forall n :: n in before ==> n in after)
    && (forall n :: n in after ==> (n in before && after[n] == before[n]) || From(v, path, n, after[n]))
    && (forall p: Path, t :: LeafAt(v, p, t) ==> NameOf(path + p) in after)
  }

  lemma {:induction false} FromBelow(v: Val, path: Path, k: string, name: string, text: string)
    requires v.Node? && k in v.entries && From(v.entries[k], path + [k], name, text)
    ensures From(v, path, name, text)
  {
    var p: Path :| LeafAt(v.entries[k], p, text) && name == NameOf(path + [k] + p);
    assert path + [k] + p == path + ([k] + p);
    assert ([k] + p)[1..] == p;
    assert LeafAt(v, [k] + p, text);
  }

  lemma {:induction false} LeafBelow(v: Val, path: Path, p: Path, text: string)
    requires v.Node? && LeafAt(v, p, text)
    ensures p != [] && p[0] in v.entries && LeafAt(v.entries[p[0]], p[1..], text)
    ensures path + p == path + [p[0]] + p[1..]
  {
  }

  /** `walk`: writes every leaf of `v` under its name. The members of a container
      are taken in any order. */
  method Walk(v: Val, name: string, before: map<string, string>, ghost path: Path) returns (after: map<string, string>)
    requires name == NameOf(path)
    ensures Wrote(v, path, before, after)
    decreases v
  {
    after := before;
    if v.Node? {
      var left := v.entries.Keys;
      while left != {}
        invariant left <= v.entries.Keys
        invariant forall n :: n in before ==> n in after
        invariant forall n :: n in after ==> (n in before && after[n] == before[n]) || From(v, path, n, after[n])
        invariant forall k, p: Path, t ::
                    k in v.entries.Keys - left && LeafAt(v.entries[k], p, t) ==> NameOf(path + [k] + p) in after
        decreases left
      {
        var member :| member in left;
        assert (path + [member])[..|path|] == path;
        ghost var was := after;
        after := Walk(v.entries[member], Extend(name, member), after, path + [member]);
        forall n | n in after ensures (n in before && after[n] == before[n]) || From(v, path, n, after[n]) {
          if From(v.entries[member], path + [member], n, after[n]) {
            FromBelow(v, path, member, n, after[n]);
          }
        }
        left := left - {member};
      }
      forall p: Path, t | LeafAt(v, p, t) ensures NameOf(path + p) in after {
        LeafBelow(v, path, p, t);
      }
    } else if v.Leaf? {
      assert path + [] == path;
      assert LeafAt(v, [], v.text);
      after := after[name := v.text];
    }
  }

  /** The query of a form address. */
  method FillPath(values: Val) returns (query: map<string, string>)
    ensures Wrote(values, [], map[], query)
  {
    query := Walk(values, "", map[], []);
  }

  // ----- Rebuilding

  /** Write one member, making the containers on its way. The next member name
      tells the kind of a new container. Writing through a text fails. */
  function Put(m: map<string, Val>, path: Path, text: string): Option<map<string, Val>>
    requires path != []
    decreases |path|
  {
    var k, rest := path[0], path[1..];
    if rest == [] then Some(m[k := Leaf(text)])
    else if k in m && m[k].Leaf? then None
    else
      var inner := if k in m && m[k].Node? then m[k] else Node(IsNumeral(rest[0]), map[]);
      var done := Put(inner.entries, rest, text);
      if done.Some? then Some(m[k := Node(inner.list, done.value)]) else None
  }

  predicate Pathed(entries: seq<Entry>) {
    forall e :: e in entries ==> e.path != []
  }

  function PutAll(m: map<string, Val>, entries: seq<Entry>): Option<map<string, Val>>
    requires Pathed(entries)
    decreases |entries|
  {
    if entries == [] then Some(m)
    else
      var done := Put(m, entries[0].path, entries[0].text);
      if done.Some? then PutAll(done.value, entries[1..]) else None
  }

  /** A query value, whose text may be undefined. */
  datatype Query = Query(name: string, text: Option<string>)

  /** The entries of the query values that have a text. */
  function EntriesOf(search: seq<Query>): (r: seq<Entry>)
    ensures Pathed(r)
  {
    if search == [] then []
    else (if search[0].text.Some? then [Entry(Split(search[0].name), search[0].text.value)] else []) +
         EntriesOf(search[1..])
  }

  lemma {:induction false} EntriesStep(search: seq<Query>, i: nat)
    requires i < |search|
    ensures var all, rest := EntriesOf(search[i..]), EntriesOf(search[i + 1..]);
            if search[i].text.Some? then
              all != [] && all[0] == Entry(Split(search[i].name), search[i].text.value) && all[1..] == rest
            else all == rest
  {
    assert search[i..][1..] == search[i + 1..];
  }

  /** The value rebuilt from a query, None where a write fails. */
  function Rebuilt(search: seq<Query>): Option<Val> {
    var m := PutAll(map[], EntriesOf(search));
    if m.Some? then Some(Node(false, m.value)) else None
  }

  /** `filledValues`: reads the query values one by one. */
  method FilledValues(search: seq<Query>) returns (r: Option<Val>)
    ensures r == Rebuilt(search)
  {
    var values: map<string, Val> := map[];
    for i := 0 to |search|
      invariant PutAll(map[], EntriesOf(search)) == PutAll(values, EntriesOf(search[i..]))
    {
      EntriesStep(search, i);
      if search[i].text.Some? {
        var done := Put(values, Split(search[i].name), search[i].text.value);
        if done.None? {
          return None;
        }
        values := done.value;
      }
    }
    r := Some(Node(false, values));
  }

  // ----- What the writes build together

  /** No path leads through another one. */
  ghost predicate Coherent(entries: seq<Entry>) {
    forall a, b :: a in entries && b in entries && a.path <= b.path ==> a == b
  }

  /** The entries below a member, with the rest of their paths. */
  function Below(entries: seq<Entry>, k: string): seq<Entry> {
    if entries == [] then [] else Tail(entries[0], k) + Below(entries[1..], k)
  }

  function Tail(e: Entry, k: string): seq<Entry> {
    if e.path != [] && e.path[0] == k then [Entry(e.path[1..], e.text)] else []
  }

  lemma {:induction false} BelowAre(entries: seq<Entry>, k: string, e: Entry)
    ensures e in Below(entries, k) <==> Entry([k] + e.path, e.text) in entries
  {
    if entries != [] {
      var first := entries[0];
      BelowAre(entries[1..], k, e);
      assert entries == [first] + entries[1..];
      if first.path != [] {
        assert first.path == [first.path[0]] + first.path[1..];
      }
      assert ([k] + e.path)[1..] == e.path;
    }
  }

  lemma {:induction false} BelowSnoc(entries: seq<Entry>, e: Entry, k: string)
    ensures Below(entries + [e], k) == Below(entries, k) + Tail(e, k)
  {
    if entries == [] {
      assert entries + [e] == [e] && [e][1..] == [];
    } else {
      assert (entries + [e])[1..] == entries[1..] + [e];
      BelowSnoc(entries[1..], e, k);
    }
  }

  function Heads(entries: seq<Entry>): set<string> {
    set e | e in entries && e.path != [] :: e.path[0]
  }

  /** The total length of the paths. */
  function Weight(entries: seq<Entry>): nat {
    if entries == [] then 0 else |entries[0].path| + Weight(entries[1..])
  }

  lemma {:induction false} BelowIsLighter(entries: seq<Entry>, k: string)
    ensures Weight(Below(entries, k)) <= Weight(entries)
    ensures k in Heads(entries) ==> Weight(Below(entries, k)) < Weight(entries)
  {
    if entries != [] {
      var e, rest := entries[0], entries[1..];
      BelowIsLighter(rest, k);
      assert entries == [e] + rest;
      if e.path != [] && e.path[0] == k {
        assert Below(entries, k)[1..] == Below(rest, k);
      } else {
        assert Below(entries, k) == Below(rest, k);
        assert k in Heads(entries) ==> k in Heads(rest);
      }
    }
  }

  /** The value that some entries describe: by first member, each container of
      the kind that its first entry tells. */
  function Group(entries: seq<Entry>): map<string, Val>
    decreases Weight(entries), 0
  {
    map k | k in Heads(entries) :: BelowIsLighter(entries, k); Grouped(Below(entries, k))
  }

  function Grouped(entries: seq<Entry>): Val
    decreases Weight(entries), 1
  {
    if entries == [] then Undefined
    else if entries[0].path == [] then Leaf(entries[0].text)
    else Node(IsNumeral(entries[0].path[0]), Group(entries))
  }

  lemma {:induction false} HeadsAre(entries: seq<Entry>, k: string)
    ensures k in Heads(entries) <==> Below(entries, k) != []
  {
    if k in Heads(entries) {
      var e :| e in entries && e.path != [] && e.path[0] == k;
      assert e.path == [k] + e.path[1..];
      BelowAre(entries, k, Entry(e.path[1..], e.text));
    }
    if Below(entries, k) != [] {
      BelowAre(entries, k, Below(entries, k)[0]);
    }
  }

  lemma {:induction false} HeadsSnoc(entries: seq<Entry>, e: Entry)
    requires e.path != []
    ensures Heads(entries + [e]) == Heads(entries) + {e.path[0]}
  {
  }

  lemma {:induction false} GroupAt(entries: seq<Entry>, k: string)
    ensures k in Group(entries) <==> k in Heads(entries)
    ensures k in Group(entries) ==> Group(entries)[k] == Grouped(Below(entries, k))
  {
  }

  lemma {:induction false} SameMembers(a: map<string, Val>, b: map<string, Val>)
    requires forall k :: k in a <==> k in b
    requires forall k :: k in a && k in b ==> a[k] == b[k]
    ensures a == b
  {
  }

  lemma {:induction false} GroupSnoc(entries: seq<Entry>, e: Entry)
    requires e.path != []
    ensures var k := e.path[0];
            Group(entries + [e]) == Group(entries)[k := Grouped(Below(entries, k) + [Entry(e.path[1..], e.text)])]
  {
    var all, head := entries + [e], e.path[0];
    var next := Group(entries)[head := Grouped(Below(entries, head) + [Entry(e.path[1..], e.text)])];
    HeadsSnoc(entries, e);
    forall k
      ensures k in Group(all) <==> k in next
      ensures k in Group(all) && k in next ==> Group(all)[k] == next[k]
    {
      GroupAt(all, k);
      GroupAt(entries, k);
      BelowSnoc(entries, e, k);
      assert k != head ==> Below(entries, k) + [] == Below(entries, k);
    }
    SameMembers(Group(all), next);
  }

  lemma {:induction false} BelowCoherent(entries: seq<Entry>, k: string)
    requires Coherent(entries)
    ensures Coherent(Below(entries, k))
  {
    var sub := Below(entries, k);
    forall a, b | a in sub && b in sub && a.path <= b.path ensures a == b {
      BelowAre(entries, k, a);
      BelowAre(entries, k, b);
      assert [k] + a.path <= [k] + b.path;
      assert ([k] + a.path)[1..] == a.path && ([k] + b.path)[1..] == b.path;
    }
  }

  /** Below a member that leads on, every path leads on. */
  lemma {:induction false} BelowLeadsOn(entries: seq<Entry>, k: string, e: Entry)
    requires Coherent(entries) && e in Below(entries, k)
    ensures e.path != [] ==> Pathed(Below(entries, k))
    ensures e.path == [] ==> forall d :: d in Below(entries, k) ==> d == e
  {
    forall d | d in Below(entries, k)
      ensures d.path == [] ==> d == e
      ensures e.path == [] ==> d == e
    {
      BelowAre(entries, k, d);
      BelowAre(entries, k, e);
      assert ([k] + d.path)[1..] == d.path && ([k] + e.path)[1..] == e.path;
    }
  }

  lemma {:induction false} TailFacts(entries: seq<Entry>, e: Entry)
    requires e.path != [] && Coherent(entries + [e])
    ensures var sub, tail := Below(entries, e.path[0]), Entry(e.path[1..], e.text);
            && Coherent(sub + [tail])
            && (tail.path == [] ==> sub == [] || sub[0] == tail)
            && (tail.path != [] ==> sub == [] || sub[0].path != [])
  {
    var k, tail := e.path[0], Entry(e.path[1..], e.text);
    var sub := Below(entries, k);
    BelowSnoc(entries, e, k);
    BelowCoherent(entries + [e], k);
    assert tail in sub + [tail];
    BelowLeadsOn(entries + [e], k, tail);
    assert sub != [] ==> sub[0] in sub + [tail];
  }

  /** What a member holds before and after a write below it. */
  lemma {:induction false} GroupedSnoc(sub: seq<Entry>, tail: Entry)
    requires tail.path == [] ==> sub == [] || sub[0] == tail
    requires tail.path != [] ==> sub == [] || sub[0].path != []
    ensures tail.path == [] ==> Grouped(sub + [tail]) == Leaf(tail.text)
    ensures tail.path != [] ==>
              Grouped(sub + [tail]) ==
              Node(if sub == [] then IsNumeral(tail.path[0]) else IsNumeral(sub[0].path[0]), Group(sub + [tail]))
  {
    assert sub != [] ==> (sub + [tail])[0] == sub[0];
    assert sub == [] ==> (sub + [tail])[0] == tail;
  }

  /** Each write adds its entry to what the earlier ones describe. */
  lemma {:induction false} PutStep(entries: seq<Entry>, e: Entry)
    requires e.path != [] && Coherent(entries + [e])
    ensures Put(Group(entries), e.path, e.text) == Some(Group(entries + [e]))
    decreases |e.path|
  {
    var k, tail := e.path[0], Entry(e.path[1..], e.text);
    var sub := Below(entries, k);
    TailFacts(entries, e);
    GroupedSnoc(sub, tail);
    GroupSnoc(entries, e);
    GroupAt(entries, k);
    HeadsAre(entries, k);
    if tail.path != [] {
      PutStep(sub, tail);
      if sub == [] {
        assert Group(sub) == map[];
      }
    }
  }

  lemma {:induction false} PutAllGroups(done: seq<Entry>, rest: seq<Entry>)
    requires Pathed(rest) && Coherent(done + rest)
    ensures PutAll(Group(done), rest) == Some(Group(done + rest))
    decreases |rest|
  {
    if rest == [] {
      assert done + rest == done;
    } else {
      assert done + rest == done + [rest[0]] + rest[1..];
      PutStep(done, rest[0]);
      PutAllGroups(done + [rest[0]], rest[1..]);
    }
  }

  // ----- Trees that survive

  /** Only texts and non-empty containers, under names without dots. */
  predicate Clean(v: Val) {
    match v
    case Leaf(_) => true
    case Undefined => false
    case Node(_, m) =>
      forall k :: k in m ==> DotFree(k) && Clean(m[k]) && (m[k].Node? ==> m[k].entries != map[])
  }

  /** What a caller can see of the value alone: an object of clean members, whose
      empty name, if any, holds a text. */
  predicate Plain(v: Val) {
    && v.Node? && !v.list && Clean(v)
    && ("" in v.entries ==> v.entries[""].Leaf?)
  }

  /** Each container below `v` is a list exactly when the first entry below it
      names a number. */
  predicate KindsFit(v: Val, entries: seq<Entry>)
    requires v.Node?
    decreases v
  {
    forall k :: k in v.entries && v.entries[k].Node? ==> FitsAt(v, entries, k)
  }

  predicate FitsAt(v: Val, entries: seq<Entry>, k: string)
    requires v.Node? && k in v.entries && v.entries[k].Node?
    decreases v, 0
  {
    var sub := Below(entries, k);
    && sub != [] && sub[0].path != []
    && v.entries[k].list == IsNumeral(sub[0].path[0])
    && KindsFit(v.entries[k], sub)
  }

  /** The entries are the leaves of `v`, in some order. */
  ghost predicate Lists(entries: seq<Entry>, v: Val) {
    forall p: Path, t :: Entry(p, t) in entries <==> LeafAt(v, p, t)
  }

  lemma {:induction false} LeafPrefix(v: Val, p: Path, t: string, q: Path, u: string)
    requires LeafAt(v, p, t) && LeafAt(v, q, u) && p <= q
    ensures p == q && t == u
    decreases |p|
  {
    if p != [] {
      assert p == [p[0]] + p[1..] && q == [q[0]] + q[1..];
      LeafPrefix(v.entries[p[0]], p[1..], t, q[1..], u);
    }
  }

  lemma {:induction false} LeavesCohere(entries: seq<Entry>, v: Val)
    requires Lists(entries, v)
    ensures Coherent(entries)
  {
    forall a, b | a in entries && b in entries && a.path <= b.path ensures a == b {
      assert a == Entry(a.path, a.text) && b == Entry(b.path, b.text);
      LeafPrefix(v, a.path, a.text, b.path, b.text);
    }
  }

  lemma {:induction false} HasLeaf(v: Val) returns (p: Path, t: string)
    requires Clean(v) && (v.Node? ==> v.entries != map[])
    ensures LeafAt(v, p, t)
    decreases v
  {
    if v.Leaf? {
      p, t := [], v.text;
    } else {
      var k :| k in v.entries;
      p, t := HasLeaf(v.entries[k]);
      assert ([k] + p)[1..] == p;
      p := [k] + p;
    }
  }

  lemma {:induction false} ListsBelow(entries: seq<Entry>, v: Val, k: string)
    requires v.Node? && k in v.entries && Lists(entries, v)
    ensures Lists(Below(entries, k), v.entries[k])
  {
    forall p: Path, t ensures Entry(p, t) in Below(entries, k) <==> LeafAt(v.entries[k], p, t) {
      BelowAre(entries, k, Entry(p, t));
      assert ([k] + p)[1..] == p;
      assert Entry([k] + p, t) in entries <==> LeafAt(v, [k] + p, t);
    }
  }

  /** A member that is a clean value has entries of its own, and the first tells
      a text from a container. */
  lemma {:induction false} MemberListed(entries: seq<Entry>, v: Val)
    requires Lists(entries, v) && Clean(v) && (v.Node? ==> v.entries != map[])
    ensures entries != []
    ensures v.Leaf? ==> entries[0] == Entry([], v.text)
    ensures v.Node? ==> entries[0].path != []
  {
    var p, t := HasLeaf(v);
    assert Entry(p, t) in entries;
    var e := entries[0];
    assert e in entries && e == Entry(e.path, e.text);
    assert LeafAt(v, e.path, e.text);
  }

  lemma {:induction false} HeadsOfLeaves(entries: seq<Entry>, v: Val, k: string)
    requires v.Node? && Clean(v) && Lists(entries, v)
    ensures k in Heads(entries) <==> k in v.entries
  {
    HeadsAre(entries, k);
    if k in v.entries {
      ListsBelow(entries, v, k);
      MemberListed(Below(entries, k), v.entries[k]);
    }
    if Below(entries, k) != [] {
      var e := Below(entries, k)[0];
      BelowAre(entries, k, e);
      assert LeafAt(v, [k] + e.path, e.text);
    }
  }

  /** The entries describe the value itself exactly when the kinds fit. */
  lemma {:induction false} GroupIsValue(entries: seq<Entry>, v: Val)
    requires v.Node? && Clean(v) && Lists(entries, v)
    ensures Group(entries) == v.entries <==> KindsFit(v, entries)
    decreases v
  {
    forall k
      ensures k in Group(entries) <==> k in v.entries
      ensures k in v.entries ==> (Group(entries)[k] == v.entries[k] <==> v.entries[k].Node? ==> FitsAt(v, entries, k))
    {
      GroupAt(entries, k);
      HeadsOfLeaves(entries, v, k);
      if k in v.entries {
        var sub := Below(entries, k);
        ListsBelow(entries, v, k);
        MemberListed(sub, v.entries[k]);
        if v.entries[k].Node? {
          GroupIsValue(sub, v.entries[k]);
        }
      }
    }
    if KindsFit(v, entries) {
      SameMembers(Group(entries), v.entries);
    }
  }

  // ----- Everything rebuilt is clean

  lemma {:induction false} PutClean(m: map<string, Val>, path: Path, text: string, list: bool)
    requires path != [] && Clean(Node(list, m)) && Put(m, path, text).Some?
    requires forall i :: 0 <= i < |path| ==> DotFree(path[i])
    ensures Clean(Node(list, Put(m, path, text).value)) && Put(m, path, text).value != map[]
    decreases |path|
  {
    var k, rest := path[0], path[1..];
    var r := Put(m, path, text).value;
    assert k in r;
    if rest != [] {
      var inner := if k in m && m[k].Node? then m[k] else Node(IsNumeral(rest[0]), map[]);
      PutClean(inner.entries, rest, text, inner.list);
    }
  }

  predicate DotFreePaths(entries: seq<Entry>) {
    forall e :: e in entries ==> forall i :: 0 <= i < |e.path| ==> DotFree(e.path[i])
  }

  /** An empty first member stands alone. */
  predicate EmptyAlone(entries: seq<Entry>) {
    forall e :: e in entries && e.path != [] && e.path[0] == "" ==> |e.path| == 1
  }

  lemma {:induction false} RebuiltIsClean(m: map<string, Val>, entries: seq<Entry>)
    requires Clean(Node(false, m)) && ("" in m ==> m[""].Leaf?)
    requires Pathed(entries) && DotFreePaths(entries) && PutAll(m, entries).Some?
    ensures Clean(Node(false, PutAll(m, entries).value))
    ensures EmptyAlone(entries) ==> Plain(Node(false, PutAll(m, entries).value))
    decreases |entries|
  {
    if entries != [] {
      assert entries[0] in entries;
      PutClean(m, entries[0].path, entries[0].text, false);
      RebuiltRest(Put(m, entries[0].path, entries[0].text).value, entries[1..]);
      if EmptyAlone(entries) {
        RebuiltIsClean(Put(m, entries[0].path, entries[0].text).value, entries[1..]);
      }
    }
  }

  lemma {:induction false} RebuiltRest(m: map<string, Val>, entries: seq<Entry>)
    requires Clean(Node(false, m)) && Pathed(entries) && DotFreePaths(entries) && PutAll(m, entries).Some?
    ensures Clean(Node(false, PutAll(m, entries).value))
    decreases |entries|
  {
    if entries != [] {
      assert entries[0] in entries;
      PutClean(m, entries[0].path, entries[0].text, false);
      RebuiltRest(Put(m, entries[0].path, entries[0].text).value, entries[1..]);
    }
  }

  // ----- The round trip

  /** The query values are those of the query, listed in any order. */
  ghost predicate ListsQuery(search: seq<Query>, query: map<string, string>) {
    forall n, t :: Query(n, Some(t)) in search <==> n in query && query[n] == t
  }

  lemma {:induction false} EntriesAre(search: seq<Query>, e: Entry)
    ensures e in EntriesOf(search) <==> exists n :: Query(n, Some(e.text)) in search && Split(n) == e.path
  {
    if search != [] {
      EntriesAre(search[1..], e);
      assert search == [search[0]] + search[1..];
      if e in EntriesOf(search) {
        if e in EntriesOf(search[1..]) {
          var n :| Query(n, Some(e.text)) in search[1..] && Split(n) == e.path;
          assert Query(n, Some(e.text)) in search;
        } else {
          assert Query(search[0].name, Some(e.text)) in search;
        }
      }
      if n :| Query(n, Some(e.text)) in search && Split(n) == e.path {
        assert search[0] == Query(n, Some(e.text)) || Query(n, Some(e.text)) in search[1..];
      }
    }
  }

  lemma {:induction false} LeafDotFree(v: Val, p: Path, t: string)
    requires Clean(v) && LeafAt(v, p, t)
    ensures forall i :: 0 <= i < |p| ==> DotFree(p[i])
    decreases |p|
  {
    if p != [] {
      LeafDotFree(v.entries[p[0]], p[1..], t);
      assert forall i :: 1 <= i < |p| ==> p[i] == p[1..][i - 1];
    }
  }

  lemma {:induction false} LeafTelling(v: Val, p: Path, t: string)
    requires Plain(v) && LeafAt(v, p, t)
    ensures Telling(p) && Split(NameOf(p)) == p
  {
    LeafDotFree(v, p, t);
    SplitName(p);
  }

  /** A query value of a plain value names the leaf it came from. */
  lemma {:induction false} QueryTells(v: Val, query: map<string, string>, n: string)
    requires Plain(v) && Wrote(v, [], map[], query) && n in query
    ensures LeafAt(v, Split(n), query[n])
  {
    assert From(v, [], n, query[n]);
    var q: Path :| LeafAt(v, q, query[n]) && n == NameOf([] + q);
    assert [] + q == q;
    LeafTelling(v, q, query[n]);
  }

  lemma {:induction false} LeafIsQueried(v: Val, query: map<string, string>, p: Path, t: string)
    requires Plain(v) && Wrote(v, [], map[], query) && LeafAt(v, p, t)
    ensures NameOf(p) in query && query[NameOf(p)] == t && Split(NameOf(p)) == p
  {
    assert [] + p == p;
    LeafTelling(v, p, t);
    assert NameOf([] + p) in query;
    QueryTells(v, query, NameOf(p));
    LeafPrefix(v, p, t, p, query[NameOf(p)]);
  }

  lemma {:induction false} SearchListsLeaves(v: Val, query: map<string, string>, search: seq<Query>)
    requires Plain(v) && Wrote(v, [], map[], query) && ListsQuery(search, query)
    ensures Lists(EntriesOf(search), v)
  {
    forall p: Path, t ensures Entry(p, t) in EntriesOf(search) <==> LeafAt(v, p, t) {
      EntriesAre(search, Entry(p, t));
      if Entry(p, t) in EntriesOf(search) {
        var n :| Query(n, Some(t)) in search && Split(n) == p;
        QueryTells(v, query, n);
      }
      if LeafAt(v, p, t) {
        LeafIsQueried(v, query, p, t);
        assert Query(NameOf(p), Some(t)) in search;
      }
    }
  }

  lemma {:induction false} SplitEmptyHead(s: string)
    requires s == "" || s[0] != '.'
    ensures Split(s)[0] == "" ==> |Split(s)| == 1
  {
  }

  /** Where no member name holds a dot, only the empty name starts with an empty
      member. */
  lemma {:induction false} WrittenEmptyAlone(v: Val, query: map<string, string>, search: seq<Query>)
    requires Clean(v) && Wrote(v, [], map[], query) && ListsQuery(search, query)
    ensures EmptyAlone(EntriesOf(search))
  {
    forall e | e in EntriesOf(search) && e.path != [] && e.path[0] == "" ensures |e.path| == 1 {
      EntriesAre(search, e);
      var n :| Query(n, Some(e.text)) in search && Split(n) == e.path;
      assert From(v, [], n, query[n]);
      var q: Path :| LeafAt(v, q, query[n]) && n == NameOf([] + q);
      assert [] + q == q;
      LeafDotFree(v, q, query[n]);
      NamesStartPlain(q);
      SplitEmptyHead(n);
    }
  }

  lemma {:induction false} EntriesDotFree(search: seq<Query>)
    ensures DotFreePaths(EntriesOf(search))
  {
    forall e | e in EntriesOf(search) ensures forall i :: 0 <= i < |e.path| ==> DotFree(e.path[i]) {
      EntriesAre(search, e);
    }
  }

  lemma {:induction false} PlainRebuilt(v: Val, query: map<string, string>, search: seq<Query>)
    requires Plain(v) && Wrote(v, [], map[], query) && ListsQuery(search, query)
    ensures Rebuilt(search) == Some(v) <==> KindsFit(v, EntriesOf(search))
  {
    var entries := EntriesOf(search);
    SearchListsLeaves(v, query, search);
    LeavesCohere(entries, v);
    assert [] + entries == entries;
    assert Group([]) == map[];
    PutAllGroups([], entries);
    GroupIsValue(entries, v);
  }

  /** The round trip holds exactly for plain values whose kinds fit the listing. */
  lemma {:induction false} RoundTripExactly(v: Val, query: map<string, string>, search: seq<Query>)
    requires v.Node? && Wrote(v, [], map[], query) && ListsQuery(search, query)
    ensures Rebuilt(search) == Some(v) <==> Plain(v) && KindsFit(v, EntriesOf(search))
  {
    if Rebuilt(search) == Some(v) {
      EntriesDotFree(search);
      RebuiltIsClean(map[], EntriesOf(search));
      WrittenEmptyAlone(v, query, search);
    }
    if Plain(v) {
      PlainRebuilt(v, query, search);
    }
  }

  /** Below the root, lists have numbers for names and objects have none. */
  predicate Uniform(v: Val) {
    v.Node? ==>
      forall k :: k in v.entries ==>
        && Uniform(v.entries[k])
        && (v.entries[k].Node? ==> forall j :: j in v.entries[k].entries ==> IsNumeral(j) == v.entries[k].list)
  }

  lemma {:induction false} UniformFits(v: Val, entries: seq<Entry>)
    requires v.Node? && Clean(v) && Uniform(v) && Lists(entries, v)
    ensures KindsFit(v, entries)
    decreases v
  {
    forall k | k in v.entries && v.entries[k].Node? ensures FitsAt(v, entries, k) {
      var sub, inner := Below(entries, k), v.entries[k];
      ListsBelow(entries, v, k);
      MemberListed(sub, inner);
      assert sub[0] in sub && sub[0] == Entry(sub[0].path, sub[0].text);
      assert LeafAt(inner, sub[0].path, sub[0].text);
      UniformFits(inner, sub);
    }
  }

  /** A plain and uniform value comes back from its query, in whatever order the
      query values are listed. */
  lemma {:induction false} RoundTrip(v: Val, query: map<string, string>, search: seq<Query>)
    requires Plain(v) && Uniform(v) && Wrote(v, [], map[], query) && ListsQuery(search, query)
    ensures Rebuilt(search) == Some(v)
  {
    SearchListsLeaves(v, query, search);
    UniformFits(v, EntriesOf(search));
    PlainRebuilt(v, query, search);
  }

  // ----- When a value cannot be rebuilt

  /** A text stands on the way of the path. */
  predicate Blocked(m: map<string, Val>, path: Path)
    decreases |path|
  {
    |path| > 1 && path[0] in m &&
    (m[path[0]].Leaf? || (m[path[0]].Node? && Blocked(m[path[0]].entries, path[1..])))
  }

  lemma {:induction false} PutFailsExactly(m: map<string, Val>, path: Path, text: string)
    requires path != []
    ensures Put(m, path, text).None? <==> Blocked(m, path)
    decreases |path|
  {
    var k, rest := path[0], path[1..];
    if rest != [] && !(k in m && m[k].Leaf?) {
      var inner := if k in m && m[k].Node? then m[k] else Node(IsNumeral(rest[0]), map[]);
      PutFailsExactly(inner.entries, rest, text);
    }
  }

  /** After a write the paths that were blocked still are, and those through the
      written text. */
  lemma {:induction false} PutBlocks(m: map<string, Val>, path: Path, text: string, other: Path)
    requires path != [] && Put(m, path, text).Some?
    ensures Blocked(Put(m, path, text).value, other) <==> Blocked(m, other) || path < other
    decreases |path|
  {
    var k, rest := path[0], path[1..];
    assert path == [k] + rest;
    if |other| > 1 && other[0] == k {
      assert other == [k] + other[1..];
      assert path < other <==> rest < other[1..];
      if rest != [] {
        var inner := if k in m && m[k].Node? then m[k] else Node(IsNumeral(rest[0]), map[]);
        PutBlocks(inner.entries, rest, text, other[1..]);
      }
    } else {
      assert !(path < other);
    }
  }

  /** Some path leads through the text of an earlier one. */
  ghost predicate Runs(entries: seq<Entry>) {
    exists i, j :: 0 <= i < j < |entries| && entries[i].path < entries[j].path
  }

  ghost predicate AnyBlocked(m: map<string, Val>, entries: seq<Entry>) {
    exists j :: 0 <= j < |entries| && Blocked(m, entries[j].path)
  }

  lemma {:induction false} RunsFromFirst(entries: seq<Entry>)
    requires entries != []
    ensures Runs(entries) <==> Runs(entries[1..]) || exists j :: 0 < j < |entries| && entries[0].path < entries[j].path
  {
    var rest := entries[1..];
    assert forall i :: 0 <= i < |rest| ==> rest[i] == entries[i + 1];
    if i, j :| 0 <= i < j < |entries| && entries[i].path < entries[j].path {
      if i > 0 {
        assert rest[i - 1].path < rest[j - 1].path;
      }
    }
    if i, j :| 0 <= i < j < |rest| && rest[i].path < rest[j].path {
      assert entries[i + 1].path < entries[j + 1].path;
    }
  }

  lemma {:induction false} BlockedAfter(m: map<string, Val>, entries: seq<Entry>)
    requires Pathed(entries) && entries != [] && Put(m, entries[0].path, entries[0].text).Some?
    ensures AnyBlocked(Put(m, entries[0].path, entries[0].text).value, entries[1..]) <==>
            AnyBlocked(m, entries[1..]) || exists j :: 0 < j < |entries| && entries[0].path < entries[j].path
  {
    var first, rest, done := entries[0], entries[1..], Put(m, entries[0].path, entries[0].text).value;
    forall j | 0 <= j < |rest| ensures Blocked(done, rest[j].path) <==> Blocked(m, rest[j].path) || first.path < rest[j].path {
      PutBlocks(m, first.path, first.text, rest[j].path);
    }
    assert forall j :: 0 <= j < |rest| ==> rest[j] == entries[j + 1];
    if j :| 0 < j < |entries| && first.path < entries[j].path {
      assert Blocked(done, rest[j - 1].path);
    }
  }

  lemma {:induction false} PutAllFailsExactly(m: map<string, Val>, entries: seq<Entry>)
    requires Pathed(entries)
    ensures PutAll(m, entries).None? <==> AnyBlocked(m, entries) || Runs(entries)
    decreases |entries|
  {
    if entries != [] {
      var first, rest := entries[0], entries[1..];
      assert AnyBlocked(m, entries) <==> Blocked(m, first.path) || AnyBlocked(m, rest) by {
        assert forall j :: 0 <= j < |rest| ==> rest[j] == entries[j + 1];
        if j :| 0 <= j < |rest| && Blocked(m, rest[j].path) {
          assert Blocked(m, entries[j + 1].path);
        }
        if j :| 0 <= j < |entries| && Blocked(m, entries[j].path) {
          assert j > 0 ==> Blocked(m, rest[j - 1].path);
        }
      }
      PutFailsExactly(m, first.path, first.text);
      if Put(m, first.path, first.text).Some? {
        BlockedAfter(m, entries);
        RunsFromFirst(entries);
        PutAllFailsExactly(Put(m, first.path, first.text).value, rest);
      }
    }
  }

  /** A query cannot be rebuilt if and only if the path of one value leads through the
      text of an earlier one. */
  lemma {:induction false} RebuildFailsExactly(search: seq<Query>)
    ensures Rebuilt(search).None? <==> Runs(EntriesOf(search))
  {
    PutAllFailsExactly(map[], EntriesOf(search));
  }

  // ----- An object that comes back as a list

  const NUMBERED := Node(false, map["a" := Node(false, map["0" := Leaf("x")])])
  const LISTED := Node(false, map["a" := Node(true, map["0" := Leaf("x")])])

  lemma {:induction false} NumberedLeaf(p: Path, text: string)
    ensures LeafAt(NUMBERED, p, text) <==> p == ["a", "0"] && text == "x"
  {
    var inner := Node(false, map["0" := Leaf("x")]);
    assert ["a", "0"][1..] == ["0"] && ["0"][1..] == [];
    if LeafAt(NUMBERED, p, text) {
      var rest := p[1..];
      assert p == ["a"] + rest && LeafAt(inner, rest, text);
      assert rest == ["0"] + rest[1..] && LeafAt(Leaf("x"), rest[1..], text);
      assert rest[1..] == [];
    }
  }

  lemma {:induction false} NumberedName()
    ensures NameOf(["a", "0"]) == "a.0" && Split("a.0") == ["a", "0"]
  {
    assert ["a", "0"][..1] == ["a"] && ["a"][..0] == [];
    SplitName(["a", "0"]);
  }

  lemma {:induction false} NumberedIsWritten()
    ensures Wrote(NUMBERED, [], map[], map["a.0" := "x"])
  {
    NumberedName();
    forall p: Path, t | LeafAt(NUMBERED, p, t) ensures NameOf([] + p) == "a.0" {
      NumberedLeaf(p, t);
      assert [] + p == p;
    }
    NumberedLeaf(["a", "0"], "x");
    assert [] + ["a", "0"] == ["a", "0"];
    assert From(NUMBERED, [], "a.0", "x");
  }

  lemma {:induction false} ListIsRebuilt()
    ensures PutAll(map[], [Entry(["a", "0"], "x")]) == Some(LISTED.entries)
  {
    var entries := [Entry(["a", "0"], "x")];
    assert ["a", "0"][1..] == ["0"] && ["0"][1..] == [];
    assert Put(map[], ["0"], "x") == Some(map["0" := Leaf("x")]);
    assert Put(map[], ["a", "0"], "x") == Some(LISTED.entries);
    assert PutAll(LISTED.entries, entries[1..]) == Some(LISTED.entries);
  }

  /** An object whose member is named by a number is written as the list would be,
      and comes back as the list. */
  lemma {:induction false} NumberedComesBackAsList()
    ensures Wrote(NUMBERED, [], map[], map["a.0" := "x"]) && ListsQuery([Query("a.0", Some("x"))], map["a.0" := "x"])
    ensures Rebuilt([Query("a.0", Some("x"))]) == Some(LISTED) && LISTED != NUMBERED
  {
    NumberedIsWritten();
    NumberedName();
    var search := [Query("a.0", Some("x"))];
    assert EntriesOf(search) == [Entry(["a", "0"], "x")] + EntriesOf(search[1..]) == [Entry(["a", "0"], "x")];
    ListIsRebuilt();
  }
}
