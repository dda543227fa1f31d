/** The package differ of services/ctl/src/artifact_verbs.rs: one line for each
    place where two JSON documents differ. Read as an edit script, the lines
    turn the first document into the second. */
module JsonDiff {
  import opened KeyOrder

  datatype Value =
    | Null
    | Bool(truth: bool)
    | Number(number: int)
    | Text(text: string)
    | Array(items: seq<Value>)
    | Object(members: map<string, Value>)

  datatype Token = Key(name: string) | Index(index: nat)

  type Path = seq<Token>

  datatype Line = Removed(path: Path, value: Value) | Added(path: Path, value: Value)

  /** A document while a script runs over it. `Broken` says that a line did not
      find what it names. */
  datatype Doc = Absent | Present(value: Value) | Broken

  // ----- The lines of a difference

  function Member(v: Value, k: string): Doc
    requires v.Object?
  {
    if k in v.members then Present(v.members[k]) else Absent
  }

  function Item(v: Value, i: nat): Doc
    requires v.Array?
  {
    if i < |v.items| then Present(v.items[i]) else Absent
  }

  function Under(t: Token, lines: seq<Line>): (r: seq<Line>)
    ensures |r| == |lines|
    ensures forall i :: 0 <= i < |lines| ==> r[i] == lines[i].(path := [t] + lines[i].path)
  {
    if lines == [] then [] else [lines[0].(path := [t] + lines[0].path)] + Under(t, lines[1..])
  }

  function Longer(from: Value, to: Value): nat
    requires from.Array? && to.Array?
  {
    if |from.items| < |to.items| then |to.items| else |from.items|
  }

  /** The lines between two values, with paths from that place on. */
  function Diff(from: Value, to: Value): seq<Line>
    decreases from, 1, 0
  {
    if from.Object? && to.Object? then
      MemberLines(from, to, SortedKeys(from.members.Keys + to.members.Keys))
    else if from.Array? && to.Array? then ItemLines(from, to, 0)
    else if from == to then []
    else [Removed([], from), Added([], to)]
  }

  function MemberLines(from: Value, to: Value, keys: seq<string>): seq<Line>
    requires from.Object? && to.Object?
    decreases from, 0, |keys|
  {
    if keys == [] then []
    else
      var k := keys[0];
      Under(Key(k), if k in from.members && k in to.members then Diff(from.members[k], to.members[k])
                    else OneSided(Member(from, k), Member(to, k))) +
      MemberLines(from, to, keys[1..])
  }

  function ItemLines(from: Value, to: Value, i: nat): seq<Line>
    requires from.Array? && to.Array?
    decreases from, 0, if i < Longer(from, to) then Longer(from, to) - i else 0
  {
    if i >= Longer(from, to) then []
    else
      Under(Index(i), if i < |from.items| && i < |to.items| then Diff(from.items[i], to.items[i])
                      else OneSided(Item(from, i), Item(to, i))) +
      ItemLines(from, to, i + 1)
  }

  function OneSided(from: Doc, to: Doc): seq<Line> {
    (if from.Present? then [Removed([], from.value)] else []) + (if to.Present? then [Added([], to.value)] else [])
  }

  /** The lines between two places that may be empty. */
  function DiffDocs(from: Doc, to: Doc): seq<Line> {
    if from.Present? && to.Present? then Diff(from.value, to.value) else OneSided(from, to)
  }

  // ----- Running a script

  function ToMember(m: map<string, Value>, k: string, child: Doc): Doc {
    match child
    case Broken => Broken
    case Absent => Present(Object(m - {k}))
    case Present(v) => Present(Object(m[k := v]))
  }

  function ToItem(items: seq<Value>, i: nat, child: Doc): Doc
    requires i < |items|
  {
    match child
    case Broken => Broken
    case Absent => Present(Array(items[..i] + items[i + 1..]))
    case Present(v) => Present(Array(items[i := v]))
  }

  /** Remove the value at a path. What follows an array element moves up. */
  function Remove(doc: Doc, path: Path, value: Value): Doc
    decreases |path|
  {
    if path == [] then if doc == Present(value) then Absent else Broken
    else if !doc.Present? then Broken
    else
      match (path[0], doc.value)
      case (Key(k), Object(m)) => ToMember(m, k, Remove(Member(doc.value, k), path[1..], value))
      case (Index(i), Array(items)) =>
        if i < |items| then ToItem(items, i, Remove(Present(items[i]), path[1..], value)) else Broken
      case _ => Broken
  }

  /** Add a value at a path. What stands at or after an array index moves down. */
  function Add(doc: Doc, path: Path, value: Value): Doc
    decreases |path|
  {
    if path == [] then if doc.Absent? then Present(value) else Broken
    else if !doc.Present? then Broken
    else
      match (path[0], doc.value)
      case (Key(k), Object(m)) => ToMember(m, k, Add(Member(doc.value, k), path[1..], value))
      case (Index(i), Array(items)) =>
        if |path| == 1 then
          if i <= |items| then Present(Array(items[..i] + [value] + items[i..])) else Broken
        else if i < |items| then ToItem(items, i, Add(Present(items[i]), path[1..], value))
        else Broken
      case _ => Broken
  }

  /** The removals of a script, from its last line to its first. */
  function RemoveAll(doc: Doc, lines: seq<Line>): Doc
    decreases |lines|
  {
    if lines == [] then doc
    else
      var last := lines[|lines| - 1];
      RemoveAll(if last.Removed? then Remove(doc, last.path, last.value) else doc, lines[..|lines| - 1])
  }

  /** The additions of a script, from its first line to its last. */
  function AddAll(doc: Doc, lines: seq<Line>): Doc
    decreases |lines|
  {
    if lines == [] then doc
    else AddAll(if lines[0].Added? then Add(doc, lines[0].path, lines[0].value) else doc, lines[1..])
  }

  function RunScript(doc: Doc, lines: seq<Line>): Doc {
    AddAll(RemoveAll(doc, lines), lines)
  }

  lemma {:induction false} RemoveAllConcat(doc: Doc, a: seq<Line>, b: seq<Line>)
    ensures RemoveAll(doc, a + b) == RemoveAll(RemoveAll(doc, b), a)
    decreases |b|
  {
    if b == [] {
      assert a + b == a;
    } else {
      var last := b[|b| - 1];
      assert (a + b)[..|a + b| - 1] == a + b[..|b| - 1];
      RemoveAllConcat(if last.Removed? then Remove(doc, last.path, last.value) else doc, a, b[..|b| - 1]);
    }
  }

  lemma {:induction false} AddAllConcat(doc: Doc, a: seq<Line>, b: seq<Line>)
    ensures AddAll(doc, a + b) == AddAll(AddAll(doc, a), b)
    decreases |a|
  {
    if a == [] {
      assert a + b == b;
    } else {
      assert (a + b)[1..] == a[1..] + b;
      AddAllConcat(if a[0].Added? then Add(doc, a[0].path, a[0].value) else doc, a[1..], b);
    }
  }

  lemma {:induction false} BrokenStays(lines: seq<Line>)
    ensures RemoveAll(Broken, lines) == Broken && AddAll(Broken, lines) == Broken
  {
    BrokenStaysRemoving(lines);
    BrokenStaysAdding(lines);
  }

  lemma {:induction false} BrokenStaysRemoving(lines: seq<Line>)
    ensures RemoveAll(Broken, lines) == Broken
  {
    if lines != [] {
      BrokenStaysRemoving(lines[..|lines| - 1]);
    }
  }

  lemma {:induction false} BrokenStaysAdding(lines: seq<Line>)
    ensures AddAll(Broken, lines) == Broken
  {
    if lines != [] {
      BrokenStaysAdding(lines[1..]);
    }
  }

  // ----- A script under a member or an element

  lemma {:induction false} UnderLast(t: Token, lines: seq<Line>)
    requires lines != []
    ensures Under(t, lines)[..|lines| - 1] == Under(t, lines[..|lines| - 1])
    ensures Under(t, lines)[1..] == Under(t, lines[1..])
  {
  }

  function RemoveOne(doc: Doc, l: Line): Doc {
    if l.Removed? then Remove(doc, l.path, l.value) else doc
  }

  lemma {:induction false} RemoveUnderStep(doc: Doc, t: Token, lines: seq<Line>)
    requires lines != []
    ensures var last, rest := lines[|lines| - 1], lines[..|lines| - 1];
            RemoveAll(doc, Under(t, lines)) == RemoveAll(RemoveOne(doc, last.(path := [t] + last.path)), Under(t, rest))
  {
    UnderLast(t, lines);
  }

  /** Two updates of one member are the later one. */
  lemma {:induction false} KeyUpdates(m: map<string, Value>, k: string, first: Doc, second: Doc)
    requires !first.Broken?
    ensures ToMember(m, k, first).Present? && ToMember(m, k, first).value.Object?
    ensures Member(ToMember(m, k, first).value, k) == first
    ensures ToMember(ToMember(m, k, first).value.members, k, second) == ToMember(m, k, second)
  {
    var n := ToMember(m, k, first).value.members;
    assert n - {k} == m - {k};
    if second.Present? {
      assert n[k := second.value] == m[k := second.value];
    }
  }

  lemma {:induction false} KeyUnchanged(m: map<string, Value>, k: string)
    ensures ToMember(m, k, Member(Object(m), k)) == Present(Object(m))
  {
    if k in m {
      assert m[k := m[k]] == m;
    } else {
      assert m - {k} == m;
    }
  }

  lemma {:induction false} RemoveOneUnderKey(m: map<string, Value>, k: string, l: Line)
    ensures RemoveOne(Present(Object(m)), l.(path := [Key(k)] + l.path)) ==
            ToMember(m, k, RemoveOne(Member(Object(m), k), l))
  {
    KeyUnchanged(m, k);
    assert ([Key(k)] + l.path)[1..] == l.path;
  }

  lemma {:induction false} RemoveUnderKey(m: map<string, Value>, k: string, lines: seq<Line>)
    ensures RemoveAll(Present(Object(m)), Under(Key(k), lines)) ==
            ToMember(m, k, RemoveAll(Member(Object(m), k), lines))
    decreases |lines|
  {
    if lines == [] {
      KeyUnchanged(m, k);
    } else {
      var last, rest := lines[|lines| - 1], lines[..|lines| - 1];
      var child := RemoveOne(Member(Object(m), k), last);
      RemoveUnderStep(Present(Object(m)), Key(k), lines);
      RemoveOneUnderKey(m, k, last);
      if child.Broken? {
        BrokenStays(rest);
        BrokenStays(Under(Key(k), rest));
      } else {
        KeyUpdates(m, k, child, RemoveAll(child, rest));
        RemoveUnderKey(ToMember(m, k, child).value.members, k, rest);
      }
    }
  }

  lemma {:induction false} AddUnderKey(m: map<string, Value>, k: string, lines: seq<Line>)
    ensures AddAll(Present(Object(m)), Under(Key(k), lines)) ==
            ToMember(m, k, AddAll(Member(Object(m), k), lines))
    decreases |lines|
  {
    if lines == [] {
      KeyUnchanged(m, k);
    } else {
      var first, rest := lines[0], lines[1..];
      UnderLast(Key(k), lines);
      if first.Added? {
        var child := Add(Member(Object(m), k), first.path, first.value);
        assert ([Key(k)] + first.path)[1..] == first.path;
        assert Add(Present(Object(m)), [Key(k)] + first.path, first.value) == ToMember(m, k, child);
        if child.Broken? {
          BrokenStays(rest);
          BrokenStays(Under(Key(k), rest));
        } else {
          KeyUpdates(m, k, child, AddAll(child, rest));
          AddUnderKey(ToMember(m, k, child).value.members, k, rest);
        }
      } else {
        AddUnderKey(m, k, rest);
      }
    }
  }

  lemma {:induction false} NoRemovalNoChange(doc: Doc, lines: seq<Line>)
    requires forall i :: 0 <= i < |lines| ==> !lines[i].Removed?
    ensures RemoveAll(doc, lines) == doc
  {
    if lines != [] {
      NoRemovalNoChange(doc, lines[..|lines| - 1]);
    }
  }

  /** The array around an element: the element itself may be gone. */
  function Around(before: seq<Value>, x: Doc, after: seq<Value>): Doc {
    match x
    case Broken => Broken
    case Absent => Present(Array(before + after))
    case Present(v) => Present(Array(before + [v] + after))
  }

  lemma {:induction false} RemoveOneUnderIndex(before: seq<Value>, x: Value, after: seq<Value>, l: Line)
    ensures RemoveOne(Present(Array(before + [x] + after)), l.(path := [Index(|before|)] + l.path)) ==
            Around(before, RemoveOne(Present(x), l), after)
  {
    var i, items := |before|, before + [x] + after;
    assert ([Index(i)] + l.path)[1..] == l.path;
    assert items[..i] + items[i + 1..] == before + after;
    assert forall v :: items[i := v] == before + [v] + after;
  }

  lemma {:induction false} RemoveOneAround(before: seq<Value>, child: Doc, after: seq<Value>, l: Line)
    requires RemoveOne(child, l) != Broken
    ensures RemoveOne(Around(before, child, after), l.(path := [Index(|before|)] + l.path)) ==
            Around(before, RemoveOne(child, l), after)
  {
    if child.Present? {
      RemoveOneUnderIndex(before, child.value, after, l);
    }
  }

  lemma {:induction false} RemoveAllLast(doc: Doc, lines: seq<Line>)
    requires lines != []
    ensures RemoveAll(doc, lines) == RemoveAll(RemoveOne(doc, lines[|lines| - 1]), lines[..|lines| - 1])
  {
  }

  lemma {:induction false} RemoveAround(before: seq<Value>, child: Doc, after: seq<Value>, lines: seq<Line>)
    requires RemoveAll(child, lines) != Broken
    ensures RemoveAll(Around(before, child, after), Under(Index(|before|), lines)) ==
            Around(before, RemoveAll(child, lines), after)
    decreases |lines|
  {
    if lines != [] {
      var last, rest := lines[|lines| - 1], lines[..|lines| - 1];
      RemoveAllLast(child, lines);
      BrokenStaysRemoving(rest);
      RemoveUnderStep(Around(before, child, after), Index(|before|), lines);
      RemoveOneAround(before, child, after, last);
      RemoveAround(before, RemoveOne(child, last), after, rest);
    }
  }

  lemma {:induction false} RemoveUnderIndex(before: seq<Value>, x: Value, after: seq<Value>, lines: seq<Line>)
    requires RemoveAll(Present(x), lines) != Broken
    ensures RemoveAll(Present(Array(before + [x] + after)), Under(Index(|before|), lines)) ==
            Around(before, RemoveAll(Present(x), lines), after)
  {
    RemoveAround(before, Present(x), after, lines);
  }

  /** No line of the script names the place itself. */
  predicate Inner(lines: seq<Line>) {
    forall i :: 0 <= i < |lines| ==> lines[i].path != []
  }

  lemma {:induction false} AddUnderIndex(before: seq<Value>, x: Value, after: seq<Value>, lines: seq<Line>)
    requires Inner(lines) && AddAll(Present(x), lines) != Broken
    ensures AddAll(Present(Array(before + [x] + after)), Under(Index(|before|), lines)) ==
            Around(before, AddAll(Present(x), lines), after)
    decreases |lines|
  {
    if lines != [] {
      var first, rest := lines[0], lines[1..];
      var i, items := |before|, before + [x] + after;
      UnderLast(Index(i), lines);
      if first.Added? {
        var child := Add(Present(x), first.path, first.value);
        assert ([Index(i)] + first.path)[1..] == first.path;
        assert Add(Present(Array(items)), [Index(i)] + first.path, first.value) == ToItem(items, i, child);
        if child.Broken? {
          BrokenStays(rest);
          assert false;
        } else {
          InnerAddKeeps(x, first.path, first.value);
          assert items[i := child.value] == before + [child.value] + after;
          AddUnderIndex(before, child.value, after, rest);
        }
      } else {
        AddUnderIndex(before, x, after, rest);
      }
    }
  }

  lemma {:induction false} InnerAddKeeps(x: Value, path: Path, value: Value)
    requires path != [] && Add(Present(x), path, value) != Broken
    ensures Add(Present(x), path, value).Present?
  {
    if path[0].Key? && x.Object? {
      AddNeverEmpties(Member(x, path[0].name), path[1..], value);
    } else if path[0].Index? && x.Array? && |path| > 1 {
      AddNeverEmpties(Present(x.items[path[0].index]), path[1..], value);
    }
  }

  lemma {:induction false} AddNeverEmpties(doc: Doc, path: Path, value: Value)
    ensures !Add(doc, path, value).Absent?
    decreases |path|
  {
  }

  // ----- The script turns the first document into the second

  lemma {:induction false} InnerLeavesEmpty(lines: seq<Line>)
    requires Inner(lines)
    ensures !AddAll(Absent, lines).Present?
  {
    if lines != [] {
      if lines[0].Added? {
        BrokenStays(lines[1..]);
      } else {
        InnerLeavesEmpty(lines[1..]);
      }
    }
  }

  lemma {:induction false} NoAdditionNoChange(doc: Doc, lines: seq<Line>)
    requires forall i :: 0 <= i < |lines| ==> !lines[i].Added?
    ensures AddAll(doc, lines) == doc
  {
    if lines != [] {
      NoAdditionNoChange(doc, lines[1..]);
    }
  }

  lemma {:induction false} ContainerLinesAreInner(from: Value, to: Value)
    requires (from.Object? && to.Object?) || (from.Array? && to.Array?)
    ensures Inner(Diff(from, to))
  {
    if from.Object? {
      MemberLinesAreInner(from, to, SortedKeys(from.members.Keys + to.members.Keys));
    } else {
      ItemLinesAreInner(from, to, 0);
    }
  }

  lemma {:induction false} MemberLinesAreInner(from: Value, to: Value, keys: seq<string>)
    requires from.Object? && to.Object?
    ensures Inner(MemberLines(from, to, keys))
    decreases |keys|
  {
    if keys != [] {
      MemberLinesAreInner(from, to, keys[1..]);
    }
  }

  lemma {:induction false} ItemLinesAreInner(from: Value, to: Value, i: nat)
    requires from.Array? && to.Array?
    ensures Inner(ItemLines(from, to, i))
    decreases if i < Longer(from, to) then Longer(from, to) - i else 0
  {
    if i < Longer(from, to) {
      ItemLinesAreInner(from, to, i + 1);
    }
  }

  /** What the removals leave of a place. */
  function Left(from: Doc, to: Doc): Doc {
    RemoveAll(from, DiffDocs(from, to))
  }

  ghost predicate Works(from: Doc, to: Doc) {
    RunScript(from, DiffDocs(from, to)) == to
  }

  lemma {:induction false} OneSidedWorks(from: Doc, to: Doc)
    requires !from.Broken? && !to.Broken? && !(from.Present? && to.Present?)
    ensures Works(from, to) && Left(from, to) == Absent
  {
    if from.Present? {
      assert DiffDocs(from, to) == [Removed([], from.value)];
      assert RemoveAll(Absent, DiffDocs(from, to)[..0]) == Absent;
      NoAdditionNoChange(Absent, DiffDocs(from, to));
    } else if to.Present? {
      var lines := [Added([], to.value)];
      assert DiffDocs(from, to) == lines;
      NoRemovalNoChange(from, lines);
      assert AddAll(to, lines[1..]) == to;
    } else {
      assert DiffDocs(from, to) == [];
    }
  }

  lemma {:induction false} WorkingLeavesSound(from: Doc, to: Doc)
    requires Works(from, to) && !to.Broken?
    ensures !Left(from, to).Broken?
  {
    BrokenStays(DiffDocs(from, to));
  }

  // ----- Scripts for the members of an object, one after the other

  function Gather(keys: seq<string>, scripts: map<string, seq<Line>>): seq<Line>
    requires forall k :: k in keys ==> k in scripts
  {
    if keys == [] then [] else Under(Key(keys[0]), scripts[keys[0]]) + Gather(keys[1..], scripts)
  }

  predicate Distinct(keys: seq<string>) {
    forall i, j :: 0 <= i < j < |keys| ==> keys[i] != keys[j]
  }

  /** Running a script at one member changes only that member. */
  lemma {:induction false} OtherMembersStay(m: map<string, Value>, k: string, child: Doc)
    requires !child.Broken?
    ensures ToMember(m, k, child).Present? && ToMember(m, k, child).value.Object?
    ensures forall j :: Member(ToMember(m, k, child).value, j) == if j == k then child else Member(Object(m), j)
  {
  }

  lemma {:induction false} RemoveGather(keys: seq<string>, scripts: map<string, seq<Line>>, m: map<string, Value>)
    returns (left: map<string, Value>)
    requires Distinct(keys)
    requires forall k :: k in keys ==> k in scripts && RemoveAll(Member(Object(m), k), scripts[k]) != Broken
    ensures RemoveAll(Present(Object(m)), Gather(keys, scripts)) == Present(Object(left))
    ensures forall k :: k in keys ==> Member(Object(left), k) == RemoveAll(Member(Object(m), k), scripts[k])
    ensures forall k :: k !in keys ==> Member(Object(left), k) == Member(Object(m), k)
    decreases |keys|
  {
    if keys == [] {
      left := m;
    } else {
      var k, rest := keys[0], keys[1..];
      assert k !in rest;
      var mid := RemoveGather(rest, scripts, m);
      RemoveAllConcat(Present(Object(m)), Under(Key(k), scripts[k]), Gather(rest, scripts));
      RemoveUnderKey(mid, k, scripts[k]);
      var child := RemoveAll(Member(Object(m), k), scripts[k]);
      OtherMembersStay(mid, k, child);
      left := ToMember(mid, k, child).value.members;
    }
  }

  lemma {:induction false} AddGather(keys: seq<string>, scripts: map<string, seq<Line>>, m: map<string, Value>)
    returns (done: map<string, Value>)
    requires Distinct(keys)
    requires forall k :: k in keys ==> k in scripts && AddAll(Member(Object(m), k), scripts[k]) != Broken
    ensures AddAll(Present(Object(m)), Gather(keys, scripts)) == Present(Object(done))
    ensures forall k :: k in keys ==> Member(Object(done), k) == AddAll(Member(Object(m), k), scripts[k])
    ensures forall k :: k !in keys ==> Member(Object(done), k) == Member(Object(m), k)
    decreases |keys|
  {
    if keys == [] {
      done := m;
    } else {
      var k, rest := keys[0], keys[1..];
      assert k !in rest;
      AddAllConcat(Present(Object(m)), Under(Key(k), scripts[k]), Gather(rest, scripts));
      AddUnderKey(m, k, scripts[k]);
      var child := AddAll(Member(Object(m), k), scripts[k]);
      OtherMembersStay(m, k, child);
      done := AddGather(rest, scripts, ToMember(m, k, child).value.members);
    }
  }

  ghost predicate MemberScript(from: Value, to: Value, k: string, lines: seq<Line>)
    requires from.Object? && to.Object?
  {
    lines == DiffDocs(Member(from, k), Member(to, k))
  }

  lemma {:induction false} MemberLinesGather(from: Value, to: Value, keys: seq<string>, scripts: map<string, seq<Line>>)
    requires from.Object? && to.Object?
    requires forall k :: k in keys ==> k in scripts && MemberScript(from, to, k, scripts[k])
    ensures MemberLines(from, to, keys) == Gather(keys, scripts)
    decreases |keys|
  {
    if keys != [] {
      MemberLinesGather(from, to, keys[1..], scripts);
      assert MemberScript(from, to, keys[0], scripts[keys[0]]);
    }
  }

  lemma {:induction false} SameMembersSameMap(a: map<string, Value>, b: map<string, Value>)
    requires forall k :: Member(Object(a), k) == Member(Object(b), k)
    ensures a == b
  {
    forall k ensures (k in a <==> k in b) && (k in a ==> a[k] == b[k]) {
      assert Member(Object(a), k) == Member(Object(b), k);
    }
  }

  lemma {:induction false} WorkingRemovals(from: Doc, lines: seq<Line>, to: Doc)
    requires RunScript(from, lines) == to && to != Broken
    ensures RemoveAll(from, lines) != Broken
  {
    BrokenStays(lines);
  }

  lemma {:induction false} MemberScriptsWork(from: map<string, Value>, to: map<string, Value>, keys: seq<string>,
                                             scripts: map<string, seq<Line>>)
    requires Distinct(keys)
    requires forall k :: k in keys ==> k in scripts && RunScript(Member(Object(from), k), scripts[k]) == Member(Object(to), k)
    requires forall k :: k !in keys ==> k !in from && k !in to
    ensures RunScript(Present(Object(from)), Gather(keys, scripts)) == Present(Object(to))
  {
    forall k | k in keys ensures RemoveAll(Member(Object(from), k), scripts[k]) != Broken {
      WorkingRemovals(Member(Object(from), k), scripts[k], Member(Object(to), k));
    }
    var left := RemoveGather(keys, scripts, from);
    var done := AddGather(keys, scripts, left);
    forall k ensures Member(Object(done), k) == Member(Object(to), k) {
      if k in keys {
        assert RunScript(Member(Object(from), k), scripts[k]) == Member(Object(to), k);
      } else {
        assert Member(Object(left), k) == Member(Object(from), k);
      }
    }
    SameMembersSameMap(done, to);
  }

  function MemberScripts(from: Value, to: Value): map<string, seq<Line>>
    requires from.Object? && to.Object?
  {
    map k | k in from.members.Keys + to.members.Keys :: DiffDocs(Member(from, k), Member(to, k))
  }

  lemma {:induction false} ObjectLinesGather(from: Value, to: Value, keys: seq<string>)
    requires from.Object? && to.Object? && forall k :: k in keys ==> k in from.members.Keys + to.members.Keys
    ensures forall k :: k in keys ==> k in MemberScripts(from, to)
    ensures MemberLines(from, to, keys) == Gather(keys, MemberScripts(from, to))
  {
    MemberLinesGather(from, to, keys, MemberScripts(from, to));
  }

  lemma {:induction false} ObjectScriptsWork(from: Value, to: Value, keys: seq<string>)
    requires from.Object? && to.Object? && Distinct(keys)
    requires forall k :: k in keys <==> k in from.members.Keys + to.members.Keys
    requires forall k :: k in from.members.Keys + to.members.Keys ==> Works(Member(from, k), Member(to, k))
    ensures forall k :: k in keys ==> k in MemberScripts(from, to)
    ensures RunScript(Present(from), Gather(keys, MemberScripts(from, to))) == Present(to)
  {
    var scripts := MemberScripts(from, to);
    forall k | k in keys ensures k in scripts && RunScript(Member(from, k), scripts[k]) == Member(to, k) {
      assert Works(Member(from, k), Member(to, k));
    }
    MemberScriptsWork(from.members, to.members, keys, scripts);
  }

  lemma {:induction false} ObjectsWork(from: Value, to: Value)
    requires from.Object? && to.Object?
    requires forall k :: k in from.members.Keys + to.members.Keys ==> Works(Member(from, k), Member(to, k))
    ensures Works(Present(from), Present(to))
  {
    var keys := SortedKeys(from.members.Keys + to.members.Keys);
    ObjectLinesGather(from, to, keys);
    ObjectScriptsWork(from, to, keys);
  }

  // ----- Scripts for the elements of an array, one after the other

  function GatherItems(scripts: seq<seq<Line>>, i: nat): seq<Line>
    decreases if i < |scripts| then |scripts| - i else 0
  {
    if i >= |scripts| then [] else Under(Index(i), scripts[i]) + GatherItems(scripts, i + 1)
  }

  /** The values of the places that are not empty. */
  function Squeeze(docs: seq<Doc>): seq<Value> {
    if docs == [] then [] else Kept(docs[0]) + Squeeze(docs[1..])
  }

  function Kept(doc: Doc): seq<Value> {
    if doc.Present? then [doc.value] else []
  }

  predicate NoRemovals(lines: seq<Line>) {
    forall i :: 0 <= i < |lines| ==> !lines[i].Removed?
  }

  predicate NoAdditions(lines: seq<Line>) {
    forall i :: 0 <= i < |lines| ==> !lines[i].Added?
  }

  /** What the removals make of each element. */
  ghost predicate LeavesItems(items: seq<Value>, scripts: seq<seq<Line>>, lefts: seq<Doc>) {
    && |items| <= |scripts| == |lefts|
    && (forall j :: 0 <= j < |items| ==> lefts[j] == RemoveAll(Present(items[j]), scripts[j]) && !lefts[j].Broken?)
    && (forall j :: |items| <= j < |scripts| ==> lefts[j] == Absent && NoRemovals(scripts[j]))
  }

  lemma {:induction false} KeepItem(before: seq<Value>, left: Doc, after: seq<Value>)
    requires left.Present?
    ensures before + [left.value] + after == before + (Kept(left) + after)
  {
  }

  lemma {:induction false} DropItem(before: seq<Value>, left: Doc, after: seq<Value>)
    requires !left.Present?
    ensures before + after == before + (Kept(left) + after)
  {
    assert [] + after == after;
  }

  lemma {:induction false} RemoveItem(before: seq<Value>, x: Value, after: seq<Value>, lines: seq<Line>, left: Doc)
    requires left == RemoveAll(Present(x), lines) && left != Broken
    ensures RemoveAll(Present(Array(before + [x] + after)), Under(Index(|before|), lines)) ==
            Present(Array(before + (Kept(left) + after)))
  {
    RemoveUnderIndex(before, x, after, lines);
    if left.Present? {
      KeepItem(before, left, after);
    } else {
      DropItem(before, left, after);
    }
  }

  lemma {:induction false} SqueezeStep(lefts: seq<Doc>, i: nat)
    requires i < |lefts|
    ensures Squeeze(lefts[i..]) == Kept(lefts[i]) + Squeeze(lefts[i + 1..])
    ensures !lefts[i].Present? ==> Squeeze(lefts[i..]) == Squeeze(lefts[i + 1..])
  {
    assert lefts[i..][1..] == lefts[i + 1..];
    assert [] + Squeeze(lefts[i + 1..]) == Squeeze(lefts[i + 1..]);
  }

  lemma {:induction false} RemoveItemThenRest(items: seq<Value>, i: nat, after: seq<Value>, lines: seq<Line>,
                                              left: Doc, rest: seq<Line>)
    requires i < |items| && left == RemoveAll(Present(items[i]), lines) && left != Broken
    requires RemoveAll(Present(Array(items)), rest) == Present(Array(Head(items, i + 1) + after))
    ensures RemoveAll(Present(Array(items)), Under(Index(i), lines) + rest) ==
            Present(Array(Head(items, i) + (Kept(left) + after)))
  {
    assert Head(items, i + 1) == items[..i] + [items[i]];
    RemoveAllConcat(Present(Array(items)), Under(Index(i), lines), rest);
    RemoveItem(items[..i], items[i], after, lines, left);
  }

  lemma {:induction false} NoRemovalsThenRest(doc: Doc, t: Token, lines: seq<Line>, rest: seq<Line>)
    requires NoRemovals(lines)
    ensures RemoveAll(doc, Under(t, lines) + rest) == RemoveAll(doc, rest)
  {
    RemoveAllConcat(doc, Under(t, lines), rest);
    NoRemovalNoChange(RemoveAll(doc, rest), Under(t, lines));
  }

  /** The removals of the elements from `i` on leave what the later places keep. */
  ghost predicate GoneFrom(items: seq<Value>, scripts: seq<seq<Line>>, lefts: seq<Doc>, i: nat)
    requires i <= |lefts|
  {
    RemoveAll(Present(Array(items)), GatherItems(scripts, i)) == Present(Array(Head(items, i) + Squeeze(lefts[i..])))
  }

  lemma {:induction false} GatherItemsStep(scripts: seq<seq<Line>>, i: nat)
    requires i < |scripts|
    ensures GatherItems(scripts, i) == Under(Index(i), scripts[i]) + GatherItems(scripts, i + 1)
  {
  }

  lemma {:induction false} GoneAtItem(items: seq<Value>, scripts: seq<seq<Line>>, lefts: seq<Doc>, i: nat)
    requires LeavesItems(items, scripts, lefts) && i < |items| && GoneFrom(items, scripts, lefts, i + 1)
    ensures GoneFrom(items, scripts, lefts, i)
  {
    var lines, rest, after := scripts[i], GatherItems(scripts, i + 1), Squeeze(lefts[i + 1..]);
    assert lefts[i] == RemoveAll(Present(items[i]), lines) && lefts[i] != Broken;
    RemoveItemThenRest(items, i, after, lines, lefts[i], rest);
    SqueezeStep(lefts, i);
    GatherItemsStep(scripts, i);
  }

  lemma {:induction false} GonePastItems(items: seq<Value>, scripts: seq<seq<Line>>, lefts: seq<Doc>, i: nat)
    requires LeavesItems(items, scripts, lefts) && |items| <= i < |scripts| && GoneFrom(items, scripts, lefts, i + 1)
    ensures GoneFrom(items, scripts, lefts, i)
  {
    SqueezeStep(lefts, i);
    NoRemovalsThenRest(Present(Array(items)), Index(i), scripts[i], GatherItems(scripts, i + 1));
  }

  lemma {:induction false} NothingLeftToGather(items: seq<Value>, scripts: seq<seq<Line>>, lefts: seq<Doc>)
    requires |items| <= |scripts| == |lefts|
    ensures GoneFrom(items, scripts, lefts, |scripts|)
  {
    assert Head(items, |scripts|) + Squeeze(lefts[|scripts|..]) == items;
  }

  lemma {:induction false} RemoveGatherItems(items: seq<Value>, scripts: seq<seq<Line>>, lefts: seq<Doc>)
    requires LeavesItems(items, scripts, lefts)
    ensures GoneFrom(items, scripts, lefts, 0)
  {
    NothingLeftToGather(items, scripts, lefts);
    for i := |scripts| downto 0
      invariant GoneFrom(items, scripts, lefts, i)
    {
      if i < |items| {
        GoneAtItem(items, scripts, lefts, i);
      } else {
        GonePastItems(items, scripts, lefts, i);
      }
    }
  }

  /** A script that puts `v` where the removals left `left`. */
  ghost predicate Fills(left: Doc, lines: seq<Line>, v: Value) {
    || (left.Present? && Inner(lines) && AddAll(left, lines) == Present(v))
    || (left.Absent? && WholeLines(lines, v))
  }

  /** Lines that name the place itself and end by adding `v` there. */
  predicate WholeLines(lines: seq<Line>, v: Value) {
    0 < |lines| <= 2 && lines[|lines| - 1] == Added([], v) && (|lines| == 2 ==> lines[0].Removed?)
  }

  ghost predicate FillsItems(items: seq<Value>, scripts: seq<seq<Line>>, lefts: seq<Doc>) {
    && |items| <= |scripts| == |lefts|
    && (forall j :: 0 <= j < |items| ==> Fills(lefts[j], scripts[j], items[j]))
    && (forall j :: |items| <= j < |scripts| ==> lefts[j] == Absent && NoAdditions(scripts[j]))
  }

  lemma {:induction false} InsertItem(before: seq<Value>, v: Value, after: seq<Value>, lines: seq<Line>)
    requires WholeLines(lines, v)
    ensures AddAll(Present(Array(before + after)), Under(Index(|before|), lines)) ==
            Present(Array(before + [v] + after))
  {
    var doc, i := Present(Array(before + after)), |before|;
    var last := Under(Index(i), lines)[|lines| - 1];
    assert last == Added([Index(i)], v);
    assert (before + after)[..i] == before && (before + after)[i..] == after;
    assert Add(doc, [Index(i)], v) == Present(Array(before + [v] + after));
    assert AddAll(doc, [last]) == AddAll(Add(doc, [Index(i)], v), [last][1..]);
    if |lines| == 2 {
      assert Under(Index(i), lines)[1..] == [last];
    } else {
      assert Under(Index(i), lines) == [last];
    }
  }

  lemma {:induction false} FillItem(before: seq<Value>, left: Doc, after: seq<Value>, lines: seq<Line>, v: Value)
    requires Fills(left, lines, v)
    ensures AddAll(Present(Array(before + Kept(left) + after)), Under(Index(|before|), lines)) ==
            Present(Array(before + [v] + after))
  {
    if left.Present? {
      AddUnderIndex(before, left.value, after, lines);
    } else {
      InsertItem(before, v, after, lines);
      assert before + [] + after == before + after;
    }
  }

  lemma {:induction false} NoAdditionsFirst(t: Token, lines: seq<Line>, rest: seq<Line>)
    requires NoAdditions(lines) && NoAdditions(rest)
    ensures NoAdditions(Under(t, lines) + rest)
  {
  }

  /** Past the end of the second array nothing is left and nothing is added. */
  lemma {:induction false} NothingPastTheEnd(items: seq<Value>, scripts: seq<seq<Line>>, lefts: seq<Doc>, i: nat)
    requires FillsItems(items, scripts, lefts) && |items| <= i <= |scripts|
    ensures Squeeze(lefts[i..]) == []
    ensures NoAdditions(GatherItems(scripts, i))
    decreases |scripts| - i
  {
    if i < |scripts| {
      NothingPastTheEnd(items, scripts, lefts, i + 1);
      SqueezeStep(lefts, i);
      NoAdditionsFirst(Index(i), scripts[i], GatherItems(scripts, i + 1));
    }
  }

  lemma {:induction false} AddGatherItems(items: seq<Value>, scripts: seq<seq<Line>>, lefts: seq<Doc>, i: nat)
    requires FillsItems(items, scripts, lefts) && i <= |items|
    ensures AddAll(Present(Array(items[..i] + Squeeze(lefts[i..]))), GatherItems(scripts, i)) == Present(Array(items))
    decreases |items| - i
  {
    if i == |items| {
      NothingPastTheEnd(items, scripts, lefts, i);
      assert items[..i] + [] == items;
      NoAdditionNoChange(Present(Array(items)), GatherItems(scripts, i));
    } else {
      var after := Squeeze(lefts[i + 1..]);
      var here := Kept(lefts[i]);
      assert lefts[i..][1..] == lefts[i + 1..];
      assert items[..i] + Squeeze(lefts[i..]) == items[..i] + here + after;
      AddAllConcat(Present(Array(items[..i] + here + after)), Under(Index(i), scripts[i]), GatherItems(scripts, i + 1));
      FillItem(items[..i], lefts[i], after, scripts[i], items[i]);
      assert items[..i + 1] == items[..i] + [items[i]];
      AddGatherItems(items, scripts, lefts, i + 1);
    }
  }

  function Head(items: seq<Value>, i: nat): seq<Value> {
    if i < |items| then items[..i] else items
  }

  lemma {:induction false} ItemLinesStep(from: Value, to: Value, i: nat)
    requires from.Array? && to.Array? && i < Longer(from, to)
    ensures ItemLines(from, to, i) == Under(Index(i), DiffDocs(Item(from, i), Item(to, i))) + ItemLines(from, to, i + 1)
  {
  }

  ghost predicate ItemScript(from: Value, to: Value, i: nat, lines: seq<Line>)
    requires from.Array? && to.Array?
  {
    lines == DiffDocs(Item(from, i), Item(to, i))
  }

  ghost predicate ItemScripts(from: Value, to: Value, scripts: seq<seq<Line>>)
    requires from.Array? && to.Array?
  {
    && |scripts| == Longer(from, to)
    && forall j: nat {:trigger ItemScript(from, to, j, scripts[j])} :: j < |scripts| ==> ItemScript(from, to, j, scripts[j])
  }

  lemma {:induction false} ItemLinesGatherStep(from: Value, to: Value, scripts: seq<seq<Line>>, i: nat)
    requires from.Array? && to.Array? && i < |scripts| && ItemScripts(from, to, scripts)
    requires ItemLines(from, to, i + 1) == GatherItems(scripts, i + 1)
    ensures ItemLines(from, to, i) == GatherItems(scripts, i)
  {
    assert ItemScript(from, to, i, scripts[i]);
    ItemLinesStep(from, to, i);
    GatherItemsStep(scripts, i);
  }

  lemma {:induction false} ItemLinesEnd(from: Value, to: Value, scripts: seq<seq<Line>>)
    requires from.Array? && to.Array? && |scripts| == Longer(from, to)
    ensures ItemLines(from, to, |scripts|) == GatherItems(scripts, |scripts|) == []
  {
  }

  lemma {:induction false} ItemLinesGather(from: Value, to: Value, scripts: seq<seq<Line>>)
    requires from.Array? && to.Array? && ItemScripts(from, to, scripts)
    ensures ItemLines(from, to, 0) == GatherItems(scripts, 0)
  {
    ItemLinesEnd(from, to, scripts);
    for i := |scripts| downto 0
      invariant ItemLines(from, to, i) == GatherItems(scripts, i)
    {
      ItemLinesGatherStep(from, to, scripts, i);
    }
  }

  /** Two values that are not containers of one kind: the script replaces the one by
      the other, or has no line. */
  lemma {:induction false} PlainFills(from: Value, to: Value)
    requires !(from.Object? && to.Object?) && !(from.Array? && to.Array?) && Diff(from, to) != []
    ensures Fills(Left(Present(from), Present(to)), Diff(from, to), to)
  {
    var lines := Diff(from, to);
    assert lines == [Removed([], from), Added([], to)];
    assert lines[..1] == [Removed([], from)];
    assert RemoveAll(Present(from), lines) == RemoveAll(Present(from), lines[..1]) == RemoveAll(Absent, lines[..1][..0]);
  }

  /** Where the script works, it leaves a place that its additions fill. */
  lemma {:induction false} WorkingFills(from: Doc, to: Value)
    requires !from.Broken? && Works(from, Present(to))
    ensures Fills(Left(from, Present(to)), DiffDocs(from, Present(to)), to)
  {
    var lines := DiffDocs(from, Present(to));
    WorkingLeavesSound(from, Present(to));
    if from.Absent? {
      OneSidedWorks(from, Present(to));
      assert lines == [Added([], to)];
    } else {
      if (from.value.Object? && to.Object?) || (from.value.Array? && to.Array?) {
        ContainerLinesAreInner(from.value, to);
      }
      if Inner(lines) {
        InnerLeavesEmpty(lines);
      } else {
        PlainFills(from.value, to);
      }
    }
  }

  /** What the script of one element does: its removals leave a sound place,
      and its additions fill it. */
  ghost predicate ItemWorks(from: Doc, to: Doc, lines: seq<Line>, left: Doc) {
    && left == RemoveAll(from, lines) && !left.Broken?
    && (from.Absent? ==> left == Absent && NoRemovals(lines))
    && (to.Absent? ==> left == Absent && NoAdditions(lines))
    && (to.Present? ==> Fills(left, lines, to.value))
  }

  lemma {:induction false} OneSidedItem(from: Doc, to: Doc)
    requires !from.Broken? && !to.Broken? && (from.Present? != to.Present?)
    ensures ItemWorks(from, to, OneSided(from, to), Absent)
  {
    var lines := OneSided(from, to);
    if from.Present? {
      assert lines == [Removed([], from.value)];
      RemoveAllLast(from, lines);
    } else {
      assert lines == [Added([], to.value)];
      NoRemovalNoChange(from, lines);
    }
  }

  lemma {:induction false} WorkingItem(from: Doc, to: Doc)
    requires !from.Broken? && !to.Broken? && !(from.Absent? && to.Absent?)
    requires Works(from, to)
    ensures ItemWorks(from, to, DiffDocs(from, to), Left(from, to))
  {
    if from.Present? && to.Present? {
      WorkingLeavesSound(from, to);
      WorkingFills(from, to.value);
    } else {
      OneSidedItem(from, to);
    }
  }

  lemma {:induction false} ItemScriptsWork(from: Value, to: Value, scripts: seq<seq<Line>>, lefts: seq<Doc>)
    requires from.Array? && to.Array? && |scripts| == |lefts| == Longer(from, to)
    requires forall j: nat :: j < |scripts| ==> ItemWorks(Item(from, j), Item(to, j), scripts[j], lefts[j])
    ensures RunScript(Present(from), GatherItems(scripts, 0)) == Present(to)
  {
    assert LeavesItems(from.items, scripts, lefts);
    assert FillsItems(to.items, scripts, lefts);
    RemoveGatherItems(from.items, scripts, lefts);
    AddGatherItems(to.items, scripts, lefts, 0);
    assert Head(from.items, 0) == to.items[..0];
  }

  lemma {:induction false} ArraysWork(from: Value, to: Value)
    requires from.Array? && to.Array?
    requires forall i: nat :: i < Longer(from, to) ==> Works(Item(from, i), Item(to, i))
    ensures Works(Present(from), Present(to))
  {
    var n := Longer(from, to);
    var scripts := seq(n, j requires 0 <= j < n => DiffDocs(Item(from, j), Item(to, j)));
    var lefts := seq(n, j requires 0 <= j < n => Left(Item(from, j), Item(to, j)));
    forall j: nat | j < n
      ensures ItemScript(from, to, j, scripts[j]) && ItemWorks(Item(from, j), Item(to, j), scripts[j], lefts[j])
    {
      WorkingItem(Item(from, j), Item(to, j));
    }
    ItemScriptsWork(from, to, scripts, lefts);
    ItemLinesGather(from, to, scripts);
  }

  /** Run over the first document, the lines of the difference give the second. */
  lemma {:induction false} ScriptWorks(from: Value, to: Value)
    ensures RunScript(Present(from), Diff(from, to)) == Present(to)
    decreases from
  {
    if from.Object? && to.Object? {
      forall k | k in from.members.Keys + to.members.Keys ensures Works(Member(from, k), Member(to, k)) {
        if k in from.members && k in to.members {
          ScriptWorks(from.members[k], to.members[k]);
        } else {
          OneSidedWorks(Member(from, k), Member(to, k));
        }
      }
      ObjectsWork(from, to);
    } else if from.Array? && to.Array? {
      forall i: nat | i < Longer(from, to) ensures Works(Item(from, i), Item(to, i)) {
        if i < |from.items| && i < |to.items| {
          ScriptWorks(from.items[i], to.items[i]);
        } else {
          OneSidedWorks(Item(from, i), Item(to, i));
        }
      }
      ArraysWork(from, to);
    } else if from != to {
      var lines := [Removed([], from), Added([], to)];
      assert lines[..1] == [Removed([], from)] && lines[1..] == [Added([], to)];
      assert RemoveAll(Present(from), lines) == RemoveAll(Present(from), lines[..1]) == RemoveAll(Absent, lines[..1][..0]);
      assert AddAll(Absent, lines) == AddAll(Absent, lines[1..]) == AddAll(Present(to), lines[1..][1..]);
    }
  }

  lemma {:induction false} SameHasNoLines(v: Value)
    ensures Diff(v, v) == []
    decreases v, 1, 0
  {
    if v.Object? {
      SameMembersNoLines(v, SortedKeys(v.members.Keys + v.members.Keys));
    } else if v.Array? {
      SameItemsNoLines(v, 0);
    }
  }

  lemma {:induction false} SameMembersNoLines(v: Value, keys: seq<string>)
    requires v.Object? && forall k :: k in keys ==> k in v.members
    ensures MemberLines(v, v, keys) == []
    decreases v, 0, |keys|
  {
    if keys != [] {
      SameHasNoLines(v.members[keys[0]]);
      SameMembersNoLines(v, keys[1..]);
    }
  }

  lemma {:induction false} SameItemsNoLines(v: Value, i: nat)
    requires v.Array?
    ensures ItemLines(v, v, i) == []
    decreases v, 0, if i < |v.items| then |v.items| - i else 0
  {
    if i < |v.items| {
      SameHasNoLines(v.items[i]);
      SameItemsNoLines(v, i + 1);
    }
  }

  /** The script is empty exactly when the documents are equal. */
  lemma {:induction false} EmptyExactlyWhenEqual(from: Value, to: Value)
    ensures Diff(from, to) == [] <==> from == to
  {
    ScriptWorks(from, to);
    SameHasNoLines(from);
  }
}
