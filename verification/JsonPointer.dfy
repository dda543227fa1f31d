/** The pointers of the package differ (services/ctl/src/artifact_verbs.rs) and
    the method that appends its output. Pointers follow sections 3 and 4 of
    RFC 6901. */
module JsonPointer {
  import opened Decimals
  import opened Optional
  import opened KeyOrder
  import opened JsonDiff

  // ----- Escaping one token

  /** Replace every `c` with a text, in one pass. */
  function Replace(s: string, c: char, text: string): string {
    if s == [] then [] else (if s[0] == c then text else [s[0]]) + Replace(s[1..], c, text)
  }

  /** Two passes, in the order of the source. */
  function Escape(s: string): string {
    Replace(Replace(s, '~', "~0"), '/', "~1")
  }

  /** One character in escaped form. */
  function Escaped(c: char): string {
    if c == '~' then "~0" else if c == '/' then "~1" else [c]
  }

  lemma {:induction false} ReplaceConcat(a: string, b: string, c: char, text: string)
    ensures Replace(a + b, c, text) == Replace(a, c, text) + Replace(b, c, text)
    decreases |a|
  {
    if a == [] {
      assert a + b == b;
    } else {
      assert (a + b)[1..] == a[1..] + b;
      ReplaceConcat(a[1..], b, c, text);
    }
  }

  /** The two passes together escape each character on its own. */
  lemma {:induction false} EscapeStep(s: string)
    requires s != []
    ensures Escape(s) == Escaped(s[0]) + Escape(s[1..])
  {
    var first := if s[0] == '~' then "~0" else [s[0]];
    ReplaceConcat(first, Replace(s[1..], '~', "~0"), '/', "~1");
    assert Replace(first, '/', "~1") == Escaped(s[0]) by {
      if s[0] == '~' {
        assert "~0"[1..] == "0" && "0"[1..] == "";
        assert Replace("0", '/', "~1") == "0";
      } else {
        assert first[1..] == "";
      }
    }
  }

  /** Section 4: `~1` stands for `/` and `~0` for `~`. Any other `~` is an error. */
  function Unescape(s: string): Option<string> {
    if s == [] then Some([])
    else if s[0] != '~' then Prefixed(s[0], Unescape(s[1..]))
    else if |s| > 1 && s[1] == '0' then Prefixed('~', Unescape(s[2..]))
    else if |s| > 1 && s[1] == '1' then Prefixed('/', Unescape(s[2..]))
    else None
  }

  function Prefixed(c: char, rest: Option<string>): Option<string> {
    if rest.Some? then Some([c] + rest.value) else None
  }

  lemma {:induction false} UnescapeEscape(s: string)
    ensures Unescape(Escape(s)) == Some(s)
    ensures '/' !in Escape(s)
    decreases |s|
  {
    if s != [] {
      EscapeStep(s);
      UnescapeEscape(s[1..]);
      assert Escape(s)[|Escaped(s[0])|..] == Escape(s[1..]);
      assert [s[0]] + s[1..] == s;
    }
  }

  // ----- A path as text

  function TextOf(t: Token): string {
    match t
    case Key(name) => name
    case Index(i) => Decimal(i)
  }

  function Texts(path: Path): (r: seq<string>)
    ensures |r| == |path|
  {
    seq(|path|, i requires 0 <= i < |path| => TextOf(path[i]))
  }

  function Pointer(path: Path): string {
    if path == [] then "" else "/" + Escape(TextOf(path[0])) + Pointer(path[1..])
  }

  /** The text before the next `/`. */
  function Upto(s: string): (n: nat)
    ensures n <= |s|
    ensures '/' !in s[..n]
    ensures n < |s| ==> s[n] == '/'
  {
    if s == [] || s[0] == '/' then 0
    else
      var n := Upto(s[1..]);
      assert s[..n + 1] == [s[0]] + s[1..][..n];
      n + 1
  }

  /** Section 3: the tokens of a pointer. */
  function Tokens(pointer: string): Option<seq<string>>
    decreases |pointer|
  {
    if pointer == "" then Some([])
    else if pointer[0] != '/' then None
    else
      var rest := pointer[1..];
      var head, tail := Unescape(rest[..Upto(rest)]), Tokens(rest[Upto(rest)..]);
      if head.Some? && tail.Some? then Some([head.value] + tail.value) else None
  }

  lemma {:induction false} UptoToken(a: string, b: string)
    requires '/' !in a && (b == [] || b[0] == '/')
    ensures Upto(a + b) == |a|
  {
    if a == [] {
      assert a + b == b;
    } else {
      assert (a + b)[1..] == a[1..] + b;
      UptoToken(a[1..], b);
    }
  }

  lemma {:induction false} TokensStep(text: string, tail: string)
    requires Tokens(tail).Some?
    ensures Tokens("/" + Escape(text) + tail) == Some([text] + Tokens(tail).value)
  {
    var head := Escape(text);
    var rest := ("/" + head + tail)[1..];
    assert rest == head + tail;
    UnescapeEscape(text);
    UptoToken(head, tail);
    assert rest[..|head|] == head && rest[|head|..] == tail;
  }

  /** Reading a rendered pointer gives the tokens of the path. */
  lemma {:induction false} TokensOfPointer(path: Path)
    ensures Tokens(Pointer(path)) == Some(Texts(path))
    decreases |path|
  {
    if path == [] {
      assert Texts(path) == [];
    } else {
      TokensOfPointer(path[1..]);
      TokensStep(TextOf(path[0]), Pointer(path[1..]));
      assert Texts(path) == [TextOf(path[0])] + Texts(path[1..]);
    }
  }

  /** Two paths share a pointer exactly when they agree token text by token
      text. The escaping never merges two paths. */
  lemma {:induction false} SamePointerExactly(p: Path, q: Path)
    ensures Pointer(p) == Pointer(q) <==> Texts(p) == Texts(q)
  {
    TokensOfPointer(p);
    TokensOfPointer(q);
    if Texts(p) == Texts(q) {
      SameTextsSamePointer(p, q);
    }
  }

  lemma {:induction false} SameTextsSamePointer(p: Path, q: Path)
    requires Texts(p) == Texts(q)
    ensures Pointer(p) == Pointer(q)
    decreases |p|
  {
    if p != [] {
      assert |p| == |Texts(q)| == |q|;
      assert TextOf(p[0]) == Texts(p)[0] == Texts(q)[0] == TextOf(q[0]);
      assert Texts(p[1..]) == Texts(p)[1..] == Texts(q[1..]);
      SameTextsSamePointer(p[1..], q[1..]);
    }
  }

  /** A key of digits and an index can share their text, so pointers are
      injective on paths only where the document says which one is meant. */
  lemma {:induction false} KeyAndIndexShareText()
    ensures Pointer([Key("0")]) == Pointer([Index(0)])
    ensures [Key("0")] != [Index(0)]
  {
    assert Decimal(0) == "0";
    assert Texts([Key("0")]) == Texts([Index(0)]);
    SamePointerExactly([Key("0")], [Index(0)]);
  }

  // ----- What a pointer names in a document

  /** The places of a document: keys under objects, indexes under arrays. */
  predicate PathOf(v: Value, path: Path)
    decreases |path|
  {
    path == [] ||
    match (path[0], v)
    case (Key(k), Object(m)) => if k in m then PathOf(m[k], path[1..]) else |path| == 1
    case (Index(i), Array(items)) => if i < |items| then PathOf(items[i], path[1..]) else |path| == 1
    case _ => false
  }

  /** Within one document a pointer names one place. */
  lemma {:induction false} PointerInjectiveInDocument(v: Value, p: Path, q: Path)
    requires PathOf(v, p) && PathOf(v, q) && Pointer(p) == Pointer(q)
    ensures p == q
  {
    SamePointerExactly(p, q);
    TextsInjectiveInDocument(v, p, q);
  }

  lemma {:induction false} TextsInjectiveInDocument(v: Value, p: Path, q: Path)
    requires PathOf(v, p) && PathOf(v, q) && Texts(p) == Texts(q)
    ensures p == q
    decreases |p|
  {
    assert |p| == |q|;
    if p != [] {
      assert TextOf(p[0]) == Texts(p)[0] == Texts(q)[0] == TextOf(q[0]);
      assert Texts(p[1..]) == Texts(p)[1..] == Texts(q[1..]);
      if v.Array? {
        DecimalInjective(p[0].index, q[0].index);
      }
      assert p == [p[0]] + p[1..] && q == [q[0]] + q[1..];
      if v.Object? && p[0].name in v.members {
        TextsInjectiveInDocument(v.members[p[0].name], p[1..], q[1..]);
      } else if v.Array? && p[0].index < |v.items| {
        TextsInjectiveInDocument(v.items[p[0].index], p[1..], q[1..]);
      }
    }
  }

  /** Section 4: evaluate the tokens of a pointer. An array takes only a
      decimal index without leading zeros. */
  function Evaluate(doc: Doc, tokens: seq<string>): Doc
    decreases |tokens|
  {
    if tokens == [] || !doc.Present? then doc
    else
      match doc.value
      case Object(m) => Evaluate(Member(doc.value, tokens[0]), tokens[1..])
      case Array(items) =>
        if IsNumeral(tokens[0]) && Decimal(Decimals.Value(tokens[0])) == tokens[0] then
          Evaluate(Item(doc.value, Decimals.Value(tokens[0])), tokens[1..])
        else Broken
      case _ => Broken
  }

  function At(v: Value, pointer: string): Doc {
    var tokens := Tokens(pointer);
    if tokens.Some? then Evaluate(Present(v), tokens.value) else Broken
  }

  /** A line is true of two places when its value stands at its path: in the
      first place for a removal, in the second for an addition. */
  predicate TrueOf(l: Line, from: Doc, to: Doc) {
    Evaluate(if l.Removed? then from else to, Texts(l.path)) == Present(l.value)
  }

  predicate AllTrue(lines: seq<Line>, from: Doc, to: Doc) {
    forall i :: 0 <= i < |lines| ==> TrueOf(lines[i], from, to)
  }

  lemma {:induction false} TextsUnder(t: Token, path: Path)
    ensures Texts([t] + path)[0] == TextOf(t)
    ensures Texts([t] + path)[1..] == Texts(path)
  {
  }

  lemma {:induction false} TrueUnderKey(from: Value, to: Value, k: string, lines: seq<Line>)
    requires from.Object? && to.Object? && AllTrue(lines, Member(from, k), Member(to, k))
    ensures AllTrue(Under(Key(k), lines), Present(from), Present(to))
  {
    forall i | 0 <= i < |lines| ensures TrueOf(Under(Key(k), lines)[i], Present(from), Present(to)) {
      assert TrueOf(lines[i], Member(from, k), Member(to, k));
      TextsUnder(Key(k), lines[i].path);
    }
  }

  lemma {:induction false} EvaluateUnderIndex(v: Value, j: nat, path: Path)
    requires v.Array?
    ensures Evaluate(Present(v), Texts([Index(j)] + path)) == Evaluate(Item(v, j), Texts(path))
  {
    DecimalRoundTrip(j);
    TextsUnder(Index(j), path);
  }

  lemma {:induction false} TrueUnderIndex(from: Value, to: Value, j: nat, lines: seq<Line>)
    requires from.Array? && to.Array? && AllTrue(lines, Item(from, j), Item(to, j))
    ensures AllTrue(Under(Index(j), lines), Present(from), Present(to))
  {
    forall i | 0 <= i < |lines| ensures TrueOf(Under(Index(j), lines)[i], Present(from), Present(to)) {
      assert TrueOf(lines[i], Item(from, j), Item(to, j));
      EvaluateUnderIndex(if lines[i].Removed? then from else to, j, lines[i].path);
    }
  }

  lemma {:induction false} TrueConcat(a: seq<Line>, b: seq<Line>, from: Doc, to: Doc)
    requires AllTrue(a, from, to) && AllTrue(b, from, to)
    ensures AllTrue(a + b, from, to)
  {
  }

  lemma {:induction false} OneSidedTrue(from: Doc, to: Doc)
    ensures AllTrue(OneSided(from, to), from, to)
  {
    assert Texts([]) == [];
  }

  lemma {:induction false} LinesTrue(from: Value, to: Value)
    ensures AllTrue(Diff(from, to), Present(from), Present(to))
    decreases from, 1, 0
  {
    if from.Object? && to.Object? {
      MemberLinesTrue(from, to, SortedKeys(from.members.Keys + to.members.Keys));
    } else if from.Array? && to.Array? {
      ItemLinesTrue(from, to, 0);
    } else {
      OneSidedTrue(Present(from), Present(to));
    }
  }

  lemma {:induction false} MemberLinesTrue(from: Value, to: Value, keys: seq<string>)
    requires from.Object? && to.Object?
    ensures AllTrue(MemberLines(from, to, keys), Present(from), Present(to))
    decreases from, 0, |keys|
  {
    if keys != [] {
      var k := keys[0];
      var lines := DiffDocs(Member(from, k), Member(to, k));
      if k in from.members && k in to.members {
        LinesTrue(from.members[k], to.members[k]);
      } else {
        OneSidedTrue(Member(from, k), Member(to, k));
      }
      TrueUnderKey(from, to, k, lines);
      MemberLinesTrue(from, to, keys[1..]);
      TrueConcat(Under(Key(k), lines), MemberLines(from, to, keys[1..]), Present(from), Present(to));
    }
  }

  lemma {:induction false} ItemLinesTrue(from: Value, to: Value, i: nat)
    requires from.Array? && to.Array?
    ensures AllTrue(ItemLines(from, to, i), Present(from), Present(to))
    decreases from, 0, if i < Longer(from, to) then Longer(from, to) - i else 0
  {
    if i < Longer(from, to) {
      ItemTrue(from, to, i);
      ItemLinesTrue(from, to, i + 1);
      ItemLinesTrueStep(from, to, i);
    }
  }

  lemma {:induction false} ItemTrue(from: Value, to: Value, i: nat)
    requires from.Array? && to.Array? && i < Longer(from, to)
    ensures AllTrue(DiffDocs(Item(from, i), Item(to, i)), Item(from, i), Item(to, i))
    decreases from, 0, 0
  {
    if i < |from.items| && i < |to.items| {
      LinesTrue(from.items[i], to.items[i]);
    } else {
      OneSidedTrue(Item(from, i), Item(to, i));
    }
  }

  lemma {:induction false} ItemLinesTrueStep(from: Value, to: Value, i: nat)
    requires from.Array? && to.Array? && i < Longer(from, to)
    requires AllTrue(DiffDocs(Item(from, i), Item(to, i)), Item(from, i), Item(to, i))
    requires AllTrue(ItemLines(from, to, i + 1), Present(from), Present(to))
    ensures AllTrue(ItemLines(from, to, i), Present(from), Present(to))
  {
    var lines := DiffDocs(Item(from, i), Item(to, i));
    TrueUnderIndex(from, to, i, lines);
    TrueConcat(Under(Index(i), lines), ItemLines(from, to, i + 1), Present(from), Present(to));
    ItemLinesStep(from, to, i);
  }

  /** Each pointer, read by the standard, names the value of its line: a removed
      value in the first document, an added one in the second. */
  lemma {:induction false} PointersNameTheirValues(from: Value, to: Value, i: nat)
    requires i < |Diff(from, to)|
    ensures var l := Diff(from, to)[i];
            At(if l.Removed? then from else to, Pointer(l.path)) == Present(l.value)
  {
    LinesTrue(from, to);
    TokensOfPointer(Diff(from, to)[i].path);
  }

  // ----- The paths of one difference

  lemma {:induction false} LinesNamePlaces(from: Value, to: Value)
    ensures forall i :: 0 <= i < |Diff(from, to)| ==> PathOf(from, Diff(from, to)[i].path)
    decreases from, 1, 0
  {
    if from.Object? && to.Object? {
      MemberLinesNamePlaces(from, to, SortedKeys(from.members.Keys + to.members.Keys));
    } else if from.Array? && to.Array? {
      ItemLinesNamePlaces(from, to, 0);
    }
  }

  lemma {:induction false} MemberLinesNamePlaces(from: Value, to: Value, keys: seq<string>)
    requires from.Object? && to.Object?
    ensures forall l :: l in MemberLines(from, to, keys) ==> PathOf(from, l.path)
    decreases from, 0, |keys|
  {
    if keys != [] {
      var k := keys[0];
      if k in from.members && k in to.members {
        LinesNamePlaces(from.members[k], to.members[k]);
      }
      var lines := DiffDocs(Member(from, k), Member(to, k));
      forall i | 0 <= i < |lines| ensures PathOf(from, Under(Key(k), lines)[i].path) {
        assert ([Key(k)] + lines[i].path)[1..] == lines[i].path;
      }
      MemberLinesNamePlaces(from, to, keys[1..]);
    }
  }

  lemma {:induction false} ItemLinesNamePlaces(from: Value, to: Value, j: nat)
    requires from.Array? && to.Array?
    ensures forall l :: l in ItemLines(from, to, j) ==> PathOf(from, l.path)
    decreases from, 0, if j < Longer(from, to) then Longer(from, to) - j else 0
  {
    if j < Longer(from, to) {
      if j < |from.items| && j < |to.items| {
        LinesNamePlaces(from.items[j], to.items[j]);
      }
      var lines := DiffDocs(Item(from, j), Item(to, j));
      forall i | 0 <= i < |lines| ensures PathOf(from, Under(Index(j), lines)[i].path) {
        assert ([Index(j)] + lines[i].path)[1..] == lines[i].path;
      }
      ItemLinesNamePlaces(from, to, j + 1);
      ItemLinesStep(from, to, j);
    }
  }

  /** In one difference, lines with one pointer speak of one place. */
  lemma {:induction false} OnePointerOnePlace(from: Value, to: Value, i: nat, j: nat)
    requires i < |Diff(from, to)| && j < |Diff(from, to)|
    requires Pointer(Diff(from, to)[i].path) == Pointer(Diff(from, to)[j].path)
    ensures Diff(from, to)[i].path == Diff(from, to)[j].path
  {
    LinesNamePlaces(from, to);
    PointerInjectiveInDocument(from, Diff(from, to)[i].path, Diff(from, to)[j].path);
  }

  // ----- The output, appended to a shared buffer

  datatype Entry = Entry(sign: char, pointer: string, value: Value)

  /** The output for some lines below a pointer. */
  function Rendered(pointer: string, lines: seq<Line>): (out: seq<Entry>)
    ensures |out| == |lines|
  {
    seq(|lines|, i requires 0 <= i < |lines| =>
      Entry(if lines[i].Removed? then '-' else '+', pointer + Pointer(lines[i].path), lines[i].value))
  }

  function Child(pointer: string, t: Token): string {
    pointer + "/" + Escape(TextOf(t))
  }

  lemma {:induction false} PointerUnder(pointer: string, t: Token, path: Path)
    ensures pointer + Pointer([t] + path) == Child(pointer, t) + Pointer(path)
  {
    assert ([t] + path)[1..] == path;
    JoinText(pointer, "/" + Escape(TextOf(t)), Pointer(path));
    JoinText(pointer, "/", Escape(TextOf(t)));
  }

  lemma {:induction false} JoinText(a: string, b: string, c: string)
    ensures a + (b + c) == a + b + c
  {
  }

  lemma {:induction false} RenderedUnder(pointer: string, t: Token, lines: seq<Line>)
    ensures Rendered(pointer, Under(t, lines)) == Rendered(Child(pointer, t), lines)
  {
    forall i | 0 <= i < |lines|
      ensures Rendered(pointer, Under(t, lines))[i] == Rendered(Child(pointer, t), lines)[i]
    {
      PointerUnder(pointer, t, lines[i].path);
    }
  }

  lemma {:induction false} RenderedConcat(pointer: string, a: seq<Line>, b: seq<Line>)
    ensures Rendered(pointer, a + b) == Rendered(pointer, a) + Rendered(pointer, b)
  {
  }

  lemma {:induction false} Associate(a: seq<Entry>, b: seq<Entry>, c: seq<Entry>)
    ensures (a + b) + c == a + (b + c)
  {
  }

  lemma {:induction false} RenderedMember(pointer: string, from: Value, to: Value, keys: seq<string>, i: nat)
    requires from.Object? && to.Object? && i < |keys|
    ensures Rendered(pointer, MemberLines(from, to, keys[i..])) ==
            Rendered(Child(pointer, Key(keys[i])), DiffDocs(Member(from, keys[i]), Member(to, keys[i]))) +
            Rendered(pointer, MemberLines(from, to, keys[i + 1..]))
  {
    var lines, rest := DiffDocs(Member(from, keys[i]), Member(to, keys[i])), MemberLines(from, to, keys[i + 1..]);
    assert keys[i..][1..] == keys[i + 1..];
    assert MemberLines(from, to, keys[i..]) == Under(Key(keys[i]), lines) + rest;
    RenderedConcat(pointer, Under(Key(keys[i]), lines), rest);
    RenderedUnder(pointer, Key(keys[i]), lines);
  }

  lemma {:induction false} RenderedItem(pointer: string, from: Value, to: Value, i: nat)
    requires from.Array? && to.Array? && i < Longer(from, to)
    ensures Rendered(pointer, ItemLines(from, to, i)) ==
            Rendered(Child(pointer, Index(i)), DiffDocs(Item(from, i), Item(to, i))) +
            Rendered(pointer, ItemLines(from, to, i + 1))
  {
    var lines, rest := DiffDocs(Item(from, i), Item(to, i)), ItemLines(from, to, i + 1);
    assert ItemLines(from, to, i) == Under(Index(i), lines) + rest;
    RenderedConcat(pointer, Under(Index(i), lines), rest);
    RenderedUnder(pointer, Index(i), lines);
  }

  /** Two places that are not both objects and not both arrays. */
  predicate Leaves(from: Doc, to: Doc) {
    from.Present? && to.Present? ==>
      !(from.value.Object? && to.value.Object?) && !(from.value.Array? && to.value.Array?)
  }

  lemma {:induction false} RenderedLeaf(pointer: string, from: Doc, to: Doc)
    requires Leaves(from, to) && !from.Broken? && !to.Broken?
    ensures Rendered(pointer, DiffDocs(from, to)) ==
            if from == to then []
            else (if from.Present? then [Entry('-', pointer, from.value)] else []) +
                 (if to.Present? then [Entry('+', pointer, to.value)] else [])
  {
    assert pointer + Pointer([]) == pointer;
  }

  /** Appends one entry for each line of the difference, in order. */
  method DiffValues(pointer: string, from: Doc, to: Doc, lines0: seq<Entry>) returns (lines: seq<Entry>)
    requires !from.Broken? && !to.Broken?
    ensures lines == lines0 + Rendered(pointer, DiffDocs(from, to))
    decreases from.Present?, if from.Present? then from.value else Null, 1
  {
    if from.Present? && to.Present? && from.value.Object? && to.value.Object? {
      lines := DiffMembers(pointer, from.value, to.value, lines0);
    } else if from.Present? && to.Present? && from.value.Array? && to.value.Array? {
      lines := DiffItems(pointer, from.value, to.value, lines0);
    } else {
      RenderedLeaf(pointer, from, to);
      lines := lines0;
      if from != to {
        if from.Present? {
          lines := lines + [Entry('-', pointer, from.value)];
        }
        if to.Present? {
          lines := lines + [Entry('+', pointer, to.value)];
        }
      }
    }
  }

  /** What is written so far, with the entries for the keys from `i` on, is the
      whole output. */
  ghost predicate MembersLeft(pointer: string, left: Value, right: Value, keys: seq<string>, i: nat,
                              lines: seq<Entry>, all: seq<Entry>)
    requires left.Object? && right.Object? && i <= |keys|
  {
    lines + Rendered(pointer, MemberLines(left, right, keys[i..])) == all
  }

  lemma {:induction false} MemberTurn(pointer: string, left: Value, right: Value, keys: seq<string>, i: nat,
                                      lines: seq<Entry>, all: seq<Entry>)
    requires left.Object? && right.Object? && i < |keys| && MembersLeft(pointer, left, right, keys, i, lines, all)
    ensures var here := Rendered(Child(pointer, Key(keys[i])), DiffDocs(Member(left, keys[i]), Member(right, keys[i])));
            MembersLeft(pointer, left, right, keys, i + 1, lines + here, all)
  {
    RenderedMember(pointer, left, right, keys, i);
    Associate(lines, Rendered(Child(pointer, Key(keys[i])), DiffDocs(Member(left, keys[i]), Member(right, keys[i]))),
              Rendered(pointer, MemberLines(left, right, keys[i + 1..])));
  }

  lemma {:induction false} NoMembersLeft(pointer: string, left: Value, right: Value, keys: seq<string>,
                                         lines: seq<Entry>, all: seq<Entry>)
    requires left.Object? && right.Object? && MembersLeft(pointer, left, right, keys, |keys|, lines, all)
    ensures lines == all
  {
    assert Rendered(pointer, MemberLines(left, right, keys[|keys|..])) == [];
  }

  method DiffMembers(pointer: string, left: Value, right: Value, lines0: seq<Entry>) returns (lines: seq<Entry>)
    requires left.Object? && right.Object?
    ensures lines == lines0 + Rendered(pointer, Diff(left, right))
    decreases true, left, 0
  {
    lines := lines0;
    var keys := SortedKeys(left.members.Keys + right.members.Keys);
    ghost var all := lines0 + Rendered(pointer, Diff(left, right));
    assert keys[0..] == keys;
    for i := 0 to |keys|
      invariant MembersLeft(pointer, left, right, keys, i, lines, all)
    {
      MemberTurn(pointer, left, right, keys, i, lines, all);
      lines := DiffValues(Child(pointer, Key(keys[i])), Member(left, keys[i]), Member(right, keys[i]), lines);
    }
    NoMembersLeft(pointer, left, right, keys, lines, all);
  }

  ghost predicate ItemsLeft(pointer: string, left: Value, right: Value, i: nat, lines: seq<Entry>, all: seq<Entry>)
    requires left.Array? && right.Array?
  {
    lines + Rendered(pointer, ItemLines(left, right, i)) == all
  }

  lemma {:induction false} ItemTurn(pointer: string, left: Value, right: Value, i: nat,
                                    lines: seq<Entry>, all: seq<Entry>)
    requires left.Array? && right.Array? && i < Longer(left, right) && ItemsLeft(pointer, left, right, i, lines, all)
    ensures var here := Rendered(Child(pointer, Index(i)), DiffDocs(Item(left, i), Item(right, i)));
            ItemsLeft(pointer, left, right, i + 1, lines + here, all)
  {
    RenderedItem(pointer, left, right, i);
    Associate(lines, Rendered(Child(pointer, Index(i)), DiffDocs(Item(left, i), Item(right, i))),
              Rendered(pointer, ItemLines(left, right, i + 1)));
  }

  lemma {:induction false} NoItemsLeft(pointer: string, left: Value, right: Value, lines: seq<Entry>, all: seq<Entry>)
    requires left.Array? && right.Array? && ItemsLeft(pointer, left, right, Longer(left, right), lines, all)
    ensures lines == all
  {
    assert Rendered(pointer, ItemLines(left, right, Longer(left, right))) == [];
  }

  /** One element of the loop over two arrays. */
  method DiffItem(pointer: string, left: Value, right: Value, index: nat, lines0: seq<Entry>, ghost all: seq<Entry>)
    returns (lines: seq<Entry>)
    requires left.Array? && right.Array? && index < Longer(left, right)
    requires ItemsLeft(pointer, left, right, index, lines0, all)
    ensures ItemsLeft(pointer, left, right, index + 1, lines, all)
    decreases true, left, 0, 0
  {
    ItemTurn(pointer, left, right, index, lines0, all);
    lines := DiffValues(Child(pointer, Index(index)), Item(left, index), Item(right, index), lines0);
  }

  method DiffItems(pointer: string, left: Value, right: Value, lines0: seq<Entry>) returns (lines: seq<Entry>)
    requires left.Array? && right.Array?
    ensures lines == lines0 + Rendered(pointer, Diff(left, right))
    decreases true, left, 0, 1
  {
    lines := lines0;
    ghost var all := lines0 + Rendered(pointer, Diff(left, right));
    for index := 0 to Longer(left, right)
      invariant ItemsLeft(pointer, left, right, index, lines, all)
    {
      lines := DiffItem(pointer, left, right, index, lines, all);
    }
    NoItemsLeft(pointer, left, right, lines, all);
  }

  lemma {:induction false} OutputIsTrue(from: Value, to: Value, i: nat)
    requires i < |Diff(from, to)|
    ensures var e, l := Rendered("", Diff(from, to))[i], Diff(from, to)[i];
            && e.value == l.value && e.sign == (if l.Removed? then '-' else '+')
            && At(if l.Removed? then from else to, e.pointer) == Present(e.value)
  {
    var l := Diff(from, to)[i];
    assert "" + Pointer(l.path) == Pointer(l.path);
    PointersNameTheirValues(from, to, i);
  }

  /** The whole output of two documents. Each line that starts with a minus names a
      value of the first document, each that starts with a plus one of the second. */
  method DiffDocuments(from: Value, to: Value) returns (lines: seq<Entry>)
    ensures lines == Rendered("", Diff(from, to))
    ensures forall i :: 0 <= i < |lines| ==>
              && (lines[i].sign == '-' || lines[i].sign == '+') && (lines[i].sign == '-' <==> Diff(from, to)[i].Removed?)
              && At(if lines[i].sign == '-' then from else to, lines[i].pointer) == Present(lines[i].value)
    ensures lines == [] <==> from == to
  {
    lines := DiffValues("", Present(from), Present(to), []);
    EmptyExactlyWhenEqual(from, to);
    forall i | 0 <= i < |lines|
      ensures && (lines[i].sign == '-' || lines[i].sign == '+') && (lines[i].sign == '-' <==> Diff(from, to)[i].Removed?)
              && At(if lines[i].sign == '-' then from else to, lines[i].pointer) == Present(lines[i].value)
    {
      OutputIsTrue(from, to, i);
    }
  }
}
