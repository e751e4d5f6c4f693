/** The parser reads every JSON text: whatever blanks, spellings of strings and forms of numbers it has. */
module JsonReading {
  import opened Bytes
  import opened JsonChars
  import opened JsonText
  import opened TinyJson
  import opened JsonNumbers

  /* ---- pieces of text ---- */

  predicate StandsAt(t: string, p: nat, piece: string) {
    p + |piece| <= |t| && t[p..p + |piece|] == piece
  }

  lemma SplitText(t: string, p: nat, a: string, b: string)
    ensures StandsAt(t, p, a + b) <==> StandsAt(t, p, a) && StandsAt(t, p + |a|, b)
  {
    if StandsAt(t, p, a + b) {
      assert t[p..p + |a|] == (a + b)[..|a|];
      assert t[p + |a|..p + |a| + |b|] == (a + b)[|a|..];
    }
  }

  /** Changes in front of a piece do not matter. */
  lemma StandsStill(t: string, r: string, from: nat, to: nat, p: nat, piece: string)
    requires SameOutside(t, r, from, to) && (to <= p || p + |piece| <= from)
    ensures StandsAt(t, p, piece) <==> StandsAt(r, p, piece)
  {
    if p + |piece| <= |t| {
      forall k | p <= k < p + |piece|
        ensures r[k] == t[k]
      {}
      assert r[p..p + |piece|] == t[p..p + |piece|];
    }
  }

  lemma CharAt(t: string, p: nat, piece: string, i: nat)
    requires StandsAt(t, p, piece) && i < |piece|
    ensures t[p + i] == piece[i]
  {
    assert t[p + i] == t[p..p + |piece|][i];
  }

  lemma Within(t: string, p: nat, piece: string)
    requires StandsAt(t, p, piece)
    ensures p + |piece| <= |t| && t[p..p + |piece|] == piece
  {}

  /** A terminated string. */
  predicate CStr(t: string, p: nat, s: string) {
    StandsAt(t, p, s) && p + |s| < |t| && t[p + |s|] == NUL
  }

  predicate SameBetween(t: string, r: string, from: nat, to: nat) {
    |r| == |t| && forall i :: 0 <= i < |t| && from <= i < to ==> r[i] == t[i]
  }

  lemma CStrFrame(t: string, r: string, p: nat, s: string)
    requires CStr(t, p, s) && SameBetween(t, r, p, p + |s| + 1)
    ensures CStr(r, p, s)
  {
    assert r[p..p + |s|] == t[p..p + |s|];
  }

  /* ---- blanks ---- */

  lemma {:induction false} GoBlankOver(t: Memory, p: nat, n: nat)
    requires p + n < |t| && forall i :: p <= i < p + n ==> Blank(t[i]) && t[i] != NUL
    ensures GoBlank(t, p) == GoBlank(t, p + n)
    decreases n
  {
    if n > 0 {
      GoBlankOver(t, p + 1, n - 1);
    }
  }

  lemma GapBlank(t: string, p: nat, g: string)
    requires StandsAt(t, p, g) && Gap(g)
    ensures forall i :: p <= i < p + |g| ==> Blank(t[i]) && t[i] != NUL
  {
    forall i | p <= i < p + |g|
      ensures Blank(t[i]) && t[i] != NUL
    {
      CharAt(t, p, g, i - p);
    }
  }

  /** Where the parser stands after a gap. */
  function Past(s: State, n: nat): State {
    s.(ptr := s.ptr + n)
  }

  lemma StepPast(s: State, n: nat)
    requires Inv(s) && Inv(Past(s, n)) && GoBlank(s.text, s.ptr) == GoBlank(s.text, s.ptr + n)
    ensures Step(s) == Step(Past(s, n))
  {
    hide GoBlank, Head, ParseValue, Add, Open;
  }

  lemma ParseAlike(s: State, r: State)
    requires Inv(s) && Inv(r) && Step(s) == Step(r)
    ensures Parse(s) == Parse(r)
  {
    hide Step, Open;
  }

  /** Blanks make no difference to the parser. */
  lemma SkipGap(s: State, g: string)
    requires Inv(s) && StandsAt(s.text, s.ptr, g) && Gap(g) && s.ptr + |g| < |s.text|
    ensures Inv(Past(s, |g|)) && Parse(s) == Parse(Past(s, |g|))
  {
    GapBlank(s.text, s.ptr, g);
    GoBlankOver(s.text, s.ptr, |g|);
    hide Open, Parse, Step, GoBlank, StandsAt;
    StepPast(s, |g|);
    ParseAlike(s, Past(s, |g|));
  }

  lemma GoBlankHere(t: Memory, p: nat)
    requires p < |t| && t[p] != NUL && !Blank(t[p])
    ensures GoBlank(t, p) == Some(p)
  {}

  /* ---- strings ---- */

  lemma ScanShort(t: Memory, head: nat, tail: nat, l: char)
    requires tail <= head < |t| - 2 && ValidPiece(Short(l))
    requires t[head] == '\\' && t[head + 1] == l
    ensures ParseString(t, head, tail) == ParseString(t[tail := ShortFor(l)], head + 2, tail + 1)
  {
    assert Unescape(l) == ShortFor(l) != NUL && l != 'u';
    hide Unescape, ShortFor, Hex4;
  }

  lemma ScanCode(t: Memory, head: nat, tail: nat)
    requires tail <= head < |t| - 6 && t[head] == '\\' && t[head + 1] == 'u' && Hex4(t, head + 2)
    ensures ParseString(t, head, tail) == ParseString(t[tail := '?'], head + 6, tail + 1)
  {
    hide Hex4, Unescape;
  }

  lemma ScanPlain(t: Memory, head: nat, tail: nat)
    requires tail <= head < |t| - 1 && ValidPiece(Plain(t[head]))
    ensures ParseString(t, head, tail) == ParseString(t[tail := t[head]], head + 1, tail + 1)
  {
    hide Hex4, Unescape;
  }

  lemma HexIsHex(c: char)
    ensures IsHexDigit(c) <==> IsHex(c)
  {}

  /** One piece of a string is read as the character it stands for, or as a question mark. */
  lemma ScanPiece(t: Memory, head: nat, tail: nat, x: Piece)
    requires tail <= head < |t| && ValidPiece(x) && StandsAt(t, head, Spelling(x)) && head + |Spelling(x)| < |t|
    ensures ParseString(t, head, tail) == ParseString(t[tail := ReadAs(x)], head + |Spelling(x)|, tail + 1)
    ensures tail + 1 <= head + |Spelling(x)| && ReadAs(x) != NUL
  {
    hide StandsAt, IsHex, Unescape, ParseString;
    var e := Spelling(x);
    CharAt(t, head, e, 0);
    match x
    case Plain(c) => ScanPlain(t, head, tail);
    case Short(l) =>
      CharAt(t, head, e, 1);
      ScanShort(t, head, tail, l);
    case Code(a, b, c, d) =>
      CharAt(t, head, e, 1);
      CharAt(t, head, e, 2);
      CharAt(t, head, e, 3);
      CharAt(t, head, e, 4);
      CharAt(t, head, e, 5);
      HexIsHex(a);
      HexIsHex(b);
      HexIsHex(c);
      HexIsHex(d);
      ScanCode(t, head, tail);
  }

  lemma ScanEnd(t: Memory, head: nat, tail: nat)
    requires tail <= head < |t| - 1 && t[head] == '\"'
    ensures ParseString(t, head, tail) == Some(Scan(t[tail := NUL], head + 1))
  {}

  lemma SpellFirst(ps: seq<Piece>)
    requires ps != []
    ensures Spell(ps) == Spelling(ps[0]) + Spell(ps[1..])
  {}

  lemma ReadNothing(t: string, p: nat)
    requires p <= |t|
    ensures StandsAt(t, p, ReadPieces([]))
  {
    assert ReadPieces([]) == "";
  }

  lemma ReadFirst(r: string, p: nat, ps: seq<Piece>)
    requires ps != [] && StandsAt(r, p + 1, ReadPieces(ps[1..])) && r[p] == ReadAs(ps[0])
    ensures StandsAt(r, p, ReadPieces(ps))
  {
    hide ReadAs;
    assert r[p..p + |ps|] == [r[p]] + r[p + 1..p + 1 + |ps[1..]|];
    assert ReadPieces(ps) == [ReadAs(ps[0])] + ReadPieces(ps[1..]);
  }

  /** A string with its quotation mark: the text then holds what is read, and a NUL. */
  lemma {:induction false} ScanString(t: Memory, head: nat, tail: nat, ps: seq<Piece>)
    requires tail <= head < |t| && ValidPieces(ps)
    requires StandsAt(t, head, Spell(ps) + "\"") && head + |Spell(ps)| + 1 < |t|
    ensures var r := ParseString(t, head, tail);
      && r.Some? && r.value.ptr == head + |Spell(ps)| + 1
      && CStr(r.value.text, tail, ReadPieces(ps))
    decreases |ps|
  {
    hide ReadAs, Spelling, ParseString, StandsAt, ValidPiece;
    SplitText(t, head, Spell(ps), "\"");
    if ps == [] {
      CharAt(t, head, "\"", 0);
      ScanEnd(t, head, tail);
      ReadNothing(ParseString(t, head, tail).value.text, tail);
    } else {
      SpellFirst(ps);
      hide Spell;
      var e := Spelling(ps[0]);
      SplitText(t, head, e, Spell(ps[1..]));
      Within(t, head, e);
      ScanPiece(t, head, tail, ps[0]);
      var u: Memory := t[tail := ReadAs(ps[0])];
      SplitText(t, head + |e|, Spell(ps[1..]), "\"");
      StandsStill(t, u, tail, tail + 1, head + |e|, Spell(ps[1..]) + "\"");
      ScanString(u, head + |e|, tail + 1, ps[1..]);
      ReadFirst(ParseString(u, head + |e|, tail + 1).value.text, tail, ps);
    }
  }

  lemma {:induction false} CheckWord(t: Memory, p: nat, word: string)
    requires StandsAt(t, p, word) && p + |word| < |t|
    requires forall i :: 0 <= i < |word| ==> word[i] != NUL
    ensures CheckStr(t, p, word) == Some(p + |word|)
    decreases |word|
  {
    if word != "" {
      assert t[p] == t[p..p + |word|][0];
      assert t[p + 1..p + |word|] == t[p..p + |word|][1..];
      CheckWord(t, p + 1, word[1..]);
    }
  }

  /* ---- what the nodes show ---- */

  predicate Primitive(v: Tree) {
    v.Num? || v.Bool? || v.Nothing?
  }

  function KindOf(v: Tree): Kind {
    match v
    case Text(_) => TEXT
    case Num(n) => if IsWhole(n) then INTEGER else REAL
    case Bool(_) => BOOLEAN
    case Nothing => NULLTYPE
    case Block(isArray, _) => if isArray then ARRAY else OBJ
  }

  /** Node k and those after it hold the value that stands at p. */
  predicate Shows(mem: seq<Node>, t: string, k: nat, p: nat, v: Tree)
    decreases v
  {
    && k < |mem| && mem[k].kind == KindOf(v)
    && match v
       case Text(ps) => mem[k].u == Char(p + 1) && CStr(t, p + 1, ReadPieces(ps))
       case Block(_, items) => ShowsItems(mem, t, mem[k].u, k + 1, p + 1, items)
       case _ => mem[k].u == Char(p) && CStr(t, p, Lay(v))
  }

  predicate ShowsName(t: string, link: Pointer, p: nat, name: Option<Name>) {
    match name
    case None => link == Null
    case Some(n) => link == Char(p + 1) && CStr(t, p + 1, ReadPieces(n.ps))
  }

  /** The chain of nodes from the link on holds the items that stand from p on. */
  predicate ShowsItems(mem: seq<Node>, t: string, link: Pointer, k: nat, p: nat, items: Items)
    decreases items
  {
    match items
    case Nil(_) => link == Null
    case Cons(before, name, value, after, tail) =>
      var h := p + |before|;
      var q := h + |NamePart(name)|;
      && link == Ref(k) && k < |mem|
      && ShowsName(t, mem[k].name, h, name)
      && Shows(mem, t, k, q, value)
      && ShowsItems(mem, t, mem[k].sibling, k + Size(value), q + |Lay(value)| + |after| + 1, tail)
  }

  /** A value depends on its own nodes and on its own text; a primitive on its terminator as well. */
  lemma {:induction false} ShowsFrame(mem: seq<Node>, t: string, nem: seq<Node>, r: string, k: nat, p: nat, v: Tree)
    requires Shows(mem, t, k, p, v) && |nem| == |mem|
    requires nem[k].u == mem[k].u && nem[k].kind == mem[k].kind
    requires forall j :: k < j < k + Size(v) && j < |mem| ==> nem[j] == mem[j]
    requires SameBetween(t, r, p, p + |Lay(v)| + if Primitive(v) then 1 else 0)
    requires ValidTree(v)
    ensures Shows(nem, r, k, p, v)
    decreases v
  {
    hide Lay, LayItems, Size, SizeItems, ShowsItems, CStr, Spell, ReadPieces, ValidItems;
    ValueShape(v);
    match v
    case Text(ps) => CStrFrame(t, r, p + 1, ReadPieces(ps));
    case Block(isArray, items) => ItemsFrame(mem, t, nem, r, mem[k].u, k + 1, p + 1, items, isArray);
    case _ => CStrFrame(t, r, p, Lay(v));
  }

  lemma ValueShape(v: Tree)
    ensures v.Text? ==> |Lay(v)| == |Spell(v.ps)| + 2 && |ReadPieces(v.ps)| == |v.ps| <= |Spell(v.ps)|
    ensures v.Block? ==> |Lay(v)| == |LayItems(v.items)| + 2 && Size(v) == 1 + SizeItems(v.items)
    ensures v.Block? && ValidTree(v) ==> ValidItems(v.items, v.isArray)
  {}

  lemma {:induction false} ItemsFrame(mem: seq<Node>, t: string, nem: seq<Node>, r: string, link: Pointer, k: nat,
                                      p: nat, items: Items, isArray: bool)
    requires ShowsItems(mem, t, link, k, p, items) && |nem| == |mem|
    requires forall j :: k <= j < k + SizeItems(items) && j < |mem| ==> nem[j] == mem[j]
    requires SameBetween(t, r, p, p + |LayItems(items)| + 1)
    requires ValidItems(items, isArray)
    ensures ShowsItems(nem, r, link, k, p, items)
    decreases items
  {
    hide LayItems, Lay, NamePart, Shows, CStr, Size;
    match items
    case Nil(_) =>
    case Cons(before, name, value, after, tail) =>
      var h: nat := p + |before|;
      var q: nat := h + |NamePart(name)|;
      ConsLength(items);
      ConsSize(items);
      ConsValid(items, isArray);
      NameFrame(t, r, h, mem[k].name, name);
      ShowsFrame(mem, t, nem, r, k, q, value);
      if tail.Cons? {
        ItemsFrame(mem, t, nem, r, mem[k].sibling, k + Size(value), q + |Lay(value)| + |after| + 1, tail, isArray);
      }
  }

  lemma NameFrame(t: string, r: string, p: nat, link: Pointer, name: Option<Name>)
    requires ShowsName(t, link, p, name) && SameBetween(t, r, p, p + |NamePart(name)|)
    ensures ShowsName(r, link, p, name)
  {
    if name.Some? {
      CStrFrame(t, r, p + 1, ReadPieces(name.value.ps));
    }
  }

  lemma ConsLength(items: Items)
    requires items.Cons?
    ensures |LayItems(items)| ==
      |items.before| + |NamePart(items.name)| + |Lay(items.value)| + |items.after| +
      if items.tail.Nil? then 0 else 1 + |LayItems(items.tail)|
  {}

  lemma ConsSize(items: Items)
    requires items.Cons?
    ensures SizeItems(items) == Size(items.value) + SizeItems(items.tail)
  {}

  lemma ConsValid(items: Items, isArray: bool)
    requires items.Cons? && ValidItems(items, isArray)
    ensures items.name.None? == isArray && (items.name.Some? ==> ValidName(items.name.value))
    ensures Gap(items.before) && Gap(items.after)
    ensures ValidTree(items.value) && ValidItems(items.tail, isArray)
  {}

  /* ---- one step on an item ---- */

  /** What may follow a value: a blank, a comma, or the bracket that closes the block. */
  predicate Follows(c: char, isArray: bool) {
    Blank(c) || c == ',' || c == EndBracket(isArray)
  }

  lemma FollowsEnds(c: char, isArray: bool)
    requires Follows(c, isArray)
    ensures EndOfPrimitive(c) && c != NUL
  {}

  /** The first character of a value tells it from everything that may follow it. */
  lemma FirstChar(v: Tree)
    requires ValidTree(v)
    ensures Lay(v) != "" && var c := Lay(v)[0];
      && !Blank(c) && c != NUL && c != ',' && !EndOfBlock(c)
      && (v.Text? <==> c == '\"')
      && (v.Block? ==> c == if v.isArray then '[' else '{')
      && (v.Bool? ==> c == if v.b then 't' else 'f')
      && (v.Nothing? ==> c == 'n')
      && (v.Num? ==> c == '-' || IsDigit(c))
  {
    if v.Num? {
      NumeralFirst(v.n);
    }
  }

  lemma NumeralFirst(n: Numeral)
    requires ValidNumeral(n)
    ensures SpellNumber(n) != "" && (SpellNumber(n)[0] == '-' || IsDigit(SpellNumber(n)[0]))
  {}

  /** The colon behind a name, with the blanks around it. */
  lemma ColonTakes(u: Memory, a: nat, before: string, after: string)
    requires Gap(before) && Gap(after) && StandsAt(u, a, before) && StandsAt(u, a + |before| + 1, after)
    requires var d := a + |before| + 1 + |after|; d < |u| && u[d] != NUL && !Blank(u[d])
    requires u[a + |before|] == ':'
    ensures GoBlank(u, a) == Some(a + |before|) && GoBlank(u, a + |before| + 1) == Some(a + |before| + 1 + |after|)
  {
    var b: nat := a + |before|;
    hide StandsAt, Gap, GoBlank;
    ColonPlain();
    GapBlank(u, a, before);
    GapBlank(u, b + 1, after);
    hide Blank;
    GoBlankOver(u, a, |before|);
    GoBlankHere(u, b);
    GoBlankOver(u, b + 1, |after|);
    GoBlankHere(u, b + 1 + |after|);
  }

  lemma NameTakes(t: Memory, p: nat, n: Name, c: char)
    requires ValidName(n) && StandsAt(t, p, NamePart(Some(n)) + [c]) && c != NUL && !Blank(c)
    ensures t[p] == '\"'
    ensures var r := PropertyName(t, p);
      && r.Some? && r.value.ptr == p + |NamePart(Some(n))| && r.value.name == Char(p + 1)
      && CStr(r.value.text, p + 1, ReadPieces(n.ps))
      && SameOutside(t, r.value.text, p, r.value.ptr)
  {
    hide StandsAt, ParseString, GoBlank, CStr, Spell, ValidPieces, Gap, Blank;
    NameSplit(t, p, n, c);
    hide NamePart;
    var a: nat := p + 1 + |Spell(n.ps)| + 1;
    var b: nat := a + |n.before|;
    ScanString(t, p + 1, p + 1, n.ps);
    var u := ParseString(t, p + 1, p + 1).value.text;
    StandsStill(t, u, p + 1, a, a, n.before);
    StandsStill(t, u, p + 1, a, b + 1, n.after);
    ColonTakes(u, a, n.before, n.after);
  }

  lemma ColonPlain()
    ensures !Blank(':')
  {}

  lemma NameRegroup(s: string, before: string, after: string, c: char)
    ensures "\"" + s + "\"" + before + ":" + after + [c] == "\"" + ((s + "\"") + (before + (":" + (after + [c]))))
  {
    var t := "\"" + s + "\"";
    Regroup(t, before, ":", after + [c]);
    assert t + before + ":" + after + [c] == t + before + ":" + (after + [c]);
    assert t + (before + (":" + (after + [c]))) == "\"" + ((s + "\"") + (before + (":" + (after + [c]))));
  }

  lemma Regroup(a: string, b: string, c: string, d: string)
    ensures a + b + c + d == a + (b + (c + d))
  {}

  lemma SplitFive(t: string, p: nat, a: string, b: string, c: string, d: string, e: string)
    requires StandsAt(t, p, a + (b + (c + (d + e))))
    ensures var i: nat := p + |a|; var j := i + |b|; var k := j + |c|;
      && StandsAt(t, p, a) && StandsAt(t, i, b) && StandsAt(t, j, c) && StandsAt(t, k, d) && StandsAt(t, k + |d|, e)
  {
    hide StandsAt;
    SplitText(t, p, a, b + (c + (d + e)));
    SplitText(t, p + |a|, b, c + (d + e));
    SplitText(t, p + |a| + |b|, c, d + e);
    SplitText(t, p + |a| + |b| + |c|, d, e);
  }

  lemma NameSplit(t: string, p: nat, n: Name, c: char)
    requires StandsAt(t, p, NamePart(Some(n)) + [c])
    ensures var a := p + 1 + |Spell(n.ps)| + 1;
      var b := a + |n.before|;
      var d := b + 1 + |n.after|;
      && d == p + |NamePart(Some(n))| < |t| && t[p] == '\"' && StandsAt(t, p + 1, Spell(n.ps) + "\"")
      && StandsAt(t, a, n.before) && t[b] == ':' && StandsAt(t, b + 1, n.after) && t[d] == c
  {
    hide StandsAt, Spell;
    NameRegroup(Spell(n.ps), n.before, n.after, c);
    var s := Spell(n.ps) + "\"";
    var b: nat := p + 1 + |s| + |n.before|;
    SplitFive(t, p, "\"", s, n.before, ":", n.after + [c]);
    SplitText(t, b + 1, n.after, [c]);
    CharAt(t, p, "\"", 0);
    CharAt(t, b, ":", 0);
    CharAt(t, b + 1 + |n.after|, [c], 0);
    Within(t, b + 1 + |n.after|, [c]);
  }

  /** The name of an item is taken, and the parser stands on the value. */
  lemma HeadTakes(t: Memory, p: nat, name: Option<Name>, c: char, kind: Kind)
    requires (name.None? <==> kind == ARRAY) && (name.Some? ==> ValidName(name.value))
    requires StandsAt(t, p, NamePart(name) + [c]) && p + |NamePart(name)| < |t| && c != NUL && !Blank(c)
    ensures t[p] != NUL && !Blank(t[p]) && t[p] == if name.Some? then '\"' else c
    ensures var h := Head(t, p, kind);
      && h.Some? && h.value.ptr == p + |NamePart(name)|
      && ShowsName(h.value.text, h.value.name, p, name)
      && SameOutside(t, h.value.text, p, h.value.ptr)
  {
    match name
    case None =>
      assert NamePart(name) + [c] == [c];
      CharAt(t, p, [c], 0);
      hide StandsAt, PropertyName;
    case Some(n) =>
      hide StandsAt, PropertyName, CStr, NamePart, ValidName;
      NameTakes(t, p, n, c);
  }

  /** The parser has made a node for an item, linked it and read its name. */
  function Entered(s: State, h: Named): State
    requires Open(s.mem, s.free, s.obj) && s.free < |s.mem|
  {
    var k := s.free;
    s.(text := h.text, mem := Add(s.mem[k := s.mem[k].(name := h.name)], s.obj, k), free := k + 1, ptr := h.ptr)
  }

  /** An item stands at the position of the parser, inside a block of the right kind. */
  ghost predicate AtItem(s: State, name: Option<Name>, v: Tree, c: char) {
    && Inv(s) && s.free < |s.mem|
    && (name.None? <==> s.mem[s.obj].kind == ARRAY) && (name.Some? ==> ValidName(name.value)) && ValidTree(v)
    && StandsAt(s.text, s.ptr, NamePart(name) + (Lay(v) + [c]))
    && s.ptr + |NamePart(name)| + |Lay(v)| < |s.text|
    && Follows(c, s.mem[s.obj].kind == ARRAY)
  }

  lemma StepEnters(s: State, name: Option<Name>, v: Tree, c: char) returns (e: State)
    requires AtItem(s, name, v, c)
    ensures EnteredFrom(s, e, name)
    ensures e.text[e.ptr] != NUL && Step(s) == ParseValue(e, s.free)
    ensures StandsAt(e.text, e.ptr, Lay(v) + [c])
  {
    hide StandsAt, Lay, ValidName, ParseValue, Add, NamePart, Head, ValidTree, Blank, ShowsName, Open, Linked;
    OpenFacts(s);
    FirstChar(v);
    var d := Lay(v)[0];
    var rest := Lay(v)[1..] + [c];
    SplitText(s.text, s.ptr, NamePart(name), Lay(v) + [c]);
    Within(s.text, s.ptr, NamePart(name));
    assert Lay(v) + [c] == [d] + rest;
    SplitText(s.text, s.ptr + |NamePart(name)|, [d], rest);
    SplitAgain(s.text, s.ptr, NamePart(name), [d]);
    HeadTakes(s.text, s.ptr, name, d, s.mem[s.obj].kind);
    GoBlankHere(s.text, s.ptr);
    var h := Head(s.text, s.ptr, s.mem[s.obj].kind).value;
    e := Entered(s, h);
    StandsStill(s.text, e.text, s.ptr, e.ptr, e.ptr, Lay(v) + [c]);
    CharAt(e.text, e.ptr, Lay(v) + [c], 0);
    QuoteEnds();
    EnteredLinks(s, h);
  }

  lemma QuoteEnds()
    ensures !EndOfBlock('\"')
  {}

  lemma OpenFacts(s: State)
    requires Inv(s)
    ensures s.obj < s.free <= |s.mem| && s.ptr < |s.text|
  {}

  lemma SplitAgain(t: string, p: nat, a: string, b: string)
    requires StandsAt(t, p, a) && StandsAt(t, p + |a|, b)
    ensures StandsAt(t, p, a + b)
  {
    SplitText(t, p, a, b);
  }

  /** Below the nodes that were free, only the open block and its last child have changed: they are linked to
      the first of the new nodes, if there is any. */
  ghost predicate Linked(s: State, r: State, any: bool)
    requires Inv(s)
  {
    var o := s.mem[s.obj];
    && |r.mem| == |s.mem|
    && (forall j :: 0 <= j < s.free && j != s.obj && !(o.u != Null && j == o.last.n) ==> r.mem[j] == s.mem[j])
    && r.mem[s.obj] == o.(u := if any && o.u == Null then Ref(s.free) else o.u, last := r.mem[s.obj].last)
    && (o.u != Null ==>
          var l := s.mem[o.last.n];
          r.mem[o.last.n] == l.(sibling := if any then Ref(s.free) else l.sibling))
  }

  /** The new node is linked and has its name; the parser stands on the value. */
  ghost predicate EnteredFrom(s: State, e: State, name: Option<Name>)
    requires Inv(s)
  {
    && e.ptr == s.ptr + |NamePart(name)| < |e.text| == |s.text|
    && e.free == s.free + 1 && e.obj == s.obj < s.free < |e.mem| && |e.mem| == |s.mem|
    && Linked(s, e, true) && e.mem[s.obj].last == Ref(s.free) && e.mem[s.free].sibling == Null
    && ShowsName(e.text, e.mem[s.free].name, s.ptr, name)
    && SameOutside(s.text, e.text, s.ptr, e.ptr)
  }

  lemma EnteredLinks(s: State, h: Named)
    requires Inv(s) && s.free < |s.mem|
    ensures var e := Entered(s, h);
      && Linked(s, e, true) && e.mem[s.obj].last == Ref(s.free)
      && e.mem[s.free].sibling == Null && e.mem[s.free].name == h.name && |e.mem| == |s.mem|
  {}

  /* ---- the values that are leaves ---- */

  /** Where the parser stands after a value: a primitive takes the character behind it, unless that is a bracket. */
  function After(v: Tree, end: nat, c: char): nat {
    if Primitive(v) && !EndOfBlock(c) then end + 1 else end
  }

  /** The parser has read the value of node k up to, or just past, the character that follows. */
  ghost predicate TookLeaf(e: State, r: State, k: nat, v: Tree, c: char)
    requires k < |e.mem|
  {
    var end := e.ptr + |Lay(v)|;
    && end < |r.text| && k < |r.mem|
    && r == e.(text := r.text, ptr := r.ptr, mem := e.mem[k := e.mem[k].(u := r.mem[k].u, kind := r.mem[k].kind)])
    && r.ptr == After(v, end, c)
    && SameOutside(e.text, r.text, e.ptr, r.ptr)
    && (r.ptr == end + 1 ==> r.text[end] == NUL)
    && Shows(r.mem, r.text[end := NUL], k, e.ptr, v)
  }

  lemma TakesText(e: State, k: nat, ps: seq<Piece>, c: char)
    requires e.ptr < |e.text| && e.text[e.ptr] != NUL && k < |e.mem| && ValidPieces(ps)
    requires StandsAt(e.text, e.ptr, Lay(Text(ps)) + [c]) && e.ptr + |Lay(Text(ps))| < |e.text|
    ensures var r := ParseValue(e, k); r.Next? && TookLeaf(e, r.s, k, Text(ps), c)
  {
    hide StandsAt, ParseString, Spell, ReadPieces, ValidPieces;
    var p := e.ptr;
    assert Lay(Text(ps)) + [c] == "\"" + ((Spell(ps) + "\"") + [c]);
    SplitText(e.text, p, "\"", (Spell(ps) + "\"") + [c]);
    CharAt(e.text, p, "\"", 0);
    SplitText(e.text, p + 1, Spell(ps) + "\"", [c]);
    ScanString(e.text, p + 1, p + 1, ps);
    var t := ParseString(e.text, p + 1, p + 1).value.text;
    CStrFrame(t, t[p + |Lay(Text(ps))| := NUL], p + 1, ReadPieces(ps));
  }

  lemma TakesWord(t: Memory, p: nat, word: string, c: char)
    requires StandsAt(t, p, word + [c]) && EndOfPrimitive(c) && p + |word| < |t|
    requires forall i :: 0 <= i < |word| ==> word[i] != NUL
    ensures t[p + |word|] == c && StandsAt(t, p, word)
    ensures PrimitiveValue(t, p, word) == Some(SetToNull(t, p + |word|))
  {
    SplitText(t, p, word, [c]);
    CharAt(t, p + |word|, [c], 0);
    CheckWord(t, p, word);
    hide CheckStr, StandsAt;
  }

  /** A terminator has been set, or will be in the place given. */
  lemma Terminated(t: Memory, p: nat, word: string, c: char)
    requires StandsAt(t, p, word) && p + |word| < |t| && t[p + |word|] == c && EndOfPrimitive(c)
    ensures var r, end := SetToNull(t, p + |word|), p + |word|;
      && r.ptr == (if EndOfBlock(c) then end else end + 1) && (!EndOfBlock(c) ==> r.text[end] == NUL)
      && SameOutside(t, r.text, p, r.ptr)
      && CStr(r.text[end := NUL], p, word)
  {
    var r, end := SetToNull(t, p + |word|), p + |word|;
    var u := r.text[end := NUL];
    assert u[p..end] == t[p..end];
  }

  lemma TakesNamed(e: State, k: nat, v: Tree, c: char)
    requires e.ptr < |e.text| && e.text[e.ptr] != NUL && k < |e.mem| && (v.Bool? || v.Nothing?)
    requires StandsAt(e.text, e.ptr, Lay(v) + [c]) && e.ptr + |Lay(v)| < |e.text| && EndOfPrimitive(c)
    ensures var r := ParseValue(e, k); r.Next? && TookLeaf(e, r.s, k, v, c)
  {
    hide StandsAt, PrimitiveValue, SetToNull, CStr, EndOfPrimitive;
    CharAt(e.text, e.ptr, Lay(v) + [c], 0);
    TakesWord(e.text, e.ptr, Lay(v), c);
    Terminated(e.text, e.ptr, Lay(v), c);
  }

  lemma NumberBranch(e: State, k: nat)
    requires e.ptr < |e.text| && (e.text[e.ptr] == '-' || IsDigit(e.text[e.ptr])) && k < |e.mem|
    ensures e.text[e.ptr] != NUL
    ensures var v := NumValue(e.text, e.ptr);
      v.Some? ==> ParseValue(e, k) == Next(Leaf(e, k, v.value.0, Char(e.ptr), v.value.1))
  {
    hide NumValue;
  }

  lemma LeafShows(e: State, k: nat, n: Numeral, c: char, v: Scan)
    requires k < |e.mem| && e.ptr + |Lay(Num(n))| < |v.text|
    requires var end := e.ptr + |Lay(Num(n))|;
      v.ptr == (if EndOfBlock(c) then end else end + 1) && (!EndOfBlock(c) ==> v.text[end] == NUL)
    requires SameOutside(e.text, v.text, e.ptr, v.ptr)
    requires CStr(v.text[e.ptr + |Lay(Num(n))| := NUL], e.ptr, Lay(Num(n)))
    ensures TookLeaf(e, Leaf(e, k, v, Char(e.ptr), KindOf(Num(n))), k, Num(n), c)
  {
    hide CStr, SpellNumber;
  }

  lemma TakesNumber(e: State, k: nat, n: Numeral, c: char)
    requires e.ptr < |e.text| && e.text[e.ptr] != NUL && k < |e.mem| && ValidTree(Num(n))
    requires StandsAt(e.text, e.ptr, Lay(Num(n)) + [c]) && e.ptr + |Lay(Num(n))| < |e.text| && EndOfPrimitive(c)
    ensures var r := ParseValue(e, k); r.Next? && TookLeaf(e, r.s, k, Num(n), c)
  {
    hide StandsAt, SetToNull, CStr, NumValue, ParseValue, WholeValue, SpellNumber, TookLeaf, Leaf, SameOutside,
         EndOfPrimitive, IsWhole, ValidNumeral;
    FirstChar(Num(n));
    var s := Lay(Num(n));
    CharAt(e.text, e.ptr, s + [c], 0);
    SplitText(e.text, e.ptr, s, [c]);
    CharAt(e.text, e.ptr + |s|, [c], 0);
    Within(e.text, e.ptr, s);
    Terminated(e.text, e.ptr, s, c);
    NumValueReads(e.text, e.ptr, n);
    NumberBranch(e, k);
    LeafShows(e, k, n, c, SetToNull(e.text, e.ptr + |s|));
  }

  lemma TakesLeaf(e: State, k: nat, v: Tree, c: char)
    requires e.ptr < |e.text| && e.text[e.ptr] != NUL && k < |e.mem| && !v.Block? && ValidTree(v)
    requires StandsAt(e.text, e.ptr, Lay(v) + [c]) && e.ptr + |Lay(v)| < |e.text| && EndOfPrimitive(c)
    ensures var r := ParseValue(e, k); r.Next? && TookLeaf(e, r.s, k, v, c)
  {
    hide StandsAt, TookLeaf, ParseValue, SpellNumber, Spell, EndOfPrimitive;
    match v
    case Text(ps) => TakesText(e, k, ps, c);
    case Num(n) => TakesNumber(e, k, n, c);
    case Bool(_) => TakesNamed(e, k, v, c);
    case Nothing => TakesNamed(e, k, v, c);
  }

  /* ---- items and lists of items ---- */

  /** The parser has read an item. */
  ghost predicate TookItem(s: State, r: State, name: Option<Name>, v: Tree, c: char)
    requires Inv(s)
  {
    var k := s.free;
    var q := s.ptr + |NamePart(name)|;
    var end := q + |Lay(v)|;
    && Inv(r) && r.obj == s.obj && r.free == k + Size(v) && |r.text| == |s.text| && end < |r.text|
    && Linked(s, r, true) && k < |r.mem| && r.mem[s.obj].last == Ref(k) && r.mem[k].sibling == Null
    && r.ptr == After(v, end, c)
    && SameOutside(s.text, r.text, s.ptr, r.ptr) && (r.ptr == end + 1 ==> r.text[end] == NUL)
    && ShowsName(r.text, r.mem[k].name, s.ptr, name)
    && Shows(r.mem, r.text[end := NUL], k, q, v)
  }

  /** The parser stands on the bracket behind a list of items, all of which are linked to the open block. */
  ghost predicate TookItems(s: State, r: State, items: Items)
    requires Inv(s)
  {
    && Inv(r) && r.obj == s.obj && r.free == s.free + SizeItems(items) && |r.text| == |s.text|
    && Linked(s, r, items.Cons?)
    && r.ptr == s.ptr + |LayItems(items)|
    && SameOutside(s.text, r.text, s.ptr, r.ptr)
    && ShowsItems(r.mem, r.text[r.ptr := NUL], if items.Cons? then Ref(s.free) else Null, s.free, s.ptr, items)
  }

  /** A change of the new node keeps the links to it. */
  lemma LinkedFrame(s: State, e: State, r: State)
    requires Inv(s) && s.free < |s.mem| && Linked(s, e, true) && |r.mem| == |e.mem|
    requires forall j :: 0 <= j < s.free ==> r.mem[j] == e.mem[j]
    ensures Linked(s, r, true)
  {}

  lemma ItemFollowed(s: State, name: Option<Name>, v: Tree, c: char)
    requires AtItem(s, name, v, c)
    ensures EndOfPrimitive(c) && ValidTree(v)
  {
    FollowsEnds(c, s.mem[s.obj].kind == ARRAY);
  }

  lemma ItemFits(s: State, name: Option<Name>, v: Tree, c: char)
    requires AtItem(s, name, v, c)
    ensures Inv(s) && s.free < |s.mem| && s.ptr + |NamePart(name)| + |Lay(v)| < |s.text|
  {}

  /** Two changes one after the other. */
  lemma OutsideTwice(t: string, u: string, r: string, from: nat, mid: nat, to: nat)
    requires SameOutside(t, u, from, mid) && SameOutside(u, r, mid, to) && from <= mid <= to
    ensures SameOutside(t, r, from, to) && SameBetween(u, r, from, mid)
  {}

  lemma LeafTook(s: State, e: State, r: State, name: Option<Name>, v: Tree, c: char)
    requires Inv(s) && Inv(r) && EnteredFrom(s, e, name) && TookLeaf(e, r, s.free, v, c) && Size(v) == 1
    ensures TookItem(s, r, name, v, c)
  {
    hide Shows, Lay, Linked, ShowsName, Primitive, Open, NamePart, EndOfBlock, SameOutside, SameBetween, Size;
    OutsideTwice(s.text, e.text, r.text, s.ptr, e.ptr, r.ptr);
    LinkedFrame(s, e, r);
    NameFrame(e.text, r.text, s.ptr, e.mem[s.free].name, name);
  }

  lemma LeafTaken(s: State, e: State, v: Tree, c: char)
    requires Inv(s) && !v.Block? && ValidTree(v) && EndOfPrimitive(c)
    requires s.free < |e.mem| && e.ptr + |Lay(v)| < |e.text| && e.text[e.ptr] != NUL
    requires Step(s) == ParseValue(e, s.free) && StandsAt(e.text, e.ptr, Lay(v) + [c])
    ensures var r := ParseValue(e, s.free);
      r.Next? && Inv(r.s) && Parse(s) == Parse(r.s) && TookLeaf(e, r.s, s.free, v, c)
  {
    hide StandsAt, Lay, Step, ParseValue, Open, ValidTree, EndOfPrimitive, TookLeaf;
    TakesLeaf(e, s.free, v, c);
    StepKeeps(s);
  }

  lemma ItemLeaf(s: State, name: Option<Name>, v: Tree, c: char) returns (r: State)
    requires AtItem(s, name, v, c) && !v.Block?
    ensures Inv(r) && Parse(s) == Parse(r) && TookItem(s, r, name, v, c)
  {
    ItemFollowed(s, name, v, c);
    ItemFits(s, name, v, c);
    hide StandsAt, Lay, Step, ParseValue, Linked, ShowsName, Open, ValidTree, NamePart, SameOutside,
         EndOfPrimitive, AtItem, TookLeaf, TookItem, Parse;
    var e := StepEnters(s, name, v, c);
    LeafSize(v);
    LeafTaken(s, e, v, c);
    r := ParseValue(e, s.free).s;
    LeafTook(s, e, r, name, v, c);
  }

  lemma LeafSize(v: Tree)
    requires !v.Block?
    ensures Size(v) == 1
  {}

  /** The block has been opened. */
  function Opened(e: State, k: nat, isArray: bool): State
    requires k < |e.mem|
  {
    e.(mem := e.mem[k := e.mem[k].(kind := if isArray then ARRAY else OBJ, u := Null, sibling := Ref(e.obj))],
       obj := k, ptr := e.ptr + 1)
  }

  /** Where the parser stands after the opening bracket. */
  lemma InsideBlock(t: string, p: nat, v: Tree, rest: string)
    requires v.Block? && StandsAt(t, p, Lay(v) + rest)
    ensures StandsAt(t, p, if v.isArray then "[" else "{")
    ensures StandsAt(t, p + 1, LayItems(v.items) + [EndBracket(v.isArray)])
    ensures |Lay(v)| == |LayItems(v.items)| + 2 && p + |Lay(v)| <= |t|
  {
    hide StandsAt, LayItems;
    SplitText(t, p, Lay(v), rest);
    Within(t, p, Lay(v));
    var opening := if v.isArray then "[" else "{";
    var inner := LayItems(v.items) + [EndBracket(v.isArray)];
    assert Lay(v) == opening + inner;
    SplitText(t, p, opening, inner);
  }

  /** The state after the bracket of a block. */
  function Closed(l: State, k: nat, parent: nat): State
    requires k < |l.mem| && l.ptr < |l.text| - 1
  {
    l.(text := l.text[l.ptr := NUL], ptr := l.ptr + 1, mem := l.mem[k := l.mem[k].(sibling := Null)], obj := parent)
  }

  lemma BracketStays(t: Memory, p: nat, isArray: bool)
    requires p < |t| && t[p] == EndBracket(isArray)
    ensures GoBlank(t, p) == Some(p) && t[p] != ',' && p < |t| - 1
  {}

  lemma StepCloses(l: State, parent: nat)
    requires Inv(l) && l.mem[l.obj].sibling == Ref(parent) && l.text[l.ptr] == EndBracket(l.mem[l.obj].kind == ARRAY)
    ensures l.ptr < |l.text| - 1 && Step(l) == Next(Closed(l, l.obj, parent))
  {
    OpenFacts(l);
    BracketStays(l.text, l.ptr, l.mem[l.obj].kind == ARRAY);
    hide Open, GoBlank, Head, ParseValue, Add, EndBracket;
  }

  /** The closing bracket ends the block and gives back the link to its parent. */
  lemma BlockCloses(l: State, parent: nat)
    requires Inv(l) && l.mem[l.obj].sibling == Ref(parent) && l.text[l.ptr] == EndBracket(l.mem[l.obj].kind == ARRAY)
    ensures l.ptr < |l.text| - 1
    ensures Inv(Closed(l, l.obj, parent)) && Parse(l) == Parse(Closed(l, l.obj, parent))
  {
    StepCloses(l, parent);
    StepKeeps(l);
    hide Open, Step, Closed;
  }

  /** A list of items stands at the position of the parser, up to the bracket that closes the open block. */
  ghost predicate AtItems(s: State, items: Items) {
    && Inv(s)
    && ValidItems(items, s.mem[s.obj].kind == ARRAY)
    && s.free + SizeItems(items) <= |s.mem|
    && StandsAt(s.text, s.ptr, LayItems(items) + [EndBracket(s.mem[s.obj].kind == ARRAY)])
  }

  lemma BlockShows(mem: seq<Node>, nem: seq<Node>, t: string, k: nat, p: nat, v: Tree)
    requires v.Block? && ValidTree(v) && |Lay(v)| == |LayItems(v.items)| + 2
    requires k < |mem| && nem == mem[k := mem[k].(sibling := Null)] && mem[k].kind == KindOf(v)
    requires ShowsItems(mem, t, mem[k].u, k + 1, p + 1, v.items)
    requires p + |Lay(v)| < |t|
    ensures Shows(nem, t[p + |Lay(v)| := NUL], k, p, v)
  {
    hide Lay, LayItems, ValidItems;
    ItemsFrame(mem, t, nem, t[p + |Lay(v)| := NUL], mem[k].u, k + 1, p + 1, v.items, v.isArray);
  }

  /** The opening bracket makes the new node the open block. */
  lemma BlockOpens(s: State, e: State, v: Tree)
    requires Inv(s) && v.Block? && s.free < |e.mem| && e.obj < |e.mem|
    requires e.ptr < |e.text| && e.text[e.ptr] == if v.isArray then '[' else '{'
    requires Step(s) == ParseValue(e, s.free)
    ensures Inv(Opened(e, s.free, v.isArray)) && Parse(s) == Parse(Opened(e, s.free, v.isArray))
  {
    hide Step, Open;
    StepKeeps(s);
  }

  lemma OpenedItems(e: State, k: nat, v: Tree, c: char)
    requires v.Block? && k < |e.mem| && e.obj < k && k + 1 == e.free && Inv(Opened(e, k, v.isArray))
    requires StandsAt(e.text, e.ptr, Lay(v) + [c]) && ValidTree(v) && k + Size(v) <= |e.mem|
    ensures AtItems(Opened(e, k, v.isArray), v.items)
  {
    hide Open, StandsAt, Lay, LayItems, ValidTree, Size, SizeItems, ValidItems, EndBracket;
    InsideBlock(e.text, e.ptr, v, [c]);
    ValueShape(v);
  }

  lemma BlockStarts(s: State, name: Option<Name>, v: Tree, c: char) returns (e: State, b: State)
    requires AtItem(s, name, v, c) && v.Block? && s.free + Size(v) <= |s.mem|
    ensures Inv(s) && EnteredFrom(s, e, name) && e.ptr + |Lay(v)| < |s.text|
    ensures b == Opened(e, s.free, v.isArray) && AtItems(b, v.items)
    ensures Inv(b) && Parse(s) == Parse(b)
  {
    ItemFollowed(s, name, v, c);
    ItemFits(s, name, v, c);
    hide Open, StandsAt, Lay, LayItems, NamePart, ShowsName, SameOutside, Linked, ValidTree, ValidName, Size, Step,
         EndBracket, AtItem, AtItems, Inv, Parse, Opened, ParseValue;
    e := StepEnters(s, name, v, c);
    FirstChar(v);
    CharAt(e.text, e.ptr, Lay(v) + [c], 0);
    BlockOpens(s, e, v);
    OpenedItems(e, s.free, v, c);
    b := Opened(e, s.free, v.isArray);
  }

  lemma BlockText(e: State, l: State, v: Tree)
    requires v.Block? && e.ptr + |Lay(v)| < |e.text| && |Lay(v)| == |LayItems(v.items)| + 2
    requires l.ptr == e.ptr + 1 + |LayItems(v.items)| && SameOutside(e.text, l.text, e.ptr + 1, l.ptr)
    ensures SameOutside(e.text, l.text[l.ptr := NUL], e.ptr, l.ptr + 1)
    ensures l.ptr + 1 == e.ptr + |Lay(v)|
  {}

  lemma BlockTook(s: State, e: State, l: State, name: Option<Name>, v: Tree, c: char)
    requires Inv(s) && EnteredFrom(s, e, name) && v.Block? && e.ptr + |Lay(v)| < |s.text|
    requires var b := Opened(e, s.free, v.isArray); Inv(b) && TookItems(b, l, v.items)
    requires |Lay(v)| == |LayItems(v.items)| + 2 && Size(v) == 1 + SizeItems(v.items) && ValidTree(v)
    requires l.ptr < |l.text| - 1 && Inv(Closed(l, s.free, s.obj))
    ensures TookItem(s, Closed(l, s.free, s.obj), name, v, c)
  {
    hide Lay, LayItems, Open, ValidTree, NamePart, ShowsItems, Shows, ShowsName, Size, SameOutside, SameBetween;
    var k := s.free;
    var r := Closed(l, k, s.obj);
    BlockText(e, l, v);
    OutsideTwice(s.text, e.text, r.text, s.ptr, e.ptr, r.ptr);
    LinkedFrame(s, e, r);
    NameFrame(e.text, r.text, s.ptr, e.mem[k].name, name);
    BlockShows(l.mem, r.mem, r.text, k, e.ptr, v);
  }

  /** The block that has been read inside is closed. */
  lemma BlockDone(s: State, name: Option<Name>, v: Tree, c: char, e: State, l: State) returns (r: State)
    requires AtItem(s, name, v, c) && v.Block? && Inv(s) && EnteredFrom(s, e, name) && e.ptr + |Lay(v)| < |s.text|
    requires var b := Opened(e, s.free, v.isArray); AtItems(b, v.items) && Inv(b) && TookItems(b, l, v.items)
    ensures Inv(r) && Parse(l) == Parse(r) && TookItem(s, r, name, v, c)
  {
    hide *;
    ItemFollowed(s, name, v, c);
    EnteredFree(s, e, name);
    BlockEnds(s, e, l, v);
    BlockCloses(l, s.obj);
    r := Closed(l, s.free, s.obj);
    ValueShape(v);
    BlockTook(s, e, l, name, v, c);
  }

  lemma EnteredFree(s: State, e: State, name: Option<Name>)
    requires Inv(s) && EnteredFrom(s, e, name)
    ensures e.free == s.free + 1 && e.obj == s.obj && s.free < |e.mem| && |e.text| == |s.text|
  {}

  /** The bracket behind the items is still there. */
  lemma ItemsEnd(s: State, r: State, items: Items)
    requires AtItems(s, items) && TookItems(s, r, items)
    ensures r.text[r.ptr] == EndBracket(s.mem[s.obj].kind == ARRAY)
  {
    hide Open, StandsAt, LayItems, ShowsItems, ValidItems, Linked, EndBracket;
    OpenFacts(s);
    CharAt(s.text, s.ptr, LayItems(items) + [EndBracket(s.mem[s.obj].kind == ARRAY)], |LayItems(items)|);
  }

  lemma BlockEnds(s: State, e: State, l: State, v: Tree)
    requires Inv(s) && s.free < |e.mem| && e.free == s.free + 1 && e.obj == s.obj && v.Block?
    requires var b := Opened(e, s.free, v.isArray); AtItems(b, v.items) && Inv(b) && TookItems(b, l, v.items)
    ensures Inv(l) && l.obj == s.free < |l.mem| && l.mem[l.obj].sibling == Ref(s.obj)
    ensures l.text[l.ptr] == EndBracket(l.mem[l.obj].kind == ARRAY)
  {
    hide Open, LayItems, ShowsItems, SameOutside, AtItems, EndBracket;
    ItemsEnd(Opened(e, s.free, v.isArray), l, v.items);
  }

  /* ---- between the items ---- */

  /** The same state with the parser at another place. */
  function At(s: State, p: nat): State {
    s.(ptr := p)
  }

  /** The parser has read something that ends at end; it may have taken one more character. */
  ghost predicate Behind(t: string, i: State, end: nat, gap: string, sep: char) {
    && Inv(i) && |i.text| == |t| && Gap(gap) && end + |gap| + 1 <= |t| && StandsAt(t, end, gap + [sep])
    && (i.ptr == end || i.ptr == end + 1)
    && forall j :: i.ptr <= j < |t| ==> i.text[j] == t[j]
  }

  lemma RestStands(t: string, r: string, from: nat, p: nat, piece: string)
    requires |r| == |t| && (forall j :: from <= j < |t| ==> r[j] == t[j]) && from <= p
    requires StandsAt(t, p, piece)
    ensures StandsAt(r, p, piece)
  {
    assert r[p..p + |piece|] == t[p..p + |piece|];
  }

  lemma SplitFirst(t: string, p: nat, piece: string)
    requires StandsAt(t, p, piece) && piece != ""
    ensures StandsAt(t, p + 1, piece[1..]) && t[p] == piece[0]
  {
    assert piece == [piece[0]] + piece[1..];
    SplitText(t, p, [piece[0]], piece[1..]);
    CharAt(t, p, piece, 0);
  }

  /** The rest of the gap is skipped. */
  lemma GapPassed(t: string, i: State, end: nat, gap: string, sep: char)
    requires Behind(t, i, end, gap, sep) && (i.ptr == end || gap != "")
    ensures var n := At(i, end + |gap|);
      Inv(n) && Parse(i) == Parse(n) && n.text[n.ptr] == sep
  {
    hide StandsAt, Open, Parse, Gap;
    SplitText(t, end, gap, [sep]);
    CharAt(t, end + |gap|, [sep], 0);
    if i.ptr == end {
      RestStands(t, i.text, i.ptr, end, gap);
      SkipGap(i, gap);
    } else {
      SplitFirst(t, end, gap);
      RestStands(t, i.text, i.ptr, end + 1, gap[1..]);
      GapRest(gap);
      SkipGap(i, gap[1..]);
    }
  }

  lemma GapRest(gap: string)
    requires Gap(gap) && gap != ""
    ensures Gap(gap[1..])
  {}

  lemma CommaStep(i: State)
    requires Inv(i) && i.text[i.ptr] == ','
    ensures Inv(At(i, i.ptr + 1)) && Parse(i) == Parse(At(i, i.ptr + 1))
  {
    GoBlankHere(i.text, i.ptr);
    StepKeeps(i);
    hide Open, GoBlank, Head, ParseValue, Add;
  }

  /** The gap and the comma behind it are passed. */
  lemma CommaPassed(t: string, i: State, end: nat, gap: string)
    requires Behind(t, i, end, gap, ',')
    ensures var n := At(i, end + |gap| + 1); Inv(n) && Parse(i) == Parse(n)
  {
    hide StandsAt, Open, Parse;
    if i.ptr == end || gap != "" {
      GapPassed(t, i, end, gap, ',');
      CommaStep(At(i, end + |gap|));
    } else {
      assert At(i, end + 1) == i;
    }
  }

  /** What stands behind the gap after an item. */
  function Separator(items: Items, closer: char): char
    requires items.Cons?
  {
    if items.tail.Nil? then closer else ','
  }

  /** The character behind the value of an item. */
  function NextChar(items: Items, closer: char): char
    requires items.Cons?
  {
    (items.after + [Separator(items, closer)])[0]
  }

  lemma PiecesLast(a: string, b: string, c: string, d: string, e: string)
    ensures (a + b + c + d + "") + e == a + (b + (c + (d + (e + ""))))
  {
    assert (a + b + c + d + "") + e == a + b + c + d + e;
    assert e + "" == e;
    Regroup(a + b, c, d, e);
  }

  lemma PiecesNext(a: string, b: string, c: string, d: string, comma: string, rest: string, e: string)
    ensures (a + b + c + d + (comma + rest)) + e == a + (b + (c + (d + (comma + (rest + e)))))
  {
    assert (a + b + c + d + (comma + rest)) + e == a + b + c + d + (comma + (rest + e));
    Regroup(a + b, c, d, comma + (rest + e));
  }

  lemma ItemsPieces(items: Items, closer: char)
    requires items.Cons?
    ensures LayItems(items) + [closer] == items.before + (NamePart(items.name) + (Lay(items.value) +
      (items.after + ([Separator(items, closer)] + if items.tail.Nil? then "" else LayItems(items.tail) + [closer]))))
  {
    hide NamePart, Lay;
    if items.tail.Nil? {
      PiecesLast(items.before, NamePart(items.name), Lay(items.value), items.after, [closer]);
    } else {
      PiecesNext(items.before, NamePart(items.name), Lay(items.value), items.after, ",", LayItems(items.tail),
        [closer]);
    }
  }

  /** Four pieces, and the third with the first character of the fourth. */
  lemma SplitItem(t: string, p: nat, a: string, b: string, c: string, d: string, sep: char, e: string)
    requires StandsAt(t, p, a + (b + (c + (d + ([sep] + e)))))
    ensures var q := p + |a|; var end := q + |b| + |c|;
      && StandsAt(t, p, a) && StandsAt(t, q, b + (c + [(d + [sep])[0]]))
      && StandsAt(t, end, d + [sep]) && StandsAt(t, end + |d| + 1, e) && end + |d| + 1 <= |t|
  {
    hide StandsAt;
    SplitFive(t, p, a, b, c, d, [sep] + e);
    var q: nat := p + |a|;
    var end: nat := q + |b| + |c|;
    SplitText(t, end + |d|, [sep], e);
    SplitAgain(t, end, d, [sep]);
    Within(t, end, d + [sep]);
    FirstStands(t, end, d + [sep]);
    SplitAgain(t, q + |b|, c, [(d + [sep])[0]]);
    SplitAgain(t, q, b, c + [(d + [sep])[0]]);
  }

  lemma FirstStands(t: string, p: nat, piece: string)
    requires StandsAt(t, p, piece) && piece != ""
    ensures StandsAt(t, p, [piece[0]])
  {
    CharAt(t, p, piece, 0);
  }

  /** The text of a list, taken apart. */
  lemma ItemsText(t: string, p: nat, items: Items, closer: char)
    requires items.Cons? && StandsAt(t, p, LayItems(items) + [closer])
    ensures var q := p + |items.before|;
      var end := q + |NamePart(items.name)| + |Lay(items.value)|;
      && StandsAt(t, p, items.before)
      && StandsAt(t, q, NamePart(items.name) + (Lay(items.value) + [NextChar(items, closer)]))
      && StandsAt(t, end, items.after + [Separator(items, closer)])
      && end + |items.after| + 1 <= |t|
      && (items.tail.Cons? ==> StandsAt(t, end + |items.after| + 1, LayItems(items.tail) + [closer]))
  {
    hide StandsAt, LayItems, Lay, NamePart, Separator;
    ItemsPieces(items, closer);
    var rest := if items.tail.Nil? then "" else LayItems(items.tail) + [closer];
    SplitItem(t, p, items.before, NamePart(items.name), Lay(items.value), items.after, Separator(items, closer), rest);
  }

  lemma GapFollows(items: Items, isArray: bool)
    requires items.Cons? && Gap(items.after)
    ensures Follows(NextChar(items, EndBracket(isArray)), isArray)
  {}

  lemma AtItemsFacts(s: State, items: Items)
    requires AtItems(s, items)
    ensures Inv(s) && s.obj < s.free <= |s.mem| && s.free + SizeItems(items) <= |s.mem|
    ensures ValidItems(items, s.mem[s.obj].kind == ARRAY)
    ensures StandsAt(s.text, s.ptr, LayItems(items) + [EndBracket(s.mem[s.obj].kind == ARRAY)])
  {}

  /** In front of an item the blanks are skipped. */
  lemma AtFirst(s: State, items: Items)
    requires AtItems(s, items) && items.Cons?
    ensures Inv(s) && s.obj < |s.mem| && s.free + Size(items.value) + SizeItems(items.tail) <= |s.mem|
    ensures var b := At(s, s.ptr + |items.before|);
      && Inv(b) && Parse(s) == Parse(b) && b.free + Size(items.value) <= |b.mem|
      && AtItem(b, items.name, items.value, NextChar(items, EndBracket(s.mem[s.obj].kind == ARRAY)))
  {
    hide AtItems, LayItems, Lay, NamePart, StandsAt, Open, Parse, ValidTree, ValidName, Gap, Follows, NextChar,
         EndBracket, Separator, ValidItems;
    AtItemsFacts(s, items);
    var isArray := s.mem[s.obj].kind == ARRAY;
    ItemsText(s.text, s.ptr, items, EndBracket(isArray));
    ConsSize(items);
    ConsValid(items, isArray);
    GapFollows(items, isArray);
    hide SizeItems;
    SkipGap(s, items.before);
  }

  /* ---- lists of items ---- */

  /** Where the value of the first item ends. */
  function ValueEnd(s: State, items: Items): nat
    requires items.Cons?
  {
    s.ptr + |items.before| + |NamePart(items.name)| + |Lay(items.value)|
  }

  /** The first item has been read, and the parser is still behind it. */
  ghost predicate TookFirst(s: State, i: State, items: Items)
    requires Inv(s) && items.Cons?
  {
    var b := At(s, s.ptr + |items.before|);
    && Inv(b)
    && TookItem(b, i, items.name, items.value, NextChar(items, EndBracket(s.mem[s.obj].kind == ARRAY)))
  }

  lemma AfterIs(v: Tree, end: nat, c: char)
    ensures After(v, end, c) == end || (After(v, end, c) == end + 1 && Primitive(v) && !EndOfBlock(c))
    ensures Primitive(v) && !EndOfBlock(c) ==> After(v, end, c) == end + 1
  {}

  /** Behind the first item stands the gap, and the comma or bracket after it. */
  lemma FirstBehind(s: State, i: State, items: Items)
    requires AtItems(s, items) && items.Cons? && Inv(s) && TookFirst(s, i, items)
    ensures var closer := EndBracket(s.mem[s.obj].kind == ARRAY);
      && Behind(s.text, i, ValueEnd(s, items), items.after, Separator(items, closer))
      && (items.tail.Cons? ==>
            StandsAt(s.text, ValueEnd(s, items) + |items.after| + 1, LayItems(items.tail) + [closer]))
  {
    hide LayItems, Lay, NamePart, StandsAt, Open, Gap, EndBracket, Separator, ValidItems, Shows, ShowsName, Linked,
         NextChar, After;
    AtItemsFacts(s, items);
    var isArray := s.mem[s.obj].kind == ARRAY;
    ItemsText(s.text, s.ptr, items, EndBracket(isArray));
    ConsValid(items, isArray);
    AfterIs(items.value, ValueEnd(s, items), NextChar(items, EndBracket(isArray)));
  }

  lemma FirstFacts(s: State, i: State, items: Items)
    requires items.Cons? && Inv(s) && TookFirst(s, i, items)
    ensures var closer := EndBracket(s.mem[s.obj].kind == ARRAY);
      var end := ValueEnd(s, items);
      var q := s.ptr + |items.before| + |NamePart(items.name)|;
      var k := s.free;
      && Inv(i) && i.obj == s.obj < k && i.free == k + Size(items.value) <= |i.mem|
      && |i.text| == |s.text| && end < |i.text| && |i.mem| == |s.mem|
      && Linked(s, i, true) && k < |i.mem| && i.mem[s.obj].last == Ref(k) && i.mem[k].sibling == Null
      && i.ptr == After(items.value, end, NextChar(items, closer))
      && SameOutside(s.text, i.text, s.ptr, i.ptr) && (i.ptr == end + 1 ==> i.text[end] == NUL)
      && ShowsName(i.text, i.mem[k].name, s.ptr + |items.before|, items.name)
      && Shows(i.mem, i.text[end := NUL], k, q, items.value)
  {
    hide Lay, NamePart, Open, EndBracket, Shows, ShowsName, NextChar, After, Size;
    OpenFacts(s);
    OpenFacts(i);
  }

  /** Reading on does not disturb a value already read. */
  lemma ValueStill(i: State, r: State, k: nat, q: nat, v: Tree)
    requires ValidTree(v) && |r.mem| == |i.mem| && |r.text| == |i.text| && k < |i.mem|
    requires r.mem[k].u == i.mem[k].u && r.mem[k].kind == i.mem[k].kind
    requires forall j :: k < j < k + Size(v) && j < |i.mem| ==> r.mem[j] == i.mem[j]
    requires var end := q + |Lay(v)|; end <= r.ptr < |r.text|
    requires var end := q + |Lay(v)|; forall j :: 0 <= j <= end && j < |r.text| ==> r.text[j] == i.text[j]
    requires var end := q + |Lay(v)|; Primitive(v) && r.ptr > end ==> i.text[end] == NUL
    requires var end := q + |Lay(v)|; end < |i.text| && Shows(i.mem, i.text[end := NUL], k, q, v)
    ensures Shows(r.mem, r.text[r.ptr := NUL], k, q, v)
  {
    hide Shows, Lay, Size, ValidTree;
    ShowsFrame(i.mem, i.text[q + |Lay(v)| := NUL], r.mem, r.text[r.ptr := NUL], k, q, v);
  }

  lemma NameStill(i: State, r: State, p: nat, link: Pointer, name: Option<Name>)
    requires ShowsName(i.text, link, p, name) && |r.text| == |i.text| && p + |NamePart(name)| <= r.ptr < |r.text|
    requires forall j :: 0 <= j < p + |NamePart(name)| && j < |r.text| ==> r.text[j] == i.text[j]
    ensures ShowsName(r.text[r.ptr := NUL], link, p, name)
  {
    hide ShowsName;
    NameFrame(i.text, r.text[r.ptr := NUL], p, link, name);
  }

  /** A primitive has been terminated, unless its end is the end of the list. */
  lemma FirstEnds(s: State, i: State, items: Items)
    requires Inv(s) && items.Cons? && TookFirst(s, i, items) && Gap(items.after) && Primitive(items.value)
    requires items.tail.Cons? || items.after != ""
    ensures var end := ValueEnd(s, items); end < |i.text| && i.text[end] == NUL
  {
    FirstFacts(s, i, items);
    hide Lay, NamePart, Open, Shows, ShowsName, Linked, TookFirst;
  }

  lemma ConsShows(mem: seq<Node>, t: string, k: nat, p: nat, items: Items)
    requires items.Cons? && k < |mem|
    requires ShowsName(t, mem[k].name, p + |items.before|, items.name)
    requires Shows(mem, t, k, p + |items.before| + |NamePart(items.name)|, items.value)
    requires ShowsItems(mem, t, mem[k].sibling, k + Size(items.value),
      p + |items.before| + |NamePart(items.name)| + |Lay(items.value)| + |items.after| + 1, items.tail)
    ensures ShowsItems(mem, t, Ref(k), k, p, items)
  {
    hide Shows, ShowsName, Size, Lay, NamePart;
  }

  lemma NoneShows(mem: seq<Node>, t: string, k: nat, p: nat, items: Items)
    requires items.Nil?
    ensures ShowsItems(mem, t, Null, k, p, items) && SizeItems(items) == 0
  {}

  /** A bracket right behind a value is not taken. */
  lemma NoGap(s: State, i: State, items: Items)
    requires items.Cons? && items.tail.Nil? && Inv(s) && TookFirst(s, i, items)
    ensures i.ptr == ValueEnd(s, items) || items.after != ""
  {
    FirstFacts(s, i, items);
    hide Open, Linked, Shows, ShowsName, Lay, NamePart, TookFirst;
  }

  /** The last item of a list has been read, and the gap behind it skipped. */
  lemma ItemsEnded(s: State, i: State, items: Items)
    requires AtItems(s, items) && items.Cons? && items.tail.Nil? && Inv(s) && TookFirst(s, i, items)
    requires ValidTree(items.value) && Gap(items.after)
    requires var r := At(i, ValueEnd(s, items) + |items.after|); Inv(r)
    ensures TookItems(s, At(i, ValueEnd(s, items) + |items.after|), items)
  {
    hide AtItems, Open, Linked, Shows, ShowsName, ShowsItems, Lay, NamePart, LayItems, SizeItems, Size, TookFirst, Gap,
         ValidTree, NextChar, EndBracket;
    ConsLength(items);
    ConsSize(items);
    FirstFacts(s, i, items);
    AfterIs(items.value, ValueEnd(s, items), NextChar(items, EndBracket(s.mem[s.obj].kind == ARRAY)));
    hide After;
    var r := At(i, ValueEnd(s, items) + |items.after|);
    LinkedAt(s, i, r.ptr);
    NoGap(s, i, items);
    if Primitive(items.value) && items.after != "" {
      FirstEnds(s, i, items);
    }
    NameStill(i, r, s.ptr + |items.before|, i.mem[s.free].name, items.name);
    ValueStill(i, r, s.free, s.ptr + |items.before| + |NamePart(items.name)|, items.value);
    NoneShows(r.mem, r.text[r.ptr := NUL], s.free + Size(items.value), r.ptr + 1, items.tail);
    ConsShows(r.mem, r.text[r.ptr := NUL], s.free, s.ptr, items);
  }

  /** One item and then the rest are linked in a row. */
  lemma LinkedTwice(s: State, i: State, r: State, p: nat)
    requires Inv(s) && Linked(s, i, true) && i.mem[s.obj].last == Ref(s.free) && i.obj == s.obj
    requires s.free < i.free <= |i.mem|
    requires Inv(At(i, p)) && Linked(At(i, p), r, true)
    ensures Linked(s, r, true)
    ensures s.free < |r.mem| && r.mem[s.free] == i.mem[s.free].(sibling := Ref(i.free))
    ensures forall j :: s.free < j < i.free ==> r.mem[j] == i.mem[j]
  {}

  lemma LinkedAt(s: State, i: State, p: nat)
    requires Inv(s) && Linked(s, i, true)
    ensures Linked(s, At(i, p), true)
  {}

  /** The comma after the first item. */
  function PastComma(s: State, i: State, items: Items): State
    requires items.Cons?
  {
    At(i, ValueEnd(s, items) + |items.after| + 1)
  }

  lemma TailFacts(n: State, r: State, items: Items)
    requires Inv(n) && TookItems(n, r, items) && items.Cons?
    ensures Inv(r) && r.obj == n.obj && r.free == n.free + SizeItems(items)
    ensures |r.text| == |n.text| && |r.mem| == |n.mem|
    ensures n.ptr <= r.ptr == n.ptr + |LayItems(items)| < |r.text|
    ensures Linked(n, r, true) && SameOutside(n.text, r.text, n.ptr, r.ptr)
    ensures ShowsItems(r.mem, r.text[r.ptr := NUL], Ref(n.free), n.free, n.ptr, items)
  {
    hide Open, LayItems, SizeItems, ShowsItems, SameOutside;
  }

  lemma ItemsShown(s: State, i: State, r: State, items: Items)
    requires items.Cons? && items.tail.Cons? && Inv(s) && TookFirst(s, i, items)
    requires ValidTree(items.value) && Gap(items.after)
    requires Inv(PastComma(s, i, items)) && TookItems(PastComma(s, i, items), r, items.tail)
    requires s.free < |r.mem| && r.mem[s.free] == i.mem[s.free].(sibling := Ref(i.free))
    requires forall j :: s.free < j < i.free ==> r.mem[j] == i.mem[j]
    ensures r.ptr < |r.text| && ShowsItems(r.mem, r.text[r.ptr := NUL], Ref(s.free), s.free, s.ptr, items)
  {
    hide Open, Linked, Shows, ShowsName, ShowsItems, Lay, NamePart, LayItems, SizeItems, Size, TookFirst, Gap,
         ValidTree, NextChar, EndBracket, TookItems, After, Primitive;
    FirstFacts(s, i, items);
    TailFacts(PastComma(s, i, items), r, items.tail);
    if Primitive(items.value) {
      FirstEnds(s, i, items);
    }
    NameStill(i, r, s.ptr + |items.before|, i.mem[s.free].name, items.name);
    ValueStill(i, r, s.free, s.ptr + |items.before| + |NamePart(items.name)|, items.value);
    ConsShows(r.mem, r.text[r.ptr := NUL], s.free, s.ptr, items);
  }

  lemma ItemsJoined(s: State, i: State, r: State, items: Items)
    requires items.Cons? && items.tail.Cons? && Inv(s) && TookFirst(s, i, items)
    requires ValidTree(items.value) && Gap(items.after)
    requires Inv(PastComma(s, i, items)) && TookItems(PastComma(s, i, items), r, items.tail)
    ensures TookItems(s, r, items)
  {
    hide Open, Linked, Shows, ShowsName, ShowsItems, Lay, NamePart, LayItems, SizeItems, Size, TookFirst, Gap,
         ValidTree, NextChar, EndBracket, After;
    ConsLength(items);
    ConsSize(items);
    FirstFacts(s, i, items);
    AfterIs(items.value, ValueEnd(s, items), NextChar(items, EndBracket(s.mem[s.obj].kind == ARRAY)));
    TailFacts(PastComma(s, i, items), r, items.tail);
    LinkedTwice(s, i, r, ValueEnd(s, items) + |items.after| + 1);
    ItemsShown(s, i, r, items);
  }

  lemma KindStays(s: State, i: State)
    requires Inv(s) && Linked(s, i, true)
    ensures s.obj < |i.mem| && i.mem[s.obj].kind == s.mem[s.obj].kind
  {}

  /** Behind the comma the rest of the list stands. */
  lemma TailStands(s: State, i: State, items: Items)
    requires AtItems(s, items) && items.Cons? && items.tail.Cons? && Inv(s) && TookFirst(s, i, items)
    requires Inv(PastComma(s, i, items))
    ensures AtItems(PastComma(s, i, items), items.tail)
  {
    hide StandsAt, LayItems, Lay, NamePart, Open, Gap, EndBracket, Separator, ValidItems, Shows, ShowsName, Linked,
         NextChar, After, TookFirst, ValidTree, SizeItems, Size;
    TailSize(s, i, items);
    hide AtItems, Inv;
    FirstBehind(s, i, items);
    FirstFacts(s, i, items);
    KindStays(s, i);
    RestStands(s.text, i.text, i.ptr, ValueEnd(s, items) + |items.after| + 1,
      LayItems(items.tail) + [EndBracket(s.mem[s.obj].kind == ARRAY)]);
    TailIs(s, i, items);
  }

  lemma TailSize(s: State, i: State, items: Items)
    requires AtItems(s, items) && items.Cons? && Inv(s) && TookFirst(s, i, items)
    ensures s.obj < |s.mem| && ValidItems(items.tail, s.mem[s.obj].kind == ARRAY)
    ensures i.free + SizeItems(items.tail) <= |i.mem|
  {
    AtItemsFacts(s, items);
    ConsValid(items, s.mem[s.obj].kind == ARRAY);
    ConsSize(items);
    hide *;
    FirstFacts(s, i, items);
  }

  lemma TailIs(s: State, i: State, items: Items)
    requires items.Cons? && Inv(s) && Inv(i) && Inv(PastComma(s, i, items)) && i.obj == s.obj < |s.mem|
    requires s.obj < |i.mem| && i.mem[s.obj].kind == s.mem[s.obj].kind
    requires ValidItems(items.tail, s.mem[s.obj].kind == ARRAY)
    requires i.free + SizeItems(items.tail) <= |i.mem|
    requires StandsAt(i.text, ValueEnd(s, items) + |items.after| + 1,
                      LayItems(items.tail) + [EndBracket(s.mem[s.obj].kind == ARRAY)])
    ensures AtItems(PastComma(s, i, items), items.tail)
  {
    hide Open, StandsAt, LayItems, Lay, NamePart, ValidItems, SizeItems;
  }

  lemma ItemsNothing(s: State, items: Items)
    requires AtItems(s, items) && items.Nil?
    ensures var r := At(s, s.ptr + |items.gap|);
      Inv(s) && Inv(r) && Parse(s) == Parse(r) && TookItems(s, r, items)
  {
    hide Parse, Open, StandsAt, Gap;
    OpenFacts(s);
    SplitText(s.text, s.ptr, items.gap, [EndBracket(s.mem[s.obj].kind == ARRAY)]);
    Within(s.text, s.ptr + |items.gap|, [EndBracket(s.mem[s.obj].kind == ARRAY)]);
    SkipGap(s, items.gap);
  }

  lemma LastSeparator(items: Items, closer: char)
    requires items.Cons?
    ensures Separator(items, closer) == if items.tail.Nil? then closer else ','
  {}

  /** After the first item, either the bracket follows or a comma and the rest. */
  lemma AfterFirst(s: State, i: State, items: Items)
    requires AtItems(s, items) && items.Cons? && Inv(s) && Inv(i) && TookFirst(s, i, items)
    ensures ValidTree(items.value) && Gap(items.after)
    ensures items.tail.Nil? ==>
      var r := At(i, ValueEnd(s, items) + |items.after|); Inv(r) && Parse(i) == Parse(r)
    ensures items.tail.Cons? ==>
      var n := PastComma(s, i, items); Inv(n) && Parse(i) == Parse(n) && AtItems(n, items.tail)
  {
    hide AtItems, Inv, Parse, TookFirst, LayItems, Lay, NamePart, EndBracket, Separator, StandsAt, Gap, ValidTree,
         Behind, Linked, Shows, ShowsName, SameOutside, ValidItems, Size, SizeItems, NextChar, After, ValueEnd;
    FirstBehind(s, i, items);
    AtItemsFacts(s, items);
    FirstFacts(s, i, items);
    var closer := EndBracket(s.mem[s.obj].kind == ARRAY);
    LastSeparator(items, closer);
    ConsValid(items, s.mem[s.obj].kind == ARRAY);
    if items.tail.Nil? {
      NoGap(s, i, items);
      GapPassed(s.text, i, ValueEnd(s, items), items.after, closer);
    } else {
      CommaPassed(s.text, i, ValueEnd(s, items), items.after);
      TailStands(s, i, items);
    }
  }

  /** Reading a list of items links nodes that show them to the open block. */
  lemma {:induction false} ParseList(s: State, items: Items) returns (r: State)
    requires AtItems(s, items)
    ensures Inv(s) && Inv(r) && Parse(s) == Parse(r) && TookItems(s, r, items)
    decreases items
  {
    hide *;
    AtItemsFacts(s, items);
    if items.Nil? {
      ItemsNothing(s, items);
      r := At(s, s.ptr + |items.gap|);
    } else {
      AtFirst(s, items);
      var b := At(s, s.ptr + |items.before|);
      var i := ParseItem(b, items.name, items.value, NextChar(items, EndBracket(s.mem[s.obj].kind == ARRAY)));
      FirstTook(s, i, items);
      AfterFirst(s, i, items);
      if items.tail.Nil? {
        r := At(i, ValueEnd(s, items) + |items.after|);
        ItemsEnded(s, i, items);
      } else {
        r := ParseList(PastComma(s, i, items), items.tail);
        ItemsJoined(s, i, r, items);
      }
    }
  }

  lemma FirstTook(s: State, i: State, items: Items)
    requires Inv(s) && items.Cons? && Inv(At(s, s.ptr + |items.before|)) && s.obj < |s.mem|
    requires TookItem(At(s, s.ptr + |items.before|), i, items.name, items.value,
                      NextChar(items, EndBracket(s.mem[s.obj].kind == ARRAY)))
    ensures TookFirst(s, i, items)
  {}

  /** Reading an item links a node that shows it to the open block. */
  lemma {:induction false} ParseItem(s: State, name: Option<Name>, v: Tree, c: char) returns (r: State)
    requires AtItem(s, name, v, c) && s.free + Size(v) <= |s.mem|
    ensures Inv(r) && Parse(s) == Parse(r) && TookItem(s, r, name, v, c)
    decreases v
  {
    if !v.Block? {
      r := ItemLeaf(s, name, v, c);
    } else {
      hide *;
      var e, b := BlockStarts(s, name, v, c);
      var l := ParseList(b, v.items);
      r := BlockDone(s, name, v, c, e, l);
    }
  }

  /* ---- the whole text ---- */

  /** What a reader finds who follows the links from node k: no positions, only links and terminated strings. */
  predicate Represents(mem: seq<Node>, t: string, k: nat, v: Tree)
    decreases v
  {
    && k < |mem| && mem[k].kind == KindOf(v)
    && match v
       case Block(_, items) => RepresentsItems(mem, t, mem[k].u, items)
       case Text(ps) => mem[k].u.Char? && CStr(t, mem[k].u.i, ReadPieces(ps))
       case _ => mem[k].u.Char? && CStr(t, mem[k].u.i, Lay(v))
  }

  predicate RepresentsItems(mem: seq<Node>, t: string, link: Pointer, items: Items)
    decreases items
  {
    match items
    case Nil(_) => link == Null
    case Cons(_, name, value, _, tail) =>
      && link.Ref? && link.n < |mem|
      && (match name
          case None => mem[link.n].name == Null
          case Some(n) => mem[link.n].name.Char? && CStr(t, mem[link.n].name.i, ReadPieces(n.ps)))
      && Represents(mem, t, link.n, value)
      && RepresentsItems(mem, t, mem[link.n].sibling, tail)
  }

  lemma {:induction false} ShowsRepresents(mem: seq<Node>, t: string, k: nat, p: nat, v: Tree)
    requires Shows(mem, t, k, p, v)
    ensures Represents(mem, t, k, v)
    decreases v
  {
    hide Lay;
    if v.Block? {
      ShowsRepresentsItems(mem, t, mem[k].u, k + 1, p + 1, v.items);
    }
  }

  lemma {:induction false} ShowsRepresentsItems(mem: seq<Node>, t: string, link: Pointer, k: nat, p: nat, items: Items)
    requires ShowsItems(mem, t, link, k, p, items)
    ensures RepresentsItems(mem, t, link, items)
    decreases items
  {
    hide Lay, NamePart, Size, Shows, Represents, CStr;
    if items.Cons? {
      var q := p + |items.before| + |NamePart(items.name)|;
      ShowsRepresents(mem, t, k, q, items.value);
      ShowsRepresentsItems(mem, t, mem[k].sibling, k + Size(items.value), q + |Lay(items.value)| + |items.after| + 1,
        items.tail);
    }
  }

  /** The closing bracket of the root ends the run. */
  lemma RootCloses(l: State)
    requires Inv(l) && l.mem[l.obj].sibling == Null && l.text[l.ptr] == EndBracket(l.mem[l.obj].kind == ARRAY)
    ensures l.ptr < |l.text| - 1
    ensures Parse(l) == Done(l.(text := l.text[l.ptr := NUL], ptr := l.ptr + 1))
  {
    hide Open, Head, ParseValue, Add, Parse;
    OpenFacts(l);
    BracketStays(l.text, l.ptr, l.mem[l.obj].kind == ARRAY);
    hide GoBlank;
    ParseDone(l);
  }

  lemma ParseDone(s: State)
    requires Inv(s) && Step(s).Done?
    ensures Parse(s) == Step(s)
  {
    hide Step, Open;
  }

  /** The state in which the items of the root are read. */
  function RootState(text: Memory, mem: seq<Node>, ptr: nat): State
    requires |mem| > 0
  {
    State(text, mem[0 := Node(Null, Null, Null, mem[0].last, OBJ)], 1, 0, ptr)
  }

  lemma RootStarts(text: Memory, mem: seq<Node>, pad: string, items: Items)
    requires |mem| > 0 && Gap(pad) && StandsAt(text, 0, pad + Lay(Block(false, items)))
    ensures var s := RootState(text, mem, |pad| + 1);
      Inv(s) && Create(text, mem) == Parse(s) && StandsAt(text, |pad| + 1, LayItems(items) + [EndBracket(false)])
  {
    hide StandsAt, LayItems, Parse, GoBlank;
    var v := Block(false, items);
    SplitText(text, 0, pad, Lay(v));
    assert Lay(v) + "" == Lay(v);
    InsideBlock(text, |pad|, v, "");
    Within(text, |pad|, Lay(v));
    GapBlank(text, 0, pad);
    CharAt(text, |pad|, Lay(v), 0);
    GoBlankOver(text, 0, |pad|);
    GoBlankHere(text, |pad|);
  }

  lemma RootItems(text: Memory, mem: seq<Node>, pad: string, items: Items)
    requires 1 + SizeItems(items) <= |mem| && ValidItems(items, false) && Inv(RootState(text, mem, |pad| + 1))
    requires StandsAt(text, |pad| + 1, LayItems(items) + [EndBracket(false)])
    ensures AtItems(RootState(text, mem, |pad| + 1), items)
  {
    hide StandsAt, LayItems, Open, EndBracket;
  }

  lemma RootShows(s: State, l: State, items: Items)
    requires Inv(s) && s.obj == 0 && s.free == 1 && s.ptr >= 1 && TookItems(s, l, items)
    requires s.mem[0].u == Null && s.mem[0].sibling == Null && s.mem[0].name == Null && s.mem[0].kind == OBJ
    requires l.ptr < |l.text|
    ensures l.obj == 0 < |l.mem| == |s.mem| && l.mem[0].sibling == Null && l.mem[0].name == Null && l.mem[0].kind == OBJ
    ensures Shows(l.mem, l.text[l.ptr := NUL], 0, s.ptr - 1, Block(false, items))
    ensures l.free == 1 + SizeItems(items) && l.ptr == s.ptr + |LayItems(items)|
  {
    hide Open, LayItems, SizeItems, ShowsItems, SameOutside;
    OpenFacts(l);
  }

  /** Every object of JSON, however it is spaced and spelled, and whatever stands in front of it as blanks or
      behind it, is parsed into a tree of the same shape and order, in which every string is terminated and
      unescaped, every number and word is terminated, and every chain of siblings ends, the root's too. */
  lemma AnyJson(text: Memory, mem: seq<Node>, pad: string, items: Items)
    requires ValidItems(items, false) && 1 + SizeItems(items) <= |mem|
    requires Gap(pad) && StandsAt(text, 0, pad + Lay(Block(false, items)))
    ensures var r := Create(text, mem);
      && r.Done? && r.s.free == 1 + SizeItems(items) && |r.s.mem| == |mem|
      && r.s.ptr == |pad| + |Lay(Block(false, items))|
      && r.s.mem[0].sibling == Null && r.s.mem[0].name == Null
      && Represents(r.s.mem, r.s.text, 0, Block(false, items))
  {
    hide StandsAt, Lay, LayItems, ValidItems, SizeItems, Create, Parse, Open, Shows, Represents, AtItems, TookItems,
         EndBracket, Inv, Gap;
    var s := RootState(text, mem, |pad| + 1);
    var v := Block(false, items);
    RootStarts(text, mem, pad, items);
    RootItems(text, mem, pad, items);
    var l := ParseList(s, items);
    RootBehind(s, l, items);
    RootShows(s, l, items);
    RootCloses(l);
    ValueShape(v);
    ShowsRepresents(l.mem, l.text[l.ptr := NUL], 0, |pad|, v);
  }

  lemma RootBehind(s: State, l: State, items: Items)
    requires AtItems(s, items) && TookItems(s, l, items)
    ensures l.ptr < |l.text| && s.obj < |s.mem| && l.text[l.ptr] == EndBracket(s.mem[s.obj].kind == ARRAY)
  {
    ItemsEnd(s, l, items);
    hide Open, StandsAt, LayItems, ValidItems, Linked, ShowsItems;
    OpenFacts(s);
    OpenFacts(l);
  }
}
