/** Documents that json-maker prints, and every other JSON text of the same document, are read back by
    tiny-json: JSON's own meaning of the text stands between the two. */
module JsonRoundTrip {
  import opened Bytes
  import opened JsonChars
  import opened JsonDocument
  import opened TinyJson
  import T = JsonText
  import R = JsonReading
  import N = JsonNumbers

  /* ---- what a text means ---- */

  /** The pieces of a string stand for the characters, one by one. */
  predicate PiecesMean(ps: seq<T.Piece>, s: string) {
    && |ps| == |s| && T.ValidPieces(ps)
    && forall i :: 0 <= i < |s| ==> T.CodePoint(ps[i]) == s[i] as int
  }

  /** JSON's own meaning of a text: spelling and blanks do not matter. */
  predicate Means(x: T.Tree, v: Value)
    decreases x
  {
    match v
    case Text(s) => x.Text? && PiecesMean(x.ps, s)
    case Int(n) => x.Num? && T.ValidNumeral(x.n) && T.IsWhole(x.n) && T.WholeValue(x.n) == n
    case Bool(b) => x.Bool? && x.b == b
    case Nothing => x.Nothing?
    case Block(isArray, items) => x.Block? && x.isArray == isArray && MeansList(x.items, items)
  }

  predicate MeansList(xs: T.Items, items: List)
    decreases xs
  {
    match items
    case Nil => xs.Nil?
    case Cons(name, value, tail) =>
      && xs.Cons? && NameMeans(xs.name, name) && Means(xs.value, value) && MeansList(xs.tail, tail)
  }

  predicate NameMeans(x: Option<T.Name>, name: Option<string>) {
    match name
    case None => x.None?
    case Some(n) => x.Some? && PiecesMean(x.value.ps, n)
  }

  /* ---- the text that json-maker chooses ---- */

  /** The spelling that json-maker uses for a character of a string. */
  function PieceOf(c: char): T.Piece {
    match c
    case '\"' => T.Short('\"')
    case '\\' => T.Short('\\')
    case '/' => T.Short('/')
    case '\U{08}' => T.Short('b')
    case '\U{0C}' => T.Short('f')
    case '\U{0A}' => T.Short('n')
    case '\U{0D}' => T.Short('r')
    case '\U{09}' => T.Short('t')
    case _ =>
      if c < ' ' then T.Code('0', '0', if c < '\U{10}' then '0' else '1', UpperHex(c as int % 16)) else T.Plain(c)
  }

  function UpperHex(d: nat): char
    requires d < 16
  {
    if d < 10 then ('0' as int + d) as char else ('A' as int + d - 10) as char
  }

  function PiecesOf(s: string): (ps: seq<T.Piece>)
    ensures |ps| == |s|
  {
    seq(|s|, i requires 0 <= i < |s| => PieceOf(s[i]))
  }

  /** Names are printed as they are. */
  function PlainPieces(s: string): (ps: seq<T.Piece>)
    ensures |ps| == |s|
  {
    seq(|s|, i requires 0 <= i < |s| => T.Plain(s[i]))
  }

  function NumeralOf(n: int): T.Numeral {
    T.Numeral(n < 0, Digits(if n < 0 then -n else n), None, None)
  }

  function NameOf(name: Option<string>): Option<T.Name> {
    match name
    case None => None
    case Some(n) => Some(T.Name(PlainPieces(n), "", ""))
  }

  function TreeOf(v: Value): T.Tree {
    match v
    case Text(s) => T.Text(PiecesOf(s))
    case Int(n) => T.Num(NumeralOf(n))
    case Bool(b) => T.Bool(b)
    case Nothing => T.Nothing
    case Block(isArray, items) => T.Block(isArray, ItemsOf(items))
  }

  function ItemsOf(items: List): T.Items {
    match items
    case Nil => T.Nil("")
    case Cons(name, value, tail) => T.Cons("", NameOf(name), TreeOf(value), "", ItemsOf(tail))
  }

  lemma UpperHexIs(d: nat)
    requires d < 16
    ensures HexDigit(d) == UpperHex(d) && T.IsHexDigit(UpperHex(d)) && T.HexValue(UpperHex(d)) == d
  {}

  lemma CodeIs(c: char)
    requires IsByte(c) && c < ' ' && EscapeLetter(c) == NUL
    ensures var p := PieceOf(c);
      p.Code? && T.Spelling(p) == EscapeChar(c) && T.ValidPiece(p) && T.CodePoint(p) == c as int && T.ReadAs(p) == '?'
  {
    UpperHexIs(c as int % 16);
    HexAgain(c as int);
    UpperHexIs(c as int / 16);
    HexLow();
    hide HexDigit, UpperHex;
  }

  lemma LetterIs(c: char)
    requires EscapeLetter(c) != NUL
    ensures var p := PieceOf(c);
      p.Short? && T.Spelling(p) == EscapeChar(c) && T.ValidPiece(p) && T.CodePoint(p) == c as int && T.ReadAs(p) == c
  {
    hide UpperHex, HexDigit, T.HexValue, T.IsHexDigit;
  }

  /** The escapes of json-maker are JSON's own for the character; of what they stand for, tiny-json makes
      the character or a question mark. */
  lemma PieceIs(c: char)
    requires IsByte(c)
    ensures T.Spelling(PieceOf(c)) == EscapeChar(c)
    ensures T.ValidPiece(PieceOf(c)) && T.CodePoint(PieceOf(c)) == c as int
    ensures T.ReadAs(PieceOf(c)) == BlurChar(c)
  {
    if EscapeLetter(c) != NUL {
      LetterIs(c);
    } else if c < ' ' {
      CodeIs(c);
    } else {
      hide UpperHex, HexDigit, T.HexValue, T.IsHexDigit;
    }
  }

  lemma HexAgain(n: nat)
    ensures HexDigit(n) == HexDigit(n % 16)
  {}

  lemma HexLow()
    ensures HexDigit(0) == '0' && HexDigit(1) == '1'
  {}

  lemma {:induction false} EscapeIs(s: string)
    requires ByteText(s)
    ensures T.Spell(PiecesOf(s)) == Escape(s)
  {
    hide PieceOf, EscapeChar;
    if s != "" {
      PieceIs(s[0]);
      EscapeIs(s[1..]);
      assert PiecesOf(s)[1..] == PiecesOf(s[1..]);
    }
  }

  lemma PiecesAre(s: string)
    requires ByteText(s)
    ensures PiecesMean(PiecesOf(s), s) && T.ReadPieces(PiecesOf(s)) == Blur(s)
  {
    hide PieceOf;
    forall i | 0 <= i < |s|
      ensures T.ValidPiece(PiecesOf(s)[i]) && T.CodePoint(PiecesOf(s)[i]) == s[i] as int
      ensures T.ReadAs(PiecesOf(s)[i]) == BlurChar(s[i])
    {
      PieceIs(s[i]);
    }
  }

  lemma {:induction false} PlainIs(s: string)
    requires Plain(s)
    ensures T.Spell(PlainPieces(s)) == s && PiecesMean(PlainPieces(s), s) && T.ReadPieces(PlainPieces(s)) == s
  {
    if s != "" {
      PlainIs(s[1..]);
      assert PlainPieces(s)[1..] == PlainPieces(s[1..]);
    }
  }

  lemma NumeralIs(n: int)
    ensures T.ValidNumeral(NumeralOf(n)) && T.IsWhole(NumeralOf(n))
    ensures T.WholeValue(NumeralOf(n)) == n && T.SpellNumber(NumeralOf(n)) == Decimal(n)
  {
    hide Digits, T.DecimalOf;
    N.DigitsValue(if n < 0 then -n else n);
    hide N.IsNatural;
    var d := Digits(if n < 0 then -n else n);
    assert (if n < 0 then "-" else "") + d + "" + "" == (if n < 0 then "-" + d else d);
  }

  /* ---- what a reader finds ---- */

  function KindFor(v: Value): Kind {
    match v
    case Text(_) => TEXT
    case Int(_) => INTEGER
    case Bool(_) => BOOLEAN
    case Nothing => NULLTYPE
    case Block(isArray, _) => if isArray then ARRAY else OBJ
  }

  /** A terminated integer of JSON. */
  ghost predicate HoldsInt(t: string, p: nat, n: int) {
    exists x: T.Numeral ::
      T.ValidNumeral(x) && T.IsWhole(x) && T.WholeValue(x) == n && R.CStr(t, p, T.SpellNumber(x))
  }

  /** A reader who follows the links from node k finds the document. */
  ghost predicate Represents(mem: seq<Node>, t: string, k: nat, v: Value)
    decreases v
  {
    && k < |mem| && mem[k].kind == KindFor(v)
    && match v
       case Block(_, items) => RepresentsList(mem, t, mem[k].u, items)
       case Text(s) => mem[k].u.Char? && R.CStr(t, mem[k].u.i, s)
       case Int(n) => mem[k].u.Char? && HoldsInt(t, mem[k].u.i, n)
       case Bool(b) => mem[k].u.Char? && R.CStr(t, mem[k].u.i, if b then "true" else "false")
       case Nothing => mem[k].u.Char? && R.CStr(t, mem[k].u.i, "null")
  }

  ghost predicate RepresentsList(mem: seq<Node>, t: string, link: Pointer, items: List)
    decreases items
  {
    match items
    case Nil => link == Null
    case Cons(name, value, tail) =>
      && link.Ref? && link.n < |mem|
      && (match name
          case None => mem[link.n].name == Null
          case Some(n) => mem[link.n].name.Char? && R.CStr(t, mem[link.n].name.i, n))
      && Represents(mem, t, link.n, value)
      && RepresentsList(mem, t, mem[link.n].sibling, tail)
  }

  /** No piece is a code, except that of the question mark. */
  predicate SharpPieces(ps: seq<T.Piece>)
    requires T.ValidPieces(ps)
  {
    forall i :: 0 <= i < |ps| && ps[i].Code? ==> T.CodePoint(ps[i]) == '?' as int
  }

  /** Every string in the text is sharp, and every name. */
  predicate SharpTree(x: T.Tree)
    requires T.ValidTree(x)
  {
    match x
    case Text(ps) => SharpPieces(ps)
    case Block(isArray, items) => SharpItems(items, isArray)
    case _ => true
  }

  predicate SharpItems(xs: T.Items, isArray: bool)
    requires T.ValidItems(xs, isArray)
  {
    match xs
    case Nil(_) => true
    case Cons(_, name, value, _, tail) =>
      && (name.Some? ==> SharpPieces(name.value.ps))
      && SharpTree(value) && SharpItems(tail, isArray)
  }

  lemma CStrExact(t: string, p: nat, ps: seq<T.Piece>, s: string)
    requires PiecesMean(ps, s) && R.CStr(t, p, T.ReadPieces(ps))
    ensures R.CStr(t, p, s) <==> SharpPieces(ps)
  {
    var r := T.ReadPieces(ps);
    assert R.CStr(t, p, s) <==> r == s;
    hide R.CStr;
    if r == s {
      forall i | 0 <= i < |ps| && ps[i].Code?
        ensures T.CodePoint(ps[i]) == '?' as int
      {
        assert r[i] == T.ReadAs(ps[i]);
      }
    } else {
      var i :| 0 <= i < |s| && r[i] != s[i];
      assert r[i] == T.ReadAs(ps[i]);
    }
  }

  /** The reader finds the document that the text means exactly if the text is sharp. */
  lemma {:induction false} RepresentsExact(mem: seq<Node>, t: string, k: nat, x: T.Tree, v: Value)
    requires R.Represents(mem, t, k, x) && T.ValidTree(x) && Means(x, v)
    ensures Represents(mem, t, k, v) <==> SharpTree(x)
    decreases x
  {
    match v
    case Text(s) =>
      hide R.CStr, T.ReadPieces, SharpPieces, PiecesMean;
      CStrExact(t, mem[k].u.i, x.ps, s);
    case Int(n) => hide R.CStr, T.SpellNumber, T.ValidNumeral, T.WholeValue;
    case Block(isArray, items) => RepresentsListExact(mem, t, mem[k].u, x.items, items, isArray);
    case _ => hide R.CStr;
  }

  lemma {:induction false} RepresentsListExact(mem: seq<Node>, t: string, link: Pointer, xs: T.Items, items: List,
                                               isArray: bool)
    requires R.RepresentsItems(mem, t, link, xs) && T.ValidItems(xs, isArray) && MeansList(xs, items)
    ensures RepresentsList(mem, t, link, items) <==> SharpItems(xs, isArray)
    decreases xs
  {
    hide R.Represents, Represents, SharpTree, T.ValidTree, Means, R.CStr, T.ReadPieces, SharpPieces, PiecesMean;
    if items.Cons? {
      if items.name.Some? {
        CStrExact(t, mem[link.n].name.i, xs.name.value.ps, items.name.value);
      }
      RepresentsExact(mem, t, link.n, xs.value, items.value);
      RepresentsListExact(mem, t, mem[link.n].sibling, xs.tail, items.tail, isArray);
    }
  }

  /** Every JSON text of an object, however it is spaced and spelled, is parsed; the tree represents the
      document exactly if no character is written as a code other than that of the question mark. */
  lemma AnyText(text: Memory, mem: seq<Node>, pad: string, xs: T.Items, items: List)
    requires T.ValidItems(xs, false) && MeansList(xs, items) && 1 + T.SizeItems(xs) <= |mem|
    requires T.Gap(pad) && R.StandsAt(text, 0, pad + T.Lay(T.Block(false, xs)))
    ensures var r := Create(text, mem);
      && r.Done? && r.s.ptr == |pad| + |T.Lay(T.Block(false, xs))|
      && |r.s.mem| == |mem| && r.s.mem[0].sibling == Null && r.s.mem[0].name == Null
      && (Represents(r.s.mem, r.s.text, 0, Block(false, items)) <==> SharpItems(xs, false))
  {
    hide T.Lay, R.Represents, Represents, Create, R.StandsAt, T.ValidItems, MeansList, T.SizeItems, SharpItems, T.Gap;
    R.AnyJson(text, mem, pad, xs);
    RepresentsExact(Create(text, mem).s.mem, Create(text, mem).s.text, 0, T.Block(false, xs), Block(false, items));
  }

  /* ---- printed documents, with blanks anywhere ---- */

  /** The spelling of json-maker, with blanks before and after every bracket, comma, colon, name and value. */
  predicate Spaced(x: T.Tree, v: Value)
    decreases x
  {
    match v
    case Block(isArray, items) => x.Block? && x.isArray == isArray && SpacedItems(x.items, items)
    case _ => x == TreeOf(v)
  }

  predicate SpacedItems(xs: T.Items, items: List)
    decreases xs
  {
    match items
    case Nil => xs.Nil? && T.Gap(xs.gap)
    case Cons(name, value, tail) =>
      && xs.Cons? && T.Gap(xs.before) && T.Gap(xs.after) && (xs.tail.Nil? ==> xs.tail.gap == "")
      && SpacedName(xs.name, name) && Spaced(xs.value, value) && SpacedItems(xs.tail, tail)
  }

  predicate SpacedName(x: Option<T.Name>, name: Option<string>) {
    match name
    case None => x.None?
    case Some(n) => x.Some? && x.value.ps == PlainPieces(n) && T.Gap(x.value.before) && T.Gap(x.value.after)
  }

  /** Without blanks this is what json-maker prints. */
  lemma {:induction false} PrintIsSpaced(v: Value)
    requires ValidValue(v)
    ensures Spaced(TreeOf(v), v) && T.Lay(TreeOf(v)) == Print(v)
    decreases v
  {
    match v
    case Text(s) => EscapeIs(s);
    case Int(n) => NumeralIs(n);
    case Block(isArray, items) => ListIsSpaced(items, isArray);
    case _ =>
  }

  lemma {:induction false} ListIsSpaced(items: List, isArray: bool)
    requires ValidList(items, isArray)
    ensures SpacedItems(ItemsOf(items), items) && T.LayItems(ItemsOf(items)) == PrintList(items)
    decreases items
  {
    hide Print, TreeOf, Spaced;
    match items
    case Nil =>
    case Cons(name, value, tail) =>
      PrintIsSpaced(value);
      ListIsSpaced(tail, isArray);
      NameIsSpaced(name);
      assert "" + NamePart(name) + Print(value) + "" == NamePart(name) + Print(value);
  }

  lemma NameIsSpaced(name: Option<string>)
    requires name.Some? ==> Plain(name.value)
    ensures SpacedName(NameOf(name), name) && T.NamePart(NameOf(name)) == NamePart(name)
  {
    if name.Some? {
      PlainIs(name.value);
    }
  }

  /** Every text in the value consists of characters that survive. */
  predicate SharpValue(v: Value) {
    match v
    case Text(s) => Sharp(s)
    case Block(_, items) => SharpList(items)
    case _ => true
  }

  predicate SharpList(items: List) {
    match items
    case Nil => true
    case Cons(_, value, tail) => SharpValue(value) && SharpList(tail)
  }

  lemma PiecesSharp(s: string)
    requires ByteText(s)
    ensures T.ValidPieces(PiecesOf(s)) && (SharpPieces(PiecesOf(s)) <==> Sharp(s))
  {
    hide PieceOf;
    forall i | 0 <= i < |s|
      ensures T.ValidPiece(PiecesOf(s)[i]) && T.CodePoint(PiecesOf(s)[i]) == s[i] as int
      ensures PiecesOf(s)[i].Code? <==> s[i] < ' ' && EscapeLetter(s[i]) == NUL
    {
      PieceIs(s[i]);
      PieceCode(s[i]);
    }
  }

  lemma PieceCode(c: char)
    ensures PieceOf(c).Code? <==> c < ' ' && EscapeLetter(c) == NUL
  {}

  lemma PlainSharp(s: string)
    requires Plain(s)
    ensures T.ValidPieces(PlainPieces(s)) && SharpPieces(PlainPieces(s))
  {}

  /** With or without blanks it is JSON, and means the document. */
  lemma {:induction false} SpacedIsJson(x: T.Tree, v: Value)
    requires ValidValue(v) && Spaced(x, v)
    ensures T.ValidTree(x) && Means(x, v) && T.Size(x) == Size(v) && (SharpTree(x) <==> SharpValue(v))
    decreases x
  {
    match v
    case Text(s) =>
      PiecesAre(s);
      PiecesSharp(s);
    case Int(n) => NumeralIs(n);
    case Block(isArray, items) => SpacedListIsJson(x.items, items, isArray);
    case _ =>
  }

  lemma {:induction false} SpacedListIsJson(xs: T.Items, items: List, isArray: bool)
    requires ValidList(items, isArray) && SpacedItems(xs, items)
    ensures T.ValidItems(xs, isArray) && MeansList(xs, items) && T.SizeItems(xs) == SizeList(items)
    ensures SharpItems(xs, isArray) <==> SharpList(items)
    decreases xs
  {
    hide Spaced, Means, T.ValidTree, ValidValue, SharpTree, SharpValue, T.Gap;
    if items.Cons? {
      SpacedIsJson(xs.value, items.value);
      SpacedListIsJson(xs.tail, items.tail, isArray);
      if items.name.Some? {
        PlainIs(items.name.value);
        PlainSharp(items.name.value);
      }
    }
  }

  /** The value with every character that is printed as a \u escape replaced by a question mark. */
  function BlurValue(v: Value): Value {
    match v
    case Text(s) => Text(Blur(s))
    case Block(isArray, items) => Block(isArray, BlurList(items))
    case _ => v
  }

  function BlurList(items: List): List {
    match items
    case Nil => Nil
    case Cons(name, value, tail) => Cons(name, BlurValue(value), BlurList(tail))
  }

  lemma {:induction false} SpacedRepresents(mem: seq<Node>, t: string, k: nat, x: T.Tree, v: Value)
    requires R.Represents(mem, t, k, x) && ValidValue(v) && Spaced(x, v)
    ensures Represents(mem, t, k, BlurValue(v))
    decreases x
  {
    match v
    case Text(s) =>
      PiecesAre(s);
      hide T.ReadPieces, PiecesOf, R.CStr;
    case Int(n) =>
      NumeralIs(n);
      hide R.CStr, T.SpellNumber, T.ValidNumeral, T.WholeValue;
    case Block(isArray, items) => SpacedRepresentsList(mem, t, mem[k].u, x.items, items, isArray);
    case _ => hide R.CStr;
  }

  lemma {:induction false} SpacedRepresentsList(mem: seq<Node>, t: string, link: Pointer, xs: T.Items, items: List,
                                                isArray: bool)
    requires R.RepresentsItems(mem, t, link, xs) && ValidList(items, isArray) && SpacedItems(xs, items)
    ensures RepresentsList(mem, t, link, BlurList(items))
    decreases xs
  {
    hide R.Represents, Represents, Spaced, ValidValue, BlurValue, R.CStr, T.ReadPieces, T.Gap;
    if items.Cons? {
      if items.name.Some? {
        PlainIs(items.name.value);
      }
      SpacedRepresents(mem, t, link.n, xs.value, items.value);
      SpacedRepresentsList(mem, t, mem[link.n].sibling, xs.tail, items.tail, isArray);
    }
  }

  /** Parsing what json-maker prints for an object, with blanks inserted anywhere between the tokens, yields a
      tree of the same shape and order, in which every string is terminated and unescaped and every chain of
      siblings ends, the root's too. */
  lemma SpacedRoundTrip(text: Memory, mem: seq<Node>, pad: string, xs: T.Items, items: List)
    requires ValidList(items, false) && SpacedItems(xs, items) && 1 + SizeList(items) <= |mem|
    requires T.Gap(pad) && R.StandsAt(text, 0, pad + T.Lay(T.Block(false, xs)))
    ensures var r := Create(text, mem);
      && r.Done? && r.s.free == 1 + SizeList(items) && |r.s.mem| == |mem|
      && r.s.ptr == |pad| + |T.Lay(T.Block(false, xs))|
      && r.s.mem[0].sibling == Null && r.s.mem[0].name == Null
      && Represents(r.s.mem, r.s.text, 0, BlurValue(Block(false, items)))
      && (Represents(r.s.mem, r.s.text, 0, Block(false, items)) <==> SharpList(items))
  {
    hide T.Lay, R.Represents, Represents, Create, R.StandsAt, T.ValidItems, ValidList, MeansList, T.SizeItems, SizeList,
         SharpItems, SharpList, T.Gap, SpacedItems, BlurValue;
    SpacedListIsJson(xs, items, false);
    AnyText(text, mem, pad, xs, items);
    R.AnyJson(text, mem, pad, xs);
    SpacedRepresents(Create(text, mem).s.mem, Create(text, mem).s.text, 0, T.Block(false, xs), Block(false, items));
  }

  lemma RoundTrip(text: Memory, mem: seq<Node>, items: List)
    requires ValidList(items, false) && 1 + SizeList(items) <= |mem|
    requires R.StandsAt(text, 0, Print(Block(false, items)))
    ensures var r := Create(text, mem);
      && r.Done? && r.s.free == 1 + SizeList(items) && |r.s.mem| == |mem| && r.s.ptr == |Print(Block(false, items))|
      && r.s.mem[0].sibling == Null && r.s.mem[0].name == Null
      && Represents(r.s.mem, r.s.text, 0, BlurValue(Block(false, items)))
      && (Represents(r.s.mem, r.s.text, 0, Block(false, items)) <==> SharpList(items))
  {
    hide T.Lay, Print, Represents, Create, R.StandsAt, SizeList, SharpList, BlurValue, ValidList;
    var v := Block(false, items);
    BlockValid(items);
    PrintIsSpaced(v);
    assert "" + Print(v) == Print(v);
    SpacedRoundTrip(text, mem, "", ItemsOf(items), items);
  }

  lemma BlockValid(items: List)
    requires ValidList(items, false)
    ensures ValidValue(Block(false, items))
  {}
}
