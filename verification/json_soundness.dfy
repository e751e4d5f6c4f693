/** What the parser accepts: JSON, except that commas may stand or be missing wherever an item may begin. */
module JsonSoundness {
  import opened Bytes
  import opened JsonChars
  import opened JsonText
  import opened TinyJson
  import opened JsonNumbers
  import opened JsonReading

  /* ---- what scanning finds ---- */

  /** From p on the text consists of bytes. */
  predicate BytesFrom(t: string, p: nat) {
    forall i :: p <= i < |t| ==> t[i] <= LAST
  }

  lemma BytesLater(t: string, p: nat, q: nat)
    requires BytesFrom(t, p) && p <= q
    ensures BytesFrom(t, q)
  {}

  lemma {:induction false} BlankFound(t: Memory, p: nat)
    requires p < |t| && GoBlank(t, p).Some?
    ensures Gap(t[p..GoBlank(t, p).value]) && StandsAt(t, p, t[p..GoBlank(t, p).value])
    decreases |t| - p
  {
    var q := GoBlank(t, p).value;
    if q > p {
      BlankFound(t, p + 1);
      assert t[p..q] == [t[p]] + t[p + 1..q];
    }
  }

  /** Reading the text that was there before the scanner moved characters back. */
  lemma Unmoved(t: string, i: nat, c: char, p: nat, piece: string)
    requires i < |t| && i < p && StandsAt(t[i := c], p, piece)
    ensures StandsAt(t, p, piece)
  {
    assert t[i := c][p..p + |piece|] == t[p..p + |piece|];
  }

  lemma PieceAt(t: string, p: nat, e: string)
    requires p + |e| <= |t| && forall i :: 0 <= i < |e| ==> t[p + i] == e[i]
    ensures StandsAt(t, p, e)
  {
    assert t[p..p + |e|] == e;
  }

  /** The first piece of a string. */
  lemma PieceFound(t: Memory, head: nat, tail: nat) returns (x: Piece)
    requires BytesFrom(t, head) && tail <= head < |t| && t[head] != '\"' && ParseString(t, head, tail).Some?
    ensures ValidPiece(x) && StandsAt(t, head, Spelling(x)) && head + |Spelling(x)| < |t|
    ensures ParseString(t, head, tail) == ParseString(t[tail := ReadAs(x)], head + |Spelling(x)|, tail + 1)
    ensures tail + 1 <= head + |Spelling(x)| && ReadAs(x) <= LAST
  {
    if t[head] == '\\' {
      if t[head + 1] == 'u' {
        x := Code(t[head + 2], t[head + 3], t[head + 4], t[head + 5]);
        PieceAt(t, head, Spelling(x));
      } else {
        x := Short(t[head + 1]);
        PieceAt(t, head, Spelling(x));
      }
    } else {
      x := Plain(t[head]);
      PieceAt(t, head, Spelling(x));
    }
    hide StandsAt, ParseString;
    ScanPiece(t, head, tail, x);
  }

  lemma {:induction false} StringFound(t: Memory, head: nat, tail: nat) returns (ps: seq<Piece>)
    requires BytesFrom(t, head) && tail <= head < |t| && ParseString(t, head, tail).Some?
    ensures ValidPieces(ps) && StandsAt(t, head, Spell(ps) + "\"")
    ensures ParseString(t, head, tail).value.ptr == head + |Spell(ps)| + 1
    decreases |t| - head
  {
    hide StandsAt, ValidPiece, Spelling, ReadAs;
    if t[head] == '\"' {
      ps := [];
      QuoteAt(t, head);
    } else {
      var x := PieceFound(t, head, tail);
      hide ParseString;
      var u: Memory := t[tail := ReadAs(x)];
      var rest := StringFound(u, head + |Spelling(x)|, tail + 1);
      Unmoved(t, tail, ReadAs(x), head + |Spelling(x)|, Spell(rest) + "\"");
      ps := [x] + rest;
      SplitAgain(t, head, Spelling(x), Spell(rest) + "\"");
      SpellMore(x, rest);
    }
  }

  lemma SpellMore(x: Piece, ps: seq<Piece>)
    ensures Spell([x] + ps) + "\"" == Spelling(x) + (Spell(ps) + "\"")
    ensures |Spell([x] + ps)| == |Spelling(x)| + |Spell(ps)|
  {
    hide Spelling;
    assert ([x] + ps)[1..] == ps;
  }

  lemma QuoteAt(t: string, p: nat)
    requires p < |t| && t[p] == '\"'
    ensures StandsAt(t, p, Spell([]) + "\"")
  {
    assert t[p..p + 1] == "\"";
  }

  lemma NameFound(t: Memory, p: nat) returns (n: Name)
    requires p < |t| && t[p] == '\"' && BytesFrom(t, p) && PropertyName(t, p).Some?
    ensures ValidName(n) && StandsAt(t, p, NamePart(Some(n)))
    ensures PropertyName(t, p).value.ptr == p + |NamePart(Some(n))|
  {
    hide StandsAt, ParseString, GoBlank, Spell, ValidPieces, Gap;
    BytesLater(t, p, p + 1);
    hide BytesFrom;
    var ps := StringFound(t, p + 1, p + 1);
    var s := ParseString(t, p + 1, p + 1).value;
    BlankFound(s.text, s.ptr);
    var q := GoBlank(s.text, s.ptr).value;
    BlankFound(s.text, q + 1);
    var v := GoBlank(s.text, q + 1).value;
    n := Name(ps, s.text[s.ptr..q], s.text[q + 1..v]);
    StandsStill(t, s.text, p + 1, s.ptr, s.ptr, n.before);
    StandsStill(t, s.text, p + 1, s.ptr, q + 1, n.after);
    NameJoins(t, p, n);
  }

  lemma NameJoins(t: string, p: nat, n: Name)
    requires StandsAt(t, p + 1, Spell(n.ps) + "\"")
    requires var a := p + 1 + |Spell(n.ps)| + 1;
      var b := a + |n.before|;
      && b < |t| && t[p] == '\"' && StandsAt(t, a, n.before) && t[b] == ':' && StandsAt(t, b + 1, n.after)
    ensures StandsAt(t, p, NamePart(Some(n)))
  {
    var a := p + 1 + |Spell(n.ps)| + 1;
    var b := a + |n.before|;
    OneAt(t, p, '\"');
    OneAt(t, b, ':');
    hide StandsAt, Spell;
    SplitAgain(t, b, ":", n.after);
    SplitAgain(t, a, n.before, ":" + n.after);
    SplitAgain(t, p + 1, Spell(n.ps) + "\"", n.before + (":" + n.after));
    SplitAgain(t, p, "\"", (Spell(n.ps) + "\"") + (n.before + (":" + n.after)));
    NamePieces(Spell(n.ps), n.before, n.after);
  }

  lemma NamePieces(s: string, before: string, after: string)
    ensures "\"" + ((s + "\"") + (before + (":" + after))) == "\"" + s + "\"" + before + ":" + after
  {}

  lemma OneAt(t: string, p: nat, c: char)
    requires p < |t| && t[p] == c
    ensures StandsAt(t, p, [c])
  {}

  lemma {:induction false} WordFound(t: Memory, p: nat, word: string)
    requires p < |t| && (forall i :: 0 <= i < |word| ==> word[i] != NUL) && CheckStr(t, p, word).Some?
    ensures StandsAt(t, p, word)
    decreases |word|
  {
    if word != "" {
      WordFound(t, p + 1, word[1..]);
      assert t[p..p + |word|] == [t[p]] + t[p + 1..p + |word|];
    }
  }

  /* ---- numbers ---- */

  lemma DigitsFound(t: Memory, p: nat)
    requires p < |t| && IsDigit(t[p]) && GoNum(t, p).Some?
    ensures p < GoNum(t, p).value && AreDigits(t[p..GoNum(t, p).value])
  {}

  lemma WholeFound(t: Memory, p: nat) returns (minus: bool, whole: string)
    requires p < |t| && IntegerPart(t, p).Some?
    ensures AreDigits(whole) && (whole[0] == '0' ==> |whole| == 1)
    ensures StandsAt(t, p, (if minus then "-" else "") + whole)
    ensures IntegerPart(t, p).value == p + (if minus then 1 else 0) + |whole|
  {
    minus := t[p] == '-';
    var q := if minus then p + 1 else p;
    var a := IntegerPart(t, p).value;
    whole := t[q..a];
    if t[q] != '0' {
      DigitsFound(t, q);
    }
    assert t[p..a] == (if minus then "-" else "") + whole;
  }

  lemma PointFound(t: Memory, a: nat) returns (d: string)
    requires a < |t| && t[a] == '.' && FraqValue(t, a + 1).Some?
    ensures AreDigits(d) && FraqValue(t, a + 1) == Some(a + 1 + |d|) && t[a..a + 1 + |d|] == "." + d
  {
    var b := FraqValue(t, a + 1).value;
    MoreDigits(t, a + 1, b);
    hide GoNum, AreDigits;
    d := t[a + 1..b];
    assert t[a..b] == [t[a]] + t[a + 1..b];
  }

  lemma FractionFound(t: Memory, a: nat) returns (f: Option<string>)
    requires a < |t| && FractionStart(t, a).Some?
    ensures f.Some? ==> AreDigits(f.value)
    ensures StandsAt(t, a, SpellFraction(f)) && FractionStart(t, a) == Some(a + |SpellFraction(f)|)
  {
    hide FraqValue, AreDigits;
    f := None;
    if t[a] == '.' {
      var d := PointFound(t, a);
      f := Some(d);
    }
  }

  /** A digit, and the digits behind it. */
  lemma MoreDigits(t: Memory, p: nat, b: nat)
    requires p < |t| && IsDigit(t[p]) && GoNum(t, p + 1) == Some(b)
    ensures p < b && AreDigits(t[p..b])
  {}

  lemma SignedFound(t: Memory, b: nat) returns (x: Exponent)
    requires b < |t| && (t[b] == 'e' || t[b] == 'E') && ExpValue(t, b + 1).Some?
    ensures ValidExponent(x) && |SpellExponent(Some(x))| == ExpValue(t, b + 1).value - b
    ensures t[b..ExpValue(t, b + 1).value] == SpellExponent(Some(x))
  {
    var e := ExpValue(t, b + 1).value;
    var signed := t[b + 1] == '-' || t[b + 1] == '+';
    var q := if signed then b + 2 else b + 1;
    MoreDigits(t, q, e);
    hide GoNum, AreDigits;
    var sign := if signed then [t[b + 1]] else "";
    x := Exponent(t[b], sign, t[q..e]);
    assert t[b..e] == [t[b]] + sign + t[q..e];
  }

  lemma ExponentFound(t: Memory, b: nat) returns (x: Option<Exponent>)
    requires b < |t| && ExponentStart(t, b).Some?
    ensures x.Some? ==> ValidExponent(x.value)
    ensures StandsAt(t, b, SpellExponent(x)) && ExponentStart(t, b) == Some(b + |SpellExponent(x)|)
  {
    hide ExpValue, ValidExponent;
    x := None;
    if t[b] == 'e' || t[b] == 'E' {
      var y := SignedFound(t, b);
      x := Some(y);
    }
  }

  lemma NumberParts(t: Memory, p: nat)
    requires p < |t| && Number(t, p).Some?
    ensures IntegerPart(t, p).Some?
    ensures var a := IntegerPart(t, p).value;
      && FractionStart(t, a).Some?
      && var b := FractionStart(t, a).value;
         && ExponentStart(t, b).Some?
         && var e := ExponentStart(t, b).value;
            EndOfPrimitive(t[e]) && Number(t, p) == Some(Lexeme(e, if a == e then INTEGER else REAL))
  {
    hide IntegerPart, FraqValue, ExpValue, EndOfPrimitive;
  }

  lemma NumberFound(t: Memory, p: nat) returns (n: Numeral)
    requires p < |t| && Number(t, p).Some?
    ensures ValidNumeral(n) && StandsAt(t, p, SpellNumber(n)) && p + |SpellNumber(n)| < |t|
    ensures EndOfPrimitive(t[p + |SpellNumber(n)|])
    ensures Number(t, p) == Some(Lexeme(p + |SpellNumber(n)|, if IsWhole(n) then INTEGER else REAL))
  {
    hide StandsAt, IntegerPart, FractionStart, ExponentStart, EndOfPrimitive, AreDigits, ValidExponent, Number,
         SpellFraction, SpellExponent;
    NumberParts(t, p);
    var minus, whole := WholeFound(t, p);
    var a := IntegerPart(t, p).value;
    var f := FractionFound(t, a);
    var b := a + |SpellFraction(f)|;
    var x := ExponentFound(t, b);
    n := Numeral(minus, whole, f, x);
    SplitAgain(t, p, SpellWhole(n), SpellFraction(f));
    SplitAgain(t, p, SpellWhole(n) + SpellFraction(f), SpellExponent(x));
    NothingSpelled(n);
  }

  /* ---- what the parser accepts ---- */

  /** A value as the parser takes it: rows of items, with blanks and commas in front of each and at the end. */
  datatype Loose = Leaf(v: Tree) | Nest(isArray: bool, items: Row)

  datatype Row = End(gap: string) | More(gap: string, name: Option<Name>, value: Loose, tail: Row)

  function LayLoose(x: Loose): string {
    match x
    case Leaf(v) => Lay(v)
    case Nest(isArray, items) => (if isArray then "[" else "{") + LayRow(items) + (if isArray then "]" else "}")
  }

  function LayRow(r: Row): string {
    match r
    case End(gap) => gap
    case More(gap, name, value, tail) => gap + NamePart(name) + LayLoose(value) + LayRow(tail)
  }

  predicate Skipped(s: string) {
    forall i :: 0 <= i < |s| ==> s[i] in ['\U{20}', '\U{0A}', '\U{0D}', '\U{09}', '\U{0C}', ',']
  }

  /** What has to follow a number or a word. */
  predicate Delimits(c: char) {
    c in ['\U{20}', '\U{0A}', '\U{0D}', '\U{09}', '\U{0C}', ',', ']', '}']
  }

  function Bracket(isArray: bool): char {
    if isArray then ']' else '}'
  }

  predicate ValidLoose(x: Loose) {
    match x
    case Leaf(v) => !v.Block? && ValidTree(v)
    case Nest(isArray, items) => ValidRow(items, isArray)
  }

  predicate ValidRow(r: Row, isArray: bool) {
    match r
    case End(gap) => Skipped(gap)
    case More(gap, name, value, tail) =>
      && Skipped(gap) && name.None? == isArray && (name.Some? ==> ValidName(name.value))
      && ValidLoose(value) && ValidRow(tail, isArray)
      && (value.Leaf? && Primitive(value.v) ==> Delimits((LayRow(tail) + [Bracket(isArray)])[0]))
  }

  /* ---- values ---- */

  /** The value at the position of the parser has been taken, with the character behind it if that is no bracket. */
  ghost predicate TookValue(s: State, r: State, k: nat, v: Tree) {
    var end := s.ptr + |Lay(v)|;
    && !v.Block? && ValidTree(v) && StandsAt(s.text, s.ptr, Lay(v)) && end < |s.text|
    && k < |s.mem| && k < |r.mem| && r == s.(text := r.text, ptr := r.ptr, mem := s.mem[k := r.mem[k]])
    && SameOutside(s.text, r.text, s.ptr, r.ptr)
    && (Primitive(v) ==> EndOfPrimitive(s.text[end]))
    && r.ptr == After(v, end, s.text[end])
  }

  lemma TextTaken(s: State, k: nat) returns (v: Tree)
    requires s.ptr < |s.text| && k < |s.mem| && BytesFrom(s.text, s.ptr)
    requires s.text[s.ptr] == '\"' && ParseValue(s, k).Next?
    ensures TookValue(s, ParseValue(s, k).s, k, v)
  {
    hide StandsAt, ParseString, Spell, ValidPieces;
    var ps := StringFound(s.text, s.ptr + 1, s.ptr + 1);
    v := Tree.Text(ps);
    TextAt(s.text, s.ptr, ps);
    hide Lay;
  }

  lemma TextAt(t: string, p: nat, ps: seq<Piece>)
    requires p < |t| && t[p] == '\"' && StandsAt(t, p + 1, Spell(ps) + "\"")
    ensures StandsAt(t, p, Lay(Tree.Text(ps))) && |Lay(Tree.Text(ps))| == |Spell(ps)| + 2
  {
    hide StandsAt, Spell;
    OneAt(t, p, '\"');
    SplitAgain(t, p, "\"", Spell(ps) + "\"");
    assert "\"" + (Spell(ps) + "\"") == Lay(Tree.Text(ps));
  }

  lemma WordTaken(s: State, k: nat) returns (v: Tree)
    requires s.ptr < |s.text| && k < |s.mem|
    requires s.text[s.ptr] == 't' || s.text[s.ptr] == 'f' || s.text[s.ptr] == 'n'
    requires ParseValue(s, k).Next?
    ensures TookValue(s, ParseValue(s, k).s, k, v)
  {
    var c := s.text[s.ptr];
    v := if c == 't' then Bool(true) else if c == 'f' then Bool(false) else Nothing;
    WordFound(s.text, s.ptr, Lay(v));
    hide StandsAt, CheckStr, EndOfPrimitive;
  }

  lemma NumberTaken(s: State, k: nat) returns (v: Tree)
    requires s.ptr < |s.text| && k < |s.mem| && s.text[s.ptr] != NUL && ParseValue(s, k).Next?
    requires !(s.text[s.ptr] in ['{', '[', '\"', 't', 'f', 'n'])
    ensures TookValue(s, ParseValue(s, k).s, k, v)
  {
    hide StandsAt, EndOfPrimitive, Number, Fits, SpellNumber, ValidNumeral, WholeValue, IsWhole;
    var n := NumberFound(s.text, s.ptr);
    v := Num(n);
    Within(s.text, s.ptr, SpellNumber(n));
    if IsWhole(n) {
      WholeIsInteger(n);
      hide IsInteger, IntValue;
      FitsExact(SpellNumber(n));
    }
  }

  lemma ValueTaken(s: State, k: nat) returns (v: Tree)
    requires s.ptr < |s.text| && s.text[s.ptr] != NUL && k < |s.mem| && BytesFrom(s.text, s.ptr)
    requires !(s.text[s.ptr] in ['{', '[']) && ParseValue(s, k).Next?
    ensures TookValue(s, ParseValue(s, k).s, k, v)
  {
    hide ParseValue, TookValue;
    var c := s.text[s.ptr];
    if c == '\"' {
      v := TextTaken(s, k);
    } else if c == 't' || c == 'f' || c == 'n' {
      v := WordTaken(s, k);
    } else {
      v := NumberTaken(s, k);
    }
  }

  /* ---- the open blocks ---- */

  /** Whether the open block i is an array, and those around it. */
  ghost function Kinds(mem: seq<Node>, free: nat, i: nat): (r: seq<bool>)
    requires Open(mem, free, i)
    ensures r != []
    decreases i
  {
    [mem[i].kind == ARRAY] + if mem[i].sibling == Null then [] else Kinds(mem, free, mem[i].sibling.n)
  }

  /** The nodes up to i keep their kinds and their borrowed links. */
  predicate SameBlocks(mem: seq<Node>, r: seq<Node>, i: nat) {
    && i < |mem| && i < |r|
    && forall j :: 0 <= j <= i ==> r[j].kind == mem[j].kind && r[j].sibling == mem[j].sibling
  }

  lemma {:induction false} KindsFrame(mem: seq<Node>, free: nat, r: seq<Node>, rfree: nat, i: nat)
    requires Open(mem, free, i) && Open(r, rfree, i)
    requires forall j :: 0 <= j <= i ==> r[j].kind == mem[j].kind && r[j].sibling == mem[j].sibling
    ensures Kinds(r, rfree, i) == Kinds(mem, free, i)
    decreases i
  {
    if mem[i].sibling != Null {
      KindsFrame(mem, free, r, rfree, mem[i].sibling.n);
    }
  }

  /** Rows of items, one for each open block, each closed by its bracket. */
  ghost function LayRows(rows: seq<Row>, kinds: seq<bool>): string
    requires |rows| == |kinds|
  {
    if rows == [] then "" else LayRow(rows[0]) + [Bracket(kinds[0])] + LayRows(rows[1..], kinds[1..])
  }

  ghost predicate ValidRows(rows: seq<Row>, kinds: seq<bool>) {
    |rows| == |kinds| && forall i :: 0 <= i < |rows| ==> ValidRow(rows[i], kinds[i])
  }

  /** From p on the text closes all open blocks. */
  ghost predicate Closes(t: string, p: nat, end: nat, rows: seq<Row>, kinds: seq<bool>) {
    ValidRows(rows, kinds) && StandsAt(t, p, LayRows(rows, kinds)) && end == p + |LayRows(rows, kinds)|
  }

  function Prefixed(r: Row, x: string): Row {
    match r
    case End(gap) => End(x + gap)
    case More(gap, name, value, tail) => More(x + gap, name, value, tail)
  }

  lemma PrefixedIs(r: Row, x: string, isArray: bool)
    requires ValidRow(r, isArray) && Skipped(x)
    ensures ValidRow(Prefixed(r, x), isArray) && LayRow(Prefixed(r, x)) == x + LayRow(r)
  {
    hide ValidLoose, LayLoose, NamePart, Delimits;
    match r
    case End(_) =>
    case More(gap, name, value, tail) =>
      assert x + gap + NamePart(name) + LayLoose(value) + LayRow(tail) ==
        x + (gap + NamePart(name) + LayLoose(value) + LayRow(tail));
  }

  lemma SplitRow(x: string, y: string, b: string, z: string)
    ensures (x + y) + b + z == x + (y + b + z)
  {}

  /** Something skippable stands in front. */
  lemma ClosesSkipped(t: string, p: nat, x: string, end: nat, rows: seq<Row>, kinds: seq<bool>) returns (r: seq<Row>)
    requires rows != [] && StandsAt(t, p, x) && Skipped(x) && Closes(t, p + |x|, end, rows, kinds)
    ensures Closes(t, p, end, r, kinds)
  {
    hide StandsAt, ValidRow, LayRow;
    PrefixedIs(rows[0], x, kinds[0]);
    r := [Prefixed(rows[0], x)] + rows[1..];
    assert r[1..] == rows[1..];
    SplitRow(x, LayRow(rows[0]), [Bracket(kinds[0])], LayRows(rows[1..], kinds[1..]));
    SplitAgain(t, p, x, LayRows(rows, kinds));
  }

  /** A block is closed here. */
  lemma ClosesHere(t: string, p: nat, x: string, isArray: bool, end: nat, rows: seq<Row>, kinds: seq<bool>)
    returns (r: seq<Row>)
    requires StandsAt(t, p, x) && Skipped(x) && p + |x| < |t| && t[p + |x|] == Bracket(isArray)
    requires Closes(t, p + |x| + 1, end, rows, kinds)
    ensures Closes(t, p, end, r, [isArray] + kinds)
  {
    hide StandsAt, ValidRow;
    r := [End(x)] + rows;
    assert ValidRow(End(x), isArray) by { EndValid(x, isArray); }
    assert r[1..] == rows && ([isArray] + kinds)[1..] == kinds;
    OneAt(t, p + |x|, Bracket(isArray));
    SplitAgain(t, p, x, [Bracket(isArray)]);
    SplitAgain(t, p, x + [Bracket(isArray)], LayRows(rows, kinds));
  }

  lemma EndValid(x: string, isArray: bool)
    requires Skipped(x)
    ensures ValidRow(End(x), isArray)
  {}

  lemma MorePieces(x: string, n: string, v: string, t: string, b: string, z: string)
    ensures x + n + v + t + b + z == x + (n + (v + (t + b + z)))
  {}

  /** An item stands in front. */
  lemma ClosesItem(t: string, p: nat, x: string, name: Option<Name>, v: Loose, end: nat, rows: seq<Row>,
                   kinds: seq<bool>) returns (r: seq<Row>)
    requires rows != [] && StandsAt(t, p, x) && Skipped(x) && StandsAt(t, p + |x|, NamePart(name))
    requires ValidLoose(v) && StandsAt(t, p + |x| + |NamePart(name)|, LayLoose(v))
    requires var q := p + |x| + |NamePart(name)| + |LayLoose(v)|;
      && q < |t| && Closes(t, q, end, rows, kinds) && (v.Leaf? && Primitive(v.v) ==> Delimits(t[q]))
    requires kinds != [] && name.None? == kinds[0] && (name.Some? ==> ValidName(name.value))
    ensures Closes(t, p, end, r, kinds)
  {
    hide StandsAt, ValidRow, LayRow, LayLoose, NamePart, Delimits, ValidLoose, ValidName, LayRows, Skipped, Primitive,
         Bracket;
    NextOf(t, p + |x| + |NamePart(name)| + |LayLoose(v)|, end, rows, kinds);
    r := [More(x, name, v, rows[0])] + rows[1..];
    MoreIs(x, name, v, rows[0], kinds[0]);
    RowsItem(x, name, v, rows, kinds);
    FourAgain(t, p, x, NamePart(name), LayLoose(v), LayRows(rows, kinds));
  }

  lemma FourAgain(t: string, p: nat, a: string, b: string, c: string, d: string)
    requires StandsAt(t, p, a) && StandsAt(t, p + |a|, b) && StandsAt(t, p + |a| + |b|, c)
    requires StandsAt(t, p + |a| + |b| + |c|, d)
    ensures StandsAt(t, p, a + (b + (c + d)))
  {
    hide StandsAt;
    SplitAgain(t, p + |a| + |b|, c, d);
    SplitAgain(t, p + |a|, b, c + d);
    SplitAgain(t, p, a, b + (c + d));
  }

  lemma RowsItem(x: string, name: Option<Name>, v: Loose, rows: seq<Row>, kinds: seq<bool>)
    requires rows != [] && |rows| == |kinds|
    ensures LayRows([More(x, name, v, rows[0])] + rows[1..], kinds) ==
      x + (NamePart(name) + (LayLoose(v) + LayRows(rows, kinds)))
  {
    hide LayLoose, NamePart;
    var r := [More(x, name, v, rows[0])] + rows[1..];
    assert r[1..] == rows[1..];
    assert LayRow(r[0]) == x + NamePart(name) + LayLoose(v) + LayRow(rows[0]);
    hide LayRow;
    MorePieces(x, NamePart(name), LayLoose(v), LayRow(rows[0]), [Bracket(kinds[0])], LayRows(rows[1..], kinds[1..]));
  }

  lemma MoreIs(x: string, name: Option<Name>, v: Loose, tail: Row, isArray: bool)
    requires Skipped(x) && name.None? == isArray && (name.Some? ==> ValidName(name.value)) && ValidLoose(v)
    requires ValidRow(tail, isArray)
    requires v.Leaf? && Primitive(v.v) ==> Delimits((LayRow(tail) + [Bracket(isArray)])[0])
    ensures ValidRow(More(x, name, v, tail), isArray)
    ensures LayRow(More(x, name, v, tail)) == x + NamePart(name) + LayLoose(v) + LayRow(tail)
  {
    hide ValidLoose, LayLoose, NamePart, Delimits, ValidName;
  }

  lemma NextOf(t: string, q: nat, end: nat, rows: seq<Row>, kinds: seq<bool>)
    requires rows != [] && q < |t| && Closes(t, q, end, rows, kinds)
    ensures (LayRow(rows[0]) + [Bracket(kinds[0])])[0] == t[q]
  {
    hide LayRow, ValidRow;
    var a := LayRow(rows[0]) + [Bracket(kinds[0])];
    SplitText(t, q, a, LayRows(rows[1..], kinds[1..]));
    CharAt(t, q, a, 0);
  }

  /* ---- steps ---- */

  lemma SkippedGap(g: string)
    requires Gap(g)
    ensures Skipped(g) && Skipped(g + ",") && Skipped(",")
  {}

  lemma DelimitsAll(c: char)
    requires EndOfPrimitive(c)
    ensures Delimits(c)
    ensures !EndOfBlock(c) ==> Skipped([c])
  {}

  /** What one step does. */
  lemma StepCases(s: State)
    requires Inv(s) && !Step(s).Fail?
    ensures GoBlank(s.text, s.ptr).Some?
    ensures var p, o := GoBlank(s.text, s.ptr).value, s.mem[s.obj];
      if s.text[p] == ',' then Step(s) == Next(At(s, p + 1))
      else if s.text[p] == EndBracket(o.kind == ARRAY) then
        var t := s.(text := s.text[p := NUL], ptr := p + 1);
        Step(s) == if o.sibling == Null then Done(t)
                   else Next(t.(mem := s.mem[s.obj := o.(sibling := Null)], obj := o.sibling.n))
      else
        && s.free < |s.mem| && Head(s.text, p, o.kind).Some?
        && Step(s) == ParseValue(Entered(s, Head(s.text, p, o.kind).value), s.free)
  {
    hide GoBlank, Head, ParseValue, Add, Open;
    OpenFacts(s);
  }

  /** The name in front of an item. */
  lemma HeadFound(t: Memory, p: nat, kind: Kind) returns (name: Option<Name>)
    requires p < |t| && t[p] != NUL && BytesFrom(t, p) && Head(t, p, kind).Some?
    ensures name.None? == (kind == ARRAY) && (name.Some? ==> ValidName(name.value))
    ensures StandsAt(t, p, NamePart(name)) && Head(t, p, kind).value.ptr == p + |NamePart(name)|
  {
    hide PropertyName, ValidName;
    if kind == ARRAY {
      name := None;
    } else {
      var n := NameFound(t, p);
      name := Some(n);
      hide NamePart;
    }
  }

  /** A text that is the same from p on. */
  lemma ClosesSame(t: string, r: string, p: nat, end: nat, rows: seq<Row>, kinds: seq<bool>)
    requires |r| == |t| && forall j :: p <= j < |t| ==> r[j] == t[j]
    requires Closes(t, p, end, rows, kinds)
    ensures Closes(r, p, end, rows, kinds)
  {
    RestStands(t, r, p, p, LayRows(rows, kinds));
    hide LayRows, ValidRows;
  }

  /** Texts that agree from p on. */
  predicate SameFrom(t: string, r: string, p: nat) {
    |r| == |t| && forall j :: p <= j < |t| ==> r[j] == t[j]
  }

  lemma OutsideFrom(t: string, r: string, from: nat, to: nat)
    requires SameOutside(t, r, from, to)
    ensures SameFrom(t, r, to) && (forall p: nat :: p >= to && BytesFrom(t, p) ==> BytesFrom(r, p))
  {}

  lemma CommaAccepted(t: Memory, ptr: nat, p: nat, end: nat, rows: seq<Row>, kinds: seq<bool>) returns (r: seq<Row>)
    requires ptr < |t| && GoBlank(t, ptr) == Some(p) && t[p] == ',' && rows != [] && Closes(t, p + 1, end, rows, kinds)
    ensures Closes(t, ptr, end, r, kinds)
  {
    hide Closes, GoBlank, Skipped, StandsAt;
    BlankFound(t, ptr);
    var g := t[ptr..p];
    SkippedGap(g);
    OneAt(t, p, ',');
    SplitAgain(t, ptr, g, ",");
    r := ClosesSkipped(t, ptr, g + ",", end, rows, kinds);
  }

  lemma BracketAccepted(t: Memory, ptr: nat, p: nat, isArray: bool, end: nat, rows: seq<Row>, kinds: seq<bool>)
    returns (r: seq<Row>)
    requires ptr < |t| && GoBlank(t, ptr) == Some(p) && t[p] == EndBracket(isArray)
    requires Closes(t, p + 1, end, rows, kinds)
    ensures Closes(t, ptr, end, r, [isArray] + kinds)
  {
    hide Closes, GoBlank, Skipped, StandsAt;
    BlankFound(t, ptr);
    SkippedGap(t[ptr..p]);
    r := ClosesHere(t, ptr, t[ptr..p], isArray, end, rows, kinds);
  }

  lemma NothingOpen(t: string, p: nat)
    requires p <= |t|
    ensures Closes(t, p, p, [], [])
  {}

  /** A leaf has been taken: what follows it, with the character that it took along. */
  lemma LeafBehind(t: Memory, v: Tree, q: nat, ptr: nat, end: nat, rows: seq<Row>, kinds: seq<bool>)
    returns (r: seq<Row>)
    requires q < |t| && ptr == After(v, q, t[q]) && (Primitive(v) ==> EndOfPrimitive(t[q]))
    requires rows != [] && Closes(t, ptr, end, rows, kinds)
    ensures Closes(t, q, end, r, kinds) && r != []
  {
    hide Closes, Skipped, StandsAt, EndOfPrimitive, EndOfBlock;
    if ptr == q {
      r := rows;
    } else {
      DelimitsAll(t[q]);
      OneAt(t, q, t[q]);
      r := ClosesSkipped(t, q, [t[q]], end, rows, kinds);
      SomeRow(t, q, ptr, end, r, rows, kinds);
    }
  }

  lemma SomeRow(t: string, q: nat, ptr: nat, end: nat, r: seq<Row>, rows: seq<Row>, kinds: seq<bool>)
    requires Closes(t, q, end, r, kinds) && Closes(t, ptr, end, rows, kinds) && rows != []
    ensures r != []
  {}

  lemma LeafAccepted(t: Memory, ptr: nat, p: nat, name: Option<Name>, v: Tree, end: nat, rows: seq<Row>,
                     kinds: seq<bool>) returns (r: seq<Row>)
    requires ptr < |t| && GoBlank(t, ptr) == Some(p) && StandsAt(t, p, NamePart(name))
    requires kinds != [] && name.None? == kinds[0] && (name.Some? ==> ValidName(name.value))
    requires !v.Block? && ValidTree(v) && StandsAt(t, p + |NamePart(name)|, Lay(v))
    requires var q := p + |NamePart(name)| + |Lay(v)|;
      && q < |t| && rows != [] && Closes(t, q, end, rows, kinds) && (Primitive(v) ==> EndOfPrimitive(t[q]))
    ensures Closes(t, ptr, end, r, kinds)
  {
    hide Closes, GoBlank, Skipped, StandsAt, NamePart, Lay, ValidTree, ValidName, EndOfPrimitive, Primitive;
    BlankFound(t, ptr);
    SkippedGap(t[ptr..p]);
    if Primitive(v) {
      DelimitsAll(t[p + |NamePart(name)| + |Lay(v)|]);
    }
    r := ClosesItem(t, ptr, t[ptr..p], name, Leaf(v), end, rows, kinds);
  }

  /** The rows of an open block and of those around it. */
  lemma NestSplit(t: string, p: nat, isArray: bool, end: nat, rows: seq<Row>, kinds: seq<bool>)
    requires p < |t| && t[p] == (if isArray then '[' else '{') && |rows| == |kinds| > 1 && kinds[0] == isArray
    requires Closes(t, p + 1, end, rows, kinds)
    ensures var v := Nest(isArray, rows[0]);
      && ValidLoose(v) && StandsAt(t, p, LayLoose(v)) && p + |LayLoose(v)| < |t|
      && Closes(t, p + |LayLoose(v)|, end, rows[1..], kinds[1..])
  {
    hide StandsAt, ValidRow, LayRow;
    var a := LayRow(rows[0]) + [Bracket(isArray)];
    var rest := LayRows(rows[1..], kinds[1..]);
    SplitText(t, p + 1, a, rest);
    RowsSome(rows[1..], kinds[1..]);
    Within(t, p + 1 + |a|, rest);
    OneAt(t, p, if isArray then '[' else '{');
    SplitAgain(t, p, [if isArray then '[' else '{'], a);
    NestIs(isArray, rows[0]);
  }

  lemma NestIs(isArray: bool, r: Row)
    ensures LayLoose(Nest(isArray, r)) == [if isArray then '[' else '{'] + (LayRow(r) + [Bracket(isArray)])
    ensures ValidLoose(Nest(isArray, r)) == ValidRow(r, isArray)
  {}

  lemma RowsSome(rows: seq<Row>, kinds: seq<bool>)
    requires |rows| == |kinds| && rows != []
    ensures LayRows(rows, kinds) != ""
  {
    hide LayRow;
  }

  lemma NestAccepted(t: Memory, ptr: nat, p: nat, name: Option<Name>, isArray: bool, end: nat, rows: seq<Row>,
                     kinds: seq<bool>) returns (r: seq<Row>)
    requires ptr < |t| && GoBlank(t, ptr) == Some(p) && StandsAt(t, p, NamePart(name))
    requires kinds != [] && name.None? == kinds[0] && (name.Some? ==> ValidName(name.value))
    requires var q := p + |NamePart(name)|;
      && q < |t| && t[q] == (if isArray then '[' else '{') && Closes(t, q + 1, end, rows, [isArray] + kinds)
    ensures Closes(t, ptr, end, r, kinds)
  {
    hide GoBlank, Skipped, StandsAt, NamePart, ValidName, LayRows, ValidRow, LayLoose;
    BlankFound(t, ptr);
    SkippedGap(t[ptr..p]);
    assert ([isArray] + kinds)[1..] == kinds;
    NestSplit(t, p + |NamePart(name)|, isArray, end, rows, [isArray] + kinds);
    hide Closes, ValidLoose;
    r := ClosesItem(t, ptr, t[ptr..p], name, Nest(isArray, rows[0]), end, rows[1..], kinds);
  }

  /* ---- the whole run ---- */

  /** The blocks that are open in a state. */
  ghost function OpenKinds(s: State): seq<bool>
    requires Inv(s)
  {
    Kinds(s.mem, s.free, s.obj)
  }

  lemma CommaKinds(s: State, p: nat)
    requires Inv(s) && p < |s.text|
    ensures Inv(At(s, p)) && OpenKinds(At(s, p)) == OpenKinds(s)
  {}

  lemma ClosedKinds(s: State, t: State)
    requires Inv(s) && Inv(t) && s.mem[s.obj].sibling.Ref? && t.obj == s.mem[s.obj].sibling.n
    requires t.mem == s.mem[s.obj := s.mem[s.obj].(sibling := Null)] && t.free == s.free
    ensures OpenKinds(s) == [s.mem[s.obj].kind == ARRAY] + OpenKinds(t)
  {
    KindsFrame(s.mem, s.free, t.mem, t.free, t.obj);
  }

  lemma RootKinds(s: State)
    requires Inv(s) && s.mem[s.obj].sibling == Null
    ensures OpenKinds(s) == [s.mem[s.obj].kind == ARRAY]
  {}

  lemma KindsSome(s: State)
    requires Inv(s)
    ensures OpenKinds(s) != [] && OpenKinds(s)[0] == (s.mem[s.obj].kind == ARRAY)
  {}

  lemma EnteredKinds(s: State, h: Named)
    requires Inv(s) && s.free < |s.mem|
    ensures var e := Entered(s, h);
      && |e.mem| == |s.mem| && e.free == s.free + 1 && e.obj == s.obj < s.free && e.ptr == h.ptr && e.text == h.text
      && SameBlocks(s.mem, e.mem, s.obj)
  {
    OpenFacts(s);
  }

  lemma LeafKinds(s: State, e: State, t: State)
    requires Inv(s) && Inv(t) && t.obj == s.obj < s.free < |e.mem| && |t.mem| == |e.mem|
    requires SameBlocks(s.mem, e.mem, s.obj)
    requires t.mem == e.mem[s.free := t.mem[s.free]]
    ensures OpenKinds(t) == OpenKinds(s)
  {
    KindsFrame(s.mem, s.free, t.mem, t.free, s.obj);
  }

  lemma OpenedKinds(s: State, e: State, isArray: bool)
    requires Inv(s) && e.obj == s.obj < s.free < |e.mem|
    requires SameBlocks(s.mem, e.mem, s.obj)
    requires Inv(Opened(e, s.free, isArray))
    ensures OpenKinds(Opened(e, s.free, isArray)) == [isArray] + OpenKinds(s)
  {
    var t := Opened(e, s.free, isArray);
    KindsFrame(s.mem, s.free, t.mem, t.free, s.obj);
  }

  lemma OpenedIs(e: State, k: nat)
    requires e.ptr < |e.text| && k < |e.mem| && (e.text[e.ptr] == '{' || e.text[e.ptr] == '[')
    ensures ParseValue(e, k) == Next(Opened(e, k, e.text[e.ptr] == '['))
  {}

  lemma ParseNext(s: State)
    requires Inv(s) && Parse(s).Done?
    ensures Step(s).Done? ==> Parse(s) == Step(s)
    ensures Step(s).Next? ==> Inv(Step(s).s) && Step(s).s.ptr > s.ptr && Parse(Step(s).s) == Parse(s)
    ensures Step(s).Next? ==> |Step(s).s.text| == |s.text|
    ensures !Step(s).Fail?
  {
    StepKeeps(s);
    hide Step, Open;
  }

  /** A run that succeeds has read rows of items that close all open blocks. */
  lemma {:induction false} RunAccepted(s: State) returns (rows: seq<Row>)
    requires Inv(s) && Parse(s).Done? && BytesFrom(s.text, s.ptr)
    ensures Closes(s.text, s.ptr, Parse(s).s.ptr, rows, OpenKinds(s))
    decreases |s.text| - s.ptr, 2
  {
    hide Parse, Step, GoBlank, Head, ParseValue, Inv, Closes, BytesFrom, OpenKinds, StandsAt, Entered, SameFrom,
         Opened, EndBracket;
    ParseNext(s);
    StepCases(s);
    OpenFacts(s);
    var p, end := GoBlank(s.text, s.ptr).value, Parse(s).s.ptr;
    BytesLater(s.text, s.ptr, p);
    BytesLater(s.text, s.ptr, p + 1);
    var isArray := s.mem[s.obj].kind == ARRAY;
    if s.text[p] == ',' {
      CommaKinds(s, p + 1);
      var r := RunAccepted(At(s, p + 1));
      RowsMatch(s.text, p + 1, end, r, At(s, p + 1));
      rows := CommaAccepted(s.text, s.ptr, p, end, r, OpenKinds(s));
    } else if s.text[p] == EndBracket(isArray) {
      rows := BracketCase(s, p);
    } else {
      rows := ItemCase(s, p);
    }
  }

  lemma {:induction false} BracketCase(s: State, p: nat) returns (rows: seq<Row>)
    requires Inv(s) && Parse(s).Done? && BytesFrom(s.text, s.ptr) && s.obj < |s.mem|
    requires s.ptr <= p < |s.text| && GoBlank(s.text, s.ptr) == Some(p) && s.text[p] != ','
    requires s.text[p] == EndBracket(s.mem[s.obj].kind == ARRAY)
    ensures Closes(s.text, s.ptr, Parse(s).s.ptr, rows, OpenKinds(s))
    decreases |s.text| - s.ptr, 0
  {
    hide Parse, Step, GoBlank, Head, ParseValue, Closes, BytesFrom, OpenKinds, StandsAt, SameFrom, Inv, Entered,
         EndBracket, SameOutside;
    ParseNext(s);
    StepCases(s);
    var end, t := Parse(s).s.ptr, Step(s).s;
    var isArray := s.mem[s.obj].kind == ARRAY;
    if s.mem[s.obj].sibling == Null {
      NothingOpen(s.text, p + 1);
      RootKinds(s);
      rows := BracketAccepted(s.text, s.ptr, p, isArray, p + 1, [], []);
      assert [isArray] + [] == [isArray];
    } else {
      SiblingRef(s);
      ClosedKinds(s, t);
      NulFrom(s.text, p);
      BytesLater(s.text, s.ptr, p + 1);
      var r := RunAccepted(t);
      FromSame(t.text, s.text, p + 1, end, r, OpenKinds(t));
      rows := BracketAccepted(s.text, s.ptr, p, isArray, end, r, OpenKinds(t));
    }
  }

  lemma NulFrom(t: string, p: nat)
    requires p < |t|
    ensures SameFrom(t, t[p := NUL], p + 1)
    ensures BytesFrom(t, p + 1) ==> BytesFrom(t[p := NUL], p + 1)
  {}

  lemma SiblingRef(s: State)
    requires Inv(s)
    ensures s.mem[s.obj].sibling == Null || s.mem[s.obj].sibling.Ref?
  {}

  lemma FromSame(t: string, r: string, p: nat, end: nat, rows: seq<Row>, kinds: seq<bool>)
    requires SameFrom(t, r, p) || SameFrom(r, t, p)
    requires Closes(t, p, end, rows, kinds)
    ensures Closes(r, p, end, rows, kinds)
  {
    hide Closes;
    ClosesSame(t, r, p, end, rows, kinds);
  }

  /** An item begins at p. */
  lemma {:induction false} ItemCase(s: State, p: nat) returns (rows: seq<Row>)
    requires Inv(s) && Parse(s).Done? && BytesFrom(s.text, s.ptr) && s.obj < |s.mem|
    requires s.ptr <= p < |s.text| && GoBlank(s.text, s.ptr) == Some(p) && s.text[p] != NUL
    requires s.text[p] != ',' && s.text[p] != EndBracket(s.mem[s.obj].kind == ARRAY)
    ensures Closes(s.text, s.ptr, Parse(s).s.ptr, rows, OpenKinds(s))
    decreases |s.text| - s.ptr, 1
  {
    hide Parse, Step, GoBlank, Head, ParseValue, Inv, Closes, BytesFrom, OpenKinds, StandsAt, Entered, SameFrom,
         NamePart, Opened, ValidName, Lay, ValidTree, EndOfPrimitive, Primitive, EndBracket, SameOutside, Open;
    ParseNext(s);
    StepCases(s);
    var end, kind := Parse(s).s.ptr, s.mem[s.obj].kind;
    BytesLater(s.text, s.ptr, p);
    var name := HeadFound(s.text, p, kind);
    var h := Head(s.text, p, kind).value;
    InvOpen(s);
    var e := Entered(s, h);
    EnteredKinds(s, h);
    OutsideFrom(s.text, h.text, p, h.ptr);
    BytesLater(s.text, p, h.ptr);
    KindsSome(s);
    CharSame(s.text, e.text, e.ptr);
    if e.text[e.ptr] == '{' || e.text[e.ptr] == '[' {
      var isArray := e.text[e.ptr] == '[';
      OpenedIs(e, s.free);
      var t := Opened(e, s.free, isArray);
      OpenedParts(e, s.free, isArray);
      OpenedKinds(s, e, isArray);
      BytesLater(e.text, e.ptr, e.ptr + 1);
      var r := RunAccepted(t);
      SameLater(s.text, e.text, e.ptr, e.ptr + 1);
      FromSame(t.text, s.text, e.ptr + 1, end, r, OpenKinds(t));
      rows := NestAccepted(s.text, s.ptr, p, name, isArray, end, r, OpenKinds(s));
    } else {
      rows := LeafCase(s, p, name, e);
    }
  }

  lemma InvOpen(s: State)
    requires Inv(s)
    ensures Open(s.mem, s.free, s.obj)
  {}

  lemma CharSame(t: string, r: string, p: nat)
    requires SameFrom(t, r, p) && p < |t|
    ensures |r| == |t| && r[p] == t[p]
  {}

  lemma SameLater(t: string, r: string, p: nat, q: nat)
    requires SameFrom(t, r, p) && p <= q
    ensures SameFrom(t, r, q)
  {}

  lemma OpenedParts(e: State, k: nat, isArray: bool)
    requires k < |e.mem|
    ensures Opened(e, k, isArray).text == e.text && Opened(e, k, isArray).ptr == e.ptr + 1
  {}

  lemma {:induction false} LeafCase(s: State, p: nat, name: Option<Name>, e: State) returns (rows: seq<Row>)
    requires Inv(s) && Parse(s).Done? && BytesFrom(s.text, s.ptr) && s.obj < |s.mem|
    requires s.ptr <= p < |s.text| && GoBlank(s.text, s.ptr) == Some(p)
    requires StandsAt(s.text, p, NamePart(name)) && e.ptr == p + |NamePart(name)| < |e.text|
    requires SameFrom(s.text, e.text, e.ptr)
    requires name.None? == (s.mem[s.obj].kind == ARRAY) && (name.Some? ==> ValidName(name.value))
    requires e.obj == s.obj < s.free < |e.mem| && e.free == s.free + 1
    requires e.text[e.ptr] != NUL && BytesFrom(e.text, e.ptr)
    requires SameBlocks(s.mem, e.mem, s.obj)
    requires Step(s) == ParseValue(e, s.free) && !(e.text[e.ptr] in ['{', '['])
    ensures Closes(s.text, s.ptr, Parse(s).s.ptr, rows, OpenKinds(s))
    decreases |s.text| - s.ptr, 0
  {
    hide Parse, Step, GoBlank, ParseValue, Inv, Closes, BytesFrom, OpenKinds, StandsAt, SameFrom, NamePart, ValidName,
         Lay, ValidTree, EndOfPrimitive, Primitive, After, SameOutside;
    ParseNext(s);
    NotDone(e, s.free);
    var end, t := Parse(s).s.ptr, Step(s).s;
    var v := ValueTaken(e, s.free);
    var q := e.ptr + |Lay(v)|;
    LeafKinds(s, e, t);
    AfterIs(v, q, e.text[q]);
    OutsideFrom(e.text, t.text, e.ptr, t.ptr);
    BytesLater(e.text, e.ptr, t.ptr);
    var r := RunAccepted(t);
    RowsMatch(t.text, t.ptr, end, r, t);
    FromSame(t.text, e.text, t.ptr, end, r, OpenKinds(t));
    r := LeafBehind(e.text, v, q, t.ptr, end, r, OpenKinds(s));
    SameLater(s.text, e.text, e.ptr, q);
    CharSame(s.text, e.text, q);
    FromSame(e.text, s.text, q, end, r, OpenKinds(s));
    SameStands(s.text, e.text, e.ptr, Lay(v));
    KindsSome(s);
    rows := LeafAccepted(s.text, s.ptr, p, name, v, end, r, OpenKinds(s));
  }

  lemma NotDone(e: State, k: nat)
    requires e.ptr < |e.text| && e.text[e.ptr] != NUL && k < |e.mem|
    ensures !ParseValue(e, k).Done?
  {
    hide ParseValue;
  }

  lemma SameStands(t: string, r: string, p: nat, piece: string)
    requires SameFrom(t, r, p) && StandsAt(r, p, piece)
    ensures StandsAt(t, p, piece)
  {
    RestStands(r, t, p, p, piece);
  }

  lemma RowsMatch(t: string, p: nat, end: nat, rows: seq<Row>, s: State)
    requires Inv(s) && Closes(t, p, end, rows, OpenKinds(s))
    ensures |rows| == |OpenKinds(s)| && rows != []
  {
    KindsSome(s);
    hide OpenKinds;
  }

  /** Whatever text of bytes is parsed successfully, it is an object up to where the parser stops: blanks, then rows of
      items in matching brackets, with valid names, strings, numbers and words, in which only commas may stand or
      be missing where an item may begin. */
  lemma OnlyJson(text: Memory, mem: seq<Node>) returns (pad: string, items: Row)
    requires |mem| > 0 && BytesFrom(text, 0) && Create(text, mem).Done?
    ensures Gap(pad) && ValidRow(items, false)
    ensures StandsAt(text, 0, pad + LayLoose(Nest(false, items)))
    ensures Create(text, mem).s.ptr == |pad| + |LayLoose(Nest(false, items))|
  {
    hide Parse, Create, GoBlank, Inv, OpenKinds, StandsAt, ValidRow, Gap, BytesFrom, LayLoose, LayRow, Closes;
    CreateIs(text, mem);
    var p := GoBlank(text, 0).value;
    var s := RootState(text, mem, p + 1);
    RootKinds(s);
    BlankFound(text, 0);
    BytesLater(text, 0, p + 1);
    pad := text[..p];
    assert text[0..p] == pad;
    var rows := RunAccepted(s);
    OneRow(text, p + 1, Create(text, mem).s.ptr, rows);
    items := rows[0];
    NestIs(false, items);
    OneAt(text, p, '{');
    SplitAgain(text, p, ['{'], LayRow(items) + ['}']);
    SplitAgain(text, 0, pad, LayLoose(Nest(false, items)));
  }

  lemma CreateIs(text: Memory, mem: seq<Node>)
    requires |mem| > 0 && Create(text, mem).Done?
    ensures GoBlank(text, 0).Some?
    ensures var p := GoBlank(text, 0).value;
      var s := RootState(text, mem, p + 1);
      && text[p] == '{' && p + 1 < |text| && Inv(s) && Parse(s) == Create(text, mem)
      && s.mem[s.obj].sibling == Null && s.mem[s.obj].kind == OBJ
  {
    hide Parse, GoBlank;
  }

  lemma OneRow(t: string, p: nat, end: nat, rows: seq<Row>)
    requires Closes(t, p, end, rows, [false])
    ensures |rows| == 1 && ValidRow(rows[0], false) && StandsAt(t, p, LayRow(rows[0]) + ['}'])
    ensures end == p + |LayRow(rows[0])| + 1
  {
    hide ValidRow, LayRow, StandsAt;
    assert rows[1..] == [] && [false][1..] == [];
    assert LayRows(rows, [false]) == LayRow(rows[0]) + ['}'] + "";
    assert LayRow(rows[0]) + ['}'] + "" == LayRow(rows[0]) + ['}'];
  }
}
