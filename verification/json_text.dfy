/** JSON texts after RFC 8259: values with every choice that a writer has, that is blanks between
    the tokens, the spelling of strings and of numbers. All characters are given literally. */
module JsonText {
  import opened Bytes
  import opened JsonChars

  /* ---- strings ---- */

  /** A character of a string: as it is, behind a backslash, or as four hexadecimal digits. */
  datatype Piece = Plain(c: char) | Short(letter: char) | Code(a: char, b: char, c3: char, d: char)

  function Spelling(p: Piece): (s: string)
    ensures |s| >= 1
  {
    match p
    case Plain(c) => [c]
    case Short(letter) => ['\\', letter]
    case Code(a, b, c, d) => ['\\', 'u', a, b, c, d]
  }

  predicate IsHexDigit(c: char) {
    '0' <= c <= '9' || 'a' <= c <= 'f' || 'A' <= c <= 'F'
  }

  predicate ValidPiece(p: Piece) {
    match p
    case Plain(c) => ' ' <= c <= LAST && c != '\"' && c != '\\'
    case Short(l) => l == '\"' || l == '\\' || l == '/' || l == 'b' || l == 'f' || l == 'n' || l == 'r' || l == 't'
    case Code(a, b, c, d) => IsHexDigit(a) && IsHexDigit(b) && IsHexDigit(c) && IsHexDigit(d)
  }

  /** The character behind a letter. */
  function ShortFor(letter: char): char {
    match letter
    case 'b' => '\U{08}'
    case 'f' => '\U{0C}'
    case 'n' => '\U{0A}'
    case 'r' => '\U{0D}'
    case 't' => '\U{09}'
    case _ => letter
  }

  function HexValue(c: char): nat
    requires IsHexDigit(c)
  {
    if c <= '9' then c as int - '0' as int
    else if c <= 'F' then 10 + (c as int - 'A' as int)
    else 10 + (c as int - 'a' as int)
  }

  /** The code point that a piece stands for. */
  function CodePoint(p: Piece): nat
    requires ValidPiece(p)
  {
    match p
    case Plain(c) => c as int
    case Short(letter) => ShortFor(letter) as int
    case Code(a, b, c, d) => ((HexValue(a) * 16 + HexValue(b)) * 16 + HexValue(c)) * 16 + HexValue(d)
  }

  /** The character that the reader makes of it: a question mark for every code. */
  function ReadAs(p: Piece): char {
    match p
    case Plain(c) => c
    case Short(letter) => ShortFor(letter)
    case Code(_, _, _, _) => '?'
  }

  function Spell(ps: seq<Piece>): (s: string)
    ensures |s| >= |ps|
  {
    if ps == [] then "" else Spelling(ps[0]) + Spell(ps[1..])
  }

  predicate ValidPieces(ps: seq<Piece>) {
    forall i :: 0 <= i < |ps| ==> ValidPiece(ps[i])
  }

  function ReadPieces(ps: seq<Piece>): (s: string)
    ensures |s| == |ps|
  {
    seq(|ps|, i requires 0 <= i < |ps| => ReadAs(ps[i]))
  }

  /* ---- numbers ---- */

  predicate AreDigits(s: string) {
    s != "" && forall i :: 0 <= i < |s| ==> '0' <= s[i] <= '9'
  }

  /** The parts of a number, as they are written: sign and integer, digits behind the point, and
      what stands behind an e. */
  datatype Numeral = Numeral(minus: bool, whole: string, fraction: Option<string>, exponent: Option<Exponent>)

  datatype Exponent = Exponent(e: char, sign: string, digits: string)

  predicate ValidNumeral(n: Numeral) {
    && AreDigits(n.whole) && (n.whole[0] == '0' ==> |n.whole| == 1)
    && (n.fraction.Some? ==> AreDigits(n.fraction.value))
    && (n.exponent.Some? ==> ValidExponent(n.exponent.value))
  }

  predicate ValidExponent(x: Exponent) {
    (x.e == 'e' || x.e == 'E') && (x.sign == "" || x.sign == "+" || x.sign == "-") && AreDigits(x.digits)
  }

  function SpellWhole(n: Numeral): string {
    (if n.minus then "-" else "") + n.whole
  }

  function SpellFraction(f: Option<string>): string {
    match f
    case None => ""
    case Some(d) => "." + d
  }

  function SpellExponent(x: Option<Exponent>): string {
    match x
    case None => ""
    case Some(x) => [x.e] + x.sign + x.digits
  }

  function SpellNumber(n: Numeral): string {
    SpellWhole(n) + SpellFraction(n.fraction) + SpellExponent(n.exponent)
  }

  predicate IsWhole(n: Numeral) {
    n.fraction.None? && n.exponent.None?
  }

  /* ---- values ---- */

  datatype Tree = Text(ps: seq<Piece>) | Num(n: Numeral) | Bool(b: bool) | Nothing | Block(isArray: bool, items: Items)

  /** The name of an item with the blanks around its colon. */
  datatype Name = Name(ps: seq<Piece>, before: string, after: string)

  /** Items with the blanks in front of them and behind them; the blanks of an empty block. */
  datatype Items =
    | Nil(gap: string)
    | Cons(before: string, name: Option<Name>, value: Tree, after: string, tail: Items)

  function NamePart(name: Option<Name>): string {
    match name
    case None => ""
    case Some(n) => "\"" + Spell(n.ps) + "\"" + n.before + ":" + n.after
  }

  function Lay(v: Tree): string {
    match v
    case Text(ps) => "\"" + Spell(ps) + "\""
    case Num(n) => SpellNumber(n)
    case Bool(b) => if b then "true" else "false"
    case Nothing => "null"
    case Block(isArray, items) => (if isArray then "[" else "{") + LayItems(items) + (if isArray then "]" else "}")
  }

  function LayItems(items: Items): string {
    match items
    case Nil(gap) => gap
    case Cons(before, name, value, after, tail) =>
      before + NamePart(name) + Lay(value) + after + if tail.Nil? then "" else "," + LayItems(tail)
  }

  /** Space, line feed, carriage return, tabulator, and the form feed that tiny-json allows as well. */
  predicate Gap(s: string) {
    forall i :: 0 <= i < |s| ==> s[i] in ['\U{20}', '\U{0A}', '\U{0D}', '\U{09}', '\U{0C}']
  }

  predicate ValidName(n: Name) {
    ValidPieces(n.ps) && Gap(n.before) && Gap(n.after)
  }

  /** Integers have to fit into 64 bits; other numbers are kept as they are written. */
  predicate ValidTree(v: Tree) {
    match v
    case Text(ps) => ValidPieces(ps)
    case Num(n) => ValidNumeral(n) && (IsWhole(n) ==> INT64_MIN <= WholeValue(n) <= INT64_MAX)
    case Block(isArray, items) => ValidItems(items, isArray)
    case _ => true
  }

  predicate ValidItems(items: Items, isArray: bool) {
    match items
    case Nil(gap) => Gap(gap)
    case Cons(before, name, value, after, tail) =>
      && Gap(before) && Gap(after) && (tail.Nil? ==> tail.gap == "")
      && name.None? == isArray && (name.Some? ==> ValidName(name.value))
      && ValidTree(value) && ValidItems(tail, isArray)
  }

  /** The number that decimal digits stand for. */
  function DecimalOf(s: string): nat
    requires forall i :: 0 <= i < |s| ==> '0' <= s[i] <= '9'
  {
    if s == "" then 0 else DecimalOf(s[..|s| - 1]) * 10 + (s[|s| - 1] as int - '0' as int)
  }

  function WholeValue(n: Numeral): int
    requires ValidNumeral(n)
  {
    if n.minus then 0 - DecimalOf(n.whole) else DecimalOf(n.whole)
  }

  /** The nodes that a value takes. */
  function Size(v: Tree): (n: nat)
    ensures n >= 1
  {
    match v
    case Block(_, items) => 1 + SizeItems(items)
    case _ => 1
  }

  function SizeItems(items: Items): nat {
    match items
    case Nil(_) => 0
    case Cons(_, _, value, _, tail) => Size(value) + SizeItems(tail)
  }
}
