/** JSON documents and the text that json-maker prints for them. */
module JsonDocument {
  import opened Bytes
  import opened JsonChars

  /** A value; a block is an object, or an array if its items have no names. */
  datatype Value = Text(s: string) | Int(n: int) | Bool(b: bool) | Nothing | Block(isArray: bool, items: List)

  datatype List = Nil | Cons(name: Option<string>, value: Value, tail: List)

  /* ---- what can be printed ---- */

  predicate PlainChar(c: char) {
    ' ' <= c <= LAST && c != '\"' && c != '\\'
  }

  /** Names are printed as they are. */
  predicate Plain(name: string) {
    forall i :: 0 <= i < |name| ==> PlainChar(name[i])
  }

  predicate ByteText(s: string) {
    forall i :: 0 <= i < |s| ==> IsByte(s[i])
  }

  predicate ValidValue(v: Value) {
    match v
    case Text(s) => ByteText(s)
    case Int(n) => INT64_MIN <= n <= INT64_MAX
    case Block(isArray, items) => ValidList(items, isArray)
    case _ => true
  }

  predicate ValidList(items: List, isArray: bool) {
    match items
    case Nil => true
    case Cons(name, value, tail) =>
      && name.None? == isArray && (name.Some? ==> Plain(name.value))
      && ValidValue(value) && ValidList(tail, isArray)
  }

  /** What the writers take: any names, and values without restrictions on their shape. */
  predicate Writable(v: Value) {
    match v
    case Text(s) => ByteText(s)
    case Block(_, items) => WritableList(items)
    case _ => true
  }

  predicate WritableList(items: List) {
    match items
    case Nil => true
    case Cons(_, value, tail) => Writable(value) && WritableList(tail)
  }

  /** The nodes that a value takes. */
  function Size(v: Value): (n: nat)
    ensures n >= 1
  {
    match v
    case Block(_, items) => 1 + SizeList(items)
    case _ => 1
  }

  function SizeList(items: List): nat {
    match items
    case Nil => 0
    case Cons(_, value, tail) => Size(value) + SizeList(tail)
  }

  /* ---- numbers ---- */

  function DigitChar(d: int): (c: char)
    requires 0 <= d <= 9
    ensures IsDigit(c) && c as int - '0' as int == d
  {
    ('0' as int + d) as char
  }

  function Digits(n: nat): (s: string)
    ensures |s| >= 1
    ensures forall i :: 0 <= i < |s| ==> IsDigit(s[i])
    ensures n > 0 ==> s[0] != '0'
    ensures n == 0 ==> s == "0"
  {
    if n < 10 then [DigitChar(n)] else Digits(n / 10) + [DigitChar(n % 10)]
  }

  function Decimal(n: int): string {
    if n < 0 then "-" + Digits(-n) else Digits(n)
  }

  /* ---- escapes ---- */

  /** The letter that stands for a character behind a backslash, or NUL if there is none. */
  function EscapeLetter(c: char): char {
    if c == '\"' || c == '\\' || c == '/' then c
    else if c == BACKSPACE then 'b'
    else if c == FORM_FEED then 'f'
    else if c == '\n' then 'n'
    else if c == '\r' then 'r'
    else if c == '\t' then 't'
    else NUL
  }

  function HexDigit(nibble: nat): char {
    "0123456789ABCDEF"[nibble % 16]
  }

  function EscapeChar(c: char): string {
    if c >= ' ' && c != '\"' && c != '\\' && c != '/' then [c]
    else if EscapeLetter(c) != NUL then ['\\', EscapeLetter(c)]
    else ['\\', 'u', '0', '0', HexDigit(c as int / 16), HexDigit(c as int)]
  }

  function Escape(s: string): string {
    if s == "" then "" else EscapeChar(s[0]) + Escape(s[1..])
  }

  /** The reader turns every \u escape into a question mark. */
  function BlurChar(c: char): char {
    if c >= ' ' || EscapeLetter(c) != NUL then c else '?'
  }

  function Blur(s: string): (r: string)
    ensures |r| == |s|
  {
    seq(|s|, i requires 0 <= i < |s| => BlurChar(s[i]))
  }

  /** Text that survives: printable characters and those with a letter of their own. */
  predicate Sharp(s: string) {
    forall i :: 0 <= i < |s| ==> s[i] >= ' ' || EscapeLetter(s[i]) != NUL
  }

  /* ---- the printed text ---- */

  function NamePart(name: Option<string>): string {
    match name
    case None => ""
    case Some(n) => "\"" + n + "\":"
  }

  function Opener(isArray: bool): char {
    if isArray then '[' else '{'
  }

  function Closer(isArray: bool): char {
    if isArray then ']' else '}'
  }

  function Print(v: Value): string {
    match v
    case Text(s) => "\"" + Escape(s) + "\""
    case Int(n) => Decimal(n)
    case Bool(b) => if b then "true" else "false"
    case Nothing => "null"
    case Block(isArray, items) => [Opener(isArray)] + PrintList(items) + [Closer(isArray)]
  }

  function PrintList(items: List): string {
    match items
    case Nil => ""
    case Cons(name, value, tail) =>
      NamePart(name) + Print(value) + if tail.Nil? then "" else "," + PrintList(tail)
  }
}
