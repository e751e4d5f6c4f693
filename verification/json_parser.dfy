/** The parser of tiny-json: it works inside the text, keeps no stack, and borrows the sibling link
    of an open block as the link to its parent. One step is one turn of the parser's loop. */
module TinyJson {
  import opened Bytes
  import opened JsonChars

  /** Text in memory, terminated by NUL. */
  type Memory = t: string | |t| > 0 && t[|t| - 1] == NUL witness "\0"

  datatype Pointer = Null | Char(i: nat) | Ref(n: nat)

  datatype Kind = OBJ | ARRAY | TEXT | BOOLEAN | INTEGER | REAL | NULLTYPE

  /** The fields value and child share u. */
  datatype Node = Node(sibling: Pointer, name: Pointer, u: Pointer, last: Pointer, kind: Kind)

  /* ---- characters ---- */

  predicate Blank(c: char) {
    c == ' ' || c == '\n' || c == '\r' || c == '\t' || c == FORM_FEED
  }

  predicate EndOfBlock(c: char) {
    c == '}' || c == ']'
  }

  /** The bracket that ends a block. */
  function EndBracket(isArray: bool): char {
    if isArray then ']' else '}'
  }

  predicate EndOfPrimitive(c: char) {
    c == ',' || Blank(c) || EndOfBlock(c)
  }

  predicate IsHex(c: char) {
    IsDigit(c) || 'a' <= c <= 'f' || 'A' <= c <= 'F'
  }

  function Unescape(c: char): char {
    if c == '\"' || c == '\\' || c == '/' then c
    else if c == 'b' then BACKSPACE
    else if c == 'f' then FORM_FEED
    else if c == 'n' then '\n'
    else if c == 'r' then '\r'
    else if c == 't' then '\t'
    else NUL
  }

  /* ---- scanning ---- */

  /** The first character from p on that is not blank, unless the text ends before. */
  function GoBlank(t: Memory, p: nat): (r: Option<nat>)
    requires p < |t|
    ensures r.Some? ==> p <= r.value < |t| && t[r.value] != NUL && !Blank(t[r.value])
    decreases |t| - p
  {
    if t[p] == NUL then None
    else if !Blank(t[p]) then Some(p)
    else GoBlank(t, p + 1)
  }

  function GoNum(t: Memory, p: nat): (r: Option<nat>)
    requires p < |t|
    ensures r.Some? ==> p <= r.value < |t| && t[r.value] != NUL && !IsDigit(t[r.value])
    ensures r.Some? ==> forall k :: p <= k < r.value ==> IsDigit(t[k])
    decreases |t| - p
  {
    if t[p] == NUL then None
    else if !IsDigit(t[p]) then Some(p)
    else GoNum(t, p + 1)
  }

  predicate Hex4(t: Memory, p: nat)
    requires p < |t|
  {
    && IsHex(t[p])
    && p + 1 < |t| && IsHex(t[p + 1])
    && p + 2 < |t| && IsHex(t[p + 2])
    && p + 3 < |t| && IsHex(t[p + 3])
  }

  datatype Scan = Scan(text: Memory, ptr: nat)

  /** The text differs only between two positions. */
  predicate SameOutside(t: string, r: string, from: nat, to: nat) {
    |r| == |t| && forall k :: 0 <= k < |t| && !(from <= k < to) ==> r[k] == t[k]
  }

  /** Replace escapes by what they mean, moving the characters from head back to tail, up to the
      quotation mark, which becomes a NUL. */
  function ParseString(t: Memory, head: nat, tail: nat): (r: Option<Scan>)
    requires tail <= head < |t|
    ensures r.Some? ==> head < r.value.ptr < |t| && SameOutside(t, r.value.text, tail, r.value.ptr)
    decreases |t| - head
  {
    if t[head] < ' ' then None
    else if t[head] == '\"' then Some(Scan(t[tail := NUL], head + 1))
    else if t[head] == '\\' then
      if t[head + 1] == 'u' then
        if Hex4(t, head + 2) then ParseString(t[tail := '?'], head + 6, tail + 1) else None
      else if Unescape(t[head + 1]) == NUL then None
      else ParseString(t[tail := Unescape(t[head + 1])], head + 2, tail + 1)
    else ParseString(t[tail := t[head]], head + 1, tail + 1)
  }

  datatype Named = Named(text: Memory, name: Pointer, ptr: nat)

  /** The name of a property, its colon and the blanks around it. */
  function PropertyName(t: Memory, p: nat): (r: Option<Named>)
    requires p < |t| && t[p] != NUL
    ensures r.Some? ==> p < r.value.ptr < |t| && SameOutside(t, r.value.text, p, r.value.ptr)
  {
    match ParseString(t, p + 1, p + 1)
    case None => None
    case Some(s) =>
      match GoBlank(s.text, s.ptr)
      case None => None
      case Some(q) =>
        if s.text[q] != ':' then None
        else
          match GoBlank(s.text, q + 1)
          case None => None
          case Some(v) => Some(Named(s.text, Char(p + 1), v))
  }

  /** The position behind the word, if it is there. */
  function CheckStr(t: Memory, p: nat, word: string): (r: Option<nat>)
    requires p < |t|
    requires forall i :: 0 <= i < |word| ==> word[i] != NUL
    ensures r.Some? ==> r.value == p + |word| < |t|
    decreases |word|
  {
    if word == "" then Some(p)
    else if t[p] != word[0] then None
    else CheckStr(t, p + 1, word[1..])
  }

  /** Terminate the value that ends before p; a bracket stays for the loop to see. */
  function SetToNull(t: Memory, p: nat): (r: Scan)
    requires p < |t| && EndOfPrimitive(t[p])
    ensures p <= r.ptr < |t| && SameOutside(t, r.text, p, r.ptr)
  {
    if EndOfBlock(t[p]) then Scan(t, p) else Scan(t[p := NUL], p + 1)
  }

  function PrimitiveValue(t: Memory, p: nat, word: string): (r: Option<Scan>)
    requires p < |t|
    requires forall i :: 0 <= i < |word| ==> word[i] != NUL
    ensures r.Some? ==> p + |word| <= r.value.ptr < |t| && SameOutside(t, r.value.text, p, r.value.ptr)
  {
    match CheckStr(t, p, word)
    case None => None
    case Some(q) => if EndOfPrimitive(t[q]) then Some(SetToNull(t, q)) else None
  }

  /* ---- numbers ---- */

  function FraqValue(t: Memory, p: nat): (r: Option<nat>)
    requires p < |t|
    ensures r.Some? ==> p < r.value < |t|
  {
    if !IsDigit(t[p]) then None else GoNum(t, p + 1)
  }

  function ExpValue(t: Memory, p: nat): (r: Option<nat>)
    requires p < |t|
    ensures r.Some? ==> p < r.value < |t|
  {
    var q := if t[p] == '-' || t[p] == '+' then p + 1 else p;
    if !IsDigit(t[q]) then None else GoNum(t, q + 1)
  }

  /** Behind the integer part. */
  function IntegerPart(t: Memory, p: nat): (r: Option<nat>)
    requires p < |t|
    ensures r.Some? ==> p < r.value < |t|
  {
    var q := if t[p] == '-' then p + 1 else p;
    if !IsDigit(t[q]) then None
    else if t[q] != '0' then GoNum(t, q)
    else if IsDigit(t[q + 1]) then None
    else Some(q + 1)
  }

  datatype Lexeme = Lexeme(end: nat, kind: Kind)

  /** Where the number ends, and whether it has a fraction or an exponent. */
  function Number(t: Memory, p: nat): (r: Option<Lexeme>)
    requires p < |t|
    ensures r.Some? ==> p < r.value.end < |t| && EndOfPrimitive(t[r.value.end])
  {
    match IntegerPart(t, p)
    case None => None
    case Some(a) =>
      match if t[a] == '.' then FraqValue(t, a + 1) else Some(a)
      case None => None
      case Some(b) =>
        match if t[b] == 'e' || t[b] == 'E' then ExpValue(t, b + 1) else Some(b)
        case None => None
        case Some(e) =>
          if !EndOfPrimitive(t[e]) then None
          else Some(Lexeme(e, if a == e then INTEGER else REAL))
  }

  /** The sign of strcmp. */
  function StrCmp(a: string, b: string): int {
    if a == "" then (if b == "" then 0 else -1)
    else if b == "" then 1
    else if a[0] != b[0] then a[0] as int - b[0] as int
    else StrCmp(a[1..], b[1..])
  }

  const MIN_TEXT := "-9223372036854775808"
  const MAX_TEXT := "9223372036854775807"

  /** Whether the parser lets an integer pass: by its length, and by a string comparison if it is
      as long as the bound. */
  predicate Fits(value: string) {
    var bound := if value != "" && value[0] == '-' then MIN_TEXT else MAX_TEXT;
    |value| < |bound| || (|value| == |bound| && StrCmp(bound, value) >= 0)
  }

  function NumValue(t: Memory, p: nat): (r: Option<(Scan, Kind)>)
    requires p < |t|
    ensures r.Some? ==> p < r.value.0.ptr < |t| && SameOutside(t, r.value.0.text, p, r.value.0.ptr)
  {
    match Number(t, p)
    case None => None
    case Some(n) =>
      if n.kind == INTEGER && !Fits(t[p..n.end]) then None
      else Some((SetToNull(t, n.end), n.kind))
  }

  /* ---- the nodes ---- */

  datatype State = State(text: Memory, mem: seq<Node>, free: nat, obj: nat, ptr: nat)

  datatype Outcome = Next(s: State) | Done(s: State) | Fail

  predicate IsBlock(k: Kind) {
    k == OBJ || k == ARRAY
  }

  /** Node i is an open block, and so is the one that its borrowed sibling link leads to. */
  ghost predicate Open(mem: seq<Node>, free: nat, i: nat)
    decreases i
  {
    && i < free <= |mem|
    && IsBlock(mem[i].kind)
    && (mem[i].u != Null ==> mem[i].last.Ref? && i < mem[i].last.n < free)
    && (mem[i].sibling == Null || (mem[i].sibling.Ref? && mem[i].sibling.n < i && Open(mem, free, mem[i].sibling.n)))
  }

  ghost predicate Inv(s: State) {
    s.ptr < |s.text| && Open(s.mem, s.free, s.obj)
  }

  /** Append node k to the children of block i. */
  function Add(mem: seq<Node>, i: nat, k: nat): (r: seq<Node>)
    requires i < k < |mem| && (mem[i].u != Null ==> mem[i].last.Ref? && i < mem[i].last.n < k)
    ensures |r| == |mem|
    ensures r[k] == mem[k].(sibling := Null)
    ensures r[i] == mem[i].(u := if mem[i].u == Null then Ref(k) else mem[i].u, last := Ref(k))
    ensures mem[i].u != Null ==> r[mem[i].last.n] == mem[mem[i].last.n].(sibling := Ref(k))
    ensures forall j ::
      0 <= j < |mem| && j != k && j != i && (mem[i].u != Null ==> j != mem[i].last.n) ==> r[j] == mem[j]
  {
    var m := mem[k := mem[k].(sibling := Null)];
    if m[i].u == Null then m[i := m[i].(u := Ref(k), last := Ref(k))]
    else
      var l := m[i].last.n;
      var m1 := m[l := m[l].(sibling := Ref(k))];
      m1[i := m1[i].(last := Ref(k))]
  }

  /** The value of the new node k, at s.ptr. */
  function ParseValue(s: State, k: nat): (r: Outcome)
    requires s.ptr < |s.text| && s.text[s.ptr] != NUL && k < |s.mem|
    ensures !r.Done?
  {
    var p := s.ptr;
    var c := s.text[p];
    if c == '{' || c == '[' then
      Next(s.(mem := s.mem[k := s.mem[k].(kind := if c == '{' then OBJ else ARRAY, u := Null, sibling := Ref(s.obj))],
              obj := k, ptr := p + 1))
    else if c == '\"' then
      match ParseString(s.text, p + 1, p + 1)
      case None => Fail
      case Some(v) => Next(Leaf(s, k, v, Char(p + 1), TEXT))
    else if c == 't' || c == 'f' || c == 'n' then
      match PrimitiveValue(s.text, p, if c == 't' then "true" else if c == 'f' then "false" else "null")
      case None => Fail
      case Some(v) => Next(Leaf(s, k, v, Char(p), if c == 'n' then NULLTYPE else BOOLEAN))
    else
      match NumValue(s.text, p)
      case None => Fail
      case Some(v) => Next(Leaf(s, k, v.0, Char(p), v.1))
  }

  function Leaf(s: State, k: nat, v: Scan, value: Pointer, kind: Kind): State
    requires k < |s.mem|
  {
    s.(text := v.text, ptr := v.ptr, mem := s.mem[k := s.mem[k].(u := value, kind := kind)])
  }

  /** The name in front of a value: none in an array. */
  function Head(t: Memory, p: nat, kind: Kind): (r: Option<Named>)
    requires p < |t| && t[p] != NUL
    ensures r.Some? ==> p <= r.value.ptr < |t| && SameOutside(t, r.value.text, p, r.value.ptr)
    ensures r.Some? ==> r.value.text[r.value.ptr] != NUL
  {
    if kind == ARRAY then Some(Named(t, Null, p))
    else if t[p] != '\"' then None
    else
      match PropertyName(t, p)
      case None => None
      case Some(n) => Some(n)
  }

  /** One turn of the loop. */
  function Step(s: State): Outcome
    requires Inv(s)
  {
    match GoBlank(s.text, s.ptr)
    case None => Fail
    case Some(p) =>
      var o := s.mem[s.obj];
      if s.text[p] == ',' then Next(s.(ptr := p + 1))
      else if s.text[p] == EndBracket(o.kind == ARRAY) then
        var t := s.(text := s.text[p := NUL], ptr := p + 1);
        if o.sibling == Null then Done(t)
        else Next(t.(mem := s.mem[s.obj := o.(sibling := Null)], obj := o.sibling.n))
      else if s.free >= |s.mem| then Fail
      else
        match Head(s.text, p, o.kind)
        case None => Fail
        case Some(h) =>
          var k := s.free;
          var named := s.mem[k := s.mem[k].(name := h.name)];
          ParseValue(s.(text := h.text, mem := Add(named, s.obj, k), free := k + 1, ptr := h.ptr), k)
  }

  /* ---- the invariant ---- */

  /** Only nodes that are not on the way to the root have changed, and later ones. */
  lemma {:induction false} OpenFrame(mem: seq<Node>, free: nat, r: seq<Node>, rfree: nat, i: nat)
    requires Open(mem, free, i) && free <= rfree <= |r|
    requires forall j :: 0 <= j <= i ==> r[j] == mem[j]
    ensures Open(r, rfree, i)
    decreases i
  {
    if mem[i].sibling != Null {
      OpenFrame(mem, free, r, rfree, mem[i].sibling.n);
    }
  }

  /** The new node is the last child of the open block. */
  lemma AddOpen(mem: seq<Node>, i: nat, k: nat)
    requires Open(mem, k, i) && k < |mem|
    ensures Open(Add(mem, i, k), k + 1, i)
  {
    if mem[i].sibling != Null {
      OpenFrame(mem, k, Add(mem, i, k), k + 1, mem[i].sibling.n);
    }
  }

  /** What a step does once it has made node k and read its name. */
  lemma ValueKeeps(s: State, k: nat)
    requires s.ptr < |s.text| && s.text[s.ptr] != NUL && s.obj < k < |s.mem| && k + 1 == s.free
    requires Open(s.mem, s.free, s.obj)
    ensures var r := ParseValue(s, k);
      r.Next? ==> Inv(r.s) && r.s.ptr > s.ptr && |r.s.text| == |s.text|
  {
    var r := ParseValue(s, k);
    if r.Next? {
      OpenFrame(s.mem, s.free, r.s.mem, s.free, s.obj);
    }
  }

  /** Every step, on any text, stays within the text and the pool and moves on. */
  lemma StepKeeps(s: State)
    requires Inv(s)
    ensures var r := Step(s);
      && (r.Next? ==> Inv(r.s) && r.s.ptr > s.ptr && |r.s.text| == |s.text|)
      && (r.Done? ==> s.ptr < r.s.ptr <= |s.text| && |r.s.text| == |s.text|)
  {
    hide ParseValue, Head;
    var p := GoBlank(s.text, s.ptr);
    if p.Some? {
      var o := s.mem[s.obj];
      if s.text[p.value] != ',' {
        if s.text[p.value] == EndBracket(o.kind == ARRAY) {
          if o.sibling != Null {
            OpenFrame(s.mem, s.free, s.mem[s.obj := o.(sibling := Null)], s.free, o.sibling.n);
          }
        } else if s.free < |s.mem| {
          var h := Head(s.text, p.value, o.kind);
          if h.Some? {
            var named := s.mem[s.free := s.mem[s.free].(name := h.value.name)];
            OpenFrame(s.mem, s.free, named, s.free, s.obj);
            AddOpen(named, s.obj, s.free);
            ValueKeeps(s.(text := h.value.text, mem := Add(named, s.obj, s.free), free := s.free + 1,
                ptr := h.value.ptr), s.free);
          }
        }
      }
    }
  }

  /** The whole loop. */
  ghost function Parse(s: State): Outcome
    requires Inv(s)
    decreases |s.text| - s.ptr
  {
    StepKeeps(s);
    var r := Step(s);
    if r.Next? then Parse(r.s) else r
  }

  /** Parse an object: the root is the first node of the pool. */
  ghost function Create(text: Memory, mem: seq<Node>): Outcome
    requires |mem| > 0
  {
    match GoBlank(text, 0)
    case None => Fail
    case Some(p) =>
      if text[p] != '{' then Fail
      else
        var root := Node(Null, Null, Null, mem[0].last, OBJ);
        Parse(State(text, mem[0 := root], 1, 0, p + 1))
  }
}
