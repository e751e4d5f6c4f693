/** The writers of json-maker: each appends to a terminated string in a buffer and returns where it
    now ends. The caller provides the room, as in C. */
module JsonMaker {
  import opened Bytes
  import opened JsonChars
  import opened JsonDocument

  /** Behind dest, piece has been written and terminated; nothing else has changed. */
  ghost predicate Appended(before: string, after: string, dest: nat, piece: string, r: nat) {
    && r == dest + |piece| < |after| == |before|
    && after[..r] == before[..dest] + piece
    && after[r] == NUL
    && after[r + 1..] == before[r + 1..]
  }

  lemma AppendedTwice(a: string, b: string, c: string, dest: nat, p: string, q: string, m: nat, r: nat)
    requires Appended(a, b, dest, p, m) && Appended(b, c, m, q, r)
    ensures Appended(a, c, dest, p + q, r)
  {
    assert b[r + 1..] == b[m + 1..][r - m..] == a[m + 1..][r - m..] == a[r + 1..];
    assert c[..r] == a[..dest] + (p + q);
  }

  method Chtoa(buf: array<char>, dest: nat, c: char) returns (r: nat)
    requires dest + 1 < buf.Length
    modifies buf
    ensures Appended(old(buf[..]), buf[..], dest, [c], r)
  {
    buf[dest] := c;
    buf[dest + 1] := NUL;
    r := dest + 1;
  }

  /** Copy a string. */
  method Atoa(buf: array<char>, dest: nat, src: string) returns (r: nat)
    requires dest + |src| < buf.Length
    modifies buf
    ensures Appended(old(buf[..]), buf[..], dest, src, r)
  {
    r := dest;
    for i := 0 to |src|
      invariant r == dest + i
      invariant buf[..r] == old(buf[..dest]) + src[..i]
      invariant buf[dest + |src|..] == old(buf[dest + |src|..])
    {
      buf[r] := src[i];
      r := r + 1;
    }
    buf[r] := NUL;
    assert src[..|src|] == src;
    ghost var a, o := buf[..], old(buf[..]);
    assert o[r + 1..] == old(buf[dest + |src|..])[1..];
  }

  /** Look a character up in the table of escapes. */
  method FindEscape(c: char) returns (letter: char)
    ensures letter == EscapeLetter(c)
  {
    var table := [('\"', '\"'), ('\\', '\\'), ('/', '/'), ('b', BACKSPACE), ('f', FORM_FEED), ('n', '\n'),
        ('r', '\r'), ('t', '\t')];
    for i := 0 to |table|
      invariant forall j :: 0 <= j < i ==> table[j].1 != c
    {
      if table[i].1 == c {
        return table[i].0;
      }
    }
    assert table[0].1 != c && table[1].1 != c && table[2].1 != c && table[3].1 != c;
    assert table[4].1 != c && table[5].1 != c && table[6].1 != c && table[7].1 != c;
    return NUL;
  }

  /** One character as it is, behind a backslash, or as its code. */
  method PutEscaped(buf: array<char>, dest: nat, c: char) returns (r: nat)
    requires IsByte(c) && dest + |EscapeChar(c)| < buf.Length
    modifies buf
    ensures r == dest + |EscapeChar(c)| && buf[..r] == old(buf[..dest]) + EscapeChar(c)
    ensures buf[r..] == old(buf[..])[r..]
  {
    hide EscapeLetter, HexDigit;
    r := dest;
    if c >= ' ' && c != '\"' && c != '\\' && c != '/' {
      buf[r] := c;
      r := r + 1;
    } else {
      buf[r] := '\\';
      var letter := FindEscape(c);
      if letter != NUL {
        buf[r + 1] := letter;
        r := r + 2;
      } else {
        buf[r + 1], buf[r + 2], buf[r + 3] := 'u', '0', '0';
        buf[r + 4] := HexDigit(c as int / 16);
        buf[r + 5] := HexDigit(c as int);
        r := r + 6;
      }
    }
  }

  /** Copy a string with escapes where they are needed. */
  method Atoesc(buf: array<char>, dest: nat, src: string) returns (r: nat)
    requires ByteText(src) && dest + |Escape(src)| < buf.Length
    modifies buf
    ensures Appended(old(buf[..]), buf[..], dest, Escape(src), r)
  {
    hide EscapeChar, Escape;
    r := dest;
    ghost var e, o := Escape(src), old(buf[..]);
    EscapeNothing(src);
    for i := 0 to |src|
      invariant e == Escape(src[..i]) + Escape(src[i..])
      invariant r == dest + |Escape(src[..i])|
      invariant buf[..r] == o[..dest] + Escape(src[..i])
      invariant buf[r..] == o[r..]
    {
      EscapeStep(src, i);
      r := PutEscaped(buf, r, src[i]);
    }
    EscapeNothing(src);
    buf[r] := NUL;
  }

  lemma EscapeNothing(src: string)
    ensures src[..0] == "" && src[0..] == src && src[..|src|] == src && src[|src|..] == "" && Escape("") == ""
  {}

  lemma EscapeStep(src: string, i: nat)
    requires i < |src|
    ensures Escape(src[..i + 1]) == Escape(src[..i]) + EscapeChar(src[i])
    ensures Escape(src[i..]) == EscapeChar(src[i]) + Escape(src[i + 1..])
  {
    EscapeSnoc(src[..i], src[i]);
    assert src[..i + 1] == src[..i] + [src[i]];
    assert src[i..][1..] == src[i + 1..];
  }

  lemma {:induction false} EscapeSnoc(s: string, c: char)
    ensures Escape(s + [c]) == Escape(s) + EscapeChar(c)
  {
    if s == "" {
      assert (s + [c])[1..] == "";
    } else {
      assert (s + [c])[1..] == s[1..] + [c];
      EscapeSnoc(s[1..], c);
    }
  }

  /* ---- numbers ---- */

  function Reversed(s: string): (r: string)
    ensures |r| == |s|
  {
    seq(|s|, i requires 0 <= i < |s| => s[|s| - 1 - i])
  }

  lemma ReversedSnoc(s: string, c: char)
    ensures Reversed(s + [c]) == [c] + Reversed(s)
  {}

  /** Put the digits in order, which have been written from the last to the first, with a sign in front. */
  method Format(buf: array<char>, dest: nat, digits: nat, negative: bool) returns (r: nat)
    requires digits > 0 && dest + digits + (if negative then 1 else 0) < buf.Length
    modifies buf
    ensures Appended(old(buf[..]), buf[..], dest,
        (if negative then "-" else "") + Reversed(old(buf[dest..dest + digits])), r)
  {
    var len := digits;
    if negative {
      buf[dest + len] := '-';
      len := len + 1;
    }
    buf[dest + len] := NUL;
    ghost var w := buf[dest..dest + len];
    ghost var d := old(buf[dest..dest + digits]);
    assert w == if negative then d + "-" else d;
    ReverseInPlace(buf, dest, len);
    if negative {
      ReversedSnoc(d, '-');
    }
    r := dest + len;
    assert buf[..r] == buf[..dest] + buf[dest..r];
  }

  method ReverseInPlace(buf: array<char>, dest: nat, len: nat)
    requires len > 0 && dest + len <= buf.Length
    modifies buf
    ensures buf[dest..dest + len] == Reversed(old(buf[dest..dest + len]))
    ensures buf[..dest] == old(buf[..dest]) && buf[dest + len..] == old(buf[dest + len..])
  {
    ghost var w := buf[dest..dest + len];
    var head, tail := dest, dest + len - 1;
    while head < tail
      invariant dest <= head <= tail + 1 <= dest + len && head + tail == dest + dest + len - 1
      invariant forall k :: dest <= k < head || tail < k < dest + len ==> buf[k] == w[len - 1 - (k - dest)]
      invariant forall k :: head <= k <= tail ==> buf[k] == w[k - dest]
      invariant buf[..dest] == old(buf[..dest]) && buf[dest + len..] == old(buf[dest + len..])
    {
      buf[head], buf[tail] := buf[tail], buf[head];
      head := head + 1;
      tail := tail - 1;
    }
    ghost var s := buf[dest..dest + len];
    forall k | 0 <= k < len
      ensures s[k] == w[len - 1 - k]
    {
      assert s[k] == buf[dest + k];
    }
    ReversedIs(s, w);
  }

  lemma ReversedIs(s: string, w: string)
    requires |s| == |w| && forall k :: 0 <= k < |w| ==> s[k] == w[|w| - 1 - k]
    ensures s == Reversed(w)
  {}

  lemma DigitsStep(n: nat)
    requires n > 0
    ensures Digits(n) == (if n / 10 == 0 then "" else Digits(n / 10)) + [DigitChar(n % 10)]
  {}

  /** The digits of a number, from the last to the first. */
  method WriteDigits(buf: array<char>, dest: nat, val: nat) returns (len: nat)
    requires val > 0 && dest + |Digits(val)| < buf.Length
    modifies buf
    ensures len == |Digits(val)| && Reversed(buf[dest..dest + len]) == Digits(val)
    ensures buf[..dest] == old(buf[..dest]) && buf[dest + len..] == old(buf[..])[dest + len..]
  {
    hide Digits, DigitChar, Reversed;
    ghost var o := buf[..];
    var num := val;
    len := 0;
    ghost var left, done := Digits(val), "";
    ReversedNothing();
    while num != 0
      invariant left == if num == 0 then "" else Digits(num)
      invariant len == |done| && len + |left| == |Digits(val)|
      invariant Digits(val) == left + Reversed(done)
      invariant forall j :: 0 <= j < len ==> buf[dest + j] == done[j]
      invariant forall j :: 0 <= j < dest || dest + len <= j < buf.Length ==> buf[j] == o[j]
      decreases num
    {
      DigitsStep(num);
      var c := DigitChar(num % 10);
      buf[dest + len] := c;
      len := len + 1;
      num := num / 10;
      ReversedSnoc(done, c);
      done := done + [c];
      ghost var before := left;
      left := left[..|left| - 1];
      assert before == left + [c];
    }
    assert buf[dest..dest + len] == done;
  }

  lemma ReversedNothing()
    ensures Reversed("") == ""
  {}

  /** Write a number. */
  method Numtoa(buf: array<char>, dest: nat, val: int) returns (r: nat)
    requires dest + |Decimal(val)| < buf.Length
    modifies buf
    ensures Appended(old(buf[..]), buf[..], dest, Decimal(val), r)
  {
    hide Digits, Reversed;
    if val == 0 {
      r := Chtoa(buf, dest, '0');
      ZeroDigits();
      return;
    }
    var negative := val < 0;
    var num := if negative then -val else val;
    ghost var o := buf[..];
    var len := WriteDigits(buf, dest, num);
    ghost var m := buf[..];
    r := Format(buf, dest, len, negative);
    AppendedOver(o, m, buf[..], dest, len, Decimal(val), r);
  }

  /** What is written over scratch characters is appended all the same. */
  lemma AppendedOver(a: string, b: string, c: string, dest: nat, scratch: nat, piece: string, r: nat)
    requires Appended(b, c, dest, piece, r) && |a| == |b| && dest + scratch <= r
    requires b[..dest] == a[..dest] && b[dest + scratch..] == a[dest + scratch..]
    ensures Appended(a, c, dest, piece, r)
  {
    var k := dest + scratch;
    assert b[r + 1..] == b[k..][r + 1 - k..] && a[r + 1..] == a[k..][r + 1 - k..];
  }

  lemma ZeroDigits()
    ensures Digits(0) == ['0']
  {}

  /* ---- the interface ---- */

  /** The name, its quotation marks and the colon, if there is a name. */
  method PutName(buf: array<char>, dest: nat, name: Option<string>) returns (r: nat)
    requires dest + |NamePart(name)| < buf.Length
    modifies buf
    ensures name.Some? ==> Appended(old(buf[..]), buf[..], dest, NamePart(name), r)
    ensures name.None? ==> buf[..] == old(buf[..]) && r == dest
  {
    r := dest;
    if name.Some? {
      ghost var b0 := buf[..];
      r := Chtoa(buf, dest, '\"');
      ghost var b1, r1 := buf[..], r;
      r := Atoa(buf, r, name.value);
      ghost var b2, r2 := buf[..], r;
      r := Atoa(buf, r, "\":");
      AppendedTwice(b0, b1, b2, dest, "\"", name.value, r1, r2);
      AppendedTwice(b0, b2, buf[..], dest, "\"" + name.value, "\":", r2, r);
    }
  }

  /** Put a name and then a piece behind it. */
  lemma NameThen(a: string, b: string, c: string, dest: nat, name: Option<string>, piece: string, m: nat, r: nat)
    requires name.Some? ==> Appended(a, b, dest, NamePart(name), m)
    requires name.None? ==> a == b && m == dest
    requires Appended(b, c, m, piece, r)
    ensures Appended(a, c, dest, NamePart(name) + piece, r)
  {
    hide Appended;
    if name.Some? {
      AppendedTwice(a, b, c, dest, NamePart(name), piece, m, r);
    } else {
      assert NamePart(name) + piece == piece;
    }
  }

  method OpenBlock(buf: array<char>, dest: nat, name: Option<string>, isArray: bool) returns (r: nat)
    requires dest + |NamePart(name)| + 1 < buf.Length
    modifies buf
    ensures Appended(old(buf[..]), buf[..], dest, NamePart(name) + [Opener(isArray)], r)
  {
    ghost var b0 := buf[..];
    r := PutName(buf, dest, name);
    ghost var b1, r1 := buf[..], r;
    r := Chtoa(buf, r, Opener(isArray));
    NameThen(b0, b1, buf[..], dest, name, [Opener(isArray)], r1, r);
  }

  /** Close a block: the comma behind the last item, if there is one, makes room for the bracket. */
  method CloseBlock(buf: array<char>, dest: nat, isArray: bool) returns (r: nat)
    requires 0 < dest <= buf.Length && (if buf[dest - 1] == ',' then dest - 1 else dest) + 2 < buf.Length
    modifies buf
    ensures Appended(old(buf[..]), buf[..], if old(buf[dest - 1]) == ',' then dest - 1 else dest,
        [Closer(isArray), ','], r)
  {
    var d := dest;
    if buf[d - 1] == ',' {
      d := d - 1;
    }
    r := Atoa(buf, d, [Closer(isArray), ',']);
  }

  method PutText(buf: array<char>, dest: nat, name: Option<string>, value: string) returns (r: nat)
    requires ByteText(value) && dest + |NamePart(name)| + |Print(Text(value))| + 1 < buf.Length
    modifies buf
    ensures Appended(old(buf[..]), buf[..], dest, NamePart(name) + (Print(Text(value)) + ","), r)
  {
    hide Escape;
    ghost var b0 := buf[..];
    r := PutName(buf, dest, name);
    ghost var b1, r1 := buf[..], r;
    r := Chtoa(buf, r, '\"');
    ghost var b2, r2 := buf[..], r;
    r := Atoesc(buf, r, value);
    ghost var b3, r3 := buf[..], r;
    r := Atoa(buf, r, "\",");
    AppendedTwice(b1, b2, b3, r1, "\"", Escape(value), r2, r3);
    AppendedTwice(b1, b3, buf[..], r1, "\"" + Escape(value), "\",", r3, r);
    assert ("\"" + Escape(value)) + "\"," == Print(Text(value)) + ",";
    NameThen(b0, b1, buf[..], dest, name, Print(Text(value)) + ",", r1, r);
  }

  method PutBool(buf: array<char>, dest: nat, name: Option<string>, value: bool) returns (r: nat)
    requires dest + |NamePart(name)| + |Print(Bool(value))| + 1 < buf.Length
    modifies buf
    ensures Appended(old(buf[..]), buf[..], dest, NamePart(name) + (Print(Bool(value)) + ","), r)
  {
    ghost var b0 := buf[..];
    r := PutName(buf, dest, name);
    ghost var b1, r1 := buf[..], r;
    var word := if value then "true," else "false,";
    r := Atoa(buf, r, word);
    assert word == Print(Bool(value)) + ",";
    NameThen(b0, b1, buf[..], dest, name, word, r1, r);
  }

  method PutNull(buf: array<char>, dest: nat, name: Option<string>) returns (r: nat)
    requires dest + |NamePart(name)| + |Print(Nothing)| + 1 < buf.Length
    modifies buf
    ensures Appended(old(buf[..]), buf[..], dest, NamePart(name) + (Print(Nothing) + ","), r)
  {
    ghost var b0 := buf[..];
    r := PutName(buf, dest, name);
    ghost var b1, r1 := buf[..], r;
    r := Atoa(buf, r, "null,");
    assert "null," == Print(Nothing) + ",";
    NameThen(b0, b1, buf[..], dest, name, "null,", r1, r);
  }

  method PutInt(buf: array<char>, dest: nat, name: Option<string>, value: int) returns (r: nat)
    requires dest + |NamePart(name)| + |Print(Int(value))| + 1 < buf.Length
    modifies buf
    ensures Appended(old(buf[..]), buf[..], dest, NamePart(name) + (Print(Int(value)) + ","), r)
  {
    ghost var b0 := buf[..];
    r := PutName(buf, dest, name);
    ghost var b1, r1 := buf[..], r;
    r := Numtoa(buf, r, value);
    ghost var b2, r2 := buf[..], r;
    r := Chtoa(buf, r, ',');
    AppendedTwice(b1, b2, buf[..], r1, Decimal(value), ",", r2, r);
    NameThen(b0, b1, buf[..], dest, name, Decimal(value) + ",", r1, r);
  }

  /** Finish the root: the comma behind it goes. */
  method End(buf: array<char>, dest: nat) returns (r: nat)
    requires 0 < dest <= buf.Length
    modifies buf
    ensures r == (if old(buf[dest - 1]) == ',' then dest - 1 else dest)
    ensures buf[..] == if old(buf[dest - 1]) == ',' then old(buf[..])[dest - 1 := NUL] else old(buf[..])
  {
    r := dest;
    if buf[dest - 1] == ',' {
      buf[dest - 1] := NUL;
      r := dest - 1;
    }
  }

  /* ---- whole documents ---- */

  /** The items, each with a comma behind it. */
  function WithCommas(items: List): string {
    match items
    case Nil => ""
    case Cons(name, value, tail) => NamePart(name) + (Print(value) + ",") + WithCommas(tail)
  }

  /** Only the last comma is too many. */
  lemma {:induction false} LastComma(items: List)
    ensures WithCommas(items) == PrintList(items) + if items.Nil? then "" else ","
  {
    if items.Cons? {
      hide NamePart, Print;
      LastComma(items.tail);
    }
  }

  /** Write a value, as a program does that calls the writer of its kind, or opens a block, writes
      the items and closes it. */
  method AddValue(buf: array<char>, dest: nat, name: Option<string>, v: Value) returns (r: nat)
    requires Writable(v) && dest + |NamePart(name)| + |Print(v)| + 1 < buf.Length
    modifies buf
    ensures Appended(old(buf[..]), buf[..], dest, NamePart(name) + (Print(v) + ","), r)
    decreases v
  {
    match v
    case Text(s) => r := PutText(buf, dest, name, s);
    case Int(n) => r := PutInt(buf, dest, name, n);
    case Bool(b) => r := PutBool(buf, dest, name, b);
    case Nothing => r := PutNull(buf, dest, name);
    case Block(isArray, items) =>
      hide Appended, NamePart, PrintList, WithCommas, WritableList;
      LastComma(items);
      ghost var b0 := buf[..];
      r := OpenBlock(buf, dest, name, isArray);
      ghost var b1, r1 := buf[..], r;
      AppendedEnd(b0, b1, dest, NamePart(name), Opener(isArray), r1);
      r := AddList(buf, r, items);
      ghost var b2, r2 := buf[..], r;
      CommaOrOpener(b1, b2, r1, items, isArray, r2);
      r := CloseBlock(buf, r, isArray);
      BlockWritten(b0, b1, b2, buf[..], dest, name, items, isArray, r1, r2, r);
  }

  method AddList(buf: array<char>, dest: nat, items: List) returns (r: nat)
    requires WritableList(items) && dest + |WithCommas(items)| < buf.Length && buf[dest] == NUL
    modifies buf
    ensures Appended(old(buf[..]), buf[..], dest, WithCommas(items), r)
    decreases items
  {
    match items
    case Nil => r := dest;
    case Cons(name, value, tail) =>
      hide NamePart, Print;
      ghost var b0 := buf[..];
      r := AddValue(buf, dest, name, value);
      ghost var b1, r1 := buf[..], r;
      r := AddList(buf, r, tail);
      AppendedTwice(b0, b1, buf[..], dest, NamePart(name) + (Print(value) + ","), WithCommas(tail), r1, r);
  }

  lemma AppendedEnd(a: string, b: string, dest: nat, piece: string, c: char, r: nat)
    requires Appended(a, b, dest, piece + [c], r)
    ensures 0 < r == dest + |piece| + 1 < |b| == |a| && b[r - 1] == c && b[r] == NUL
  {
    assert b[r - 1] == b[..r][r - 1];
  }

  /** The character in front of the closing bracket is a comma exactly if there are items. */
  lemma CommaOrOpener(a: string, b: string, dest: nat, items: List, isArray: bool, r: nat)
    requires Appended(a, b, dest, WithCommas(items), r) && dest > 0 && a[dest - 1] == Opener(isArray)
    ensures r == dest + |WithCommas(items)| < |b| == |a|
    ensures b[r - 1] == ',' <==> items.Cons?
  {
    hide PrintList, WithCommas;
    LastComma(items);
    assert b[r - 1] == b[..r][r - 1] == (a[..dest] + WithCommas(items))[r - 1];
    if items.Nil? {
      assert WithCommas(items) == "" by { NothingPrinted(items); }
    }
  }

  lemma NothingPrinted(items: List)
    requires items.Nil?
    ensures WithCommas(items) == ""
  {}

  lemma BlockWritten(b0: string, b1: string, b2: string, b3: string, dest: nat, name: Option<string>, items: List,
                     isArray: bool,
                     r1: nat, r2: nat, r: nat)
    requires Appended(b0, b1, dest, NamePart(name) + [Opener(isArray)], r1)
    requires Appended(b1, b2, r1, WithCommas(items), r2)
    requires var d := if items.Cons? then r2 - 1 else r2; d >= 0 && Appended(b2, b3, d, [Closer(isArray), ','], r)
    ensures Appended(b0, b3, dest, NamePart(name) + (Print(Block(isArray, items)) + ","), r)
  {
    hide NamePart, WithCommas, PrintList;
    LastComma(items);
    AppendedTwice(b0, b1, b2, dest, NamePart(name) + [Opener(isArray)], WithCommas(items), r1, r2);
    var front := NamePart(name) + [Opener(isArray)] + PrintList(items);
    var d := if items.Cons? then r2 - 1 else r2;
    assert b2[..d] == b0[..dest] + front;
    assert front + [Closer(isArray), ','] == NamePart(name) + (Print(Block(isArray, items)) + ",");
    assert b3[..r] == b0[..dest] + (front + [Closer(isArray), ',']);
    TailKept(b0, b2, b3, r2, r);
  }

  lemma TailKept(a: string, b: string, c: string, m: nat, r: nat)
    requires |a| == |b| == |c| && m <= r < |a| && m < |a|
    requires b[m + 1..] == a[m + 1..] && c[r + 1..] == b[r + 1..]
    ensures c[r + 1..] == a[r + 1..]
  {
    assert b[r + 1..] == b[m + 1..][r - m..] && a[r + 1..] == a[m + 1..][r - m..];
  }

  /** Write an object: the text that results is the printed form, terminated. */
  method Make(buf: array<char>, items: List) returns (r: nat)
    requires WritableList(items) && |Print(Block(false, items))| + 1 < buf.Length
    modifies buf
    ensures r == |Print(Block(false, items))|
    ensures buf[..r] == Print(Block(false, items)) && buf[r] == NUL
  {
    hide PrintList;
    ghost var b0 := buf[..];
    r := AddValue(buf, 0, None, Block(false, items));
    ghost var b1 := buf[..];
    assert b1[..r] == Print(Block(false, items)) + ",";
    assert buf[r - 1] == b1[..r][r - 1];
    r := End(buf, r);
    assert buf[..r] == b1[..r + 1][..r];
  }
}
