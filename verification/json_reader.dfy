/** The parser of tiny-json as it runs: it overwrites its text and links nodes of a pool, both arrays. */
module JsonReader {
  import opened Bytes
  import opened JsonChars
  import opened TinyJson
  import T = TinyJson

  class Parser {
    const text: array<char>
    const mem: array<Node>
    var free: nat

    ghost predicate Valid()
      reads this, text
    {
      text.Length > 0 && text[text.Length - 1] == NUL
    }

    ghost function Memory(): T.Memory
      reads this, text
      requires Valid()
    {
      text[..]
    }

    ghost function View(obj: nat, ptr: nat): State
      reads this, text, mem
      requires Valid()
    {
      State(text[..], mem[..], free, obj, ptr)
    }

    constructor (text: array<char>, mem: array<Node>)
      requires text.Length > 0 && text[text.Length - 1] == NUL
      ensures Valid() && this.text == text && this.mem == mem
    {
      this.text, this.mem, free := text, mem, 0;
    }

    /* ---- scanning ---- */

    method GoBlank(p: nat) returns (r: Option<nat>)
      requires Valid() && p < text.Length
      ensures r == T.GoBlank(Memory(), p)
    {
      var q := p;
      while text[q] != NUL
        invariant p <= q < text.Length && T.GoBlank(Memory(), q) == T.GoBlank(Memory(), p)
        decreases text.Length - q
      {
        if !Blank(text[q]) {
          return Some(q);
        }
        q := q + 1;
      }
      return None;
    }

    method GoNum(p: nat) returns (r: Option<nat>)
      requires Valid() && p < text.Length
      ensures r == T.GoNum(Memory(), p)
    {
      var q := p;
      while text[q] != NUL
        invariant p <= q < text.Length && T.GoNum(Memory(), q) == T.GoNum(Memory(), p)
        decreases text.Length - q
      {
        if !IsDigit(text[q]) {
          return Some(q);
        }
        q := q + 1;
      }
      return None;
    }

    method GetEscape(c: char) returns (code: char)
      ensures code == Unescape(c)
    {
      var table := [('\"', '\"'), ('\\', '\\'), ('/', '/'), ('b', BACKSPACE), ('f', FORM_FEED), ('n', '\n'),
          ('r', '\r'), ('t', '\t')];
      for i := 0 to |table|
        invariant forall j :: 0 <= j < i ==> table[j].0 != c
      {
        if table[i].0 == c {
          return table[i].1;
        }
      }
      assert table[0].0 != c && table[1].0 != c && table[2].0 != c && table[3].0 != c;
      assert table[4].0 != c && table[5].0 != c && table[6].0 != c && table[7].0 != c;
      return NUL;
    }

    method GetCharFromUnicode(p: nat) returns (c: char)
      requires Valid() && p < text.Length
      ensures c == if Hex4(Memory(), p) then '?' else NUL
      ensures c != NUL ==> p + 4 < text.Length
    {
      var i := 0;
      while i < 4
        invariant 0 <= i <= 4 && p + i < text.Length
        invariant forall k :: p <= k < p + i ==> IsHex(text[k])
      {
        if !IsHex(text[p + i]) {
          return NUL;
        }
        i := i + 1;
      }
      return '?';
    }

    /** Replace the escape at head by what it means; head is left on its last character. */
    method TakeEscape(head: nat, tail: nat) returns (last: Option<nat>)
      requires Valid() && tail <= head < text.Length && text[head] == '\\'
      modifies text
      ensures Valid()
      ensures last.None? ==> T.ParseString(old(Memory()), head, tail) == None
      ensures last.Some? ==> head < last.value < text.Length - 1 &&
                             T.ParseString(old(Memory()), head, tail) ==
                                 T.ParseString(Memory(), last.value + 1, tail + 1)
    {
      hide Hex4, Unescape;
      ghost var before := Memory();
      if text[head + 1] == 'u' {
        var c := GetCharFromUnicode(head + 2);
        if c == NUL {
          return None;
        }
        text[tail] := c;
        assert Memory() == before[tail := c];
        return Some(head + 5);
      } else {
        var code := GetEscape(text[head + 1]);
        if code == NUL {
          return None;
        }
        EscapeIsText(text[head + 1]);
        text[tail] := code;
        assert Memory() == before[tail := code];
        return Some(head + 1);
      }
    }

    /** Unescape a string in place; the quotation mark behind it makes room for its terminator. */
    method ParseString(start: nat) returns (r: Option<nat>)
      requires Valid() && start < text.Length
      modifies text
      ensures Valid()
      ensures var s := T.ParseString(old(Memory()), start, start);
        r.Some? == s.Some? && (s.Some? ==> r.value == s.value.ptr && Memory() == s.value.text)
    {
      hide Hex4, Unescape;
      var head: nat, tail: nat := start, start;
      ghost var goal := T.ParseString(Memory(), start, start);
      while text[head] >= ' '
        invariant Valid() && tail <= head < text.Length
        invariant T.ParseString(Memory(), head, tail) == goal
        decreases text.Length - head
      {
        if text[head] == '\"' {
          text[tail] := NUL;
          return Some(head + 1);
        }
        if text[head] == '\\' {
          var last := TakeEscape(head, tail);
          if last.None? {
            return None;
          }
          head := last.value;
        } else {
          ghost var before := Memory();
          text[tail] := text[head];
          assert Memory() == before[tail := before[head]];
        }
        head, tail := head + 1, tail + 1;
      }
      return None;
    }

    /** The name of a property: it is recorded in the node, the position behind the colon is returned. */
    method PropertyName(p: nat, k: nat) returns (r: Option<nat>)
      requires Valid() && p < text.Length && text[p] != NUL && k < mem.Length
      modifies text, mem
      ensures Valid()
      ensures var n := T.PropertyName(old(Memory()), p);
        r.Some? == n.Some? &&
        (n.Some? ==> r.value == n.value.ptr && Memory() == n.value.text && n.value.name == Char(p + 1))
      ensures r.Some? ==> r.value < text.Length && text[r.value] != NUL
      ensures mem[..] == old(mem[..])[k := old(mem[k]).(name := Char(p + 1))]
    {
      mem[k] := mem[k].(name := Char(p + 1));
      var q := ParseString(p + 1);
      if q.None? {
        return None;
      }
      q := GoBlank(q.value);
      if q.None? || text[q.value] != ':' {
        return None;
      }
      r := GoBlank(q.value + 1);
    }

    method CheckStr(p: nat, word: string) returns (r: Option<nat>)
      requires Valid() && p < text.Length
      requires forall i :: 0 <= i < |word| ==> word[i] != NUL
      ensures r == T.CheckStr(Memory(), p, word)
    {
      for i := 0 to |word|
        invariant p + i < text.Length
        invariant T.CheckStr(Memory(), p + i, word[i..]) == T.CheckStr(Memory(), p, word)
      {
        if text[p + i] != word[i] {
          return None;
        }
        assert word[i..][1..] == word[i + 1..];
      }
      return Some(p + |word|);
    }

    /** Terminate a value; a bracket behind it stays. */
    method SetToNull(p: nat) returns (r: nat)
      requires Valid() && p < text.Length && EndOfPrimitive(text[p])
      modifies text
      ensures Valid() && T.SetToNull(old(Memory()), p) == Scan(Memory(), r)
    {
      r := p;
      if !EndOfBlock(text[p]) {
        text[p] := NUL;
        r := p + 1;
      }
    }

    method PrimitiveValue(p: nat, k: nat, word: string, kind: Kind) returns (r: Option<nat>)
      requires Valid() && p < text.Length && k < mem.Length
      requires forall i :: 0 <= i < |word| ==> word[i] != NUL
      modifies text, mem
      ensures Valid()
      ensures var v := T.PrimitiveValue(old(Memory()), p, word);
        r.Some? == v.Some? && (v.Some? ==>
          r.value == v.value.ptr && Memory() == v.value.text
              && mem[..] == old(mem[..])[k := old(mem[k]).(kind := kind)])
    {
      r := CheckStr(p, word);
      if r.None? || !EndOfPrimitive(text[r.value]) {
        return None;
      }
      var q := SetToNull(r.value);
      r := Some(q);
      mem[k] := mem[k].(kind := kind);
    }

    /* ---- numbers ---- */

    method FraqValue(p: nat) returns (r: Option<nat>)
      requires Valid() && p < text.Length
      ensures r == T.FraqValue(Memory(), p)
    {
      if !IsDigit(text[p]) {
        return None;
      }
      r := GoNum(p + 1);
    }

    method ExpValue(p: nat) returns (r: Option<nat>)
      requires Valid() && p < text.Length
      ensures r == T.ExpValue(Memory(), p)
    {
      var q := p;
      if text[q] == '-' || text[q] == '+' {
        q := q + 1;
      }
      if !IsDigit(text[q]) {
        return None;
      }
      r := GoNum(q + 1);
    }

    /** Compare a bound with the characters from p on, up to their NUL. */
    method Compare(bound: string, p: nat, ghost end: nat) returns (c: int)
      requires Valid() && p <= end < text.Length && text[end] == NUL
      requires forall k :: p <= k < end ==> text[k] != NUL
      ensures c == StrCmp(bound, text[p..end])
    {
      var i := 0;
      while i < |bound| && text[p + i] != NUL && text[p + i] == bound[i]
        invariant 0 <= i <= |bound| && p + i <= end
        invariant StrCmp(bound[i..], text[p + i..end]) == StrCmp(bound, text[p..end])
        decreases |bound| - i
      {
        assert bound[i..][1..] == bound[i + 1..] && text[p + i..end][1..] == text[p + i + 1..end];
        i := i + 1;
      }
      if i == |bound| {
        c := if text[p + i] == NUL then 0 else -1;
      } else if text[p + i] == NUL {
        c := 1;
      } else {
        c := bound[i] as int - text[p + i] as int;
      }
    }

    method IntegerFits(p: nat, end: nat) returns (ok: bool)
      requires Valid() && p < end < text.Length && text[end] != NUL
      requires forall k :: p <= k < end ==> text[k] != NUL
      modifies text
      ensures ok == Fits(old(text[p..end]))
      ensures Valid() && (ok ==> Memory() == old(Memory()))
    {
      var negative := text[p] == '-';
      var bound := if negative then MIN_TEXT else MAX_TEXT;
      var len := end - p;
      if len > |bound| {
        return false;
      }
      if len == |bound| {
        var tmp := text[end];
        text[end] := NUL;
        var c := Compare(bound, p, end);
        assert text[p..end] == old(text[p..end]);
        if 0 > c {
          return false;
        }
        text[end] := tmp;
      }
      return true;
    }

    method IntegerPart(p: nat) returns (r: Option<nat>)
      requires Valid() && p < text.Length
      ensures r == T.IntegerPart(Memory(), p)
    {
      var q := if text[p] == '-' then p + 1 else p;
      if !IsDigit(text[q]) {
        return None;
      }
      if text[q] != '0' {
        r := GoNum(q);
      } else if IsDigit(text[q + 1]) {
        return None;
      } else {
        return Some(q + 1);
      }
    }

    method Number(p: nat) returns (r: Option<Lexeme>)
      requires Valid() && p < text.Length
      ensures r == T.Number(Memory(), p)
    {
      hide T.IntegerPart, T.FraqValue, T.ExpValue, EndOfPrimitive;
      var kind := INTEGER;
      var n := IntegerPart(p);
      if n.None? {
        return None;
      }
      var q := n.value;
      if text[q] == '.' {
        n := FraqValue(q + 1);
        if n.None? {
          return None;
        }
        q, kind := n.value, REAL;
      }
      if text[q] == 'e' || text[q] == 'E' {
        n := ExpValue(q + 1);
        if n.None? {
          return None;
        }
        q, kind := n.value, REAL;
      }
      if !EndOfPrimitive(text[q]) {
        return None;
      }
      return Some(Lexeme(q, kind));
    }

    method NumValue(p: nat, k: nat) returns (r: Option<nat>)
      requires Valid() && p < text.Length && k < mem.Length
      modifies text, mem
      ensures Valid()
      ensures var v := T.NumValue(old(Memory()), p);
        r.Some? == v.Some? && (v.Some? ==>
          && r.value == v.value.0.ptr && Memory() == v.value.0.text
          && mem[..] == old(mem[..])[k := old(mem[k]).(kind := v.value.1)])
    {
      hide T.Number, Fits, EndOfPrimitive, T.SetToNull;
      var n := Number(p);
      if n.None? {
        return None;
      }
      mem[k] := mem[k].(kind := n.value.kind);
      if n.value.kind == INTEGER {
        NumberIsText(Memory(), p);
        EndNotNul(text[n.value.end]);
        var ok := IntegerFits(p, n.value.end);
        if !ok {
          return None;
        }
      }
      var e := SetToNull(n.value.end);
      return Some(e);
    }

    /* ---- nodes ---- */

    /** Append node k to the children of block i. */
    method Add(i: nat, k: nat)
      requires i < k < mem.Length && (mem[i].u != Null ==> mem[i].last.Ref? && i < mem[i].last.n < k)
      modifies mem
      ensures mem[..] == T.Add(old(mem[..]), i, k)
    {
      mem[k] := mem[k].(sibling := Null);
      if mem[i].u == Null {
        mem[i] := mem[i].(u := Ref(k), last := Ref(k));
      } else {
        var l := mem[i].last.n;
        mem[l] := mem[l].(sibling := Ref(k));
        mem[i] := mem[i].(last := Ref(k));
      }
    }

    method TextValue(p: nat, k: nat) returns (r: Option<nat>)
      requires Valid() && p < text.Length && text[p] != NUL && k < mem.Length
      modifies text, mem
      ensures Valid()
      ensures var v := T.ParseString(old(Memory()), p + 1, p + 1);
        r.Some? == v.Some? && (v.Some? ==>
          && r.value == v.value.ptr && Memory() == v.value.text
          && mem[..] == old(mem[..])[k := old(mem[k]).(u := Char(p + 1), kind := TEXT)])
    {
      mem[k] := mem[k].(u := Char(p + 1));
      r := ParseString(p + 1);
      if r.Some? {
        mem[k] := mem[k].(kind := TEXT);
      }
    }

    /** Read the value of the new node k. */
    method TakeValue(obj: nat, p: nat, k: nat) returns (ok: bool, o: nat, q: nat)
      requires Valid() && p < text.Length && text[p] != NUL && k < mem.Length
      modifies text, mem
      ensures Valid()
      ensures match ParseValue(old(View(obj, p)), k)
              case Next(s) => ok && View(o, q) == s
              case _ => !ok
    {
      hide T.ParseString, T.PrimitiveValue, T.NumValue;
      ghost var before := mem[..];
      mem[k] := mem[k].(u := Char(p));
      var c := text[p];
      o, q, ok := obj, p, true;
      if c == '{' || c == '[' {
        mem[k] := mem[k].(kind := if c == '{' then OBJ else ARRAY, u := Null, sibling := Ref(obj));
        assert mem[..] == before[k := mem[k]];
        o, q := k, p + 1;
        return;
      }
      var r: Option<nat>;
      if c == '\"' {
        r := TextValue(p, k);
      } else if c == 't' {
        r := PrimitiveValue(p, k, "true", BOOLEAN);
      } else if c == 'f' {
        r := PrimitiveValue(p, k, "false", BOOLEAN);
      } else if c == 'n' {
        r := PrimitiveValue(p, k, "null", NULLTYPE);
      } else {
        r := NumValue(p, k);
      }
      ok := r.Some?;
      if ok {
        assert mem[..] == before[k := mem[k]];
        q := r.value;
      }
    }

    /** Make a node for the next value of the open block. */
    method TakeProperty(obj: nat, p: nat) returns (ok: bool, o: nat, q: nat)
      requires Valid() && p < text.Length && text[p] != NUL && Open(mem[..], free, obj) && free < mem.Length
      modifies this`free, text, mem
      ensures Valid()
      ensures var s, k := old(View(obj, p)), old(free);
        match T.Head(s.text, p, s.mem[obj].kind)
        case None => !ok
        case Some(h) =>
          match ParseValue(s.(text := h.text, mem := T.Add(s.mem[k := s.mem[k].(name := h.name)], obj, k),
              free := k + 1, ptr := h.ptr), k)
          case Next(n) => ok && View(o, q) == n
          case _ => !ok
    {
      hide T.PropertyName, ParseValue;
      var k := free;
      free := free + 1;
      o, q, ok := obj, p, false;
      if mem[obj].kind != ARRAY {
        if text[p] != '\"' {
          return;
        }
        var r := PropertyName(p, k);
        if r.None? {
          return;
        }
        q := r.value;
      } else {
        mem[k] := mem[k].(name := Null);
      }
      Add(obj, k);
      ok, o, q := TakeValue(obj, q, k);
    }

    /** One turn of the loop: go on, or stop with success or failure. */
    method Turn(obj: nat, ptr: nat) returns (go: bool, ok: bool, o: nat, q: nat)
      requires Valid() && Inv(View(obj, ptr))
      modifies this`free, text, mem
      ensures Valid()
      ensures match Step(old(View(obj, ptr)))
              case Next(s) => go && View(o, q) == s
              case Done(s) => !go && ok && View(o, q) == s
              case Fail => !go && !ok
    {
      hide T.GoBlank, ParseValue, T.Head, T.Add, Open;
      StepKeeps(View(obj, ptr));
      go, ok, o, q := false, false, obj, ptr;
      OpenFacts(View(obj, ptr));
      var r := GoBlank(ptr);
      if r.None? {
        return;
      }
      var p := r.value;
      if text[p] == ',' {
        go, q := true, p + 1;
        return;
      }
      var endchar := if mem[obj].kind == OBJ then '}' else ']';
      CloserKind(View(obj, ptr));
      if text[p] == endchar {
        EndIsText(endchar);
        text[p] := NUL;
        q := p + 1;
        var parent := mem[obj].sibling;
        if parent == Null {
          ok := true;
        } else {
          mem[obj] := mem[obj].(sibling := Null);
          go, o := true, parent.n;
        }
        return;
      }
      if free >= mem.Length {
        return;
      }
      go, o, q := TakeProperty(obj, p);
    }

    /** Parse an object whose node is obj; where it ends is returned. */
    method ObjValue(p: nat, obj: nat) returns (r: Option<nat>)
      requires Valid() && p < text.Length && text[p] != NUL && obj < free <= mem.Length
      modifies this`free, text, mem
      ensures Valid()
      ensures var s := old(View(obj, p + 1));
        var t := s.(mem := s.mem[obj := s.mem[obj].(kind := OBJ, u := Null, sibling := Null)]);
        Inv(t) &&
        match Parse(t)
        case Done(n) => r == Some(n.ptr) && Memory() == n.text && mem[..] == n.mem && free == n.free
        case _ => r == None
    {
      hide Step, T.Parse;
      mem[obj] := mem[obj].(kind := OBJ, u := Null, sibling := Null);
      var ptr: nat, o: nat := p + 1, obj;
      ghost var goal := ParseOn(View(o, ptr));
      var go, ok := true, true;
      while go
        invariant Valid()
        invariant go ==> Inv(View(o, ptr)) && Parse(View(o, ptr)) == goal
        invariant !go && ok ==> goal == Done(View(o, ptr))
        invariant !go && !ok ==> goal == Fail
        decreases go, text.Length - ptr
      {
        ParseStep(View(o, ptr));
        go, ok, o, ptr := Turn(o, ptr);
      }
      r := if ok then Some(ptr) else None;
    }

    /** Parse an object; the root is node 0. */
    method Create() returns (root: Option<nat>)
      requires Valid() && mem.Length > 0
      modifies this`free, text, mem
      ensures Valid()
      ensures match T.Create(old(Memory()), old(mem[..]))
              case Done(s) => root == Some(0) && Memory() == s.text && mem[..] == s.mem && free == s.free
              case _ => root == None
    {
      hide T.Parse, T.GoBlank;
      var p := GoBlank(0);
      if p.None? || text[p.value] != '{' {
        return None;
      }
      ghost var before := mem[..];
      free := 1;
      mem[0] := mem[0].(name := Null, sibling := Null, u := Null);
      assert mem[..][0 := mem[0].(kind := OBJ, u := Null, sibling := Null)] ==
          before[0 := Node(Null, Null, Null, before[0].last, OBJ)];
      var r := ObjValue(p.value, 0);
      root := if r.Some? then Some(0) else None;
    }
  }

  lemma OpenFacts(s: State)
    requires Inv(s)
    ensures s.ptr < |s.text| && s.obj < s.free <= |s.mem| && Open(s.mem, s.free, s.obj)
    ensures s.mem[s.obj].sibling.Ref? || s.mem[s.obj].sibling == Null
  {}

  /** An open block is an object or an array. */
  lemma CloserKind(s: State)
    requires Inv(s)
    ensures EndBracket(s.mem[s.obj].kind == ARRAY) == if s.mem[s.obj].kind == OBJ then '}' else ']'
  {}

  lemma EndIsText(c: char)
    requires c == '}' || c == ']'
    ensures c != NUL
  {}

  ghost function ParseOn(s: State): Outcome {
    if Inv(s) then Parse(s) else Fail
  }

  lemma ParseStep(s: State)
    requires Inv(s)
    ensures match Step(s)
            case Next(n) => Inv(n) && Parse(s) == Parse(n) && n.ptr > s.ptr && |n.text| == |s.text|
            case _ => Parse(s) == Step(s)
  {
    hide Step;
    StepKeeps(s);
  }

  /** An integer holds no NUL. */
  lemma NumberIsText(t: T.Memory, p: nat)
    requires p < |t| && T.Number(t, p).Some? && T.Number(t, p).value.kind == INTEGER
    ensures forall k :: p <= k < T.Number(t, p).value.end ==> t[k] != NUL
  {}

  lemma EscapeIsText(c: char)
    requires Unescape(c) != NUL
    ensures c != NUL
  {}

  lemma EndNotNul(c: char)
    requires EndOfPrimitive(c)
    ensures c != NUL
  {}
}
