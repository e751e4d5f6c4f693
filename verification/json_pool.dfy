/** The pool: a JSON text is parsed exactly if the pool holds a node for each of its values. */
module JsonPool {
  import opened Bytes
  import opened JsonChars
  import opened JsonText
  import opened TinyJson
  import opened JsonReading

  /** The same state with more free nodes. */
  function Grow(s: State, extra: seq<Node>): State {
    s.(mem := s.mem + extra)
  }

  function GrowOutcome(o: Outcome, extra: seq<Node>): Outcome {
    match o
    case Next(s) => Next(Grow(s, extra))
    case Done(s) => Done(Grow(s, extra))
    case Fail => Fail
  }

  lemma GrowInv(s: State, extra: seq<Node>)
    requires Inv(s)
    ensures Inv(Grow(s, extra))
  {
    OpenFrame(s.mem, s.free, s.mem + extra, s.free, s.obj);
  }

  lemma GrowAdd(mem: seq<Node>, extra: seq<Node>, i: nat, k: nat)
    requires i < k < |mem| && (mem[i].u != Null ==> mem[i].last.Ref? && i < mem[i].last.n < k)
    ensures Add(mem + extra, i, k) == Add(mem, i, k) + extra
  {}

  lemma GrowUpdate(mem: seq<Node>, extra: seq<Node>, k: nat, x: Node)
    requires k < |mem|
    ensures (mem + extra)[k := x] == mem[k := x] + extra
  {}

  lemma GrowValue(s: State, extra: seq<Node>, k: nat)
    requires s.ptr < |s.text| && s.text[s.ptr] != NUL && k < |s.mem|
    ensures ParseValue(Grow(s, extra), k) == GrowOutcome(ParseValue(s, k), extra)
  {
    hide ParseString, PrimitiveValue, NumValue;
    var r := ParseValue(s, k);
    if r.Next? {
      GrowUpdate(s.mem, extra, k, r.s.mem[k]);
    }
  }

  /** A step that succeeds does the same with more nodes at hand. */
  lemma GrowStep(s: State, extra: seq<Node>)
    requires Inv(s) && !Step(s).Fail?
    ensures Inv(Grow(s, extra)) && Step(Grow(s, extra)) == GrowOutcome(Step(s), extra)
  {
    hide ParseValue, Head, Add, Open;
    GrowInv(s, extra);
    OpenFacts(s);
    OpenLast(s);
    var p := GoBlank(s.text, s.ptr).value;
    var o := s.mem[s.obj];
    if s.text[p] == ',' {
    } else if s.text[p] == EndBracket(o.kind == ARRAY) {
      GrowUpdate(s.mem, extra, s.obj, o.(sibling := Null));
    } else {
      var h := Head(s.text, p, o.kind).value;
      var k := s.free;
      var x := s.mem[k].(name := h.name);
      GrowUpdate(s.mem, extra, k, x);
      var named := s.mem[k := x];
      GrowAdd(named, extra, s.obj, k);
      GrowValue(s.(text := h.text, mem := Add(named, s.obj, k), free := k + 1, ptr := h.ptr), extra, k);
    }
  }

  lemma OpenLast(s: State)
    requires Inv(s)
    ensures s.mem[s.obj].u != Null ==> s.mem[s.obj].last.Ref? && s.obj < s.mem[s.obj].last.n < s.free
  {}

  /** The final state of a run that succeeds does not depend on nodes that were left over. */
  lemma {:induction false} GrowParse(s: State, extra: seq<Node>)
    requires Inv(s) && Parse(s).Done?
    ensures Inv(Grow(s, extra)) && Parse(Grow(s, extra)) == GrowOutcome(Parse(s), extra)
    ensures Parse(s).s.free <= |s.mem|
    decreases |s.text| - s.ptr
  {
    hide Step, Open;
    StepKeeps(s);
    OpenFacts(s);
    DoneFree(s);
    GrowStep(s, extra);
    StepKeeps(Grow(s, extra));
    if Step(s).Next? {
      GrowParse(Step(s).s, extra);
    }
  }

  lemma DoneFree(s: State)
    requires Inv(s)
    ensures Step(s).Done? ==> Step(s).s.free == s.free
    ensures Step(s).Next? ==> |Step(s).s.mem| == |s.mem|
  {
    hide Head, GoBlank, PrimitiveValue, NumValue, ParseString;
  }

  /** Parsing an object of JSON succeeds exactly if there are nodes for all its values. */
  lemma PoolExact(text: Memory, mem: seq<Node>, pad: string, items: Items)
    requires |mem| > 0 && ValidItems(items, false)
    requires Gap(pad) && StandsAt(text, 0, pad + Lay(Block(false, items)))
    ensures Create(text, mem).Done? <==> 1 + SizeItems(items) <= |mem|
  {
    hide Lay, LayItems, StandsAt, ValidItems, SizeItems, Represents, Create, Parse, Open, Gap;
    if 1 + SizeItems(items) <= |mem| {
      AnyJson(text, mem, pad, items);
    } else if Create(text, mem).Done? {
      var extra := seq(SizeItems(items), i => mem[0]);
      AnyJson(text, mem + extra, pad, items);
      RootStarts(text, mem, pad, items);
      RootStarts(text, mem + extra, pad, items);
      var s := RootState(text, mem, |pad| + 1);
      GrowUpdate(mem, extra, 0, s.mem[0]);
      GrowParse(s, extra);
    }
  }
}
