/** The CANopen object dictionary and its lookup. */
module ObjectDictionary {
  import opened Bytes

  /** A sub-object: its operating data, the buffer that receives downloads if it has one, and
      its attributes. The buffer has the length of the data. */
  datatype SubObject = SubObject(data: seq<byte>, temp: Option<seq<byte>>,
                                 readable: bool, writable: bool, afterReset: bool)

  datatype Object = Object(index: nat, subs: seq<SubObject>)

  /** The entries, and the index field of whatever lies behind the last entry in memory: the
      search may look there. */
  datatype Dictionary = Dictionary(objects: seq<Object>, beyond: nat)

  const UNSUPPORTED: nat := 0xFFFF

  ghost predicate Sorted(od: Dictionary) {
    && |od.objects| < UNSUPPORTED
    && forall i, j :: 0 <= i < j < |od.objects| ==> od.objects[i].index < od.objects[j].index
  }

  function IndexAt(od: Dictionary, k: nat): nat
    requires k <= |od.objects|
  {
    if k < |od.objects| then od.objects[k].index else od.beyond
  }

  /** Binary search over positions 0 to the number of entries, both included. */
  method GetNo(od: Dictionary, index: nat) returns (no: nat)
    requires Sorted(od)
    ensures no < |od.objects| ==> od.objects[no].index == index
    ensures no == |od.objects| ==> od.beyond == index
    ensures no > |od.objects| ==> no == UNSUPPORTED
    ensures no >= |od.objects| ==> forall k :: 0 <= k < |od.objects| ==> od.objects[k].index != index
  {
    var min, max := 0, |od.objects|;
    while min < max
      invariant 0 <= max <= |od.objects| && 0 <= min <= max + 1
      invariant min <= |od.objects|
      invariant forall k :: 0 <= k < |od.objects| && od.objects[k].index == index ==> min <= k <= max
      decreases max + 1 - min
    {
      var cur := (min + max) / 2;
      if index == IndexAt(od, cur) {
        return cur;
      }
      if index < IndexAt(od, cur) {
        max := if cur > 0 then cur - 1 else 0;
      } else {
        min := cur + 1;
      }
    }
    if min == max && index == IndexAt(od, min) {
      return min;
    }
    return UNSUPPORTED;
  }

  datatype Place = Place(no: nat, sub: nat)

  ghost predicate At(od: Dictionary, p: Place) {
    p.no < |od.objects| && p.sub < |od.objects[p.no].subs|
  }

  ghost predicate Names(od: Dictionary, p: Place, index: nat, sub: nat) {
    At(od, p) && od.objects[p.no].index == index && p.sub == sub
  }

  /** The sub-object with this index and sub-index, whatever lies behind the last entry. */
  function Lookup(od: Dictionary, index: nat, sub: nat): (p: Option<Place>)
    ensures p.Some? ==> Names(od, p.value, index, sub)
  {
    var no := FirstWithIndex(od.objects, index);
    if no < |od.objects| && sub < |od.objects[no].subs| then Some(Place(no, sub)) else None
  }

  function FirstWithIndex(objects: seq<Object>, index: nat): (no: nat)
    ensures no <= |objects|
    ensures no < |objects| ==> objects[no].index == index
    ensures forall k :: 0 <= k < no ==> objects[k].index != index
  {
    if objects == [] || objects[0].index == index then 0 else 1 + FirstWithIndex(objects[1..], index)
  }

  lemma LookupExact(od: Dictionary, index: nat, sub: nat)
    requires Sorted(od)
    ensures Lookup(od, index, sub).Some? <==> exists p :: Names(od, p, index, sub)
    ensures forall p :: Names(od, p, index, sub) ==> Lookup(od, index, sub) == Some(p)
  {
    forall p | Names(od, p, index, sub)
      ensures Lookup(od, index, sub) == Some(p)
    {
      var no := FirstWithIndex(od.objects, index);
      assert no == p.no;
    }
  }

  method GetSubObject(od: Dictionary, index: nat, sub: nat) returns (p: Option<Place>)
    requires Sorted(od)
    ensures p == Lookup(od, index, sub)
  {
    var no := GetNo(od, index);
    LookupExact(od, index, sub);
    if no == UNSUPPORTED {
      return None;
    }
    if no >= |od.objects| || |od.objects[no].subs| <= sub {
      return None;
    }
    assert Names(od, Place(no, sub), index, sub);
    return Some(Place(no, sub));
  }

  /* ---- reading and writing ---- */

  function SubAt(od: Dictionary, p: Place): SubObject
    requires At(od, p)
  {
    od.objects[p.no].subs[p.sub]
  }

  function WithSub(od: Dictionary, p: Place, x: SubObject): (r: Dictionary)
    requires At(od, p)
    ensures At(r, p) && SubAt(r, p) == x
  {
    var o := od.objects[p.no];
    od.(objects := od.objects[p.no := o.(subs := o.subs[p.sub := x])])
  }

  /** Where a download puts its bytes. */
  function Receiver(x: SubObject): seq<byte> {
    if x.temp.Some? then x.temp.value else x.data
  }

  function WithReceiver(x: SubObject, b: seq<byte>): SubObject {
    if x.temp.Some? then x.(temp := Some(b)) else x.(data := b)
  }

  /** What the end of a download does: the received bytes take effect, unless they wait for a reset. */
  function Commit(x: SubObject): SubObject {
    if x.temp.Some? && !x.afterReset then x.(data := x.temp.value) else x
  }

  predicate SoundSub(x: SubObject) {
    |x.data| <= 65535 && (x.temp.Some? ==> |x.temp.value| == |x.data|)
  }

  ghost predicate WellFormed(od: Dictionary) {
    && Sorted(od)
    && forall p :: At(od, p) ==> SoundSub(SubAt(od, p))
  }

  /** The dictionaries agree on everything but the bytes of the sub-object at p. */
  ghost predicate SameElsewhere(od: Dictionary, r: Dictionary, p: Place) {
    && r.beyond == od.beyond && |r.objects| == |od.objects|
    && (forall k :: 0 <= k < |od.objects| ==>
         r.objects[k].index == od.objects[k].index && |r.objects[k].subs| == |od.objects[k].subs|)
    && (forall o :: At(od, o) && o != p ==> SubAt(r, o) == SubAt(od, o))
  }

  lemma WithSubKeeps(od: Dictionary, p: Place, x: SubObject)
    requires WellFormed(od) && At(od, p)
    requires SoundSub(x)
    ensures WellFormed(WithSub(od, p, x)) && SameElsewhere(od, WithSub(od, p, x), p)
  {
    var r := WithSub(od, p, x);
    forall o | At(r, o)
      ensures SoundSub(SubAt(r, o))
    {
      assert At(od, o);
    }
  }
}
