/** Field descriptors (`pb_field_t`) and the message structs they describe. */
module Descriptors {
  import opened Wire

  datatype LType =
    | Varint | UVarint | SVarint | Fixed32 | Fixed64
    | ByteArray | CString | Submessage | Extension | FixedLengthBytes

  datatype HType = Required | Optional | Repeated | OneOf

  datatype AType = Static | Pointer | Callback

  /** One row of a descriptor table. `dflt` and `sub` are the two uses of the row's `ptr`. */
  datatype Field = Field(
    tag: nat, ltype: LType, htype: HType, atype: AType,
    dataOffset: nat, sizeOffset: int, dataSize: nat, arraySize: nat,
    dflt: int, sub: seq<Field>)

  type Fields = seq<Field>

  const MAX_REQUIRED: nat := 64
  const MAX_TAG: nat := 0x2000_0000

  /** A field's place in a message struct. A callback slot holds the bound string, if any. */
  datatype Slot =
    | Single(v: Value)
    | Opt(has: bool, v: Value)
    | Rep(items: seq<Value>)
    | Cb(bound: bool, text: Text)

  /** `Stale` is an array cell that was counted but never written. */
  datatype Value = Num(n: int) | Msg(slots: Struct) | Stale

  datatype Text = NoText | Text(bytes: Bytes)

  type Struct = seq<Slot>

  predicate Packable(t: LType) {
    t.Varint? || t.UVarint? || t.SVarint? || t.Fixed32? || t.Fixed64?
  }

  /** The descriptors the codec model covers. */
  predicate Supported(f: Field)
    decreases f, 0
  {
    && 1 <= f.tag < MAX_TAG
    && f.arraySize < 256
    && !f.htype.OneOf?
    && match f.atype
       case Callback => (f.ltype.CString? || f.ltype.ByteArray?) && f.arraySize == 0
       case Static =>
         && (f.htype.Required? <==> f.sizeOffset == 0)
         && (Packable(f.ltype) || (f.ltype.Submessage? && WellFormed(f.sub)))
       case Pointer => false
  }

  predicate AllSupported(fields: Fields) {
    forall i | 0 <= i < |fields| :: Supported(fields[i])
  }

  predicate WellFormed(fields: Fields)
    decreases fields, 2
  {
    && fields != []
    && (forall i | 0 <= i < |fields| :: Supported(fields[i]))
    && (forall i, j | 0 <= i < j < |fields| :: fields[i].tag != fields[j].tag)
  }

  // ---------------------------------------------------------------- structs

  /** The struct has the layout its descriptor says. */
  predicate Shaped(fields: Fields, m: Struct)
    decreases fields, 1
  {
    |m| == |fields| && forall i | 0 <= i < |fields| :: ShapedSlot(fields[i], m[i])
  }

  predicate ShapedSlot(f: Field, s: Slot)
    decreases f, 1
  {
    if f.atype.Callback? then s.Cb?
    else match f.htype
      case Required => s.Single? && ShapedValue(f, s.v)
      case Optional => s.Opt? && ShapedValue(f, s.v)
      case Repeated => s.Rep?
      case OneOf => false
  }

  predicate ShapedValue(f: Field, v: Value)
    decreases f, 0
  {
    if f.ltype.Submessage? then v.Msg? && Shaped(f.sub, v.slots) else v.Num?
  }

  predicate ValidSize(d: nat) {
    d == 1 || d == 2 || d == 4 || d == 8
  }

  /** The C integer type behind a numeric field can hold `n`. */
  predicate InRange(f: Field, n: int) {
    match f.ltype
    case Fixed32 => 0 <= n < TWO32
    case Fixed64 => 0 <= n < TWO64
    case UVarint => ValidSize(f.dataSize) ==> 0 <= n < 2 * Half(f.dataSize)
    case Varint => ValidSize(f.dataSize) ==> FitsInt(n, f.dataSize)
    case SVarint => ValidSize(f.dataSize) ==> FitsInt(n, f.dataSize)
    case _ => false
  }

  /** A struct a C program can hold and pass to the encoder. */
  predicate Typed(fields: Fields, m: Struct)
    decreases fields, 1
  {
    |m| == |fields| && forall i | 0 <= i < |fields| :: TypedSlot(fields[i], m[i])
  }

  predicate TypedSlot(f: Field, s: Slot)
    decreases f, 1
  {
    if f.atype.Callback? then s.Cb? && (s.bound ==> s.text.Text?)
    else match f.htype
      case Required => s.Single? && TypedValue(f, s.v)
      case Optional => s.Opt? && TypedValue(f, s.v)
      case Repeated => s.Rep? && forall i | 0 <= i < |s.items| :: TypedValue(f, s.items[i])
      case OneOf => false
  }

  predicate TypedItems(f: Field, items: seq<Value>) {
    forall i | 0 <= i < |items| :: TypedValue(f, items[i])
  }

  predicate TypedValue(f: Field, v: Value)
    decreases f, 0
  {
    if f.ltype.Submessage? then v.Msg? && Typed(f.sub, v.slots) else v.Num? && InRange(f, v.n)
  }

  // ---------------------------------------------------------------- defaults

  /** `pb_message_set_to_defaults`: everything but the callbacks is reset, recursively. */
  function SetDefaults(fields: Fields, m: Struct): (r: Struct)
    requires Shaped(fields, m)
    ensures Shaped(fields, r)
    decreases fields, 1
  {
    seq(|fields|, i requires 0 <= i < |fields| => DefaultSlot(fields[i], m[i]))
  }

  function DefaultSlot(f: Field, s: Slot): (r: Slot)
    requires ShapedSlot(f, s)
    ensures ShapedSlot(f, r)
    decreases f, 1
  {
    if f.atype.Callback? then s
    else match f.htype
      case Required => Single(DefaultValue(f, s.v))
      case Optional => Opt(false, DefaultValue(f, s.v))
      case Repeated => Rep([])
      case OneOf => s
  }

  function DefaultValue(f: Field, v: Value): (r: Value)
    requires ShapedValue(f, v)
    ensures ShapedValue(f, r)
    decreases f, 0
  {
    if f.ltype.Submessage? then Msg(SetDefaults(f.sub, v.slots)) else Num(f.dflt)
  }

  /** A new array cell: defaults, and callbacks left null. */
  function Blank(fields: Fields): (r: Struct)
    requires WellFormed(fields)
    ensures Shaped(fields, r)
    decreases fields, 1
  {
    seq(|fields|, i requires 0 <= i < |fields| => BlankSlot(fields[i]))
  }

  function BlankSlot(f: Field): (r: Slot)
    requires Supported(f)
    ensures ShapedSlot(f, r)
    decreases f, 1
  {
    if f.atype.Callback? then Cb(false, NoText)
    else
      var v := if f.ltype.Submessage? then Msg(Blank(f.sub)) else Num(f.dflt);
      match f.htype
      case Required => Single(v)
      case Optional => Opt(false, v)
      case _ => Rep([])
  }

  // ---------------------------------------------------------------- looking fields up

  /** The position of the field with this tag, or `|fields|`. */
  function Find(fields: Fields, tag: nat): (i: nat)
    ensures i <= |fields|
    ensures i < |fields| ==> fields[i].tag == tag
    ensures i == |fields| ==> forall f | f in fields :: f.tag != tag
  {
    if fields == [] || fields[0].tag == tag then 0 else 1 + Find(fields[1..], tag)
  }

  lemma {:induction false} FindTag(fields: Fields, i: nat)
    requires WellFormed(fields) && i < |fields|
    ensures Find(fields, fields[i].tag) == i
  {
    var j := Find(fields, fields[i].tag);
    assert fields[i] in fields;
  }

  /** How many required fields precede position `i`. */
  function RequiredBefore(fields: Fields, i: nat): nat
    requires i <= |fields|
  {
    if i == 0 then 0
    else RequiredBefore(fields, i - 1) + if fields[i - 1].htype.Required? then 1 else 0
  }

  /** Only the first 64 required fields are tracked. */
  predicate Tracked(fields: Fields, i: nat)
    requires i < |fields|
  {
    fields[i].htype.Required? && RequiredBefore(fields, i) < MAX_REQUIRED
  }

  function Mark(fields: Fields, i: nat, seen: set<nat>): set<nat>
    requires i < |fields|
  {
    if Tracked(fields, i) then seen + {i} else seen
  }

  predicate AllSeen(fields: Fields, seen: set<nat>) {
    forall i | 0 <= i < |fields| && Tracked(fields, i) :: i in seen
  }
}
