/** What `pb_encode` writes for a message, or nothing when it reports an error other than a full stream. */
module EncodeSpec {
  import opened Wire
  import opened Descriptors

  datatype Encoded = Out(bytes: Bytes) | Refused {
    function Then(more: Encoded): Encoded {
      if Out? && more.Out? then Out(bytes + more.bytes) else Refused
    }
  }

  const WT_VARINT: nat := 0
  const WT_64BIT: nat := 1
  const WT_STRING: nat := 2
  const WT_32BIT: nat := 5

  function WireType(t: LType): nat {
    match t
    case Varint | UVarint | SVarint => WT_VARINT
    case Fixed32 => WT_32BIT
    case Fixed64 => WT_64BIT
    case _ => WT_STRING
  }

  function EncTag(wt: nat, tag: nat): Bytes {
    EncVarint(8 * tag + wt)
  }

  /** Length prefix, cast to 64 bits, and content, as for strings and submessages. */
  function EncString(body: Bytes): Bytes {
    EncVarint(|body| % TWO64) + body
  }

  function EncNum(f: Field, n: int): Encoded
    requires Packable(f.ltype) && InRange(f, n)
  {
    if f.ltype.Fixed32? then Out(FixedBytes(n, 4))
    else if f.ltype.Fixed64? then Out(FixedBytes(n, 8))
    else if !ValidSize(f.dataSize) then Refused
    else if f.ltype.UVarint? then Out(EncVarint(n))
    else if f.ltype.SVarint? then Out(EncVarint(ZigZag(n)))
    else Out(EncVarint(Unsigned64(n)))
  }

  function EncNums(f: Field, items: seq<Value>): Encoded
    requires Packable(f.ltype) && TypedItems(f, items)
  {
    if items == [] then Out([]) else EncNum(f, items[0].n).Then(EncNums(f, items[1..]))
  }

  function EncValue(f: Field, v: Value): Encoded
    requires Supported(f) && f.atype.Static? && TypedValue(f, v)
    decreases f, 0, 0
  {
    if f.ltype.Submessage? then
      assert WellFormed(f.sub);
      var body := EncMessage(f.sub, v.slots);
      if body.Out? then Out(EncString(body.bytes)) else Refused
    else EncNum(f, v.n)
  }

  /** Tag and value, as for a singular field. */
  function EncRecord(f: Field, v: Value): Encoded
    requires Supported(f) && f.atype.Static? && TypedValue(f, v)
    decreases f, 0, 1
  {
    Out(EncTag(WireType(f.ltype), f.tag)).Then(EncValue(f, v))
  }

  function EncRecords(f: Field, items: seq<Value>): Encoded
    requires Supported(f) && f.atype.Static? && TypedItems(f, items)
    decreases f, 1, |items|
  {
    if items == [] then Out([]) else EncRecord(f, items[0]).Then(EncRecords(f, items[1..]))
  }

  function EncPacked(f: Field, items: seq<Value>): Encoded
    requires Packable(f.ltype) && TypedItems(f, items)
  {
    var body := EncNums(f, items);
    if body.Out? then Out(EncTag(WT_STRING, f.tag) + EncString(body.bytes)) else Refused
  }

  function EncArray(f: Field, items: seq<Value>): Encoded
    requires Supported(f) && f.atype.Static? && TypedItems(f, items)
    decreases f, 2, 0
  {
    if items == [] then Out([])
    else if |items| > f.arraySize then Refused
    else if Packable(f.ltype) then EncPacked(f, items)
    else EncRecords(f, items)
  }

  function EncSlot(f: Field, s: Slot): Encoded
    requires Supported(f) && TypedSlot(f, s)
    decreases f, 3, 0
  {
    if f.atype.Callback? then
      Out(if s.bound then EncTag(WT_STRING, f.tag) + EncString(s.text.bytes) else [])
    else if f.htype.Required? then EncRecord(f, s.v)
    else if f.htype.Optional? then if s.has then EncRecord(f, s.v) else Out([])
    else EncArray(f, s.items)
  }

  function EncMessage(fields: Fields, m: Struct): Encoded
    requires AllSupported(fields) && Typed(fields, m)
    decreases fields, 4, 0
  {
    if fields == [] then Out([])
    else EncSlot(fields[0], m[0]).Then(EncMessage(fields[1..], m[1..]))
  }
}
