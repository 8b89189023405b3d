/** What `pb_decode_noinit` does to a struct when it reads a byte string, success or not. */
module DecodeSpec {
  import opened Wire
  import opened Descriptors
  import opened EncodeSpec

  /** Return value, unread input and what is in memory afterwards. */
  datatype Decoded<+T> = Decoded(ok: bool, rest: Bytes, out: T)

  // ---------------------------------------------------------------- tags and skipping

  /** A zero tag word ends a message. */
  datatype TagRead = Tag(tag: nat, wt: nat, rest: Bytes) | End(rest: Bytes) | BadTag

  function ReadTag(bs: Bytes): (r: TagRead)
    ensures r.Tag? ==> |r.rest| < |bs| && r.wt < 8
  {
    match ReadVarint32(bs)
    case Bad => if bs == [] then End([]) else BadTag
    case Got(word, rest) => if word == 0 then End(rest) else Tag(word / 8, word % 8, rest)
  }

  function SkipVarint(bs: Bytes): (r: Read<()>)
    ensures r.Got? ==> |r.rest| < |bs|
  {
    if bs == [] then Bad
    else if bs[0] < 128 then Got((), bs[1..])
    else SkipVarint(bs[1..])
  }

  function Skip(wt: nat, bs: Bytes): (r: Read<()>)
    ensures r.Got? ==> |r.rest| <= |bs|
  {
    if wt == WT_VARINT then SkipVarint(bs)
    else if wt == WT_64BIT then Drop(bs, 8)
    else if wt == WT_32BIT then Drop(bs, 4)
    else if wt == WT_STRING then
      match ReadVarint32(bs)
      case Bad => Bad
      case Got(n, rest) => Drop(rest, n)
    else Bad
  }

  function Drop(bs: Bytes, n: nat): (r: Read<()>)
    ensures r.Got? ==> |r.rest| <= |bs|
  {
    if |bs| < n then Bad else Got((), bs[n..])
  }

  /** Length prefix and body of a substream. */
  function ReadString(bs: Bytes): (r: Read<Bytes>)
    ensures r.Got? ==> |r.rest| + |r.value| < |bs|
  {
    match ReadVarint32(bs)
    case Bad => Bad
    case Got(n, rest) => if |rest| < n then Bad else Got(rest[..n], rest[n..])
  }

  /** The raw bytes of a scalar handed to a callback; varints of at most ten bytes. */
  function ReadRaw(wt: nat, bs: Bytes): (r: Read<Bytes>)
    ensures r.Got? ==> |r.rest| < |bs|
  {
    if wt == WT_VARINT then
      match SkipVarint(bs)
      case Bad => Bad
      case Got(_, rest) =>
        var n := |bs| - |rest|;
        if n > 10 then Bad else Got(bs[..n], bs[n..])
    else if wt == WT_64BIT && |bs| >= 8 then Got(bs[..8], bs[8..])
    else if wt == WT_32BIT && |bs| >= 4 then Got(bs[..4], bs[4..])
    else Bad
  }

  // ---------------------------------------------------------------- values

  /** The value a C integer of this field's type keeps of `n`. */
  function Clamp(f: Field, n: int): int {
    if f.ltype.UVarint? then n % (2 * Half(f.dataSize)) else Signed(n, f.dataSize)
  }

  /** The 64-bit value a varint field is about to store; narrow signed fields are cast to 32 bits first. */
  function Wide(f: Field, raw: nat): int {
    if f.ltype.UVarint? then raw
    else if f.ltype.SVarint? then UnZigZag(raw)
    else Signed(raw, if f.dataSize == 8 then 8 else 4)
  }

  function DecFixed(bs: Bytes, n: nat, was: Value): (r: Decoded<Value>)
    requires n > 0
    ensures r.ok ==> |r.rest| < |bs|
  {
    var r := ReadFixed(bs, n);
    if r.Got? then Decoded(true, r.rest, Num(r.value)) else Decoded(false, bs, was)
  }

  function DecNum(f: Field, bs: Bytes, was: Value): (r: Decoded<Value>)
    requires Packable(f.ltype)
    ensures r.ok ==> |r.rest| < |bs|
    ensures was.Num? ==> r.out.Num?
  {
    if f.ltype.Fixed32? then DecFixed(bs, 4, was)
    else if f.ltype.Fixed64? then DecFixed(bs, 8, was)
    else match ReadVarint64(bs)
      case Bad => Decoded(false, bs, was)
      case Got(raw, rest) =>
        if !ValidSize(f.dataSize) then Decoded(false, rest, was)
        else
          var n := Wide(f, raw);
          Decoded(Clamp(f, n) == n, rest, Num(Clamp(f, n)))
  }

  /** Packed items are appended while the array has room. */
  function DecPacked(f: Field, body: Bytes, items: seq<Value>): Decoded<seq<Value>>
    requires Packable(f.ltype)
    decreases |body|
  {
    if body == [] then Decoded(true, [], items)
    else if |items| >= f.arraySize then Decoded(false, body, items)
    else
      var r := DecNum(f, body, Stale);
      if r.ok then DecPacked(f, r.rest, items + [r.out]) else Decoded(false, body, items)
  }

  function DecSubmessage(f: Field, bs: Bytes, was: Struct): (r: Decoded<Struct>)
    requires Supported(f) && f.ltype.Submessage? && f.atype.Static? && Shaped(f.sub, was)
    ensures Shaped(f.sub, r.out)
    ensures r.ok ==> |r.rest| < |bs|
    decreases |bs|, 2
  {
    match ReadString(bs)
    case Bad => Decoded(false, bs, was)
    case Got(body, rest) =>
      var r := DecodeNoInit(f.sub, body, was);
      Decoded(r.ok, rest, r.out)
  }

  function DecValue(f: Field, bs: Bytes, was: Value): (r: Decoded<Value>)
    requires Supported(f) && f.atype.Static? && ShapedValue(f, was)
    ensures ShapedValue(f, r.out)
    ensures r.ok ==> |r.rest| < |bs|
    decreases |bs|, 3
  {
    if f.ltype.Submessage? then
      var r := DecSubmessage(f, bs, was.slots);
      Decoded(r.ok, r.rest, Msg(r.out))
    else DecNum(f, bs, was)
  }

  /** A new array element; a submessage is initialised only once its length has been read. */
  function DecElement(f: Field, bs: Bytes): (r: Decoded<Value>)
    requires Supported(f) && f.atype.Static?
    ensures r.ok ==> |r.rest| < |bs|
    decreases |bs|, 3
  {
    if !f.ltype.Submessage? then DecNum(f, bs, Stale)
    else if ReadString(bs).Bad? then Decoded(false, bs, Stale)
    else
      var r := DecSubmessage(f, bs, Blank(f.sub));
      Decoded(r.ok, r.rest, Msg(r.out))
  }

  function DecRepeated(f: Field, wt: nat, bs: Bytes, items: seq<Value>): (r: Decoded<seq<Value>>)
    requires Supported(f) && f.atype.Static?
    ensures r.ok ==> |r.rest| <= |bs|
    decreases |bs|, 4
  {
    if wt == WT_STRING && Packable(f.ltype) then
      match ReadString(bs)
      case Bad => Decoded(false, bs, items)
      case Got(body, rest) =>
        var r := DecPacked(f, body, items);
        Decoded(r.ok, rest, r.out)
    else if |items| >= f.arraySize then Decoded(false, bs, Count(items, Stale))
    else
      var r := DecElement(f, bs);
      Decoded(r.ok, r.rest, items + [r.out])
  }

  /** The one-byte array count wraps. */
  function Count(items: seq<Value>, v: Value): seq<Value> {
    if |items| % 256 == 255 then [] else items + [v]
  }

  function DecCallback(wt: nat, bs: Bytes, s: Slot): (r: Decoded<Slot>)
    requires s.Cb?
    ensures r.out.Cb?
    ensures r.ok ==> |r.rest| <= |bs|
  {
    if !s.bound then
      var r := Skip(wt, bs);
      if r.Got? then Decoded(true, r.rest, s) else Decoded(false, bs, s)
    else
      var r := if wt == WT_STRING then ReadString(bs) else ReadRaw(wt, bs);
      if r.Got? then Decoded(true, r.rest, if r.value == [] then s else Cb(true, Text(r.value)))
      else Decoded(false, bs, s)
  }

  function DecSlot(f: Field, wt: nat, bs: Bytes, s: Slot): (r: Decoded<Slot>)
    requires Supported(f) && ShapedSlot(f, s)
    ensures ShapedSlot(f, r.out)
    ensures r.ok ==> |r.rest| <= |bs|
    decreases |bs|, 5
  {
    if f.atype.Callback? then DecCallback(wt, bs, s)
    else if f.htype.Required? then
      var r := DecValue(f, bs, s.v);
      Decoded(r.ok, r.rest, Single(r.out))
    else if f.htype.Optional? then
      var r := DecValue(f, bs, s.v);
      Decoded(r.ok, r.rest, Opt(true, r.out))
    else
      var r := DecRepeated(f, wt, bs, s.items);
      Decoded(r.ok, r.rest, Rep(r.out))
  }

  // ---------------------------------------------------------------- messages

  /** The field loop: `ended` when a zero tag cut it short. */
  datatype Scan = Scan(ok: bool, ended: bool, rest: Bytes, out: Struct, seen: set<nat>)

  function ScanFields(fields: Fields, bs: Bytes, m: Struct, seen: set<nat>): (r: Scan)
    requires WellFormed(fields) && Shaped(fields, m)
    ensures Shaped(fields, r.out)
    decreases |bs|, 0
  {
    if bs == [] then Scan(true, false, [], m, seen)
    else match ReadTag(bs)
      case BadTag => Scan(false, false, bs, m, seen)
      case End(rest) => Scan(true, true, rest, m, seen)
      case Tag(tag, wt, rest) =>
        var i := Find(fields, tag);
        if i == |fields| then
          match Skip(wt, rest)
          case Bad => Scan(false, false, rest, m, seen)
          case Got(_, rest') => ScanFields(fields, rest', m, seen)
        else
          var r := DecSlot(fields[i], wt, rest, m[i]);
          var m' := m[i := r.out];
          if r.ok then ScanFields(fields, r.rest, m', Mark(fields, i, seen))
          else Scan(false, false, r.rest, m', Mark(fields, i, seen))
  }

  function DecodeNoInit(fields: Fields, bs: Bytes, m: Struct): (r: Decoded<Struct>)
    requires WellFormed(fields) && Shaped(fields, m)
    ensures Shaped(fields, r.out)
    decreases |bs|, 1
  {
    var s := ScanFields(fields, bs, m, {});
    Decoded(s.ok && AllSeen(fields, s.seen), s.rest, s.out)
  }

  function Decode(fields: Fields, bs: Bytes, m: Struct): (r: Decoded<Struct>)
    requires WellFormed(fields) && Shaped(fields, m)
    ensures Shaped(fields, r.out)
  {
    DecodeNoInit(fields, bs, SetDefaults(fields, m))
  }
}
