/** The message decoder, `pb_decode.c`, over input streams and the field iterator. */
module Decoder {
  import opened Bits
  import opened Wire
  import opened Descriptors
  import opened EncodeSpec
  import opened DecodeSpec
  import opened InputStream
  import opened FieldIterator
  import opened RequiredBits

  /** `PB_DECODERS` for numeric types: `pb_dec_varint`, `_uvarint`, `_svarint`, `_fixed32`, `_fixed64`. */
  method DecodeNum(stream: IStream, f: Field, was: Value) returns (ok: bool, dest: Value)
    requires stream.Valid() && Packable(f.ltype)
    modifies stream
    ensures stream.Valid() && stream.End() == old(stream.End())
    ensures var r := DecNum(f, old(stream.Rest()), was);
      ok == r.ok && dest == r.out && (ok ==> stream.Rest() == r.rest)
  {
    hide Wide, Clamp, ReadVarint64, ReadFixed;
    dest := was;
    var raw;
    if f.ltype.Fixed32? {
      ok, raw := DecodeFixed(stream, 4);
      if ok { dest := Num(raw); }
    } else if f.ltype.Fixed64? {
      ok, raw := DecodeFixed(stream, 8);
      if ok { dest := Num(raw); }
    } else {
      ok, dest := DecodeVarintNum(stream, f, was);
    }
  }

  /** The three varint decoders: widen, store at the field's size, compare. */
  method DecodeVarintNum(stream: IStream, f: Field, was: Value) returns (ok: bool, dest: Value)
    requires stream.Valid() && (f.ltype.Varint? || f.ltype.UVarint? || f.ltype.SVarint?)
    modifies stream
    ensures stream.Valid() && stream.End() == old(stream.End())
    ensures var r := DecNum(f, old(stream.Rest()), was);
      ok == r.ok && dest == r.out && (ok ==> stream.Rest() == r.rest)
  {
    hide Wide, Clamp, ReadVarint64, ReadFixed;
    dest := was;
    var raw;
    ok, raw := DecodeVarint(stream);
    if !ok {
      return;
    }
    if !ValidSize(f.dataSize) {
      return false, dest;
    }
    var value := Wide(f, raw);
    var clamped := Clamp(f, value);
    return clamped == value, Num(clamped);
  }

  /** The packed branch of `decode_static_field`. */
  method DecodePacked(stream: IStream, f: Field, items: seq<Value>) returns (ok: bool, dest: seq<Value>)
    requires stream.Valid() && Packable(f.ltype)
    modifies stream
    ensures stream.Valid() && stream.End() <= old(stream.End())
    ensures match ReadString(old(stream.Rest()))
      case Bad => !ok && dest == items
      case Got(body, rest) =>
        var r := DecPacked(f, body, items);
        ok == r.ok && dest == r.out && (ok ==> stream.Rest() == rest && stream.End() == old(stream.End()))
  {
    hide DecNum;
    dest := items;
    var sub;
    ok, sub := MakeSubstream(stream);
    if !ok {
      return;
    }
    ghost var body := sub.Rest();
    var status := true;
    while status && sub.bytesLeft > 0 && |dest| < f.arraySize
      modifies sub
      invariant sub.Valid() && sub.End() == old(stream.End()) - stream.bytesLeft
      invariant status ==> DecPacked(f, body, items) == DecPacked(f, sub.Rest(), dest)
      invariant !status ==> !DecPacked(f, body, items).ok && DecPacked(f, body, items).out == dest
      decreases status, sub.bytesLeft
    {
      var item;
      status, item := DecodeNum(sub, f, Stale);
      if status {
        dest := dest + [item];
      }
    }
    if sub.bytesLeft != 0 {
      return false, dest;
    }
    CloseSubstream(stream, sub);
    return status, dest;
  }

  // ---------------------------------------------------------------- defaults

  /** `pb_message_set_to_defaults`: every field in turn, through the iterator. */
  method SetToDefaults(fields: Fields, m: Struct) returns (dest: Struct)
    requires WellFormed(fields) && Shaped(fields, m)
    ensures dest == SetDefaults(fields, m)
    decreases fields, 2
  {
    hide WellFormed, ShapedSlot, DefaultSlot, DefaultValue;
    dest := m;
    var iter := new FieldIter(fields);
    var more := iter.Begin();
    ghost var done := 0;
    NotEmpty(fields);
    while more
      invariant iter.Valid() && iter.fields == fields && |dest| == |fields|
      invariant fresh(iter)
      invariant done == (if more then iter.pos else |fields|) <= |fields|
      invariant forall i | 0 <= i < done :: dest[i] == DefaultSlot(fields[i], m[i])
      invariant forall i | done <= i < |fields| :: dest[i] == m[i]
      decreases |fields| - done
    {
      var i := iter.pos;
      FieldSupported(fields, i);
      var slot := SetFieldToDefault(fields[i], m[i]);
      dest := dest[i := slot];
      more := iter.Next();
      done := i + 1;
    }
  }

  lemma NotEmpty(fields: Fields)
    requires WellFormed(fields)
    ensures fields != []
  {
  }

  lemma FieldSupported(fields: Fields, i: nat)
    requires WellFormed(fields) && i < |fields|
    ensures Supported(fields[i]) && fields[i] in fields
  {
  }

  /** `pb_field_set_to_default` */
  method SetFieldToDefault(f: Field, s: Slot) returns (dest: Slot)
    requires Supported(f) && ShapedSlot(f, s)
    ensures dest == DefaultSlot(f, s)
    decreases f, 1
  {
    hide WellFormed, Shaped, SetDefaults;
    if f.atype.Callback? {
      return s;
    }
    if f.htype.Repeated? {
      return Rep([]);
    }
    var v;
    if f.ltype.Submessage? {
      var slots := SetToDefaults(f.sub, s.v.slots);
      v := Msg(slots);
    } else {
      v := Num(f.dflt);
    }
    return if f.htype.Optional? then Opt(false, v) else Single(v);
  }

  /** A blank struct is already at its defaults. */
  lemma {:induction false} DefaultsOfBlank(fields: Fields)
    requires WellFormed(fields)
    ensures SetDefaults(fields, Blank(fields)) == Blank(fields)
    decreases fields
  {
    forall i | 0 <= i < |fields| ensures DefaultSlot(fields[i], Blank(fields)[i]) == Blank(fields)[i] {
      var f := fields[i];
      if f.atype.Static? && f.ltype.Submessage? { DefaultsOfBlank(f.sub); }
    }
  }

  // ---------------------------------------------------------------- fields

  /** `pb_dec_submessage`: a repeated element is set to defaults first, any other is merged into. */
  method DecodeSubmessage(stream: IStream, f: Field, was: Value) returns (ok: bool, dest: Value)
    requires stream.Valid() && Supported(f) && f.ltype.Submessage? && f.atype.Static?
    requires if f.htype.Repeated? then was == Stale else ShapedValue(f, was)
    modifies stream
    ensures stream.Valid() && stream.End() <= old(stream.End())
    ensures var r :=
        if f.htype.Repeated? then DecElement(f, old(stream.Rest())) else DecValue(f, old(stream.Rest()), was);
      ok == r.ok && dest == r.out && (ok ==> stream.Rest() == r.rest && stream.End() == old(stream.End()))
    decreases stream.bytesLeft, 2
  {
    hide WellFormed, Shaped, DecodeNoInit, SetDefaults, Blank, ReadString;
    dest := was;
    ghost var input := stream.Rest();
    var sub;
    ok, sub := MakeSubstream(stream);
    if !ok {
      return;
    }
    var out;
    if f.htype.Repeated? {
      ok, out := DecodeMessage(sub, f.sub, Blank(f.sub));
      DefaultsOfBlank(f.sub);
      AsDecoded(f.sub, ReadString(input).value);
    } else {
      ok, out := DecodeMessageNoInit(sub, f.sub, was.slots);
    }
    dest := Msg(out);
    CloseSubstream(stream, sub);
  }

  lemma AsDecoded(fields: Fields, body: Bytes)
    requires WellFormed(fields)
    ensures Decode(fields, body, Blank(fields)) == DecodeNoInit(fields, body, Blank(fields))
  {
    DefaultsOfBlank(fields);
  }

  /** One value of a required, optional or unpacked repeated field: the call through `PB_DECODERS`. */
  method DecodeValue(stream: IStream, f: Field, was: Value) returns (ok: bool, dest: Value)
    requires stream.Valid() && Supported(f) && f.atype.Static?
    requires if f.htype.Repeated? then was == Stale else ShapedValue(f, was)
    modifies stream
    ensures stream.Valid() && stream.End() <= old(stream.End())
    ensures var r :=
        if f.htype.Repeated? then DecElement(f, old(stream.Rest())) else DecValue(f, old(stream.Rest()), was);
      ok == r.ok && dest == r.out && (ok ==> stream.Rest() == r.rest && stream.End() == old(stream.End()))
    decreases stream.bytesLeft, 3
  {
    hide WellFormed, DecSubmessage, DecNum, ReadString;
    if f.ltype.Submessage? {
      ok, dest := DecodeSubmessage(stream, f, was);
    } else {
      ok, dest := DecodeNum(stream, f, was);
    }
  }

  /** `decode_static_field` */
  method DecodeStaticField(stream: IStream, wt: nat, f: Field, s: Slot) returns (ok: bool, dest: Slot)
    requires stream.Valid() && Supported(f) && f.atype.Static? && ShapedSlot(f, s)
    modifies stream
    ensures stream.Valid() && stream.End() <= old(stream.End())
    ensures var r := DecSlot(f, wt, old(stream.Rest()), s);
      ok == r.ok && dest == r.out && (ok ==> stream.Rest() == r.rest && stream.End() == old(stream.End()))
    decreases stream.bytesLeft, 4
  {
    hide WellFormed, ShapedValue, DecValue, DecElement, DecPacked, ReadString;
    var v;
    match f.htype
    case Required =>
      ok, v := DecodeValue(stream, f, s.v);
      dest := Single(v);
    case Optional =>
      ok, v := DecodeValue(stream, f, s.v);
      dest := Opt(true, v);
    case Repeated =>
      if wt == WT_STRING && Packable(f.ltype) {
        var items;
        ok, items := DecodePacked(stream, f, s.items);
        dest := Rep(items);
      } else if |s.items| >= f.arraySize {
        return false, Rep(Count(s.items, Stale));
      } else {
        ok, v := DecodeValue(stream, f, Stale);
        dest := Rep(s.items + [v]);
      }
  }

  /** The callback of a string field, `NanoPBDecoder::decode_string`. */
  method DecodeString(stream: IStream, text: Text) returns (ok: bool, dest: Text)
    requires stream.Valid()
    modifies stream
    ensures stream.Valid() && stream.End() == old(stream.End())
    ensures ok && stream.Rest() == []
    ensures dest == if old(stream.Rest()) == [] then text else Text(old(stream.Rest()))
  {
    if stream.bytesLeft == 0 {
      return true, text;
    }
    var buf;
    ok, buf := stream.Read(stream.bytesLeft);
    return ok, Text(buf);
  }

  /** `decode_callback_field`; the callback is called until it has emptied its substream. */
  method DecodeCallbackField(stream: IStream, wt: nat, s: Slot) returns (ok: bool, dest: Slot)
    requires stream.Valid() && s.Cb?
    modifies stream
    ensures stream.Valid() && stream.End() <= old(stream.End())
    ensures var r := DecCallback(wt, old(stream.Rest()), s);
      ok == r.ok && dest == r.out && (ok ==> stream.Rest() == r.rest && stream.End() == old(stream.End()))
  {
    hide ReadString, ReadRaw, Skip;
    dest := s;
    if !s.bound {
      ok := SkipField(stream, wt);
      return;
    }
    var text := s.text;
    if wt == WT_STRING {
      var sub;
      ok, sub := MakeSubstream(stream);
      if !ok {
        return;
      }
      ghost var body := sub.Rest();
      var more := true;
      while more
        modifies sub
        invariant sub.Valid() && sub.End() == old(stream.End()) - stream.bytesLeft
        invariant if more then sub.Rest() == body && text == s.text
                  else sub.Rest() == [] && text == if body == [] then s.text else Text(body)
        decreases more
      {
        ok, text := DecodeString(sub, text);
        more := sub.bytesLeft > 0;
      }
      CloseSubstream(stream, sub);
    } else {
      var buffer;
      ok, buffer := ReadRawValue(stream, wt);
      if !ok {
        return;
      }
      var sub := new IStream(buffer, 0, |buffer|);
      assert sub.Rest() == buffer;
      ok, text := DecodeString(sub, text);
    }
    dest := Cb(true, text);
  }

  /** `decode_field` */
  method DecodeField(stream: IStream, wt: nat, f: Field, s: Slot) returns (ok: bool, dest: Slot)
    requires stream.Valid() && Supported(f) && ShapedSlot(f, s)
    modifies stream
    ensures stream.Valid() && stream.End() <= old(stream.End())
    ensures var r := DecSlot(f, wt, old(stream.Rest()), s);
      ok == r.ok && dest == r.out && (ok ==> stream.Rest() == r.rest && stream.End() == old(stream.End()))
    decreases stream.bytesLeft, 5
  {
    hide WellFormed, ShapedValue, DecValue, DecRepeated, DecCallback;
    if f.atype.Static? {
      ok, dest := DecodeStaticField(stream, wt, f, s);
    } else {
      ok, dest := DecodeCallbackField(stream, wt, s);
    }
  }

  // ---------------------------------------------------------------- messages

  /** The iterator finds the field the descriptor list has for a tag, if there is one. */
  lemma FindAgrees(fields: Fields, tag: nat)
    requires WellFormed(fields)
    ensures Find(fields, tag) < |fields| <==> exists i: nat :: i < |fields| && Answers(fields, i, tag)
    ensures forall i: nat | i < |fields| && Answers(fields, i, tag) :: i == Find(fields, tag)
  {
    var j := Find(fields, tag);
    assert j < |fields| ==> Answers(fields, j, tag);
    if j == |fields| {
      forall i: nat | i < |fields| ensures !Answers(fields, i, tag) { assert fields[i] in fields; }
    }
  }

  lemma ScanDone(fields: Fields, m: Struct, seen: set<nat>)
    requires WellFormed(fields) && Shaped(fields, m)
    ensures ScanFields(fields, [], m, seen) == Scan(true, false, [], m, seen)
  {
  }

  /** One turn of the field loop: the end of the message, an unknown field, a known one. */
  lemma ScanEnd(fields: Fields, bs: Bytes, m: Struct, seen: set<nat>)
    requires WellFormed(fields) && Shaped(fields, m) && bs != [] && !ReadTag(bs).Tag?
    ensures var s := ScanFields(fields, bs, m, seen);
      if ReadTag(bs).End? then s == Scan(true, true, ReadTag(bs).rest, m, seen) else !s.ok && s.out == m
  {
  }

  lemma ScanUnknown(fields: Fields, bs: Bytes, m: Struct, seen: set<nat>)
    requires WellFormed(fields) && Shaped(fields, m) && bs != []
    requires ReadTag(bs).Tag? && Find(fields, ReadTag(bs).tag) == |fields|
    ensures var s, r := ScanFields(fields, bs, m, seen), Skip(ReadTag(bs).wt, ReadTag(bs).rest);
      if r.Got? then s == ScanFields(fields, r.rest, m, seen) else !s.ok && s.out == m
  {
  }

  lemma ScanField(fields: Fields, bs: Bytes, m: Struct, seen: set<nat>)
    requires WellFormed(fields) && Shaped(fields, m) && bs != []
    requires ReadTag(bs).Tag? && Find(fields, ReadTag(bs).tag) < |fields|
    ensures var i := Find(fields, ReadTag(bs).tag);
      var r := DecSlot(fields[i], ReadTag(bs).wt, ReadTag(bs).rest, m[i]);
      var s := ScanFields(fields, bs, m, seen);
      && Shaped(fields, m[i := r.out])
      && if r.ok then s == ScanFields(fields, r.rest, m[i := r.out], Mark(fields, i, seen))
         else !s.ok && s.out == m[i := r.out]
  {
  }

  lemma ShapedAt(fields: Fields, m: Struct, i: nat)
    requires Shaped(fields, m) && i < |fields|
    ensures |m| == |fields| && ShapedSlot(fields[i], m[i])
  {
  }

  /** The field loop of `pb_decode_noinit`. */
  method DecodeFields(stream: IStream, iter: FieldIter, m: Struct) returns (ok: bool, dest: Struct, bits: Bitmap)
    requires stream.Valid() && iter.Valid() && WellFormed(iter.fields) && Shaped(iter.fields, m)
    modifies stream, iter
    ensures stream.Valid() && stream.End() <= old(stream.End()) && iter.Valid()
    ensures var s := ScanFields(iter.fields, old(stream.Rest()), m, {});
      && ok == s.ok && dest == s.out
      && (ok ==> stream.Rest() == s.rest && stream.End() == old(stream.End()) && Represents(bits, iter.fields, s.seen))
    decreases stream.bytesLeft, 0
  {
    hide WellFormed, Shaped, ShapedSlot, Represents, DecSlot, ReadTag, Skip, ScanFields, Meet, Mark, Find,
      RequiredBefore, DataAt, SizeAt, Answers, FirstFrom;
    var fields := iter.fields;
    ghost var input, seen: set<nat> := stream.Rest(), {};
    dest, bits := m, Bitmap(0, 0);
    NothingSeen(fields);
    NotEmpty(fields);
    while stream.bytesLeft > 0
      invariant stream.Valid() && stream.End() == old(stream.End()) && stream.bytesLeft <= old(stream.bytesLeft)
      invariant iter.Valid() && Shaped(fields, dest) && Represents(bits, fields, seen)
      invariant ScanFields(fields, input, m, {}) == ScanFields(fields, stream.Rest(), dest, seen)
      decreases stream.bytesLeft
    {
      ghost var before := stream.Rest();
      var tag, wt, eof;
      ok, tag, wt, eof := DecodeTag(stream);
      if !ok {
        ScanEnd(fields, before, dest, seen);
        return eof, dest, bits;
      }
      FindAgrees(fields, tag);
      var found := iter.Find(tag);
      if !found {
        ScanUnknown(fields, before, dest, seen);
        ok := SkipField(stream, wt);
        if !ok {
          return;
        }
        continue;
      }
      var i := iter.pos;
      FieldSupported(fields, i);
      ShapedAt(fields, dest, i);
      ScanField(fields, before, dest, seen);
      BitmapValid(bits, fields, seen);
      MeetMarks(bits, fields, seen, i);
      bits := MarkRequired(iter, bits);
      seen := Mark(fields, i, seen);
      var slot;
      ok, slot := DecodeField(stream, wt, fields[i], dest[i]);
      dest := dest[i := slot];
      if !ok {
        return;
      }
    }
    assert stream.Rest() == [];
    ScanDone(fields, dest, seen);
    return true, dest, bits;
  }

  /** Setting the bit of a required field among the first 64. */
  method MarkRequired(iter: FieldIter, bits: Bitmap) returns (next: Bitmap)
    requires iter.Valid() && iter.pos < |iter.fields| && bits.Valid()
    ensures next == Meet(bits, iter.fields, iter.pos)
  {
    next := bits;
    if iter.fields[iter.pos].htype.Required? && iter.requiredIndex < MAX_REQUIRED {
      next := bits.Set(iter.requiredIndex);
    }
  }

  /** The final check of `pb_decode_noinit`, from wherever the iterator stands. */
  method CheckRequired(iter: FieldIter, bits: Bitmap) returns (ok: bool)
    requires iter.Valid() && WellFormed(iter.fields) && bits.Valid()
    modifies iter
    ensures ok == bits.Full(Checked(iter.fields))
  {
    hide WellFormed;
    var fields := iter.fields;
    NotEmpty(fields);
    var count, lastRequired := iter.requiredIndex, fields[iter.pos].htype.Required?;
    var more := iter.Next();
    while more
      invariant iter.Valid() && (more <==> iter.pos > 0)
      invariant var last := if more then iter.pos - 1 else |fields| - 1;
        count == RequiredBefore(fields, last) && lastRequired == fields[last].htype.Required?
      decreases more, |fields| - iter.pos
    {
      count, lastRequired := iter.requiredIndex, fields[iter.pos].htype.Required?;
      more := iter.Next();
    }
    FieldSupported(fields, iter.pos);
    if lastRequired && fields[iter.pos].tag != 0 {
      count := count + 1;
    }
    if count > MAX_REQUIRED {
      count := MAX_REQUIRED;
    }
    assert count == Checked(fields);
    if count > 0 {
      var i := 0;
      while i < count / 32
        invariant 0 <= i <= count / 32
        invariant forall k | 0 <= k < i :: bits.Word(k) == ALL_BITS
      {
        if bits.Word(i) != ALL_BITS {
          return false;
        }
        i := i + 1;
      }
      if count % 32 != 0 && bits.Word(count / 32) != ALL_BITS / Pow2(32 - count % 32) {
        return false;
      }
      assert count / 32 > 0 ==> bits.Word(0) == ALL_BITS;
      assert count / 32 > 1 ==> bits.Word(1) == ALL_BITS;
    }
    return true;
  }

  /** `pb_decode_noinit` */
  method DecodeMessageNoInit(stream: IStream, fields: Fields, m: Struct) returns (ok: bool, dest: Struct)
    requires stream.Valid() && WellFormed(fields) && Shaped(fields, m)
    modifies stream
    ensures stream.Valid() && stream.End() <= old(stream.End())
    ensures var r := DecodeNoInit(fields, old(stream.Rest()), m);
      ok == r.ok && dest == r.out && (ok ==> stream.Rest() == r.rest && stream.End() == old(stream.End()))
    decreases stream.bytesLeft, 1
  {
    hide WellFormed, Shaped, ScanFields, Represents, AllSeen, Checked, RequiredBefore, Bitmap.Full, DataAt, SizeAt;
    ghost var input := stream.Rest();
    var iter := new FieldIter(fields);
    var bits;
    ok, dest, bits := DecodeFields(stream, iter, m);
    if ok {
      BitmapValid(bits, fields, ScanFields(fields, input, m, {}).seen);
      CheckIsSoundAndComplete(bits, fields, ScanFields(fields, input, m, {}).seen);
      ok := CheckRequired(iter, bits);
    }
  }

  lemma BitmapValid(b: Bitmap, fields: Fields, seen: set<nat>)
    requires Represents(b, fields, seen)
    ensures b.Valid()
  {
  }

  /** `pb_decode` */
  method DecodeMessage(stream: IStream, fields: Fields, m: Struct) returns (ok: bool, dest: Struct)
    requires stream.Valid() && WellFormed(fields) && Shaped(fields, m)
    modifies stream
    ensures stream.Valid() && stream.End() <= old(stream.End())
    ensures var r := Decode(fields, old(stream.Rest()), m);
      ok == r.ok && dest == r.out && (ok ==> stream.Rest() == r.rest && stream.End() == old(stream.End()))
    decreases stream.bytesLeft, 2
  {
    hide WellFormed, Shaped, SetDefaults, DecodeNoInit;
    dest := SetToDefaults(fields, m);
    ok, dest := DecodeMessageNoInit(stream, fields, dest);
  }
}
