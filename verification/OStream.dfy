/** Output streams, `pb_ostream_t`: a window of a buffer, or a byte counter only. */
module OutputStream {
  import opened Wire
  import opened EncodeSpec

  /** What an output stream looks like at one moment: its memory, write position, limit and count. */
  datatype Tape = Tape(sizing: bool, mem: Bytes, state: nat, maxSize: nat, written: nat) {
    predicate Valid() {
      sizing || (written <= maxSize && state + (maxSize - written) <= |mem|)
    }

    predicate Fits(n: nat) {
      sizing || written + n <= maxSize
    }

    /** End of the window the stream may write to. */
    function Limit(): nat
      requires Valid() && !sizing
    {
      state + (maxSize - written)
    }
  }

  function Splice(mem: Bytes, at: nat, bs: Bytes): Bytes
    requires at + |bs| <= |mem|
  {
    mem[..at] + bs + mem[at + |bs|..]
  }

  /** `t1` agrees with `t0` everywhere but in the window `t0` could still write. */
  predicate OnlyWindow(t0: Tape, t1: Tape)
    requires t0.Valid()
  {
    && t1.Valid() && t1.sizing == t0.sizing && t1.maxSize == t0.maxSize && |t1.mem| == |t0.mem|
    && (t0.sizing ==> t1.mem == t0.mem && t1.state == t0.state)
    && (!t0.sizing ==>
          && t1.state >= t0.state && t1.Limit() == t0.Limit()
          && t1.mem[..t0.state] == t0.mem[..t0.state]
          && t1.mem[t0.Limit()..] == t0.mem[t0.Limit()..])
  }

  /**
   * The effect of writing `enc`: it succeeds iff there is something to write and it fits;
   * then exactly those bytes are there. Nothing outside the window ever changes.
   */
  predicate After(t0: Tape, t1: Tape, ok: bool, enc: Encoded)
    requires t0.Valid()
  {
    && OnlyWindow(t0, t1)
    && (ok <==> enc.Out? && t0.Fits(|enc.bytes|))
    && (ok ==>
          && t1.written == t0.written + |enc.bytes|
          && (!t0.sizing ==>
                t1.state == t0.state + |enc.bytes| && t1.mem == Splice(t0.mem, t0.state, enc.bytes)))
  }

  lemma NothingWritten(t: Tape)
    requires t.Valid()
    ensures After(t, t, true, Out([]))
  {
    if !t.sizing { assert Splice(t.mem, t.state, []) == t.mem; }
  }

  lemma SpliceTwice(mem: Bytes, at: nat, a: Bytes, b: Bytes)
    requires at + |a| + |b| <= |mem|
    ensures Splice(Splice(mem, at, a), at + |a|, b) == Splice(mem, at, a + b)
  {
  }

  /** Writing one thing after another is writing both. */
  lemma AfterBoth(t0: Tape, t1: Tape, t2: Tape, ok: bool, a: Encoded, b: Encoded)
    requires t0.Valid() && After(t0, t1, true, a) && After(t1, t2, ok, b)
    ensures After(t0, t2, ok, a.Then(b))
  {
    if !t0.sizing {
      assert t2.mem[..t0.state] == t1.mem[..t1.state][..t0.state];
      assert t1.mem[t1.Limit()..] == t0.mem[t0.Limit()..];
      if ok { SpliceTwice(t0.mem, t0.state, a.bytes, b.bytes); }
    }
  }

  lemma FailedFirst(t0: Tape, t1: Tape, a: Encoded, b: Encoded)
    requires t0.Valid() && After(t0, t1, false, a)
    ensures After(t0, t1, false, a.Then(b))
  {
  }

  class OStream {
    const sizing: bool
    const buf: array<byte>
    var state: nat
    const maxSize: nat
    var bytesWritten: nat

    ghost function View(): Tape
      reads this, buf
    {
      Tape(sizing, buf[..], state, maxSize, bytesWritten)
    }

    ghost predicate Valid()
      reads this, buf
    {
      View().Valid()
    }

    /** `PB_OSTREAM_SIZING` */
    constructor Sizing()
      ensures Valid() && fresh(buf) && sizing && bytesWritten == 0
    {
      sizing, buf, state, maxSize, bytesWritten := true, new byte[0], 0, 0, 0;
    }

    /** `pb_ostream_from_buffer`, and the limited substream of a submessage, which shares its parent's buffer. */
    constructor Window(buf: array<byte>, state: nat, maxSize: nat)
      requires state + maxSize <= buf.Length
      ensures Valid() && this.buf == buf && View() == Tape(false, buf[..], state, maxSize, 0)
    {
      this.sizing, this.buf, this.state, this.maxSize, this.bytesWritten := false, buf, state, maxSize, 0;
    }

    /** `pb_write` into a buffer or a counter. */
    method Write(bs: Bytes) returns (ok: bool)
      requires Valid()
      modifies this, buf
      ensures Valid() && After(old(View()), View(), ok, Out(bs))
    {
      if !sizing {
        if bytesWritten + |bs| > maxSize {
          return false;
        }
        BufWrite(bs);
      }
      bytesWritten := bytesWritten + |bs|;
      return true;
    }

    /** `buf_write`: copies byte by byte. */
    method BufWrite(bs: Bytes)
      requires Valid() && !sizing && bytesWritten + |bs| <= maxSize
      modifies this`state, buf
      ensures state == old(state) + |bs| && buf[..] == Splice(old(buf[..]), old(state), bs)
    {
      var dest := state;
      state := dest + |bs|;
      for i := 0 to |bs|
        invariant state == dest + |bs|
        invariant forall j | 0 <= j < buf.Length :: buf[j] == if dest <= j < dest + i then bs[j - dest] else old(buf[j])
      {
        buf[dest + i] := bs[i];
      }
      ghost var spliced := Splice(old(buf[..]), dest, bs);
      assert forall j | 0 <= j < buf.Length :: buf[..][j] == spliced[j];
    }

    /** `pb_write(stream, NULL, n)` on a counting stream. */
    method Count(n: nat)
      requires Valid() && sizing
      modifies this`bytesWritten
      ensures Valid() && View() == old(View()).(written := old(bytesWritten) + n)
    {
      bytesWritten := bytesWritten + n;
    }
  }
}
