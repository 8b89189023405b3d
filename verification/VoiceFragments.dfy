/** How `put_voice` cuts a voice into fragments, and that nothing is lost on the way to the server. */
module VoiceFragments {
  import opened Wire
  import opened StreamSpec

  /** Pieces of `size` bytes and the rest. */
  function Cut(voice: Bytes, size: nat): seq<Bytes>
    requires size >= 1
    decreases |voice|
  {
    if voice == [] then []
    else if |voice| <= size then [voice]
    else [voice[..size]] + Cut(voice[size..], size)
  }

  /** Every fragment but the last has `size` bytes, the last 1 to `size`, and together they are the voice. */
  lemma {:induction false} CutKeepsBytes(voice: Bytes, size: nat)
    requires size >= 1
    ensures Flat(Cut(voice, size)) == voice
    ensures var fragments := Cut(voice, size);
      && (forall i | 0 <= i < |fragments| - 1 :: |fragments[i]| == size)
      && (fragments != [] ==> 1 <= |fragments[|fragments| - 1]| <= size)
    decreases |voice|
  {
    if voice == [] {
    } else if |voice| <= size {
      assert [voice][..0] == [];
    } else {
      CutKeepsBytes(voice[size..], size);
      FlatFront(voice[..size], Cut(voice[size..], size));
    }
  }

  // ---------------------------------------------------------------- a queue of voices

  /** What users and the sender do to the voice queue. `Other` is any command that is not a voice. */
  datatype Call = PutVoice(id: int, voice: Bytes, size: nat) | Other(cmd: Command<Bytes>)

  predicate Proper(c: Call) {
    match c
    case PutVoice(_, _, size) => size >= 1
    case Other(cmd) => !cmd.DoStream?
  }

  /** The run, and for each start all bytes `put_voice` was given while the stream was open. */
  datatype Voices = Voices(run: Run<Bytes>, given: seq<Bytes>)

  function StreamAll(r: Run<Bytes>, id: int, items: seq<Bytes>): (r': Run<Bytes>)
    requires |r.q| <= |r.births|
    ensures |r'.q| == |r.q| && |r'.births| == |r.births|
    decreases |items|
  {
    if items == [] then r else StreamAll(Step(r, DoStream(id, items[0])), id, items[1..])
  }

  function Do(v: Voices, c: Call): (v': Voices)
    requires Proper(c) && |v.run.q| <= |v.run.births| == |v.given|
    ensures |v'.run.q| <= |v'.run.births| == |v'.given|
  {
    match c
    case PutVoice(id, voice, size) =>
      var k := |v.run.births| - |v.run.q| + Index(v.run.q, id);
      Voices(StreamAll(v.run, id, Cut(voice, size)),
             if Takes(v.run, id) then v.given[k := v.given[k] + voice] else v.given)
    case Other(cmd) =>
      var run := Step(v.run, cmd);
      Voices(run, if |run.births| > |v.given| then v.given + [[]] else v.given)
  }

  function DoAll(calls: seq<Call>): (v: Voices)
    requires forall i | 0 <= i < |calls| :: Proper(calls[i])
    ensures |v.run.q| <= |v.run.births| == |v.given|
  {
    if calls == [] then Voices(Run([], [], []), []) else Do(DoAll(calls[..|calls| - 1]), calls[|calls| - 1])
  }

  /** The items a stream accepted are the bytes it was given. */
  ghost predicate SameBytes(v: Voices) {
    |v.run.births| == |v.given| && forall k | 0 <= k < |v.given| :: Flat(v.run.births[k].accepted) == v.given[k]
  }

  lemma AppendedOne(r: Run<Bytes>, id: int, item: Bytes)
    requires |r.q| <= |r.births|
    ensures var r', k := Step(r, DoStream(id, item)), |r.births| - |r.q| + Index(r.q, id);
      && |r'.q| == |r.q| && (Takes(r', id) <==> Takes(r, id)) && Index(r'.q, id) == Index(r.q, id)
      && if Takes(r, id) then r'.births == r.births[k := AcceptBirth(r.births[k], [item])]
         else r'.births == r.births
  {
    var i := Index(r.q, id);
    if i < |r.q| { SameIndex(r.q, i, r.q[i].(data := r.q[i].data + [item]), id); }
  }

  lemma SameIndex(q: Streams<Bytes>, i: nat, s: Stream<Bytes>, id: int)
    requires i < |q| && s.id == q[i].id
    ensures Index(q[i := s], id) == Index(q, id)
  {
    var j := Index(q, id);
    var q' := q[i := s];
    var j' := Index(q', id);
    if j' < |q| { assert q[j'].id == q'[j'].id; }
    if j < |q| { assert q'[j].id == q[j].id; }
  }

  lemma {:induction false} StreamedAll(r: Run<Bytes>, id: int, items: seq<Bytes>)
    requires |r.q| <= |r.births|
    ensures var r', k := StreamAll(r, id, items), |r.births| - |r.q| + Index(r.q, id);
      if Takes(r, id) then r'.births == r.births[k := AcceptBirth(r.births[k], items)]
      else r'.births == r.births
    decreases |items|
  {
    if items == [] {
      if Takes(r, id) {
        var k := |r.births| - |r.q| + Index(r.q, id);
        assert r.births[k].accepted + [] == r.births[k].accepted && r.births[k].due + [] == r.births[k].due;
      }
    } else {
      AppendedOne(r, id, items[0]);
      if Takes(r, id) {
        var k := |r.births| - |r.q| + Index(r.q, id);
        assert r.births[k].accepted + [items[0]] + items[1..] == r.births[k].accepted + items;
        assert r.births[k].due + [items[0]] + items[1..] == r.births[k].due + items;
      }
      StreamedAll(Step(r, DoStream(id, items[0])), id, items[1..]);
    }
  }

  lemma PutVoiceKeeps(v: Voices, id: int, voice: Bytes, size: nat)
    requires size >= 1 && |v.run.q| <= |v.run.births| && SameBytes(v)
    ensures SameBytes(Do(v, PutVoice(id, voice, size)))
  {
    hide Flat, Cut, StreamAll;
    var items := Cut(voice, size);
    StreamedAll(v.run, id, items);
    CutKeepsBytes(voice, size);
    if Takes(v.run, id) {
      var k := |v.run.births| - |v.run.q| + Index(v.run.q, id);
      FlatConcat(v.run.births[k].accepted, items);
    }
  }

  lemma OtherKeeps(v: Voices, cmd: Command<Bytes>)
    requires !cmd.DoStream? && |v.run.q| <= |v.run.births| && SameBytes(v)
    ensures SameBytes(Do(v, Other(cmd)))
  {
    hide Flat, Step;
    OtherKeepsAccepted(v.run, cmd);
    FlatNothing();
  }

  lemma FlatNothing()
    ensures Flat<byte>([]) == []
  {
  }

  lemma DoKeeps(v: Voices, c: Call)
    requires Proper(c) && |v.run.q| <= |v.run.births| && SameBytes(v)
    ensures SameBytes(Do(v, c))
  {
    match c
    case PutVoice(id, voice, size) => PutVoiceKeeps(v, id, voice, size);
    case Other(cmd) => OtherKeeps(v, cmd);
  }

  lemma OtherKeepsAccepted(r: Run<Bytes>, cmd: Command<Bytes>)
    requires |r.q| <= |r.births| && !cmd.DoStream?
    ensures var r' := Step(r, cmd);
      && |r.births| <= |r'.births| <= |r.births| + 1
      && (forall k | 0 <= k < |r.births| :: r'.births[k].accepted == r.births[k].accepted)
      && (|r'.births| > |r.births| ==> r'.births[|r.births|].accepted == [])
  {
    var r', done := Step(r, cmd), |r.births| - |r.q|;
    if cmd.DoClear? {
      forall k | 0 <= k < |r.births| ensures r'.births[k].accepted == r.births[k].accepted {
        assert r'.births[k] == if k < done then r.births[k] else EraseBirth(r.births[done + (k - done)], 0);
      }
    }
  }

  lemma {:induction false} AlwaysSameBytes(calls: seq<Call>) returns (cmds: seq<Command<Bytes>>)
    requires forall i | 0 <= i < |calls| :: Proper(calls[i])
    ensures SameBytes(DoAll(calls)) && DoAll(calls).run == RunOf(cmds)
    decreases |calls|
  {
    if calls == [] {
      cmds := [];
    } else {
      var n := |calls| - 1;
      cmds := AlwaysSameBytes(calls[..n]);
      DoKeeps(DoAll(calls[..n]), calls[n]);
      match calls[n]
      case PutVoice(id, voice, size) =>
        cmds := AsCommands(cmds, id, Cut(voice, size));
      case Other(cmd) =>
        assert (cmds + [cmd])[..|cmds|] == cmds;
        cmds := cmds + [cmd];
    }
  }

  lemma {:induction false} AsCommands(cmds: seq<Command<Bytes>>, id: int, items: seq<Bytes>)
    returns (cmds': seq<Command<Bytes>>)
    ensures RunOf(cmds') == StreamAll(RunOf(cmds), id, items)
    decreases |items|
  {
    if items == [] {
      cmds' := cmds;
    } else {
      var next := cmds + [DoStream(id, items[0])];
      assert next[..|cmds|] == cmds;
      cmds' := AsCommands(next, id, items[1..]);
    }
  }

  /**
   * Voice bytes are conserved: the output is one block per started voice, and a block that ends with END and was
   * never erased or cleared carries exactly the bytes given for that voice, in order, whatever the fragment sizes.
   */
  lemma VoiceConserved(calls: seq<Call>) returns (blocks: seq<seq<Popped<Bytes>>>)
    requires forall i | 0 <= i < |calls| :: Proper(calls[i])
    ensures var v := DoAll(calls);
      && Explains(v.run, blocks) && |v.given| == |blocks|
      && forall k | 0 <= k < |v.run.births| - |v.run.q| ::
           blocks[k] != [] && (blocks[k][|blocks[k]| - 1].End? && !v.run.births[k].touched ==>
             Flat(Items(blocks[k][..|blocks[k]| - 1])) == v.given[k])
  {
    hide Flat, Items, DoAll, RunOf, Opened;
    var cmds := AlwaysSameBytes(calls);
    blocks := OutputLanguage(cmds);
    var v := DoAll(calls);
    forall k | 0 <= k < |v.run.births| - |v.run.q|
      ensures blocks[k] != [] && (blocks[k][|blocks[k]| - 1].End? && !v.run.births[k].touched ==>
        Flat(Items(blocks[k][..|blocks[k]| - 1])) == v.given[k])
    {
      assert Finished(blocks[k], v.run.births[k]);
    }
  }
}
