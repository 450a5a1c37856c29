/** The Java decoder call by call: how long its array is and which bytes a call can read.
    Its calls decode like calls of the C++ decoder. */
module JavaDecoding {
  import opened Bytes
  import opened Framing
  import FrameCodec

  const INIT_BUFFER_SIZE: nat := 8192

  const MAX_CAPACITY: nat := MAX_PAYLOAD + HEADER_LENGTH

  function Doubled(capacity: nat): nat
  {
    if capacity * 2 < MAX_CAPACITY then capacity * 2 else MAX_CAPACITY
  }

  /** The length of the array after calls that read these pieces: it doubles when the
      undecoded bytes fill it. A call that fails leaves it alone. */
  function Capacity(pieces: seq<Bytes>): nat
  {
    if pieces == [] then INIT_BUFFER_SIZE
    else
      var before := Capacity(pieces[..|pieces| - 1]);
      var state := FrameCodec.Run(pieces).state;
      if !state.error && |state.buf| == before then Doubled(before) else before
  }

  /** How many bytes the next call can read. */
  function Room(pieces: seq<Bytes>): int
  {
    Capacity(pieces) - |FrameCodec.Run(pieces).state.buf|
  }

  /** Each piece is something that one call can read; after a failure nothing is. */
  predicate Readable(pieces: seq<Bytes>)
  {
    pieces == [] ||
    (var init := pieces[..|pieces| - 1];
     Readable(init) && !FrameCodec.Run(init).state.error && 0 < |pieces[|pieces| - 1]| <= Room(init))
  }

  // ---------- the length of the array ----------

  /** The length after doubling until `need` fits, as far as it goes. */
  function Grown(capacity: nat, need: nat): (r: nat)
    requires 0 < capacity
    ensures r >= capacity && (r >= need || r >= MAX_CAPACITY)
    decreases MAX_CAPACITY - capacity
  {
    if capacity >= need || capacity >= MAX_CAPACITY then capacity else Grown(Doubled(capacity), need)
  }

  lemma {:induction false} GrownAgain(capacity: nat, need: nat, more: nat)
    requires 0 < capacity
    ensures need <= more ==> Grown(Grown(capacity, need), more) == Grown(capacity, more)
    ensures need <= more <= Grown(capacity, need) ==> Grown(capacity, more) == Grown(capacity, need)
    ensures need <= more ==> Grown(capacity, need) <= Grown(capacity, more)
    decreases MAX_CAPACITY - capacity
  {
    if capacity < need && capacity < MAX_CAPACITY {
      GrownAgain(Doubled(capacity), need, more);
    }
  }

  lemma {:induction false} GrownWithin(capacity: nat, need: nat)
    requires 0 < capacity <= MAX_CAPACITY
    ensures Grown(capacity, need) <= MAX_CAPACITY
    decreases MAX_CAPACITY - capacity
  {
    if capacity < need && capacity < MAX_CAPACITY {
      GrownWithin(Doubled(capacity), need);
    }
  }

  /** The length that decoding these frames makes necessary. */
  function CapacityFor(frames: seq<Bytes>): (r: nat)
    ensures r >= INIT_BUFFER_SIZE
  {
    if frames == [] then INIT_BUFFER_SIZE
    else Grown(CapacityFor(frames[..|frames| - 1]), |Encode(frames[|frames| - 1])|)
  }

  lemma CapacityForSnoc(frames: seq<Bytes>, frame: Bytes)
    ensures CapacityFor(frames + [frame]) == Grown(CapacityFor(frames), |Encode(frame)|)
  {
    assert (frames + [frame])[..|frames + [frame]| - 1] == frames;
  }

  /** Frames that fit into the array leave its length alone. */
  lemma {:induction false} NoGrowth(frames: seq<Bytes>, more: seq<Bytes>)
    requires forall f <- more :: |Encode(f)| <= CapacityFor(frames)
    ensures CapacityFor(frames + more) == CapacityFor(frames)
    decreases |more|
  {
    hide Encode, CapacityFor;
    if more == [] {
      assert frames + more == frames;
    } else {
      var init, last := more[..|more| - 1], more[|more| - 1];
      assert forall f <- init :: f in more;
      NoGrowth(frames, init);
      assert frames + more == (frames + init) + [last];
      assert last in more;
      CapacityForSnoc(frames + init, last);
    }
  }

  lemma {:induction false} CapacityForWithin(frames: seq<Bytes>)
    ensures CapacityFor(frames) <= MAX_CAPACITY
  {
    if frames != [] {
      CapacityForWithin(frames[..|frames| - 1]);
      GrownWithin(CapacityFor(frames[..|frames| - 1]), |Encode(frames[|frames| - 1])|);
    }
  }

  lemma {:induction false} CapacityForGrows(frames: seq<Bytes>, more: seq<Bytes>)
    ensures CapacityFor(frames) <= CapacityFor(frames + more)
    decreases |more|
  {
    hide CapacityFor, Encode;
    if more == [] {
      assert frames + more == frames;
    } else {
      var init, last := more[..|more| - 1], more[|more| - 1];
      CapacityForGrows(frames, init);
      assert frames + more == (frames + init) + [last];
      CapacityForSnoc(frames + init, last);
    }
  }

  lemma {:induction false} EncodedFits(frames: seq<Bytes>, f: Bytes)
    requires f in frames
    ensures |Encode(f)| <= |EncodeAll(frames)|
  {
    hide Encode;
    if f != frames[0] {
      EncodedFits(frames[1..], f);
    }
  }

  /** A frame that is completed is longer than the part of it that was there before. */
  lemma FirstIsLonger(r0: Bytes, piece: Bytes)
    requires !HasFrame(r0) && !OverLimit(r0) && HasFrame(r0 + piece)
    ensures |r0| < |Encode(First(r0 + piece))|
  {
    hide BigEndianValue, Header;
    if |r0| >= HEADER_LENGTH {
      assert (r0 + piece)[..HEADER_LENGTH] == r0[..HEADER_LENGTH];
    }
  }

  lemma FirstDecoded(s: Bytes)
    requires Decode(s).frames != []
    ensures HasFrame(s) && Decode(s).frames[0] == First(s)
  {
    hide HasFrame, First, After;
  }

  /** Everything decoded from some bytes is no longer than they are. */
  lemma DecodedFits(s: Bytes)
    ensures var d := Decode(s);
            && (forall f <- d.frames :: |Encode(f)| <= |s|)
            && (d.frames != [] ==> |Encode(d.frames[0])| + |d.rest| <= |s|)
  {
    hide Decode, Encode, EncodeAll;
    var d := Decode(s);
    BytesConserved(s);
    forall f <- d.frames
      ensures |Encode(f)| <= |EncodeAll(d.frames)|
    {
      EncodedFits(d.frames, f);
    }
    if d.frames != [] {
      assert d.frames[0] in d.frames;
    }
  }

  lemma GrowthOfFrames(done: seq<Bytes>, frames: seq<Bytes>, need: nat, c: nat)
    requires frames != [] && c == Grown(CapacityFor(done), need)
    requires need <= |Encode(frames[0])| && forall f <- frames :: |Encode(f)| <= c
    ensures CapacityFor(done + frames) == c
  {
    hide Grown, CapacityFor, Encode;
    var first, more := frames[0], frames[1..];
    assert first in frames;
    GrownAgain(CapacityFor(done), need, |Encode(first)|);
    CapacityForSnoc(done, first);
    assert frames == [first] + more;
    assert done + frames == (done + [first]) + more;
    assert forall f <- more :: f in frames;
    NoGrowth(done + [first], more);
  }

  lemma GrownStep(capacity: nat, need: nat)
    requires 0 < capacity <= MAX_CAPACITY
    ensures need <= capacity ==> Grown(capacity, need) == capacity
    ensures capacity < MAX_CAPACITY ==> Grown(capacity, capacity + 1) == Doubled(capacity)
  {
    if capacity < MAX_CAPACITY {
      assert Grown(capacity, capacity + 1) == Grown(Doubled(capacity), capacity + 1);
    }
  }

  /** The bytes left over are still the beginning of the same frame. */
  lemma StillPartial(x: nat, before: nat, now: nat)
    requires 0 < x <= MAX_CAPACITY && before <= now <= Grown(x, before + 1) && now < MAX_CAPACITY
    ensures var c := Grown(x, before + 1);
            Grown(x, now + 1) == if now == c then Doubled(c) else c
  {
    var c := Grown(x, before + 1);
    GrownAgain(x, before + 1, now + 1);
    GrownWithin(x, before + 1);
    GrownStep(c, now + 1);
  }

  /** One call that does not fail: from a partial frame r0 in an array of the right length
      to the next partial frame, in an array of the right length. */
  lemma OneCall(done: seq<Bytes>, r0: Bytes, piece: Bytes)
    requires var c := Grown(CapacityFor(done), |r0| + 1);
             && !HasFrame(r0) && !OverLimit(r0) && |r0| + |piece| <= c
             && !Decode(r0 + piece).overLimit
    ensures var c := Grown(CapacityFor(done), |r0| + 1);
            var d := Decode(r0 + piece);
            && |d.rest| <= c
            && Grown(CapacityFor(done + d.frames), |d.rest| + 1) == if |d.rest| == c then Doubled(c) else c
  {
    hide Decode, HasFrame, OverLimit, Encode, Grown, CapacityFor, Doubled;
    var c, d := Grown(CapacityFor(done), |r0| + 1), Decode(r0 + piece);
    RestIsShort(r0 + piece);
    CapacityForWithin(done);
    if d.frames == [] {
      NothingDecoded(r0 + piece);
      assert done + d.frames == done;
      StillPartial(CapacityFor(done), |r0|, |d.rest|);
    } else {
      DecodedFits(r0 + piece);
      FirstDecoded(r0 + piece);
      FirstIsLonger(r0, piece);
      GrowthOfFrames(done, d.frames, |r0| + 1, c);
      CapacityForWithin(done + d.frames);
      GrownStep(c, |d.rest| + 1);
    }
  }

  lemma NothingDecoded(s: Bytes)
    ensures Decode(s).frames == [] ==> Decode(s).rest == s
  {
    hide HasFrame, First, After;
  }

  // ---------- a run of calls ----------

  /** The array is as long as the frames decoded so far and the bytes left over demand,
      longer than these bytes, and never longer than the largest frame. */
  lemma {:induction false} CapacityIs(pieces: seq<Bytes>)
    requires Readable(pieces) && !FrameCodec.Run(pieces).state.error
    ensures var d := Decode(Concat(pieces));
            && Capacity(pieces) == Grown(CapacityFor(d.frames), |d.rest| + 1)
            && |d.rest| < Capacity(pieces) <= MAX_CAPACITY
    decreases |pieces|
  {
    hide Decode, Concat, FrameCodec.Run, Grown, CapacityFor, Readable, Doubled, Capacity, Room, HasFrame, OverLimit;
    if pieces == [] {
      NoCalls();
    } else {
      var init, piece := pieces[..|pieces| - 1], pieces[|pieces| - 1];
      assert pieces == init + [piece];
      LastCall(init, piece);
      CapacityIs(init);
      LeftOver(init, piece);
      OneCall(Decode(Concat(init)).frames, Decode(Concat(init)).rest, piece);
      RestIsShort(Concat(pieces));
      LongEnough(Decode(Concat(pieces)));
    }
  }

  lemma NoCalls()
    ensures Capacity([]) == INIT_BUFFER_SIZE && Room([]) == INIT_BUFFER_SIZE
    ensures Readable([]) && Concat<Byte>([]) == []
    ensures Decode([]) == Decoded([], [], false) && !FrameCodec.Run([]).state.error
    ensures CapacityFor([]) == INIT_BUFFER_SIZE == Grown(INIT_BUFFER_SIZE, 1)
  {
    DecodeEmpty();
  }

  lemma LastCall(init: seq<Bytes>, piece: Bytes)
    ensures Readable(init + [piece]) <==>
              Readable(init) && !FrameCodec.Run(init).state.error && 0 < |piece| <= Room(init)
    ensures var state := FrameCodec.Run(init + [piece]).state;
            Capacity(init + [piece])
            == if !state.error && |state.buf| == Capacity(init) then Doubled(Capacity(init)) else Capacity(init)
    ensures Room(init) == Capacity(init) - |FrameCodec.Run(init).state.buf|
  {
    hide FrameCodec.Run, Doubled;
    assert (init + [piece])[..|init + [piece]| - 1] == init;
  }

  /** The next call works on what the last one left over. */
  lemma LeftOver(init: seq<Bytes>, piece: Bytes)
    requires !FrameCodec.Run(init).state.error
    ensures var d0, d1 := Decode(Concat(init)), Decode(Concat(init + [piece]));
            var d := Decode(FrameCodec.Run(init).state.buf + piece);
            && !d0.overLimit && FrameCodec.Run(init).state.buf == d0.rest
            && !HasFrame(d0.rest) && !OverLimit(d0.rest)
            && d1.overLimit == d.overLimit == FrameCodec.Run(init + [piece]).state.error
            && d1.frames == d0.frames + d.frames && d1.rest == d.rest
            && (!d1.overLimit ==> FrameCodec.Run(init + [piece]).state.buf == d1.rest)
  {
    hide Decode, Concat, FrameCodec.Run, HasFrame, OverLimit;
    FrameCodec.RunIsDecode(init);
    FrameCodec.RunIsDecode(init + [piece]);
    ConcatSnoc(init, piece);
    DecodeAppend(Concat(init), piece);
    RestHasNoFrame(Concat(init));
  }

  lemma RestHasNoFrame(s: Bytes)
    requires !Decode(s).overLimit
    ensures !HasFrame(Decode(s).rest) && !OverLimit(Decode(s).rest)
  {
    RestIsShort(s);
    FrameCodec.RestIsFatal(s);
    hide HasFrame, First, After;
    CutNone(Decode(s).rest);
  }

  lemma LongEnough(d: Decoded)
    requires |d.rest| < MAX_CAPACITY
    ensures |d.rest| < Grown(CapacityFor(d.frames), |d.rest| + 1) <= MAX_CAPACITY
  {
    hide Grown, CapacityFor;
    CapacityForWithin(d.frames);
    GrownWithin(CapacityFor(d.frames), |d.rest| + 1);
  }
}
