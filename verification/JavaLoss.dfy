/** When the Java decoder loses frames: what its calls hand out, on any stream. */
module JavaLoss {
  import opened Bytes
  import opened Framing
  import FrameCodec
  import opened JavaDecoding

  /** What the calls hand out is a prefix of what is complete in the bytes read; only the
      call that fails can keep something back. */
  lemma CallsArePrefix(pieces: seq<Bytes>)
    requires Readable(pieces)
    ensures FrameCodec.Run(pieces).frames <= Decode(Concat(pieces)).frames
    ensures !FrameCodec.Run(pieces).state.error ==> FrameCodec.Run(pieces).frames == Decode(Concat(pieces)).frames
    ensures FrameCodec.Run(pieces).state.error ==>
              FrameCodec.Run(pieces).frames == Decode(Concat(pieces[..|pieces| - 1])).frames
  {
    FrameCodec.RunIsPrefix(pieces);
    FrameCodec.RunIsDecode(pieces);
    if FrameCodec.Run(pieces).state.error {
      var init, piece := pieces[..|pieces| - 1], pieces[|pieces| - 1];
      FrameCodec.RunIsDecode(init);
      hide Decode;
      assert FrameCodec.Run(init).frames + [] == FrameCodec.Run(init).frames;
    }
  }

  /** A stream on which frames can be lost: a header over the limit comes right after a
      frame that leaves room for it in the array. */
  predicate Endangered(s: Bytes)
  {
    var d := Decode(s);
    d.overLimit && d.frames != []
    && |Encode(d.frames[|d.frames| - 1])| + HEADER_LENGTH <= CapacityFor(d.frames)
  }

  /** A call that fails and has cut frames before it does. */
  lemma FailingCall(init: seq<Bytes>, piece: Bytes)
    requires Readable(init + [piece]) && FrameCodec.Run(init + [piece]).state.error
    requires FrameCodec.Run(init + [piece]).frames != Decode(Concat(init + [piece])).frames
    ensures Endangered(Concat(init + [piece]))
  {
    hide Decode, Concat, FrameCodec.Run, HasFrame, OverLimit, Encode;
    hide Grown, CapacityFor, Readable, Capacity, Room, Doubled;
    LastCall(init, piece);
    LeftOver(init, piece);
    CapacityIs(init);
    CallsArePrefix(init + [piece]);
    assert (init + [piece])[..|init + [piece]| - 1] == init;
    var d0, r0 := Decode(Concat(init)), FrameCodec.Run(init).state.buf;
    assert d0.frames + [] == d0.frames;
    FailingBytes(d0.frames, r0, piece);
  }

  lemma FailingBytes(done: seq<Bytes>, r0: Bytes, piece: Bytes)
    requires !HasFrame(r0) && !OverLimit(r0) && |r0 + piece| <= Grown(CapacityFor(done), |r0| + 1)
    requires Decode(r0 + piece).overLimit && Decode(r0 + piece).frames != []
    ensures var frames := done + Decode(r0 + piece).frames;
            |Encode(frames[|frames| - 1])| + HEADER_LENGTH <= CapacityFor(frames)
  {
    hide Decode, Grown, CapacityFor, HasFrame, OverLimit, Encode;
    var more := Decode(r0 + piece).frames;
    LastFits(r0 + piece);
    FirstDecoded(r0 + piece);
    FirstIsLonger(r0, piece);
    RoomForFirst(done, more, |r0|);
    assert (done + more)[|done + more| - 1] == more[|more| - 1];
  }

  lemma LastFits(s: Bytes)
    requires Decode(s).overLimit && Decode(s).frames != []
    ensures var d := Decode(s);
            |Encode(d.frames[|d.frames| - 1])| + HEADER_LENGTH <= |s|
  {
    var d := Decode(s);
    FrameCodec.RestIsFatal(s);
    BytesConserved(s);
    assert |d.rest| >= HEADER_LENGTH by {
      CutNone(d.rest);
    }
    hide Decode, Encode, EncodeAll;
    assert d.frames[|d.frames| - 1] in d.frames;
    EncodedFits(d.frames, d.frames[|d.frames| - 1]);
  }

  lemma RoomForFirst(done: seq<Bytes>, more: seq<Bytes>, before: nat)
    requires more != [] && before < |Encode(more[0])|
    ensures Grown(CapacityFor(done), before + 1) <= CapacityFor(done + more)
  {
    hide Grown, CapacityFor, Encode;
    GrownAgain(CapacityFor(done), before + 1, |Encode(more[0])|);
    CapacityForSnoc(done, more[0]);
    assert more == [more[0]] + more[1..];
    assert done + more == (done + [more[0]]) + more[1..];
    CapacityForGrows(done + [more[0]], more[1..]);
  }

  /** Nothing but the bytes of a stream up to its failure decides what it decodes to. */
  lemma FailingPrefix(a: Bytes, s: Bytes)
    requires a <= s && Decode(a).overLimit
    ensures Decode(s).overLimit && Decode(s).frames == Decode(a).frames
  {
    hide Decode;
    assert a + s[|a|..] == s;
    DecodeAppend(a, s[|a|..]);
  }

  function Singles(s: Bytes): seq<Bytes>
  {
    if s == [] then [] else Singles(s[..|s| - 1]) + [[s[|s| - 1]]]
  }

  /** Bytes without a failure can always be read one by one. */
  lemma {:induction false} OneByOne(s: Bytes)
    requires !Decode(s).overLimit
    ensures Readable(Singles(s)) && Concat(Singles(s)) == s && !FrameCodec.Run(Singles(s)).state.error
    decreases |s|
  {
    hide Decode, FrameCodec.Run, Readable, Capacity, Room;
    if s == [] {
      NoCalls();
    } else {
      var init, last := s[..|s| - 1], [s[|s| - 1]];
      assert s == init + last;
      DecodeAppend(init, last);
      OneByOne(init);
      ConcatSnoc(Singles(init), last);
      LastCall(Singles(init), last);
      CapacityIs(Singles(init));
      FrameCodec.RunIsDecode(Singles(init));
      FrameCodec.RunIsDecode(Singles(s));
    }
  }

  lemma Incomplete(payload: Bytes, part: Bytes)
    requires |payload| <= MAX_PAYLOAD && part < Encode(payload)
    ensures !HasFrame(part) && !OverLimit(part)
  {
    hide BigEndianValue, BigEndian, Header;
    if |part| >= HEADER_LENGTH {
      HeaderRoundTrip(|payload|, part[HEADER_LENGTH..]);
      assert part == Header(|payload|) + part[HEADER_LENGTH..];
    }
  }

  /** All frames but the last byte: the last frame is not complete. */
  lemma AllButOneByte(frames: seq<Bytes>)
    requires frames != [] && WithinLimit(frames)
    ensures var n := |frames| - 1;
            var whole := Encode(frames[n]);
            |whole| > 0
            && EncodeAll(frames) == EncodeAll(frames[..n]) + whole
            && var part := whole[..|whole| - 1];
            Decode(EncodeAll(frames[..n]) + part) == Decoded(frames[..n], part, false)
  {
    var n := |frames| - 1;
    var whole := Encode(frames[n]);
    hide Decode, EncodeAll, Header;
    assert frames == frames[..n] + [frames[n]];
    EncodeAllSnoc(frames[..n], frames[n]);
    var part := whole[..|whole| - 1];
    Incomplete(frames[n], part);
    CutNone(part);
    DecodeEncodeAll(frames[..n], part);
    assert frames[..n] + [] == frames[..n];
  }

  /** All bytes up to the last one of the last frame, one by one, then that byte and the
      fatal header in one call: the last frame is lost. */
  lemma LosingCalls(frames: seq<Bytes>, fatal: Bytes) returns (pieces: seq<Bytes>)
    requires frames != [] && WithinLimit(frames) && |fatal| == HEADER_LENGTH
    requires OverLimit(fatal) && !HasFrame(fatal)
    requires |Encode(frames[|frames| - 1])| + HEADER_LENGTH <= CapacityFor(frames)
    ensures Readable(pieces) && Concat(pieces) == EncodeAll(frames) + fatal
    ensures FrameCodec.Run(pieces).frames == frames[..|frames| - 1]
  {
    hide Decode, FrameCodec.Run, Readable, Capacity, Room, EncodeAll, Encode, Concat, CapacityFor, HasFrame, OverLimit;
    hide WithinLimit, Singles;
    var n := |frames| - 1;
    var whole := Encode(frames[n]);
    AllButOneByte(frames);
    var head := EncodeAll(frames[..n]) + whole[..|whole| - 1];
    var last := [whole[|whole| - 1]] + fatal;
    OneByOne(head);
    LosingRoom(frames, head, whole);
    pieces := Singles(head) + [last];
    LastCall(Singles(head), last);
    ConcatSnoc(Singles(head), last);
    assert whole == whole[..|whole| - 1] + [whole[|whole| - 1]];
    assert head + last == EncodeAll(frames[..n]) + whole + fatal;
    FatalAfter(frames, fatal);
    FrameCodec.RunIsDecode(pieces);
    CallsArePrefix(pieces);
    assert pieces[..|pieces| - 1] == Singles(head);
  }

  lemma FatalAfter(frames: seq<Bytes>, fatal: Bytes)
    requires WithinLimit(frames) && OverLimit(fatal) && !HasFrame(fatal)
    ensures Decode(EncodeAll(frames) + fatal) == Decoded(frames, fatal, true)
  {
    CutNone(fatal);
    hide Decode, EncodeAll, WithinLimit;
    DecodeEncodeAll(frames, fatal);
    assert frames + [] == frames;
  }

  lemma Losing(s: Bytes) returns (pieces: seq<Bytes>)
    requires Endangered(s)
    ensures LosesFrames(pieces, s)
  {
    hide Decode, FrameCodec.Run, Readable, EncodeAll, Encode, Concat, CapacityFor, HasFrame, OverLimit, WithinLimit;
    var d := Decode(s);
    FatalHeader(s);
    DecodedWithinLimit(s);
    BytesConserved(s);
    var fatal := d.rest[..HEADER_LENGTH];
    pieces := LosingCalls(d.frames, fatal);
    FatalAfter(d.frames, fatal);
    assert EncodeAll(d.frames) + fatal <= s;
  }

  lemma FatalHeader(s: Bytes)
    requires Decode(s).overLimit
    ensures var rest := Decode(s).rest;
            |rest| >= HEADER_LENGTH && OverLimit(rest[..HEADER_LENGTH]) && !HasFrame(rest[..HEADER_LENGTH])
  {
    var rest := Decode(s).rest;
    FrameCodec.RestIsFatal(s);
    hide Decode, BigEndianValue;
    if HasFrame(rest) {
      assert false by {
        RestIsShort(s);
      }
    }
    CutNone(rest);
    assert rest[..HEADER_LENGTH][..HEADER_LENGTH] == rest[..HEADER_LENGTH];
  }

  lemma LosingRoom(frames: seq<Bytes>, head: Bytes, whole: Bytes)
    requires frames != [] && whole == Encode(frames[|frames| - 1]) && |whole| > 0
    requires Decode(head) == Decoded(frames[..|frames| - 1], whole[..|whole| - 1], false)
    requires Readable(Singles(head)) && Concat(Singles(head)) == head
    requires |whole| + HEADER_LENGTH <= CapacityFor(frames)
    ensures Room(Singles(head)) >= 1 + HEADER_LENGTH
  {
    var n := |frames| - 1;
    assert frames == frames[..n] + [frames[n]];
    CapacityForSnoc(frames[..n], frames[n]);
    hide Decode, FrameCodec.Run, Readable, Capacity, Grown, CapacityFor, Encode, Singles, Concat;
    FrameCodec.RunIsDecode(Singles(head));
    CapacityIs(Singles(head));
  }

  /** Exactly when the Java decoder can lose frames that were complete in what it has
      read: when a header over the limit comes right after a frame that leaves room for
      it in an array of the length that the frames so far demand. On any other stream no
      way of reading it loses one. */
  lemma WhenFramesAreLost(s: Bytes)
    ensures (exists pieces: seq<Bytes> :: LosesFrames(pieces, s)) <==> Endangered(s)
  {
    hide Decode, FrameCodec.Run, Readable, Concat, Endangered;
    if Endangered(s) {
      var pieces := Losing(s);
    }
    forall pieces: seq<Bytes> | LosesFrames(pieces, s)
      ensures Endangered(s)
    {
      CallsArePrefix(pieces);
      FrameCodec.RunIsDecode(pieces);
      var n := |pieces| - 1;
      assert pieces != [] by {
        NoCalls();
      }
      assert pieces == pieces[..n] + [pieces[n]];
      FailingCall(pieces[..n], pieces[n]);
      FailingPrefix(Concat(pieces), s);
      SameDanger(Concat(pieces), s);
    }
  }

  lemma SameDanger(a: Bytes, s: Bytes)
    requires Endangered(a) && Decode(s).overLimit && Decode(s).frames == Decode(a).frames
    ensures Endangered(s)
  {
    hide Decode, CapacityFor, Encode;
  }

  /** Calls that read these pieces of the stream hand out less than is complete in them. */
  predicate LosesFrames(pieces: seq<Bytes>, s: Bytes)
  {
    Readable(pieces) && Concat(pieces) <= s && FrameCodec.Run(pieces).frames != Decode(Concat(pieces)).frames
  }

  /** One frame and the header of a payload just over the limit: the frame can be lost if
      it leaves four bytes of the smallest sufficient array free, an empty one for
      example, and is safe if it fills that array. */
  lemma OneFrameAndFatal(payload: Bytes)
    requires |payload| <= MAX_PAYLOAD
    ensures var s := Encode(payload) + Header(MAX_PAYLOAD + 1);
            && Decode(s) == Decoded([payload], Header(MAX_PAYLOAD + 1), true)
            && (Endangered(s) <==> |Encode(payload)| + HEADER_LENGTH <= Grown(INIT_BUFFER_SIZE, |Encode(payload)|))
            && (payload == [] ==> Endangered(s))
            && (|Encode(payload)| == INIT_BUFFER_SIZE ==> !Endangered(s))
  {
    var fatal := Header(MAX_PAYLOAD + 1);
    HeaderRoundTrip(MAX_PAYLOAD + 1, []);
    assert fatal + [] == fatal;
    CutNone(fatal);
    DecodeFrame(payload, fatal);
    NoCalls();
    CapacityForSnoc([], payload);
    hide Decode, Header;
    assert [payload] + [] == [payload] == [] + [payload];
  }
}
