/** The C++ decoder: a growing buffer and a sticky error flag. */
module FrameCodec {
  import opened Bytes
  import opened Framing

  datatype State = State(buf: Bytes, error: bool)

  const Fresh := State([], false)

  datatype Output = Output(frames: seq<Bytes>, state: State)

  /** What one `feed` call hands out. A frame list that was already cut is dropped
      when the same call runs into a header over the limit. */
  function Fed(state: State, data: Bytes): Output
  {
    if state.error then Output([], state)
    else
      var d := Decode(state.buf + data);
      if d.overLimit then Output([], State(d.rest, true))
      else Output(d.frames, State(d.rest, false))
  }

  /** A whole run of `feed` calls, from the start of the stream. */
  function Run(chunks: seq<Bytes>): Output
  {
    if chunks == [] then Output([], Fresh)
    else
      var before := Run(chunks[..|chunks| - 1]);
      var last := Fed(before.state, chunks[|chunks| - 1]);
      Output(before.frames + last.frames, last.state)
  }

  class FrameCodec {
    var buf: Bytes
    var error: bool

    function Now(): State
      reads this
    {
      State(buf, error)
    }

    constructor ()
      ensures Now() == Fresh
    {
      buf, error := [], false;
    }

    method Feed(data: Bytes) returns (frames: seq<Bytes>)
      modifies this
      ensures Output(frames, Now()) == Fed(old(Now()), data)
    {
      hide Decode;
      frames := [];
      if error {
        return;
      }
      if |data| > 0 {
        buf := buf + data;
      }
      assert buf == old(buf) + data;
      ghost var whole := Decode(buf);
      while true
        invariant !error
        invariant whole.frames == frames + Decode(buf).frames
        invariant whole.rest == Decode(buf).rest && whole.overLimit == Decode(buf).overLimit
        decreases |buf|
      {
        if |buf| < HEADER_LENGTH {
          CutNone(buf);
          break;
        }
        var payloadLen := HeaderValue(buf);
        if payloadLen > MAX_PAYLOAD {
          CutNone(buf);
          error := true;
          frames := [];
          return;
        }
        if |buf| < HEADER_LENGTH + payloadLen {
          CutNone(buf);
          break;
        }
        CutOne(frames, buf);
        frames := frames + [buf[HEADER_LENGTH..HEADER_LENGTH + payloadLen]];
        buf := buf[HEADER_LENGTH + payloadLen..];
      }
    }

    method Reset()
      modifies this
      ensures Now() == Fresh
    {
      buf := [];
      error := false;
    }
  }

  /** The run over a stream, exactly: the error flag says whether the bytes fed so
      far reach an over-limit header, and without an error nothing is missing. */
  lemma {:induction false} RunIsDecode(chunks: seq<Bytes>)
    ensures var d := Decode(Concat(chunks));
            var r := Run(chunks);
            && r.state.error == d.overLimit
            && (!d.overLimit ==> r.frames == d.frames && r.state.buf == d.rest)
  {
    if chunks == [] {
    } else {
      hide Decode;
      var init, last := chunks[..|chunks| - 1], chunks[|chunks| - 1];
      assert chunks == init + [last];
      RunIsDecode(init);
      ConcatSnoc(init, last);
      DecodeAppend(Concat(init), last);
    }
  }

  /** Chunk invariance: on a stream without an over-limit header any two ways of
      cutting it give the same frames and the same leftover. */
  lemma ChunkInvariance(some: seq<Bytes>, other: seq<Bytes>)
    requires Concat(some) == Concat(other)
    requires !Decode(Concat(some)).overLimit
    ensures Run(some) == Run(other)
    ensures EncodeAll(Run(some).frames) + Run(some).state.buf == Concat(some)
  {
    hide Decode, Run;
    RunIsDecode(some);
    RunIsDecode(other);
    BytesConserved(Concat(some));
  }

  /** Once the flag is up no further call produces anything. */
  lemma {:induction false} ErrorIsSticky(before: seq<Bytes>, after: seq<Bytes>)
    requires Run(before).state.error
    ensures Run(before + after) == Run(before)
  {
    if after == [] {
      assert before + after == before;
    } else {
      var init := after[..|after| - 1];
      assert (before + after)[..|before + after| - 1] == before + init;
      ErrorIsSticky(before, init);
      assert Run(before).frames + [] == Run(before).frames;
    }
  }

  /** The chunks fed before the one in which the over-limit header was reached. */
  function CleanPrefix(chunks: seq<Bytes>): (n: nat)
    ensures n <= |chunks|
    ensures !Run(chunks[..n]).state.error
    ensures n < |chunks| ==> Run(chunks[..n + 1]).state.error
  {
    if !Run(chunks).state.error then assert chunks[..|chunks|] == chunks; |chunks|
    else
      var init := chunks[..|chunks| - 1];
      if Run(init).state.error then
        var n := CleanPrefix(init);
        assert n < |init| by {
          assert init[..|init|] == init;
        }
        assert init[..n] == chunks[..n] && init[..n + 1] == chunks[..n + 1];
        n
      else assert chunks[..|chunks|] == chunks; |chunks| - 1
  }

  lemma FramesStopAtCleanPrefix(chunks: seq<Bytes>)
    ensures Run(chunks).frames == Run(chunks[..CleanPrefix(chunks)]).frames
  {
    hide Decode;
    var n := CleanPrefix(chunks);
    if n < |chunks| {
      var fatal := chunks[..n + 1];
      assert fatal[..|fatal| - 1] == chunks[..n];
      assert Run(fatal).frames == Run(chunks[..n]).frames;
      assert fatal + chunks[n + 1..] == chunks;
      ErrorIsSticky(fatal, chunks[n + 1..]);
    } else {
      assert chunks[..n] == chunks;
    }
  }

  /** On any stream and any cutting: what comes out is a prefix of the reference
      decoding, namely the frames that were complete before the fatal `feed` call. */
  lemma RunIsPrefix(chunks: seq<Bytes>)
    ensures Run(chunks).frames == Decode(Concat(chunks[..CleanPrefix(chunks)])).frames
    ensures Run(chunks).frames <= Decode(Concat(chunks)).frames
  {
    hide Decode, Run;
    var n := CleanPrefix(chunks);
    assert chunks[..n] + chunks[n..] == chunks;
    FramesStopAtCleanPrefix(chunks);
    RunIsDecode(chunks[..n]);
    ConcatAppend(chunks[..n], chunks[n..]);
    DecodeAppend(Concat(chunks[..n]), Concat(chunks[n..]));
  }

  lemma RunOne(s: Bytes)
    ensures Run([s]) == Fed(Fresh, s)
    ensures Concat([s]) == s
  {
    assert [s][..0] == [] && [] + s == s;
    assert Concat([s]) == s + Concat<Byte>([]);
  }

  lemma RunTwo(a: Bytes, b: Bytes)
    ensures Run([a, b]).frames == Run([a]).frames + Fed(Run([a]).state, b).frames
    ensures Concat([a, b]) == a + b
  {
    hide Fed;
    assert [a, b][..1] == [a];
    assert [a, b] == [a] + [b];
    RunOne(a);
    ConcatSnoc([a], b);
  }

  /** Where the cutting does matter, exactly: all cuttings of a stream give the same
      frames unless frames come before a header over the limit. Then feeding the whole
      stream at once gives none of them. */
  lemma CuttingMatters(s: Bytes)
    ensures var d := Decode(s);
            (forall chunks: seq<Bytes> :: Concat(chunks) == s ==> Run(chunks).frames == Run([s]).frames)
            <==> !(d.overLimit && d.frames != [])
  {
    hide Decode, Run;
    var d := Decode(s);
    RunOne(s);
    if d.overLimit && d.frames != [] {
      SplitBeforeFatal(s);
      var cut: seq<Bytes> := [EncodeAll(d.frames), d.rest];
      assert Concat(cut) == s && Run(cut).frames != Run([s]).frames;
    } else {
      forall chunks: seq<Bytes> | Concat(chunks) == s
        ensures Run(chunks).frames == Run([s]).frames
      {
        if d.overLimit {
          RunIsPrefix(chunks);
          RunIsPrefix([s]);
        } else {
          ChunkInvariance(chunks, [s]);
        }
      }
    }
  }

  /** Feeding the complete frames first and the rest later hands all of them out. */
  lemma SplitBeforeFatal(s: Bytes)
    requires Decode(s).overLimit
    ensures var d := Decode(s);
            && Concat([EncodeAll(d.frames), d.rest]) == s
            && Run([EncodeAll(d.frames), d.rest]).frames == d.frames
            && Run([s]).frames == []
  {
    hide Decode, Run, EncodeAll;
    var d := Decode(s);
    var head := EncodeAll(d.frames);
    BytesConserved(s);
    DecodedWithinLimit(s);
    DecodeEncodeAll(d.frames, []);
    DecodeEmpty();
    assert head + [] == head && d.frames + [] == d.frames;
    RunOne(s);
    RunOne(head);
    RunTwo(head, d.rest);
    assert [] + head == head && [] + s == s;
    DecodeAppend(head, d.rest);
    assert d.rest + [] == d.rest;
    RestIsFatal(s);
  }

  lemma {:induction false} RestIsFatal(s: Bytes)
    ensures Decode(Decode(s).rest) == Decoded([], Decode(s).rest, Decode(s).overLimit)
    decreases |s|
  {
    if HasFrame(s) {
      RestIsFatal(After(s));
    }
  }

  /** The smallest case: an empty frame, then a header just over the limit. */
  lemma FramesCanBeLost()
    ensures var fatal: Bytes := [2, 0, 0, 1];
            && Run([Encode([]) + fatal]).frames == []
            && Run([Encode([]), fatal]).frames == [[]]
  {
    var fatal: Bytes := [2, 0, 0, 1];
    var one, two, three := fatal[..1], fatal[..2], fatal[..3];
    assert three[..2] == two && two[..1] == one && one[..0] == [] && fatal[..3] == three;
    assert BigEndianValue(one) == 2 && BigEndianValue(two) == 512 && BigEndianValue(three) == 131072;
    assert BigEndianValue(fatal) == MAX_PAYLOAD + 1;
    var s := Encode([]) + fatal;
    assert fatal[..HEADER_LENGTH] == fatal;
    CutNone(fatal);
    DecodeFrame([], fatal);
    hide Decode, Run, Encode;
    SplitBeforeFatal(s);
    assert EncodeAll([[]]) == Encode([]) + EncodeAll([]) == Encode([]);
  }
}
