/** The other three decoders of the same wire format, and the Java encoder. */
module PeerDecoders {
  import opened Bytes
  import opened Framing
  import FrameCodec
  import opened JavaDecoding
  import JavaLoss

  /** The Python client's receive loop. Every payload is dispatched the moment it is
      complete, so a later header over the limit takes nothing back. */
  class PythonReceiver {
    var buf: Bytes
    var recvError: bool
    var dispatched: seq<Bytes>
    ghost var stream: Bytes

    ghost predicate Valid()
      reads this
    {
      && recvError == Decode(stream).overLimit
      && buf == Decode(stream).rest
      && dispatched == Decode(stream).frames
    }

    constructor ()
      ensures Valid() && stream == []
    {
      buf, recvError, dispatched, stream := [], false, [], [];
    }

    /** One round of the loop with the chunk that `recv` returned. */
    method Receive(chunk: Bytes)
      requires Valid() && !recvError
      modifies this
      ensures Valid() && stream == old(stream) + chunk
    {
      hide Decode;
      DecodeAppend(stream, chunk);
      stream := stream + chunk;
      buf := buf + chunk;
      ghost var done, whole := dispatched, Decode(buf);
      while true
        invariant !recvError && stream == old(stream) + chunk
        invariant Decode(stream).frames == done + whole.frames
        invariant Decode(stream).rest == whole.rest && Decode(stream).overLimit == whole.overLimit
        invariant done + whole.frames == dispatched + Decode(buf).frames
        invariant whole.rest == Decode(buf).rest && whole.overLimit == Decode(buf).overLimit
        decreases |buf|
      {
        if |buf| < HEADER_LENGTH {
          CutNone(buf);
          break;
        }
        var payloadLen := HeaderValue(buf);
        if payloadLen > MAX_PAYLOAD {
          CutNone(buf);
          recvError := true;
          break;
        }
        if |buf| < HEADER_LENGTH + payloadLen {
          CutNone(buf);
          break;
        }
        CutOne(dispatched, buf);
        var payload := buf[HEADER_LENGTH..HEADER_LENGTH + payloadLen];
        buf := buf[HEADER_LENGTH + payloadLen..];
        dispatched := dispatched + [payload];
      }
    }
  }

  /** The iOS connection's read side. Empty payloads are cut off the stream but not
      handled, and handling a payload may close the connection. */
  class IosReceiver {
    var readBuffer: Bytes
    var closed: bool
    var handled: seq<Bytes>
    ghost var stream: Bytes

    ghost predicate Valid()
      reads this
    {
      && handled <= NonEmpty(Decode(stream).frames)
      && (Decode(stream).overLimit ==> closed)
      && (!closed ==> handled == NonEmpty(Decode(stream).frames) && readBuffer == Decode(stream).rest)
    }

    constructor ()
      ensures Valid() && stream == [] && !closed
    {
      readBuffer, closed, handled, stream := [], false, [], [];
    }

    /** `closesAt` says for which payload, counted from zero over the connection, its
        handler closes the connection, if for any. */
    method ProcessReadBuffer(data: Bytes, closesAt: Option<nat>)
      requires Valid() && !closed
      modifies this
      ensures Valid() && stream == old(stream) + data
      ensures closed <==> Decode(stream).overLimit || (closesAt.Some? && old(|handled|) <= closesAt.value < |handled|)
      ensures closed && !Decode(stream).overLimit ==> |handled| == closesAt.value + 1
      ensures Decode(stream).overLimit && !(closesAt.Some? && old(|handled|) <= closesAt.value < |handled|) ==>
                handled == NonEmpty(Decode(stream).frames)
    {
      hide NonEmpty, Decode;
      DecodeAppend(stream, data);
      NonEmptyAppend(Decode(stream).frames, Decode(readBuffer + data).frames);
      stream := stream + data;
      readBuffer := readBuffer + data;
      ghost var all := NonEmpty(Decode(stream).frames);
      while |readBuffer| >= HEADER_LENGTH
        invariant !closed && stream == old(stream) + data && |handled| >= old(|handled|)
        invariant all == handled + NonEmpty(Decode(readBuffer).frames)
        invariant Decode(stream).rest == Decode(readBuffer).rest
        invariant Decode(stream).overLimit == Decode(readBuffer).overLimit
        invariant closesAt.Some? && old(|handled|) <= closesAt.value ==> closesAt.value >= |handled|
        decreases |readBuffer|
      {
        var bodyLength := HeaderValue(readBuffer);
        if bodyLength > MAX_PAYLOAD {
          CutNone(readBuffer);
          NonEmptyNil();
          closed := true;
          return;
        }
        if |readBuffer| < HEADER_LENGTH + bodyLength {
          break;
        }
        HandleOne(handled, readBuffer);
        var payload := readBuffer[HEADER_LENGTH..HEADER_LENGTH + bodyLength];
        readBuffer := readBuffer[HEADER_LENGTH + bodyLength..];
        if |payload| > 0 {
          handled := handled + [payload];
          closed := closesAt == Some(|handled| - 1);
        }
        if closed {
          return;
        }
      }
      CutNone(readBuffer);
      NonEmptyNil();
    }
  }

  /** One turn of the iOS loop. */
  lemma HandleOne(handled: seq<Bytes>, s: Bytes)
    requires HasFrame(s)
    ensures handled + NonEmpty(Decode(s).frames)
         == (if First(s) == [] then handled else handled + [First(s)]) + NonEmpty(Decode(After(s)).frames)
    ensures Decode(s).rest == Decode(After(s)).rest && Decode(s).overLimit == Decode(After(s)).overLimit
  {
    hide HasFrame, First, After, NonEmpty;
    var first, later := First(s), Decode(After(s)).frames;
    assert Decode(s).frames == [first] + later;
    NonEmptyCons(first, later);
    assert [] + NonEmpty(later) == NonEmpty(later);
    assert handled + ([first] + NonEmpty(later)) == handled + [first] + NonEmpty(later);
  }

  lemma NonEmptyNil()
    ensures NonEmpty([]) == []
  {
  }

  lemma NonEmptyCons(payload: Bytes, payloads: seq<Bytes>)
    ensures NonEmpty([payload] + payloads) == (if payload == [] then [] else [payload]) + NonEmpty(payloads)
  {
    assert ([payload] + payloads)[1..] == payloads;
  }

  /** Four bytes read as a Java `int`: two's complement on 32 bits. */
  function JavaInt(s: Bytes): int
    requires |s| >= HEADER_LENGTH
  {
    var n := HeaderValue(s);
    if n < 0x8000_0000 then n else n - 0x1_0000_0000
  }

  lemma HeaderValueBound(s: Bytes)
    requires |s| >= HEADER_LENGTH
    ensures HeaderValue(s) < 0x1_0000_0000
  {
    BigEndianOfValue(s[..HEADER_LENGTH]);
    assert Pow256(4) == 256 * (256 * (256 * (256 * Pow256(0))));
  }

  /** The signed number is in range and agrees, modulo 2^32, with the four bytes of which
      the first counts most. */
  lemma JavaIntIs(s: Bytes)
    requires |s| >= HEADER_LENGTH
    ensures -0x8000_0000 <= JavaInt(s) < 0x8000_0000
    ensures var unsigned := s[0] as int * 16777216 + s[1] as int * 65536 + s[2] as int * 256 + s[3] as int;
            (JavaInt(s) - unsigned) % 0x1_0000_0000 == 0
  {
    HeaderValueBound(s);
    FourByteValue(s);
    hide HeaderValue;
  }

  lemma FourByteValue(s: Bytes)
    requires |s| >= HEADER_LENGTH
    ensures HeaderValue(s) == s[0] as nat * 16777216 + s[1] as nat * 65536 + s[2] as nat * 256 + s[3] as nat
  {
    var h := s[..HEADER_LENGTH];
    assert h[..3][..2] == h[..2] && h[..2][..1] == h[..1] && h[..1][..0] == [];
    assert BigEndianValue(h[..1]) == s[0] as nat;
    assert BigEndianValue(h[..2]) == s[0] as nat * 256 + s[1] as nat;
    assert BigEndianValue(h[..3]) == s[0] as nat * 65536 + s[1] as nat * 256 + s[2] as nat;
  }

  /** The signed test of the Java decoder rejects exactly the headers that the
      unsigned test of the other three rejects. */
  lemma SignedTestAgrees(s: Bytes)
    requires |s| >= HEADER_LENGTH
    ensures JavaInt(s) < 0 || JavaInt(s) > MAX_PAYLOAD <==> HeaderValue(s) > MAX_PAYLOAD
  {
    HeaderValueBound(s);
  }

  lemma JavaIntInRange(s: Bytes)
    requires |s| >= HEADER_LENGTH
    ensures JavaInt(s) < 0 || JavaInt(s) > MAX_PAYLOAD <==> HeaderValue(s) > MAX_PAYLOAD
    ensures 0 <= JavaInt(s) <= MAX_PAYLOAD ==> JavaInt(s) == HeaderValue(s)
  {
    SignedTestAgrees(s);
  }

  datatype ReadResult =
    | Frames(frames: seq<Bytes>)
    | EndOfStream
    | InvalidFrameLength
    | BufferExceeded

  /** The Java decoder: one array that is compacted in place and doubled when full. */
  class CmdDecoder {
    var mBuffer: array<Byte>
    var mSize: nat
    ghost var stream: Bytes
    ghost var pieces: seq<Bytes>
    ghost var delivered: seq<Bytes>

    /** What holds between successful calls: there is room to read, the array is no
        larger than the largest frame, its used part is exactly the part of all bytes
        read so far that is not decoded yet, and its length is what the calls so far,
        which read `pieces`, have made of it. */
    ghost predicate Valid()
      reads this, mBuffer
    {
      && INIT_BUFFER_SIZE <= mBuffer.Length <= MAX_CAPACITY
      && mSize < mBuffer.Length
      && Decode(stream) == Decoded(delivered, Used(), false)
      && stream == Concat(pieces) && Readable(pieces)
      && mBuffer.Length == Capacity(pieces)
    }

    ghost function Used(): Bytes
      reads this`mBuffer, this`mSize, mBuffer
      requires mSize <= mBuffer.Length
    {
      mBuffer[..mSize]
    }

    constructor ()
      ensures Valid() && stream == [] && delivered == [] && pieces == [] && fresh(mBuffer)
    {
      mBuffer := new Byte[INIT_BUFFER_SIZE](_ => 0);
      mSize, stream, delivered, pieces := 0, [], [], [];
    }

    /** Doubles the array, up to the largest frame; `ok` is false where Java throws. */
    method GrowBuffer() returns (ok: bool)
      requires INIT_BUFFER_SIZE <= mBuffer.Length <= MAX_CAPACITY && mSize <= mBuffer.Length
      modifies this`mBuffer
      ensures ok <==> old(mBuffer.Length) < MAX_CAPACITY
      ensures ok ==> fresh(mBuffer) && mBuffer.Length > old(mBuffer.Length)
      ensures ok ==> mBuffer.Length == Doubled(old(mBuffer.Length))
      ensures ok ==> var twice := 2 * old(mBuffer.Length);
                     mBuffer.Length == if twice < MAX_PAYLOAD + 4 then twice else MAX_PAYLOAD + 4
      ensures !ok ==> mBuffer == old(mBuffer)
      ensures mSize <= mBuffer.Length && Used() == old(Used())
    {
      if mBuffer.Length >= MAX_CAPACITY {
        return false;
      }
      var newLength := if mBuffer.Length * 2 < MAX_CAPACITY then mBuffer.Length * 2 else MAX_CAPACITY;
      var newBuffer := new Byte[newLength](_ => 0);
      forall i | 0 <= i < mSize {
        newBuffer[i] := mBuffer[i];
      }
      mBuffer := newBuffer;
      return true;
    }

    /** The four bytes at `offset`, as the signed integer Java sees. */
    method ReadInt(offset: nat) returns (n: int)
      requires offset + HEADER_LENGTH <= mSize <= mBuffer.Length
      ensures n == JavaInt(Used()[offset..])
    {
      var four := mBuffer[offset..offset + HEADER_LENGTH];
      assert four[..HEADER_LENGTH] == four == Used()[offset..][..HEADER_LENGTH];
      n := JavaInt(four);
    }

    /** Cuts the complete frames out of the used part, from the front. */
    method CutFrames() returns (r: ReadResult, offset: nat)
      requires mSize <= mBuffer.Length
      ensures r.InvalidFrameLength? <==> Decode(Used()).overLimit
      ensures !r.InvalidFrameLength? ==>
                && r == Frames(Decode(Used()).frames)
                && offset <= mSize && Used()[offset..] == Decode(Used()).rest
    {
      hide Decode, JavaInt;
      ghost var used := Used();
      var frames := [];
      offset := 0;
      assert used[0..] == used;
      while mSize - offset >= HEADER_LENGTH
        invariant offset <= |used| == mSize
        invariant Decode(used).frames == frames + Decode(used[offset..]).frames
        invariant Decode(used).rest == Decode(used[offset..]).rest
        invariant Decode(used).overLimit == Decode(used[offset..]).overLimit
      {
        var contentLength := ReadInt(offset);
        JavaIntInRange(used[offset..]);
        if contentLength < 0 || contentLength > MAX_PAYLOAD {
          CutNone(used[offset..]);
          return InvalidFrameLength, offset;
        }
        if mSize - offset - HEADER_LENGTH < contentLength {
          break;
        }
        CutOne(frames, used[offset..]);
        var next := offset + HEADER_LENGTH + contentLength;
        var content := mBuffer[offset + HEADER_LENGTH..next];
        assert content == First(used[offset..]) && used[next..] == After(used[offset..]);
        frames := frames + [content];
        offset := next;
      }
      CutNone(used[offset..]);
      r := Frames(frames);
    }

    /** Moves the bytes from `offset` on to the front of the array. */
    method Compact(offset: nat)
      requires offset <= mSize <= mBuffer.Length
      modifies this`mSize, mBuffer
      ensures mSize == old(mSize) - offset && Used() == old(Used())[offset..]
    {
      if offset > 0 {
        forall i | 0 <= i < mSize - offset {
          mBuffer[i] := mBuffer[offset + i];
        }
        mSize := mSize - offset;
      }
    }

    /** The blocking read: as much of `incoming` as there is room for. */
    method Fill(incoming: Bytes) returns (taken: nat)
      requires mSize <= mBuffer.Length
      modifies this`mSize, mBuffer
      ensures var room := old(mBuffer.Length - mSize);
              taken == if |incoming| < room then |incoming| else room
      ensures mSize == old(mSize) + taken <= mBuffer.Length && Used() == old(Used()) + incoming[..taken]
    {
      var room := mBuffer.Length - mSize;
      taken := if |incoming| < room then |incoming| else room;
      forall i | 0 <= i < taken {
        mBuffer[mSize + i] := incoming[i];
      }
      mSize := mSize + taken;
    }

    /** What a call does after the read: cut, compact, and grow an array that is full. */
    method Digest() returns (r: ReadResult)
      requires INIT_BUFFER_SIZE <= mBuffer.Length <= MAX_CAPACITY && mSize <= mBuffer.Length
      modifies this`mBuffer, this`mSize, mBuffer
      ensures mBuffer == old(mBuffer) || fresh(mBuffer)
      ensures r.InvalidFrameLength? <==> Decode(old(Used())).overLimit
      ensures !r.EndOfStream? && !r.BufferExceeded?
      ensures r.Frames? ==>
                && r.frames == Decode(old(Used())).frames
                && mSize <= mBuffer.Length && Used() == Decode(old(Used())).rest
                && mBuffer.Length == if mSize == old(mBuffer.Length) then Doubled(mSize) else old(mBuffer.Length)
    {
      hide Decode, HasFrame;
      RestIsShort(Used());
      var offset: nat;
      r, offset := CutFrames();
      if r.InvalidFrameLength? {
        return;
      }
      Compact(offset);
      if mSize == mBuffer.Length {
        var grown := GrowBuffer();
        r := if grown then r else BufferExceeded;
      }
    }

    /** One call. `incoming` is what the blocking read delivers when given room for
        all of it (empty: the peer closed); `taken` is how much fits. The array never
        fills up for good, so the capacity error is unreachable. A call that meets a
        header over the limit hands out nothing, not even the frames it has cut. */
    method ReadFrames(incoming: Bytes) returns (r: ReadResult, taken: nat)
      requires Valid()
      modifies this, mBuffer
      ensures var room := old(mBuffer.Length - mSize);
              room > 0 && taken == if |incoming| < room then |incoming| else room
      ensures stream == old(stream) + incoming[..taken]
      ensures pieces == old(pieces) + (if incoming == [] then [] else [incoming[..taken]])
      ensures stream == Concat(pieces) && Readable(pieces)
      ensures r.EndOfStream? <==> incoming == []
      ensures !r.BufferExceeded?
      ensures r.InvalidFrameLength? <==> incoming != [] && Decode(stream).overLimit
      ensures r.Frames? ==> Valid() && delivered == old(delivered) + r.frames
      ensures !r.Frames? ==> delivered == old(delivered)
      ensures delivered == FrameCodec.Run(pieces).frames
      ensures mBuffer == old(mBuffer) || fresh(mBuffer)
    {
      // The first test for a full array, which would grow it, never succeeds.
      assert mSize != mBuffer.Length;
      hide Decode, Readable, Capacity, FrameCodec.Run, Concat, Doubled, Used;
      taken := 0;
      if incoming == [] {
        JavaLoss.CallsArePrefix(pieces);
        FrameCodec.RunIsDecode(pieces);
        assert stream + incoming[..0] == stream && pieces + [] == pieces;
        return EndOfStream, taken;
      }
      taken := Fill(incoming);
      Record(incoming[..taken], old(Used()));
      r := Digest();
    }

    /** Keeps the history: the piece that was read, and the frames it completes. */
    ghost method Record(piece: Bytes, used: Bytes)
      requires stream == Concat(pieces) && Readable(pieces)
      requires Decode(stream) == Decoded(delivered, used, false)
      requires 0 < |piece| <= Capacity(pieces) - |used|
      modifies this`stream, this`pieces, this`delivered
      ensures stream == old(stream) + piece && pieces == old(pieces) + [piece]
      ensures stream == Concat(pieces) && Readable(pieces)
      ensures delivered == FrameCodec.Run(pieces).frames
      ensures var d := Decode(used + piece);
              && delivered == old(delivered) + (if d.overLimit then [] else d.frames)
              && Decode(stream).overLimit == d.overLimit
              && (!d.overLimit ==>
                    && Decode(stream) == Decoded(delivered, d.rest, false)
                    && Capacity(pieces) == (if |d.rest| == old(Capacity(pieces)) then Doubled(|d.rest|)
                                            else old(Capacity(pieces)))
                    && |d.rest| < Capacity(pieces) <= MAX_CAPACITY && Capacity(pieces) >= old(Capacity(pieces)))
    {
      hide Decode, Readable, Capacity, FrameCodec.Run, Concat, Doubled;
      NextCall(pieces, piece, delivered, used);
      var cut := Decode(used + piece);
      stream := stream + piece;
      pieces := pieces + [piece];
      if !cut.overLimit {
        delivered := delivered + cut.frames;
      }
    }
  }

  /** What the next call makes of the piece it reads, in terms of what is left over. */
  lemma NextCall(pieces: seq<Bytes>, piece: Bytes, delivered: seq<Bytes>, used: Bytes)
    requires Readable(pieces) && Decode(Concat(pieces)) == Decoded(delivered, used, false)
    requires 0 < |piece| <= Capacity(pieces) - |used|
    ensures var all := pieces + [piece];
            var d := Decode(used + piece);
            && Readable(all) && Concat(all) == Concat(pieces) + piece
            && Decode(Concat(all)) == Decoded(delivered + d.frames, d.rest, d.overLimit)
            && FrameCodec.Run(all).frames == (if d.overLimit then delivered else delivered + d.frames)
            && (!d.overLimit ==>
                  && Capacity(all) == (if |d.rest| == Capacity(pieces) then Doubled(|d.rest|) else Capacity(pieces))
                  && |d.rest| < Capacity(all) <= MAX_CAPACITY && Capacity(all) >= Capacity(pieces))
  {
    hide Decode, FrameCodec.Run, Concat, Capacity, Readable, Grown, CapacityFor;
    FrameCodec.RunIsDecode(pieces);
    LastCall(pieces, piece);
    FrameCodec.RunIsDecode(pieces + [piece]);
    ConcatSnoc(pieces, piece);
    DecodeAppend(Concat(pieces), piece);
    JavaLoss.CallsArePrefix(pieces + [piece]);
    assert (pieces + [piece])[..|pieces + [piece]| - 1] == pieces;
    CapacityIs(pieces);
    if !Decode(used + piece).overLimit {
      CapacityIs(pieces + [piece]);
    }
  }

  /** The Java encoder writes the header byte by byte and then the body. */
  class OutputStream {
    var written: Bytes

    constructor ()
      ensures written == []
    {
      written := [];
    }

    method Write(b: nat)
      modifies this
      ensures written == old(written) + [b % 256]
    {
      written := written + [b % 256];
    }

    method EncodeTo(body: Bytes)
      requires |body| < 0x8000_0000
      modifies this
      ensures written == old(written) + Encode(body)
    {
      Write(|body| / 16777216);
      Write(|body| / 65536);
      Write(|body| / 256);
      Write(|body|);
      HeaderBytes(|body|);
      written := written + body;
      assert written == old(written) + Header(|body|) + body;
    }
  }

  /** The header spelled out as the four shifts the encoders write. */
  lemma HeaderBytes(n: nat)
    ensures Header(n) == [(n / 16777216) % 256, (n / 65536) % 256, (n / 256) % 256, n % 256]
  {
    assert BigEndian(n, 1) == BigEndian(n / 256, 0) + [n % 256];
    var a, b, c := n / 256, n / 65536, n / 16777216;
    assert a / 256 == b && b / 256 == c;
    assert BigEndian(c, 1) == BigEndian(c / 256, 0) + [c % 256];
    assert BigEndian(b, 2) == BigEndian(c, 1) + [b % 256];
    assert BigEndian(a, 3) == BigEndian(b, 2) + [a % 256];
    assert BigEndian(n, 4) == BigEndian(a, 3) + [n % 256];
  }

  /** An over-limit header anywhere in a stream shows up in the whole stream. */
  lemma NoErrorInPrefix(a: Bytes, b: Bytes)
    requires !Decode(a + b).overLimit
    ensures !Decode(a).overLimit
  {
    DecodeAppend(a, b);
  }

  lemma NextChunk(chunks: seq<Bytes>, i: nat)
    requires i < |chunks| && !Decode(Concat(chunks)).overLimit
    ensures chunks[..i + 1][..i] == chunks[..i]
    ensures Concat(chunks[..i + 1]) == Concat(chunks[..i]) + chunks[i]
    ensures !Decode(Concat(chunks[..i + 1])).overLimit
  {
    hide Decode;
    assert chunks[..i + 1] == chunks[..i] + [chunks[i]];
    ConcatSnoc(chunks[..i], chunks[i]);
    assert chunks == chunks[..i + 1] + chunks[i + 1..];
    ConcatAppend(chunks[..i + 1], chunks[i + 1..]);
    NoErrorInPrefix(Concat(chunks[..i + 1]), Concat(chunks[i + 1..]));
  }

  /** Feeds one chunk to the Java decoder, in as many calls as its room demands. */
  method ReadAll(decoder: CmdDecoder, chunk: Bytes) returns (frames: seq<Bytes>)
    requires decoder.Valid() && !Decode(decoder.stream + chunk).overLimit
    modifies decoder, decoder.mBuffer
    ensures decoder.Valid() && decoder.stream == old(decoder.stream) + chunk
    ensures decoder.delivered == old(decoder.delivered) + frames
    ensures decoder.mBuffer == old(decoder.mBuffer) || fresh(decoder.mBuffer)
  {
    hide Decode, Readable, Capacity, Concat, FrameCodec.Run;
    frames := [];
    var read := 0;
    while read < |chunk|
      invariant read <= |chunk|
      invariant decoder.Valid() && decoder.stream == old(decoder.stream) + chunk[..read]
      invariant decoder.delivered == old(decoder.delivered) + frames
      invariant decoder.mBuffer == old(decoder.mBuffer) || fresh(decoder.mBuffer)
    {
      var r, taken := decoder.ReadFrames(chunk[read..]);
      assert decoder.stream + chunk[read + taken..] == old(decoder.stream) + chunk;
      NoErrorInPrefix(decoder.stream, chunk[read + taken..]);
      frames := frames + r.frames;
      assert chunk[..read] + chunk[read..][..taken] == chunk[..read + taken];
      read := read + taken;
    }
  }

  /** Every chunking of a stream without an over-limit header comes out of all four
      decoders as the reference payloads, of the iOS one without the empty ones. */
  method DecodeEverywhere(chunks: seq<Bytes>)
    returns (cpp: seq<Bytes>, python: seq<Bytes>, ios: seq<Bytes>, java: seq<Bytes>)
    requires !Decode(Concat(chunks)).overLimit
    ensures cpp == python == java == Decode(Concat(chunks)).frames
    ensures ios == NonEmpty(Decode(Concat(chunks)).frames)
  {
    hide Decode, NonEmpty;
    var codec := new FrameCodec.FrameCodec();
    var client := new PythonReceiver();
    var apple := new IosReceiver();
    var android := new CmdDecoder();
    cpp, java := [], [];
    for i := 0 to |chunks|
      invariant fresh(codec) && fresh(client) && fresh(apple) && fresh(android) && fresh(android.mBuffer)
      invariant client.Valid() && apple.Valid() && android.Valid()
      invariant client.stream == apple.stream == android.stream == Concat(chunks[..i])
      invariant !client.recvError && !apple.closed
      invariant java == android.delivered
      invariant FrameCodec.Output(cpp, codec.Now()) == FrameCodec.Run(chunks[..i])
    {
      NextChunk(chunks, i);
      var frames := codec.Feed(chunks[i]);
      cpp := cpp + frames;
      client.Receive(chunks[i]);
      apple.ProcessReadBuffer(chunks[i], None);
      frames := ReadAll(android, chunks[i]);
      java := java + frames;
    }
    assert chunks[..|chunks|] == chunks;
    FrameCodec.RunIsDecode(chunks);
    python, ios := client.dispatched, apple.handled;
  }
}
