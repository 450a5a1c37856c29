/** The wire format: a 4-byte big-endian length, then that many payload bytes.
    `Decode` is the reference every decoder of the project is compared with. */
module Framing {
  import opened Bytes

  const HEADER_LENGTH: nat := 4

  /** 32 MiB, the limit all four implementations share. */
  const MAX_PAYLOAD: nat := 33554432

  /** The unsigned value of a byte string, most significant byte first. */
  function BigEndianValue(s: Bytes): nat
  {
    if s == [] then 0
    else BigEndianValue(s[..|s| - 1]) * 256 + s[|s| - 1] as nat
  }

  /** The low k bytes of n, most significant byte first. */
  function BigEndian(n: nat, k: nat): (bytes: Bytes)
    ensures |bytes| == k
  {
    if k == 0 then [] else BigEndian(n / 256, k - 1) + [n % 256]
  }

  function HeaderValue(s: Bytes): nat
    requires |s| >= HEADER_LENGTH
  {
    BigEndianValue(s[..HEADER_LENGTH])
  }

  /** The header of a payload of n bytes; a length is written modulo 2^32. */
  function Header(n: nat): (h: Bytes)
    ensures |h| == HEADER_LENGTH
  {
    BigEndian(n, HEADER_LENGTH)
  }

  function Encode(payload: Bytes): Bytes
  {
    Header(|payload|) + payload
  }

  function EncodeAll(payloads: seq<Bytes>): Bytes
  {
    if payloads == [] then [] else Encode(payloads[0]) + EncodeAll(payloads[1..])
  }

  /** The stream starts with a complete frame within the limit. */
  predicate HasFrame(s: Bytes)
  {
    |s| >= HEADER_LENGTH && HeaderValue(s) <= MAX_PAYLOAD && |s| >= HEADER_LENGTH + HeaderValue(s)
  }

  /** The stream starts with a complete header that is over the limit. */
  predicate OverLimit(s: Bytes)
  {
    |s| >= HEADER_LENGTH && HeaderValue(s) > MAX_PAYLOAD
  }

  function First(s: Bytes): (payload: Bytes)
    requires HasFrame(s)
    ensures |payload| <= MAX_PAYLOAD
  {
    s[HEADER_LENGTH..HEADER_LENGTH + HeaderValue(s)]
  }

  function After(s: Bytes): (tail: Bytes)
    requires HasFrame(s)
    ensures |tail| < |s|
  {
    s[HEADER_LENGTH + HeaderValue(s)..]
  }

  /** What a stream decodes to: the complete payloads, the bytes not yet part of one,
      and whether those bytes start with a header over the limit. */
  datatype Decoded = Decoded(frames: seq<Bytes>, rest: Bytes, overLimit: bool)

  function Decode(s: Bytes): Decoded
    decreases |s|
  {
    if HasFrame(s) then
      var d := Decode(After(s));
      Decoded([First(s)] + d.frames, d.rest, d.overLimit)
    else
      Decoded([], s, OverLimit(s))
  }

  /** One turn of a decoding loop: the first frame moves over to the frames cut so far. */
  lemma CutOne(cut: seq<Bytes>, s: Bytes)
    requires HasFrame(s)
    ensures cut + Decode(s).frames == cut + [First(s)] + Decode(After(s)).frames
    ensures Decode(s).rest == Decode(After(s)).rest && Decode(s).overLimit == Decode(After(s)).overLimit
  {
    hide HasFrame, First, After;
    assert cut + ([First(s)] + Decode(After(s)).frames) == cut + [First(s)] + Decode(After(s)).frames;
  }

  /** The last turn: nothing more can be cut. */
  lemma CutNone(s: Bytes)
    requires !HasFrame(s)
    ensures Decode(s) == Decoded([], s, OverLimit(s))
  {
  }

  predicate WithinLimit(payloads: seq<Bytes>)
  {
    forall p :: p in payloads ==> |p| <= MAX_PAYLOAD
  }

  function Pow256(k: nat): (p: nat)
    ensures p > 0
  {
    if k == 0 then 1 else 256 * Pow256(k - 1)
  }

  lemma {:induction false} BigEndianRoundTrip(n: nat, k: nat)
    requires n < Pow256(k)
    ensures BigEndianValue(BigEndian(n, k)) == n
  {
    if k > 0 {
      BigEndianRoundTrip(n / 256, k - 1);
      assert BigEndian(n, k)[..k - 1] == BigEndian(n / 256, k - 1);
    }
  }

  lemma {:induction false} BigEndianOfValue(s: Bytes)
    ensures BigEndian(BigEndianValue(s), |s|) == s
    ensures BigEndianValue(s) < Pow256(|s|)
  {
    if s != [] {
      BigEndianOfValue(s[..|s| - 1]);
    }
  }

  lemma HeaderRoundTrip(n: nat, tail: Bytes)
    requires n < 0x1_0000_0000
    ensures HeaderValue(Header(n) + tail) == n
  {
    assert Pow256(4) == 256 * (256 * (256 * (256 * Pow256(0))));
    BigEndianRoundTrip(n, HEADER_LENGTH);
    assert (Header(n) + tail)[..HEADER_LENGTH] == Header(n);
  }

  /** Every four bytes are the header of the number they spell. */
  lemma HeaderOfValue(s: Bytes)
    requires |s| >= HEADER_LENGTH
    ensures Header(HeaderValue(s)) == s[..HEADER_LENGTH]
  {
    BigEndianOfValue(s[..HEADER_LENGTH]);
  }

  lemma FirstOfEncoded(payload: Bytes, tail: Bytes)
    requires |payload| <= MAX_PAYLOAD
    ensures var s := Encode(payload) + tail;
            HasFrame(s) && First(s) == payload && After(s) == tail
  {
    var s := Encode(payload) + tail;
    assert s == Header(|payload|) + (payload + tail);
    HeaderRoundTrip(|payload|, payload + tail);
  }

  /** One encoded frame at the front of a stream is the first frame decoded. */
  lemma DecodeFrame(payload: Bytes, tail: Bytes)
    requires |payload| <= MAX_PAYLOAD
    ensures var d := Decode(tail);
            Decode(Encode(payload) + tail) == Decoded([payload] + d.frames, d.rest, d.overLimit)
  {
    hide HasFrame, First, After, Encode;
    FirstOfEncoded(payload, tail);
  }

  lemma EncodeAllCons(payload: Bytes, payloads: seq<Bytes>)
    ensures EncodeAll([payload] + payloads) == Encode(payload) + EncodeAll(payloads)
  {
    assert ([payload] + payloads)[1..] == payloads;
  }

  /** Decoding undoes encoding, whatever follows. */
  lemma {:induction false} DecodeEncodeAll(payloads: seq<Bytes>, tail: Bytes)
    requires WithinLimit(payloads)
    ensures var d := Decode(tail);
            Decode(EncodeAll(payloads) + tail) == Decoded(payloads + d.frames, d.rest, d.overLimit)
  {
    hide Decode, Encode;
    if payloads == [] {
      assert EncodeAll(payloads) + tail == tail;
      assert payloads + Decode(tail).frames == Decode(tail).frames;
    } else {
      var rest := EncodeAll(payloads[1..]) + tail;
      assert EncodeAll(payloads) + tail == Encode(payloads[0]) + rest;
      DecodeFrame(payloads[0], rest);
      DecodeEncodeAll(payloads[1..], tail);
      assert [payloads[0]] + (payloads[1..] + Decode(tail).frames) == payloads + Decode(tail).frames;
    }
  }

  lemma {:induction false} EncodeAllAppend(xs: seq<Bytes>, ys: seq<Bytes>)
    ensures EncodeAll(xs + ys) == EncodeAll(xs) + EncodeAll(ys)
  {
    hide Encode;
    if xs == [] {
      assert xs + ys == ys;
    } else {
      assert (xs + ys)[1..] == xs[1..] + ys;
      EncodeAllAppend(xs[1..], ys);
    }
  }

  lemma EncodeAllSnoc(xs: seq<Bytes>, y: Bytes)
    ensures EncodeAll(xs + [y]) == EncodeAll(xs) + Encode(y)
  {
    hide Encode;
    EncodeAllAppend(xs, [y]);
    EncodeAllCons(y, []);
    assert [y] + [] == [y];
  }

  /** Cutting the first frame off and writing it again restores the stream. */
  lemma EncodeFirst(s: Bytes)
    requires HasFrame(s)
    ensures Encode(First(s)) + After(s) == s
  {
    HeaderOfValue(s);
    hide Header, HeaderValue;
    assert Encode(First(s)) == s[..HEADER_LENGTH] + First(s);
  }

  /** No byte is lost or invented: the frames written out again, followed by the
      leftover, are the stream. */
  lemma {:induction false} BytesConserved(s: Bytes)
    ensures EncodeAll(Decode(s).frames) + Decode(s).rest == s
    decreases |s|
  {
    hide HasFrame, First, After, Encode;
    if HasFrame(s) {
      var d := Decode(After(s));
      BytesConserved(After(s));
      EncodeFirst(s);
      EncodeAllCons(First(s), d.frames);
      assert Encode(First(s)) + EncodeAll(d.frames) + d.rest == Encode(First(s)) + (EncodeAll(d.frames) + d.rest);
    }
  }

  /** No decoded payload is over the limit. */
  lemma {:induction false} DecodedWithinLimit(s: Bytes)
    ensures WithinLimit(Decode(s).frames)
    decreases |s|
  {
    hide HasFrame, First, After;
    if HasFrame(s) {
      DecodedWithinLimit(After(s));
    }
  }

  lemma FirstOfAppend(a: Bytes, b: Bytes)
    ensures HasFrame(a) ==> HasFrame(a + b) && First(a + b) == First(a) && After(a + b) == After(a) + b
    ensures OverLimit(a) ==> OverLimit(a + b) && !HasFrame(a + b)
  {
    if |a| >= HEADER_LENGTH {
      assert (a + b)[..HEADER_LENGTH] == a[..HEADER_LENGTH];
    }
  }

  /** A stream that arrives in two pieces: the second piece continues where the
      first one stopped, unless the first one already ended in an over-limit header. */
  lemma {:induction false} DecodeAppend(a: Bytes, b: Bytes)
    ensures !Decode(a).overLimit ==>
              var d := Decode(Decode(a).rest + b);
              Decode(a + b) == Decoded(Decode(a).frames + d.frames, d.rest, d.overLimit)
    ensures Decode(a).overLimit ==>
              Decode(a + b) == Decoded(Decode(a).frames, Decode(a).rest + b, true)
    decreases |a|
  {
    hide HasFrame, First, After, OverLimit;
    FirstOfAppend(a, b);
    if HasFrame(a) {
      DecodeAppend(After(a), b);
    }
  }

  /** The leftover of a stream never holds a complete frame; without an over-limit
      header it is shorter than the largest frame. */
  lemma {:induction false} RestIsShort(s: Bytes)
    ensures |Decode(s).rest| <= |s| && !HasFrame(Decode(s).rest)
    ensures !Decode(s).overLimit ==> |Decode(s).rest| < HEADER_LENGTH + MAX_PAYLOAD
    decreases |s|
  {
    if HasFrame(s) {
      hide HasFrame, First, After, OverLimit;
      RestIsShort(After(s));
    }
  }

  lemma DecodeEmpty()
    ensures Decode([]) == Decoded([], [], false)
  {
  }

  /** Decoding a prefix of an encoded stream yields a prefix of the payloads, and
      all of them when the prefix is the whole stream. */
  lemma DecodePrefixOfEncoded(payloads: seq<Bytes>, received: Bytes, pending: Bytes)
    requires WithinLimit(payloads)
    requires received + pending == EncodeAll(payloads)
    ensures !Decode(received).overLimit
    ensures Decode(received).frames <= payloads
    ensures pending == [] ==> Decode(received).frames == payloads && Decode(received).rest == []
  {
    hide Decode, EncodeAll;
    DecodeEncodeAll(payloads, []);
    DecodeEmpty();
    assert EncodeAll(payloads) + [] == received + pending;
    assert payloads + [] == payloads;
    DecodeAppend(received, pending);
    if pending == [] {
      assert received + pending == received;
    }
  }

  /** A payload over the limit in a stream of encoded payloads: the ones before it are
      decoded, and the error comes exactly with its header. */
  lemma DecodeOversized(before: seq<Bytes>, big: Bytes, after: Bytes, received: Bytes)
    requires WithinLimit(before) && MAX_PAYLOAD < |big| < 0x1_0000_0000
    requires received <= EncodeAll(before) + (Encode(big) + after)
    ensures var d := Decode(received);
            && d.frames <= before
            && (d.overLimit <==> |received| >= |EncodeAll(before)| + HEADER_LENGTH)
            && (|received| >= |EncodeAll(before)| ==> d.frames == before)
  {
    hide Decode, Encode, EncodeAll, Header, HeaderValue;
    var head := EncodeAll(before);
    if |received| >= |head| {
      var tail := received[|head|..];
      assert received == head + tail && tail <= Encode(big) + after;
      OversizedTail(big, after, tail);
      CutNone(tail);
      DecodeEncodeAll(before, tail);
      assert before + [] == before;
    } else {
      assert received + head[|received|..] == head;
      DecodePrefixOfEncoded(before, received, head[|received|..]);
    }
  }

  /** The same for one place in a list of payloads. */
  lemma DecodeUpToOversized(payloads: seq<Bytes>, k: nat, received: Bytes)
    requires k < |payloads| && WithinLimit(payloads[..k]) && MAX_PAYLOAD < |payloads[k]| < 0x1_0000_0000
    requires received <= EncodeAll(payloads)
    ensures var d := Decode(received);
            && d.frames <= payloads[..k]
            && (d.overLimit <==> |received| >= |EncodeAll(payloads[..k])| + HEADER_LENGTH)
            && (|received| >= |EncodeAll(payloads[..k])| ==> d.frames == payloads[..k])
  {
    hide Decode, Encode, EncodeAll;
    var tail := payloads[k + 1..];
    assert payloads == payloads[..k] + ([payloads[k]] + tail);
    EncodeAllAppend(payloads[..k], [payloads[k]] + tail);
    EncodeAllCons(payloads[k], tail);
    DecodeOversized(payloads[..k], payloads[k], EncodeAll(tail), received);
  }

  lemma OversizedTail(big: Bytes, after: Bytes, tail: Bytes)
    requires MAX_PAYLOAD < |big| < 0x1_0000_0000 && tail <= Encode(big) + after
    ensures !HasFrame(tail)
    ensures OverLimit(tail) <==> |tail| >= HEADER_LENGTH
  {
    hide BigEndianValue, BigEndian;
    if |tail| >= HEADER_LENGTH {
      HeaderRoundTrip(|big|, tail[HEADER_LENGTH..]);
      assert tail == Header(|big|) + tail[HEADER_LENGTH..];
    }
  }
}
