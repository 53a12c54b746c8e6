/** Length-prefixed framing: a payload travels behind a 4-byte big-endian length.

    A C++ `char` is a Dafny `char`. Nothing here depends on its width except the two results that
    re-encode what was decoded, which say `IsBytes`. */
module PacketCodec {
  import opened Wrappers

  const HEADER_SIZE: nat := 4
  const MAX_PAYLOAD: nat := 1024 * 1024

  ghost predicate IsBytes(s: string) {
    forall i :: 0 <= i < |s| ==> s[i] as int < 256
  }

  // ---------------------------------------------------------------- encoding

  /** The 32-bit length in network byte order. */
  function BigEndian(n: nat): (header: string)
    requires n < 0x1_0000_0000
    ensures |header| == HEADER_SIZE
  {
    [(n / 0x100_0000) as char, (n / 0x1_0000 % 0x100) as char, (n / 0x100 % 0x100) as char, (n % 0x100) as char]
  }

  function HeaderValue(buffer: string): nat
    requires |buffer| >= HEADER_SIZE
  {
    buffer[0] as int * 0x100_0000 + buffer[1] as int * 0x1_0000 + buffer[2] as int * 0x100 + buffer[3] as int
  }

  /** Header and payload; the length is cast to 32 bits as the source casts it. */
  function Frame(payload: string): string {
    BigEndian(|payload| % 0x1_0000_0000) + payload
  }

  predicate Encodable(payload: string) {
    0 < |payload| <= MAX_PAYLOAD
  }

  function EncodePacket(payload: string): Result<string, string> {
    if !Encodable(payload) then Err("payload size is invalid") else Ok(Frame(payload))
  }

  /** What a peer should see after being sent these payloads in this order. */
  function EncodeAll(payloads: seq<string>): string {
    if payloads == [] then "" else EncodeAll(payloads[..|payloads| - 1]) + Frame(payloads[|payloads| - 1])
  }

  lemma BytesAddUp(n: nat)
    ensures n == n / 0x100_0000 * 0x100_0000 + n / 0x1_0000 % 0x100 * 0x1_0000 + n / 0x100 % 0x100 * 0x100 + n % 0x100
  {
    assert n / 0x100 / 0x100 == n / 0x1_0000 && n / 0x1_0000 / 0x100 == n / 0x100_0000;
  }

  lemma HeaderOfBigEndian(n: nat, rest: string)
    requires n < 0x1_0000_0000
    ensures HeaderValue(BigEndian(n) + rest) == n
  {
    var h := BigEndian(n) + rest;
    assert h[0] == BigEndian(n)[0] && h[1] == BigEndian(n)[1] && h[2] == BigEndian(n)[2] && h[3] == BigEndian(n)[3];
    BytesAddUp(n);
  }

  lemma BigEndianOfHeader(buffer: string)
    requires |buffer| >= HEADER_SIZE && IsBytes(buffer)
    ensures HeaderValue(buffer) < 0x1_0000_0000
    ensures BigEndian(HeaderValue(buffer)) == buffer[..HEADER_SIZE]
  {
    var n := HeaderValue(buffer);
    var a, b, c, d := buffer[0] as int, buffer[1] as int, buffer[2] as int, buffer[3] as int;
    assert n / 0x100_0000 == a && n / 0x1_0000 == a * 0x100 + b && n / 0x100 == (a * 0x100 + b) * 0x100 + c;
    assert BigEndian(n) == [buffer[0], buffer[1], buffer[2], buffer[3]];
  }

  lemma {:induction false} EncodeAllAppend(a: seq<string>, b: seq<string>)
    ensures EncodeAll(a + b) == EncodeAll(a) + EncodeAll(b)
  {
    if b == [] {
      assert a + b == a;
    } else {
      var n := |b| - 1;
      assert (a + b)[..|a + b| - 1] == a + b[..n];
      EncodeAllAppend(a, b[..n]);
    }
  }

  // ---------------------------------------------------------------- decoding

  /** The complete frames at the front of a buffer, the bytes after them, and whether those bytes
      start with a length that is refused. */
  datatype Decoded = Decoded(packets: seq<string>, rest: string, bad: bool)

  predicate HasBadLength(buffer: string, max: nat) {
    |buffer| >= HEADER_SIZE && (HeaderValue(buffer) == 0 || HeaderValue(buffer) > max)
  }

  function FrameSize(buffer: string): nat
    requires |buffer| >= HEADER_SIZE
  {
    HEADER_SIZE + HeaderValue(buffer)
  }

  predicate HasFrame(buffer: string, max: nat) {
    |buffer| >= HEADER_SIZE && !HasBadLength(buffer, max) && |buffer| >= FrameSize(buffer)
  }

  function Decode(buffer: string, max: nat): Decoded
    decreases |buffer|
  {
    if HasBadLength(buffer, max) then Decoded([], buffer, true)
    else if !HasFrame(buffer, max) then Decoded([], buffer, false)
    else
      var k := FrameSize(buffer);
      var d := Decode(buffer[k..], max);
      Decoded([buffer[HEADER_SIZE..k]] + d.packets, d.rest, d.bad)
  }

  lemma FirstFrameStays(a: string, b: string, max: nat)
    requires HasFrame(a, max)
    ensures HasFrame(a + b, max) && FrameSize(a + b) == FrameSize(a)
    ensures (a + b)[FrameSize(a)..] == a[FrameSize(a)..] + b
    ensures (a + b)[HEADER_SIZE..FrameSize(a)] == a[HEADER_SIZE..FrameSize(a)]
  {
  }

  /** Decoding can stop after any part of the stream and go on later: nothing is lost or reread.
      After a refused length the answer is settled. */
  lemma DecodeAppend(a: string, b: string, max: nat)
    ensures var d := Decode(a, max);
            var w := Decode(a + b, max);
            if d.bad then w.bad && w.packets == d.packets
            else var e := Decode(d.rest + b, max);
                 w == Decoded(d.packets + e.packets, e.rest, e.bad)
  {
    Resumption(a, b, max);
  }

  ghost predicate Resumes(a: string, b: string, max: nat) {
    var d, w := Decode(a, max), Decode(a + b, max);
    if d.bad then w.bad && w.packets == d.packets
    else w == Joined(d.packets, Decode(d.rest + b, max))
  }

  function Joined(packets: seq<string>, d: Decoded): Decoded {
    d.(packets := packets + d.packets)
  }

  lemma JoinedTwice(first: string, packets: seq<string>, d: Decoded)
    ensures Joined([first], Joined(packets, d)) == Joined([first] + packets, d)
  {
    assert [first] + (packets + d.packets) == ([first] + packets) + d.packets;
  }

  lemma {:induction false} Resumption(a: string, b: string, max: nat)
    ensures Resumes(a, b, max)
    decreases |a|
  {
    if HasFrame(a, max) {
      var k := FrameSize(a);
      Resumption(a[k..], b, max);
      ResumesLater(a, b, max);
    } else if HasBadLength(a, max) {
    } else {
      assert Decode(a, max) == Decoded([], a, false);
      assert [] + Decode(a + b, max).packets == Decode(a + b, max).packets;
    }
  }

  lemma DecodeFirst(buffer: string, max: nat)
    requires HasFrame(buffer, max)
    ensures Decode(buffer, max) == Joined([buffer[HEADER_SIZE..FrameSize(buffer)]], Decode(buffer[FrameSize(buffer)..], max))
  {
  }

  lemma ResumesLater(a: string, b: string, max: nat)
    requires HasFrame(a, max) && Resumes(a[FrameSize(a)..], b, max)
    ensures Resumes(a, b, max)
  {
    var k := FrameSize(a);
    var first, d := a[HEADER_SIZE..k], Decode(a[k..], max);
    DecodeFirst(a, max);
    FirstFrameStays(a, b, max);
    DecodeFirst(a + b, max);
    JoinedTwice(first, d.packets, Decode(d.rest + b, max));
  }

  /** Nothing is dropped or invented: the frames and the rest are the buffer, even when a length is
      refused. */
  lemma {:induction false} DecodeConserves(buffer: string)
    requires IsBytes(buffer)
    ensures EncodeAll(Decode(buffer, MAX_PAYLOAD).packets) + Decode(buffer, MAX_PAYLOAD).rest == buffer
    decreases |buffer|
  {
    hide Frame, HeaderValue;
    if HasFrame(buffer, MAX_PAYLOAD) {
      var k := FrameSize(buffer);
      var first, d := buffer[HEADER_SIZE..k], Decode(buffer[k..], MAX_PAYLOAD);
      calc {
        EncodeAll([first] + d.packets) + d.rest;
        { EncodeAllAppend([first], d.packets); EncodeOne(first); }
        (Frame(first) + EncodeAll(d.packets)) + d.rest;
        Frame(first) + (EncodeAll(d.packets) + d.rest);
        { DecodeConserves(buffer[k..]); FrameOfDecoded(buffer); }
        buffer[..k] + buffer[k..];
      }
    }
  }

  lemma FrameLayout(payload: string)
    requires Encodable(payload)
    ensures Frame(payload) == BigEndian(|payload|) + payload
  {
  }

  lemma FrameOfDecoded(buffer: string)
    requires IsBytes(buffer) && HasFrame(buffer, MAX_PAYLOAD)
    ensures Frame(buffer[HEADER_SIZE..FrameSize(buffer)]) == buffer[..FrameSize(buffer)]
  {
    var payload := buffer[HEADER_SIZE..FrameSize(buffer)];
    calc {
      Frame(payload);
      { FrameLayout(payload); }
      BigEndian(|payload|) + payload;
      { BigEndianOfHeader(buffer); assert |payload| == HeaderValue(buffer); }
      buffer[..HEADER_SIZE] + payload;
      buffer[..FrameSize(buffer)];
    }
  }

  lemma EncodeOne(payload: string)
    ensures EncodeAll([payload]) == Frame(payload)
  {
    assert [payload][..0] == [];
  }

  /** An incomplete frame is short, and every packet produced could have been sent. */
  lemma {:induction false} DecodeBounds(buffer: string, max: nat)
    ensures !Decode(buffer, max).bad ==> |Decode(buffer, max).rest| <= max + HEADER_SIZE - 1
    ensures forall p :: p in Decode(buffer, max).packets ==> 0 < |p| <= max
    decreases |buffer|
  {
    if HasFrame(buffer, max) {
      DecodeBounds(buffer[FrameSize(buffer)..], max);
    }
  }

  lemma FrameStarts(payload: string, tail: string)
    requires Encodable(payload)
    ensures |Frame(payload)| == HEADER_SIZE + |payload| && Frame(payload)[HEADER_SIZE..] == payload
    ensures HeaderValue(Frame(payload) + tail) == |payload|
  {
    hide HeaderValue, BigEndian;
    HeaderOfBigEndian(|payload|, payload + tail);
    assert Frame(payload) + tail == BigEndian(|payload|) + (payload + tail);
  }

  lemma DecodeFrame(payload: string, tail: string)
    requires Encodable(payload)
    ensures var d := Decode(tail, MAX_PAYLOAD);
            Decode(Frame(payload) + tail, MAX_PAYLOAD) == Decoded([payload] + d.packets, d.rest, d.bad)
  {
    var w := Frame(payload) + tail;
    FrameStarts(payload, tail);
    assert w[HEADER_SIZE..FrameSize(w)] == payload && w[FrameSize(w)..] == tail;
  }

  /** A receiver gets back exactly the payloads that were encoded, in order, whatever follows. */
  lemma {:induction false} DecodeEncodeAll(payloads: seq<string>, tail: string)
    requires forall p :: p in payloads ==> Encodable(p)
    ensures var d := Decode(tail, MAX_PAYLOAD);
            Decode(EncodeAll(payloads) + tail, MAX_PAYLOAD) == Decoded(payloads + d.packets, d.rest, d.bad)
  {
    hide Decode, Frame;
    var d := Decode(tail, MAX_PAYLOAD);
    if payloads == [] {
      assert EncodeAll(payloads) + tail == tail;
    } else {
      var n := |payloads| - 1;
      var init, last := payloads[..n], payloads[n];
      calc {
        Decode(EncodeAll(payloads) + tail, MAX_PAYLOAD);
        { assert EncodeAll(payloads) + tail == EncodeAll(init) + (Frame(last) + tail); }
        Decode(EncodeAll(init) + (Frame(last) + tail), MAX_PAYLOAD);
        { DecodeEncodeAll(init, Frame(last) + tail); DecodeFrame(last, tail); }
        Decoded(init + ([last] + d.packets), d.rest, d.bad);
        { assert init + ([last] + d.packets) == payloads + d.packets; }
        Decoded(payloads + d.packets, d.rest, d.bad);
      }
    }
  }

  /** What decoding leaves is an incomplete frame: decoding it again finds nothing. */
  lemma {:induction false} DecodeTwice(buffer: string, max: nat)
    ensures var d := Decode(buffer, max); !d.bad ==> Decode(d.rest, max) == Decoded([], d.rest, false)
    decreases |buffer|
  {
    if HasFrame(buffer, max) {
      DecodeTwice(buffer[FrameSize(buffer)..], max);
    }
  }

  /** A receiver of part of the encoded stream sees the first payloads and no protocol error. */
  lemma PrefixDecodes(sent: string, payloads: seq<string>)
    requires forall p :: p in payloads ==> Encodable(p)
    requires sent <= EncodeAll(payloads)
    ensures !Decode(sent, MAX_PAYLOAD).bad
    ensures Decode(sent, MAX_PAYLOAD).packets <= payloads
  {
    var all := EncodeAll(payloads);
    var unsent := all[|sent|..];
    assert all == sent + unsent;
    DecodeAppend(sent, unsent, MAX_PAYLOAD);
    DecodeEncodeAll(payloads, "");
    assert all + "" == all;
    assert payloads + [] == payloads;
  }
}
