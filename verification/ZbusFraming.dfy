/** The ZBUS byte stuffing: a decoder that is fed byte by byte, the encoder, and what survives between them. */
module ZbusFraming {
  import opened Bytes

  const ESC: byte := 92    // backslash
  const START: byte := 48  // '0'
  const STOP: byte := 49   // '1'

  type Packet = seq<byte>

  /** The parser's static variables; `data` is the filled part of the packet buffer. */
  datatype Decoder = Decoder(escaped: bool, started: bool, data: Packet)

  const IDLE := Decoder(false, false, [])

  ghost predicate DecoderOk(d: Decoder, mtu: nat) {
    |d.data| <= mtu && (!d.started ==> d.data == [])
  }

  /** Decoder after some input, and the packets handed to the tunnel meanwhile. */
  datatype Fed = Fed(next: Decoder, delivered: seq<Packet>)

  function Step(d: Decoder, mtu: nat, b: byte): Fed {
    if !d.escaped && b == ESC then Fed(d.(escaped := true), [])
    else if !d.started then Fed(Decoder(false, d.escaped && b == START, d.data), [])
    else if d.escaped && b == STOP then Fed(IDLE, [d.data])
    else if |d.data| + 1 > mtu then Fed(IDLE, [])
    else Fed(Decoder(false, true, d.data + [b]), [])
  }

  function Feed(d: Decoder, mtu: nat, input: seq<byte>): Fed
    decreases |input|
  {
    if input == [] then Fed(d, [])
    else
      var s := Step(d, mtu, input[0]);
      var rest := Feed(s.next, mtu, input[1..]);
      Fed(rest.next, s.delivered + rest.delivered)
  }

  /** Payload bytes with every backslash doubled. */
  function Stuff(p: Packet): (s: seq<byte>)
    ensures |p| <= |s| <= 2 * |p|
  {
    if p == [] then [] else (if p[0] == ESC then [ESC, ESC] else [p[0]]) + Stuff(p[1..])
  }

  function Encode(p: Packet): (s: seq<byte>)
    ensures |s| <= 2 * |p| + 4
  {
    [ESC, START] + Stuff(p) + [ESC, STOP]
  }

  function EncodeAll(ps: seq<Packet>): seq<byte> {
    if ps == [] then [] else Encode(ps[0]) + EncodeAll(ps[1..])
  }

  /** The packets that fit the maximum transfer unit, in order. */
  function Fitting(ps: seq<Packet>, mtu: nat): seq<Packet> {
    if ps == [] then []
    else (if |ps[0]| <= mtu then [ps[0]] else []) + Fitting(ps[1..], mtu)
  }

  // ----- chunk independence

  lemma {:induction false} FeedAppend(d: Decoder, mtu: nat, a: seq<byte>, b: seq<byte>)
    ensures Feed(d, mtu, a + b) ==
            Fed(Feed(Feed(d, mtu, a).next, mtu, b).next,
                Feed(d, mtu, a).delivered + Feed(Feed(d, mtu, a).next, mtu, b).delivered)
    decreases |a|
  {
    if a == [] {
      assert a + b == b;
    } else {
      assert (a + b)[1..] == a[1..] + b;
      FeedAppend(Step(d, mtu, a[0]).next, mtu, a[1..], b);
    }
  }

  function Concat(chunks: seq<seq<byte>>): seq<byte> {
    if chunks == [] then [] else chunks[0] + Concat(chunks[1..])
  }

  /** One parser call per chunk. */
  function FeedChunks(d: Decoder, mtu: nat, chunks: seq<seq<byte>>): Fed
    decreases |chunks|
  {
    if chunks == [] then Fed(d, [])
    else
      var s := Feed(d, mtu, chunks[0]);
      var rest := FeedChunks(s.next, mtu, chunks[1..]);
      Fed(rest.next, s.delivered + rest.delivered)
  }

  /** However the byte stream is cut into calls, the same packets come out and the same state is left. */
  lemma {:induction false} ChunksDoNotMatter(d: Decoder, mtu: nat, chunks: seq<seq<byte>>)
    ensures FeedChunks(d, mtu, chunks) == Feed(d, mtu, Concat(chunks))
    decreases |chunks|
  {
    if chunks != [] {
      FeedAppend(d, mtu, chunks[0], Concat(chunks[1..]));
      ChunksDoNotMatter(Feed(d, mtu, chunks[0]).next, mtu, chunks[1..]);
    }
  }

  lemma {:induction false} FeedKeepsOk(d: Decoder, mtu: nat, input: seq<byte>)
    requires DecoderOk(d, mtu)
    ensures DecoderOk(Feed(d, mtu, input).next, mtu)
    ensures forall p :: p in Feed(d, mtu, input).delivered ==> |p| <= mtu
    decreases |input|
  {
    if input != [] {
      FeedKeepsOk(Step(d, mtu, input[0]).next, mtu, input[1..]);
    }
  }

  // ----- one encoding

  lemma FeedTwo(d: Decoder, mtu: nat, a: byte, b: byte)
    ensures Feed(d, mtu, [a, b]) ==
            Fed(Step(Step(d, mtu, a).next, mtu, b).next,
                Step(d, mtu, a).delivered + Step(Step(d, mtu, a).next, mtu, b).delivered)
  {
    assert [a, b][1..] == [b];
    var s := Step(d, mtu, a).next;
    assert Feed(s, mtu, [b]) == Fed(Step(s, mtu, b).next, Step(s, mtu, b).delivered) by {
      assert [b][1..] == [];
    }
  }

  /** One stuffed payload byte, outside an escape, is one payload byte or is ignored. */
  lemma FeedStuffedByte(d: Decoder, mtu: nat, b: byte)
    requires !d.escaped
    ensures Feed(d, mtu, if b == ESC then [ESC, ESC] else [b]) ==
            Fed(if !d.started then Decoder(false, false, d.data)
                else if |d.data| + 1 > mtu then IDLE
                else Decoder(false, true, d.data + [b]), [])
  {
    if b == ESC {
      FeedTwo(d, mtu, ESC, ESC);
    } else {
      assert [b][1..] == [];
    }
  }

  lemma FeedNone(d: Decoder, mtu: nat)
    ensures Feed(d, mtu, []) == Fed(d, [])
  {
  }

  lemma StuffUnfolds(p: Packet)
    ensures Stuff(p) == if p == [] then [] else (if p[0] == ESC then [ESC, ESC] else [p[0]]) + Stuff(p[1..])
  {
  }

  /** A stuffed payload never delivers and never starts a packet: it extends the packet in
      progress, drops it when it grows past the limit, or is skipped. */
  lemma {:induction false} FeedStuffed(d: Decoder, mtu: nat, p: Packet)
    requires !d.escaped && DecoderOk(d, mtu)
    ensures Feed(d, mtu, Stuff(p)) ==
            Fed(if d.started && |d.data| + |p| <= mtu then Decoder(false, true, d.data + p) else IDLE, [])
    decreases |p|
  {
    hide Step, Feed, Stuff;
    FeedNone(d, mtu);
    StuffUnfolds(p);
    if p == [] {
      assert d.data + p == d.data;
    } else {
      var unit := if p[0] == ESC then [ESC, ESC] else [p[0]];
      FeedStuffedByte(d, mtu, p[0]);
      FeedAppend(d, mtu, unit, Stuff(p[1..]));
      FeedStuffed(Feed(d, mtu, unit).next, mtu, p[1..]);
      assert d.data + [p[0]] + p[1..] == d.data + p;
    }
  }

  /** What comes out when a complete encoding of `p` arrives in state `d`: between packets `p` itself,
      or nothing after a pending backslash; inside a packet the start mark, which is then read as
      data, glues `p` to what was collected. Too much is dropped. */
  function Salvaged(d: Decoder, mtu: nat, p: Packet): seq<Packet> {
    if !d.started && d.escaped then []
    else
      var whole := if !d.started then p else d.data + (if d.escaped then [ESC, START] else [START]) + p;
      if |whole| <= mtu then [whole] else []
  }

  /** The two start bytes begin a packet, are swallowed, or are taken for data. */
  lemma FeedStart(d: Decoder, mtu: nat)
    requires DecoderOk(d, mtu)
    ensures var data := d.data + if d.escaped then [ESC, START] else [START];
            Feed(d, mtu, [ESC, START]) ==
            Fed(if !d.started then Decoder(false, !d.escaped, [])
                else if |data| <= mtu then Decoder(false, true, data) else IDLE, [])
  {
    FeedTwo(d, mtu, ESC, START);
    assert d.data + [ESC] + [START] == d.data + [ESC, START];
  }

  /** The two stop bytes deliver a packet in progress. */
  lemma FeedStop(d: Decoder, mtu: nat)
    requires DecoderOk(d, mtu) && !d.escaped
    ensures Feed(d, mtu, [ESC, STOP]) == Fed(IDLE, if d.started then [d.data] else [])
  {
    FeedTwo(d, mtu, ESC, STOP);
  }

  /** What one complete encoding does from any decoder state at all, even one left by line noise. */
  lemma FeedEncoded(d: Decoder, mtu: nat, p: Packet)
    requires DecoderOk(d, mtu)
    ensures Feed(d, mtu, Encode(p)) == Fed(IDLE, Salvaged(d, mtu, p))
  {
    hide Stuff, Step, Feed;
    var head := Feed(d, mtu, [ESC, START]).next;
    FeedStart(d, mtu);
    FeedStuffed(head, mtu, p);
    var body := Feed(head, mtu, Stuff(p)).next;
    FeedStop(body, mtu);
    FeedAppend(d, mtu, [ESC, START], Stuff(p));
    FeedAppend(d, mtu, [ESC, START] + Stuff(p), [ESC, STOP]);
    assert [] + p == p;
  }

  /** The round trip: an idle decoder delivers exactly the packets that fit, unchanged and in order;
      an oversized packet vanishes whole. */
  lemma {:induction false} RoundTrip(mtu: nat, ps: seq<Packet>)
    ensures Feed(IDLE, mtu, EncodeAll(ps)) == Fed(IDLE, Fitting(ps, mtu))
    decreases |ps|
  {
    hide Encode;
    if ps != [] {
      FeedEncoded(IDLE, mtu, ps[0]);
      FeedAppend(IDLE, mtu, Encode(ps[0]), EncodeAll(ps[1..]));
      RoundTrip(mtu, ps[1..]);
    }
  }

  /** Resynchronisation: after any rubbish at most the first packet is lost or garbled, in the way the
      rubbish determines. */
  lemma Resynchronises(d: Decoder, mtu: nat, rubbish: seq<byte>, p: Packet, ps: seq<Packet>)
    requires DecoderOk(d, mtu)
    ensures var noise := Feed(d, mtu, rubbish);
            Feed(d, mtu, rubbish + Encode(p) + EncodeAll(ps)) ==
            Fed(IDLE, noise.delivered + Salvaged(noise.next, mtu, p) + Fitting(ps, mtu))
  {
    hide Encode, EncodeAll, Feed, Salvaged;
    FeedKeepsOk(d, mtu, rubbish);
    FeedAppend(d, mtu, rubbish, Encode(p));
    FeedEncoded(Feed(d, mtu, rubbish).next, mtu, p);
    FeedAppend(d, mtu, rubbish + Encode(p), EncodeAll(ps));
    RoundTrip(mtu, ps);
  }

  // ----- the bytes on the line

  /** An encoding opens with backslash and '0' and closes with backslash and '1'. */
  lemma EncodingMarks(p: Packet)
    ensures Encode(p)[..2] == [92, 48] && Encode(p)[|Encode(p)| - 2..] == [92, 49]
    ensures |Encode(p)| >= |p| + 4
  {
    hide Stuff;
  }

  /** A stuffed payload: each backslash twice, every other byte once. */
  lemma {:induction false} StuffingDoubles(a: Packet, b: byte)
    ensures Stuff(a + [b]) == Stuff(a) + (if b == 92 then [92, 92] else [b])
    decreases |a|
  {
    if a == [] {
      assert (a + [b])[1..] == [];
    } else {
      assert (a + [b])[1..] == a[1..] + [b];
      StuffingDoubles(a[1..], b);
    }
  }

  /** A backslash and any other byte: between packets only '0' means something; inside a packet '1' ends
      it and everything else is taken as that byte. */
  lemma EscapedByte(d: Decoder, mtu: nat, b: byte)
    requires DecoderOk(d, mtu) && !d.escaped
    ensures Feed(d, mtu, [92, b]) ==
            if !d.started then Fed(Decoder(false, b == 48, []), [])
            else if b == 49 then Fed(IDLE, [d.data])
            else if |d.data| < mtu then Fed(Decoder(false, true, d.data + [b]), []) else Fed(IDLE, [])
  {
    FeedTwo(d, mtu, ESC, b);
  }

}
