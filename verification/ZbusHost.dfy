/** The host side of ZBUS: the streaming parser and the frame writer over their buffers. */
module ZbusHost {
  import opened Bytes
  import opened ZbusFraming

  const MAX_MTU: nat := 1500

  lemma FeedOne(d: Decoder, mtu: nat, b: byte)
    ensures Feed(d, mtu, [b]) == Step(d, mtu, b)
  {
    assert [b][1..] == [];
    assert Step(d, mtu, b).delivered + [] == Step(d, mtu, b).delivered;
  }

  class Parser {
    const mtu: nat
    const recvpktbuf: array<byte>
    var recvpktpos: nat
    var escaped: bool
    var pktStarted: bool
    /** Packets written to the tunnel device. */
    var tun: seq<Packet>

    ghost predicate Valid()
      reads this
    {
      && 1 <= mtu <= MAX_MTU && recvpktbuf.Length == MAX_MTU && recvpktpos <= mtu
      && (!pktStarted ==> recvpktpos == 0)
    }

    ghost function State(): Decoder
      requires Valid()
      reads this, recvpktbuf
    {
      Decoder(escaped, pktStarted, recvpktbuf[..recvpktpos])
    }

    constructor (mtu: nat)
      requires 1 <= mtu <= MAX_MTU
      ensures Valid() && this.mtu == mtu && State() == IDLE && tun == [] && fresh(recvpktbuf)
    {
      this.mtu := mtu;
      recvpktbuf := new byte[MAX_MTU](_ => 0);
      recvpktpos := 0;
      escaped, pktStarted := false, false;
      tun := [];
    }

    /** The body of the loop of `parse_zbus`. */
    method ParseByte(b: byte)
      requires Valid()
      modifies this, recvpktbuf
      ensures Valid()
      ensures State() == Step(old(State()), mtu, b).next
      ensures tun == old(tun) + Step(old(State()), mtu, b).delivered
    {
      if !escaped && b == ESC {
        escaped := true;
        return;
      }
      if !pktStarted {
        if escaped && b == START {
          escaped := false;
          pktStarted := true;
        }
        if escaped {
          escaped := false;
        }
        return;
      }
      if escaped && b == STOP {
        tun := tun + [recvpktbuf[..recvpktpos]];
        escaped := false;
        pktStarted := false;
        recvpktpos := 0;
        return;
      }
      if escaped {
        escaped := false;
      }
      if recvpktpos + 1 > mtu {
        pktStarted := false;
        recvpktpos := 0;
      } else {
        recvpktbuf[recvpktpos] := b;
        recvpktpos := recvpktpos + 1;
      }
    }

    /** `parse_zbus`: one call per chunk of received bytes. */
    method ParseZbus(xferbuf: seq<byte>) returns (left: nat)
      requires Valid()
      modifies this, recvpktbuf
      ensures Valid()
      ensures State() == Feed(old(State()), mtu, xferbuf).next
      ensures tun == old(tun) + Feed(old(State()), mtu, xferbuf).delivered
      ensures left > 0 <==> pktStarted
      ensures left == if pktStarted && |State().data| == 0 then 1 else |State().data|
    {
      ghost var start := State();
      for i := 0 to |xferbuf|
        invariant Valid()
        invariant State() == Feed(start, mtu, xferbuf[..i]).next
        invariant tun == old(tun) + Feed(start, mtu, xferbuf[..i]).delivered
      {
        ghost var s := State();
        FeedAppend(start, mtu, xferbuf[..i], [xferbuf[i]]);
        assert xferbuf[..i + 1] == xferbuf[..i] + [xferbuf[i]];
        FeedOne(s, mtu, xferbuf[i]);
        ParseByte(xferbuf[i]);
      }
      assert xferbuf[..|xferbuf|] == xferbuf;
      if recvpktpos == 0 && pktStarted {
        left := 1;
      } else {
        left := recvpktpos;
      }
    }
  }

  /** One payload byte, a backslash twice. */
  method PutStuffed(writebuf: array<byte>, at: nat, b: byte) returns (w: nat)
    requires at + 2 <= writebuf.Length
    modifies writebuf
    ensures at + 1 <= w <= at + 2
    ensures writebuf[..w] == old(writebuf[..at]) + if b == ESC then [ESC, ESC] else [b]
  {
    w := at;
    if b == ESC {
      writebuf[w] := ESC;
      w := w + 1;
    }
    writebuf[w] := b;
    w := w + 1;
  }

  lemma EncodeIs(p: Packet)
    ensures Encode(p) == [ESC, START] + Stuff(p) + [ESC, STOP]
  {
    hide Stuff;
  }

  lemma EmptyStuff()
    ensures Stuff([]) == []
  {
  }

  /** The encoding loop of `write_tty`: `l` bytes were read into `netbuf` (none when `l` is not positive). */
  method WriteTty(netbuf: array<byte>, l: int, writebuf: array<byte>) returns (w: nat)
    requires l <= netbuf.Length && netbuf.Length == 1500 && writebuf.Length == 3004 && netbuf != writebuf
    modifies writebuf
    ensures w <= writebuf.Length
    ensures writebuf[..w] == Encode(if l > 0 then netbuf[..l] else [])
    ensures w >= 4 && writebuf[..w][..2] == [92, 48] && writebuf[..w][w - 2..] == [92, 49]
  {
    hide Stuff, Encode;
    w := 0;
    writebuf[w] := ESC;
    w := w + 1;
    writebuf[w] := START;
    w := w + 1;
    var p := 0;
    var left := l;
    EmptyStuff();
    while left > 0
      invariant 0 <= p && p + (if left > 0 then left else 0) == (if l > 0 then l else 0)
      invariant 2 <= w <= 2 + 2 * p && writebuf[..w] == [ESC, START] + Stuff(netbuf[..p])
    {
      StuffingDoubles(netbuf[..p], netbuf[p]);
      assert netbuf[..p + 1] == netbuf[..p] + [netbuf[p]];
      w := PutStuffed(writebuf, w, netbuf[p]);
      p := p + 1;
      left := left - 1;
    }
    ghost var sent := writebuf[..w];
    writebuf[w] := ESC;
    w := w + 1;
    writebuf[w] := STOP;
    w := w + 1;
    assert writebuf[..w] == sent + [ESC, STOP];
    EncodeIs(netbuf[..p]);
    EncodingMarks(netbuf[..p]);
    assert netbuf[..p] == if l > 0 then netbuf[..l] else [];
  }
}
