/** Packets over a TCP stream: every packet goes out behind its length in two
    bytes, big-endian.  The sender drops a packet whole or sends it whole; the
    receiver puts packets together again from whatever the stream delivers. */
module PacketFraming {
  import opened ByteOrder
  import opened Arrays

  const MAX_PACKET_SIZE: nat := 64 * 1024
  const LENGTH_SIZE: nat := 2
  const BUFFER_SIZE: nat := MAX_PACKET_SIZE + LENGTH_SIZE

  /** `static_cast<uint16>` followed by `HostToNetwork16`. */
  function PutLength(n: nat): (b: Bytes)
    ensures |b| == LENGTH_SIZE
  {
    Put(Network, n, LENGTH_SIZE)
  }

  /** `GetBE16`. */
  function GetLength(b: Bytes): (n: nat)
    requires |b| >= LENGTH_SIZE
    ensures n < 0x1_0000
  {
    GetBounded(Network, b[..LENGTH_SIZE]);
    TwoBytes();
    Get(Network, b[..LENGTH_SIZE])
  }

  lemma TwoBytes()
    ensures Power256(LENGTH_SIZE) == 0x1_0000
  {
    assert Power256(1) == 256;
  }

  lemma LengthKept(n: nat, s: Bytes)
    ensures GetLength(PutLength(n) + s) == n % 0x1_0000
  {
    GetPut(Network, n, LENGTH_SIZE);
    TwoBytes();
    assert (PutLength(n) + s)[..LENGTH_SIZE] == PutLength(n);
  }

  lemma LengthInFront(s: Bytes, t: Bytes)
    requires |s| >= LENGTH_SIZE && |t| >= LENGTH_SIZE && s[..LENGTH_SIZE] == t[..LENGTH_SIZE]
    ensures GetLength(s) == GetLength(t)
  {
  }

  function Frame(packet: Bytes): Bytes {
    PutLength(|packet|) + packet
  }

  /** The length is in front, its high byte first. */
  lemma FrameBytes(packet: Bytes)
    ensures var f := Frame(packet);
      |f| == 2 + |packet| && f[0] == |packet| / 256 % 256 && f[1] == |packet| % 256 && f[2..] == packet
  {
    assert Power256(1) == 256 && Power256(0) == 1;
    PutBytes(|packet|, LENGTH_SIZE, 0);
    PutBytes(|packet|, LENGTH_SIZE, 1);
    hide Put;
  }

  function Frames(packets: seq<Bytes>): Bytes {
    if packets == [] then [] else Frames(packets[..|packets| - 1]) + Frame(packets[|packets| - 1])
  }

  /** The stream begins with a whole frame. */
  predicate HasFrame(s: Bytes) {
    |s| >= LENGTH_SIZE && |s| >= LENGTH_SIZE + GetLength(s)
  }

  /** The packets at the front of a stream, and what follows the last whole one. */
  function Unframe(s: Bytes): (r: (seq<Bytes>, Bytes))
    ensures !HasFrame(r.1) && |r.1| <= |s|
    decreases |s|
  {
    if !HasFrame(s) then ([], s)
    else
      var end := LENGTH_SIZE + GetLength(s);
      var (packets, rest) := Unframe(s[end..]);
      ([s[LENGTH_SIZE..end]] + packets, rest)
  }

  /** Taking the first frame apart does not depend on what follows it. */
  lemma FirstFrame(a: Bytes, b: Bytes)
    requires HasFrame(a)
    ensures var end := LENGTH_SIZE + GetLength(a);
      Unframe(a + b) == ([a[LENGTH_SIZE..end]] + Unframe(a[end..] + b).0, Unframe(a[end..] + b).1)
  {
    var end, s := LENGTH_SIZE + GetLength(a), a + b;
    assert s[..LENGTH_SIZE] == a[..LENGTH_SIZE];
    LengthInFront(s, a);
    hide GetLength;
    assert s[LENGTH_SIZE..end] == a[LENGTH_SIZE..end] && s[end..] == a[end..] + b;
  }

  /** A stream cut anywhere gives the same packets as the stream in one piece. */
  lemma {:induction false} UnframeConcat(a: Bytes, b: Bytes)
    ensures var (first, rest) := Unframe(a);
      Unframe(a + b) == (first + Unframe(rest + b).0, Unframe(rest + b).1)
    decreases |a|
  {
    if HasFrame(a) {
      hide Unframe, GetLength;
      var end := LENGTH_SIZE + GetLength(a);
      var packet, tail := a[LENGTH_SIZE..end], a[end..];
      FirstFrame(a, b);
      FirstFrame(a, []);
      NothingFollows(a);
      NothingFollows(tail);
      UnframeConcat(tail, b);
      Regrouped([packet], Unframe(tail).0, Unframe(Unframe(tail).1 + b).0);
    } else {
      hide GetLength, HasFrame;
      Regrouped([], [], Unframe(a + b).0);
    }
  }

  lemma NothingFollows(s: Bytes)
    ensures s + [] == s
  {
  }

  lemma Regrouped<T>(a: seq<T>, b: seq<T>, c: seq<T>)
    ensures a + (b + c) == a + b + c && [] + c == c
  {
  }

  /** One frame comes back as its packet exactly when its length fits in two bytes.
      The length check of `Send` admits packets of up to 65538 bytes. What stops those
      above 65535 is the assertion in `AppendToOutBuffer`: without it, one of 65536 bytes
      would go out with a length of 0, and a longer one would not fit the buffer. */
  lemma {:induction false} FrameRoundTrip(packet: Bytes)
    requires |packet| <= BUFFER_SIZE
    ensures Unframe(Frame(packet)) == ([packet], []) <==> |packet| <= 65535
  {
    var f := Frame(packet);
    LengthKept(|packet|, packet);
    hide PutLength, GetLength;
    var end := LENGTH_SIZE + GetLength(f);
    assert f[LENGTH_SIZE..] == packet;
    if |packet| <= 65535 {
      assert f[LENGTH_SIZE..end] == packet && f[end..] == [];
      assert Unframe(f) == ([packet] + Unframe([]).0, Unframe([]).1);
      assert [packet] + [] == [packet];
    } else {
      assert Unframe(f).0[0] == f[LENGTH_SIZE..end] && |f[LENGTH_SIZE..end]| < |packet|;
    }
  }

  lemma {:induction false} FramesRoundTrip(packets: seq<Bytes>, tail: Bytes)
    requires forall i :: 0 <= i < |packets| ==> |packets[i]| <= 65535
    ensures Unframe(Frames(packets) + tail) == (packets + Unframe(tail).0, Unframe(tail).1)
  {
    hide Frame, Unframe;
    if packets == [] {
      assert Frames(packets) + tail == tail && [] + Unframe(tail).0 == Unframe(tail).0;
    } else {
      var front, last := packets[..|packets| - 1], packets[|packets| - 1];
      var frame := Frame(last);
      FramesRoundTrip(front, frame + tail);
      OneFrame(last, tail);
      assert Frames(packets) + tail == Frames(front) + (frame + tail);
      var after := Unframe(tail).0;
      Regroup(packets, after);
    }
  }

  lemma Regroup<T>(s: seq<T>, t: seq<T>)
    requires s != []
    ensures s[..|s| - 1] + ([s[|s| - 1]] + t) == s + t
  {
  }

  lemma OneFrame(packet: Bytes, tail: Bytes)
    requires |packet| <= 65535
    ensures Unframe(Frame(packet) + tail) == ([packet] + Unframe(tail).0, Unframe(tail).1)
  {
    FrameRoundTrip(packet);
    UnframeConcat(Frame(packet), tail);
    assert [] + tail == tail;
  }

  /** What a receiver has made of the first part of the sender's stream is a prefix
      of what was sent; of the whole stream it makes exactly what was sent. */
  lemma {:induction false} PrefixDelivered(packets: seq<Bytes>, s: Bytes)
    requires forall i :: 0 <= i < |packets| ==> |packets[i]| <= 65535
    requires s <= Frames(packets)
    ensures Unframe(s).0 <= packets
    ensures s == Frames(packets) ==> Unframe(s) == (packets, [])
  {
    var rest := Frames(packets)[|s|..];
    assert s + rest == Frames(packets) == Frames(packets) + [];
    UnframeConcat(s, rest);
    FramesRoundTrip(packets, []);
    assert packets + [] == packets;
  }

  class AsyncTcpSocket {
    const inbuf: array<Byte>
    const outbuf: array<Byte>
    var inpos: nat
    var outpos: nat

    /** The packets signalled so far. */
    var delivered: seq<Bytes>

    /** Everything the socket has taken from us, and given to us. */
    ghost var sent: Bytes
    ghost var received: Bytes
    /** The packets that were not dropped. */
    ghost var accepted: seq<Bytes>

    ghost predicate ValidOut()
      reads this, outbuf
    {
      && outbuf.Length == BUFFER_SIZE && outpos <= BUFFER_SIZE
      && (forall i :: 0 <= i < |accepted| ==> |accepted[i]| <= 65535)
      && sent + outbuf[..outpos] == Frames(accepted)
    }

    ghost predicate ValidIn()
      reads this, inbuf
    {
      && inbuf.Length == BUFFER_SIZE && inpos < BUFFER_SIZE
      && Unframe(received) == (delivered, inbuf[..inpos])
    }

    constructor ()
      ensures ValidOut() && ValidIn() && sent == [] && received == [] && accepted == []
      ensures fresh(inbuf) && fresh(outbuf) && inbuf != outbuf
    {
      inbuf := new Byte[BUFFER_SIZE](_ => 0);
      outbuf := new Byte[BUFFER_SIZE](_ => 0);
      inpos, outpos, delivered := 0, 0, [];
      sent, received, accepted := [], [], [];
      new;
      assert outbuf[..0] == [] && inbuf[..0] == [];
    }

    method AppendToOutBuffer(data: Bytes)
      requires outbuf.Length == BUFFER_SIZE && outpos + |data| < BUFFER_SIZE
      modifies outbuf, this`outpos
      ensures outpos == old(outpos) + |data| && outbuf[..outpos] == old(outbuf[..outpos]) + data
    {
      Store(outbuf, outpos, data);
      outpos := outpos + |data|;
    }

    /** `memcpy` behind the first `at` bytes. */
    static method Store(buf: array<Byte>, at: nat, data: Bytes)
      requires at + |data| <= buf.Length
      modifies buf
      ensures buf[..at + |data|] == old(buf[..at]) + data
    {
      var i := 0;
      while i < |data|
        invariant i <= |data| && buf[..at] == old(buf[..at]) && buf[at..at + i] == data[..i]
      {
        buf[at + i] := data[i];
        i := i + 1;
      }
      assert buf[..at + i] == buf[..at] + buf[at..at + i];
    }

    /** Offers the buffer to the socket, which answers `res`: an error or a refusal,
        or the number of bytes it took.  An answer above what was offered counts as
        an error. */
    method FlushOutBuffer(res: int) returns (r: int)
      requires outpos <= outbuf.Length
      modifies outbuf, this`outpos, this`sent
      ensures r == if res > old(outpos) then -1 else res
      ensures outpos == old(outpos) - (if 0 < r then r else 0)
      ensures sent + outbuf[..outpos] == old(sent + outbuf[..outpos])
      ensures r <= 0 ==> sent == old(sent)
    {
      if res <= 0 {
        return res;
      }
      if res > outpos {
        return -1;
      }
      ghost var total := outbuf[..outpos];
      MoveToFront(outbuf, res, outpos);
      outpos := outpos - res;
      sent := sent + total[..res];
      assert old(sent) + total == old(sent) + total[..res] + total[res..];
      return res;
    }

    /** Sends a packet, or drops it: silently while an earlier one is still on its
        way, with the socket's answer when the socket takes nothing of it. A packet that
        passes the length check but is too long for its frame is `stopped` by the assertion
        in `AppendToOutBuffer`. */
    method Send(packet: Bytes, res: int) returns (stopped: bool, r: int)
      requires ValidOut()
      modifies outbuf, this`outpos, this`sent, this`accepted
      ensures stopped <==> 65535 < |packet| <= BUFFER_SIZE && old(outpos) == 0
      ensures if stopped then accepted == old(accepted) && sent == old(sent) else ValidOut()
      ensures |packet| > BUFFER_SIZE ==>
        r == -1 && accepted == old(accepted) && sent == old(sent) && outpos == old(outpos)
      ensures |packet| <= BUFFER_SIZE && old(outpos) > 0 ==>
        r == |packet| && accepted == old(accepted) && sent == old(sent) && outpos == old(outpos)
      ensures |packet| <= 65535 && old(outpos) == 0 ==>
        if 0 < res <= |Frame(packet)| then
          r == |packet| && accepted == old(accepted) + [packet] && outpos == |packet| + LENGTH_SIZE - res
        else r <= 0 && accepted == old(accepted) && sent == old(sent) && outpos == 0
    {
      stopped := false;
      if |packet| > BUFFER_SIZE {
        return stopped, -1;
      }
      if outpos > 0 {
        return stopped, |packet|;
      }
      ghost var before := sent;
      assert before == Frames(accepted) by {
        assert outbuf[..0] == [];
        assert before + [] == before;
      }
      AppendToOutBuffer(PutLength(|packet|));
      if outpos + |packet| >= BUFFER_SIZE {
        return true, 0;
      }
      AppendToOutBuffer(packet);
      assert outbuf[..outpos] == Frame(packet);
      r := FlushOutBuffer(res);
      if r <= 0 {
        outpos := 0;
        assert sent + outbuf[..0] == sent;
        return stopped, r;
      }
      accepted := accepted + [packet];
      assert accepted[..|accepted| - 1] == old(accepted);
      return stopped, |packet|;
    }

    /** The socket is writable again; true when the next packet will not be dropped. */
    method OnWriteEvent(res: int) returns (readyToSend: bool)
      requires ValidOut()
      modifies outbuf, this`outpos, this`sent
      ensures ValidOut() && (readyToSend <==> sent == Frames(accepted)) && accepted == old(accepted)
      // what the socket takes of it has gone
      ensures outpos == old(outpos) - if 0 < res <= old(outpos) then res else 0
    {
      if outpos > 0 {
        var r := FlushOutBuffer(res);
      }
      assert outpos == 0 ==> sent + outbuf[..outpos] == sent;
      assert outpos > 0 ==> |sent + outbuf[..outpos]| > |sent|;
      return outpos == 0;
    }

    /** Signals the packet at the front of the input and moves the rest up. */
    method TakePacket(length: nat)
      requires inpos <= inbuf.Length && LENGTH_SIZE + length <= inpos
      requires GetLength(inbuf[..inpos]) == length
      modifies inbuf, this`inpos, this`delivered
      ensures inpos == old(inpos) - LENGTH_SIZE - length
      ensures delivered + Unframe(inbuf[..inpos]).0 == old(delivered + Unframe(inbuf[..inpos]).0)
      ensures Unframe(inbuf[..inpos]).1 == old(Unframe(inbuf[..inpos]).1)
    {
      ghost var now := inbuf[..inpos];
      var end := LENGTH_SIZE + length;
      var packet := inbuf[LENGTH_SIZE..end];
      SubSlice(inbuf, 0, inpos, LENGTH_SIZE, end);
      SubSlice(inbuf, 0, inpos, end, inpos);
      delivered := delivered + [packet];
      MoveToFront(inbuf, end, inpos);
      inpos := inpos - end;
      assert Unframe(now) == ([packet] + Unframe(now[end..]).0, Unframe(now[end..]).1);
      assert old(delivered) + ([packet] + Unframe(now[end..]).0) == delivered + Unframe(now[end..]).0;
    }

    /** Signals every whole packet at the front of the input. */
    method ProcessInput()
      requires inpos <= inbuf.Length
      modifies inbuf, this`inpos, this`delivered
      ensures inpos <= old(inpos)
      ensures delivered == old(delivered) + Unframe(old(inbuf[..inpos])).0
      ensures inbuf[..inpos] == Unframe(old(inbuf[..inpos])).1
    {
      while true
        invariant inpos <= old(inpos)
        invariant delivered + Unframe(inbuf[..inpos]).0 == old(delivered + Unframe(inbuf[..inpos]).0)
        invariant Unframe(inbuf[..inpos]).1 == old(Unframe(inbuf[..inpos]).1)
        decreases inpos
      {
        if inpos < LENGTH_SIZE {
          break;
        }
        var length := GetLength(inbuf[..LENGTH_SIZE]);
        assert inbuf[..inpos][..LENGTH_SIZE] == inbuf[..LENGTH_SIZE];
        LengthInFront(inbuf[..inpos], inbuf[..LENGTH_SIZE]);
        if inpos < LENGTH_SIZE + length {
          break;
        }
        TakePacket(length);
      }
      assert delivered + [] == delivered;
    }

    /** Takes what the socket delivered.  The room in the buffer is never used up: what
        is left over is less than one frame. */
    method OnReadEvent(data: Bytes)
      requires ValidIn() && |data| <= BUFFER_SIZE - inpos
      modifies inbuf, this`inpos, this`delivered, this`received
      ensures ValidIn() && received == old(received) + data
    {
      Store(inbuf, inpos, data);
      inpos := inpos + |data|;
      received := received + data;
      UnframeConcat(old(received), data);
      ProcessInput();
      assert inpos < BUFFER_SIZE by {
        assert !HasFrame(inbuf[..inpos]);
      }
      if inpos >= BUFFER_SIZE {
        assert false;
      }
    }
  }

  /** End to end: a receiver fed with part of a sender's stream, in any pieces, has
      signalled a prefix of the packets that were not dropped; fed with the frames of
      all of them, it has signalled exactly those, and keeps nothing back. */
  lemma EndToEnd(s: AsyncTcpSocket, r: AsyncTcpSocket)
    requires s.ValidOut() && r.ValidIn() && r.received <= s.sent
    ensures r.delivered <= s.accepted
    ensures r.received == s.sent && s.outpos == 0 ==> r.delivered == s.accepted && r.inpos == 0
  {
    assert r.received <= Frames(s.accepted);
    PrefixDelivered(s.accepted, r.received);
    if r.received == s.sent && s.outpos == 0 {
      assert s.sent + s.outbuf[..s.outpos] == s.sent;
    }
  }
}
