/**
 * The bench tool's link (tools/zerotx-bench/ipc_client.go), which reads whole
 * delimiter-terminated packets with no length limit, compared with the two bounded,
 * byte-at-a-time receivers on every byte stream.
 */
module IpcClient {
  import opened Bytes
  import opened Cobs
  import opened Ipc

  /** The packets a stream completes, when `acc` has already been read of the first. */
  function Packets(acc: seq<byte>, s: seq<byte>): seq<seq<byte>>
    decreases |s|
  {
    if s == [] then []
    else if s[0] == 0 then [acc] + Packets([], s[1..])
    else Packets(acc + [s[0]], s[1..])
  }

  /** What one packet means to a receiver without limits. */
  function Accept(p: seq<byte>): Option<Frame> {
    match Decode(p)
    case None => None
    case Some(d) => Parse(d)
  }

  function AcceptAll(ps: seq<seq<byte>>): seq<Frame> {
    if ps == [] then [] else OptSeq(Accept(ps[0])) + AcceptAll(ps[1..])
  }

  /** The frames in `fs` that the firmware can hold. */
  function Short(fs: seq<Frame>): seq<Frame> {
    if fs == [] then [] else (if Sendable(fs[0]) then [fs[0]] else []) + Short(fs[1..])
  }

  /** One ReadFrame call: the frame, or None at the end of the stream, and the bytes left. */
  function ReadSpec(acc: seq<byte>, s: seq<byte>): (Option<Frame>, seq<byte>)
    decreases |s|
  {
    if s == [] then (None, [])
    else if s[0] != 0 then ReadSpec(acc + [s[0]], s[1..])
    else if Accept(acc).Some? then (Accept(acc), s[1..])
    else ReadSpec([], s[1..])
  }

  lemma {:induction false} ReadSpecShrinks(acc: seq<byte>, s: seq<byte>)
    ensures s == [] || |ReadSpec(acc, s).1| < |s|
    decreases |s|
  {
    if s != [] {
      if s[0] != 0 {
        ReadSpecShrinks(acc + [s[0]], s[1..]);
      } else {
        ReadSpecShrinks([], s[1..]);
      }
    }
  }

  /** Everything that repeated ReadFrame calls return before the stream ends. */
  function ReadAll(s: seq<byte>): seq<Frame>
    decreases |s|
  {
    ReadSpecShrinks([], s);
    var (frame, rest) := ReadSpec([], s);
    if frame.None? then [] else [frame.value] + ReadAll(rest)
  }

  /** The serial port's receive side as the bufio reader sees it, and its transmit side. */
  class Client {
    var incoming: seq<byte>
    var outgoing: seq<byte>
    var sn: byte

    constructor (incoming: seq<byte>)
      ensures this.incoming == incoming && outgoing == [] && sn == 0
    {
      this.incoming := incoming;
      outgoing := [];
      sn := 0;
    }

    /** Send: the sequence number advances only when the frame could be built. */
    method Send(kind: byte, payload: seq<byte>) returns (ok: bool)
      modifies this`outgoing, this`sn
      ensures ok <==> |payload| <= 256
      ensures ok ==> outgoing == old(outgoing) + Wire(Frame(kind, old(sn), payload)) && sn == Inc8(old(sn))
      ensures !ok ==> outgoing == old(outgoing) && sn == old(sn)
    {
      var frame := GoBuild(kind, sn, payload);
      if frame.None? {
        return false;
      }
      sn := Inc8(sn);
      outgoing := outgoing + frame.value;
      return true;
    }

    /** br.ReadBytes(0x00): up to and including the delimiter; None when the stream ends first. */
    method ReadBytes() returns (raw: Option<seq<byte>>)
      modifies this`incoming
      ensures raw.None? ==> 0 !in old(incoming) && incoming == []
      ensures raw.Some? ==> exists n :: 0 <= n < |old(incoming)| && old(incoming)[n] == 0 &&
                              0 !in old(incoming)[..n] &&
                              raw.value == old(incoming)[..n + 1] && incoming == old(incoming)[n + 1..]
    {
      var n := 0;
      while n < |incoming| && incoming[n] != 0
        invariant n <= |incoming| && 0 !in incoming[..n]
      {
        n := n + 1;
      }
      if n == |incoming| {
        assert incoming[..n] == incoming;
        incoming := [];
        return None;
      }
      raw := Some(incoming[..n + 1]);
      incoming := incoming[n + 1..];
    }

    /** ReadFrame: malformed packets are skipped. */
    method ReadFrame() returns (frame: Option<Frame>)
      modifies this`incoming
      ensures (frame, incoming) == ReadSpec([], old(incoming))
    {
      while true
        invariant ReadSpec([], incoming) == ReadSpec([], old(incoming))
        decreases |incoming|
      {
        ghost var before := incoming;
        var raw := ReadBytes();
        if raw.None? {
          ReadSpecNoZero([], before);
          return None;
        }
        var p := raw.value[..|raw.value| - 1];
        assert p == before[..|p|] && before[|p|] == 0 && incoming == before[|p| + 1..];
        ReadSpecPacket([], before, |p|);
        assert [] + p == p;
        if |raw.value| <= 1 {
          continue;
        }
        var decoded := GoDecode(p);
        if decoded.None? {
          continue;
        }
        frame := GoParse(decoded.value);
        if frame.None? {
          continue;
        }
        return;
      }
    }
  }

  lemma {:induction false} ReadSpecNoZero(acc: seq<byte>, s: seq<byte>)
    requires 0 !in s
    ensures ReadSpec(acc, s) == (None, [])
    decreases |s|
  {
    if s != [] {
      assert s[0] in s;
      ReadSpecNoZero(acc + [s[0]], s[1..]);
    }
  }

  lemma {:induction false} ReadSpecPacket(acc: seq<byte>, s: seq<byte>, n: nat)
    requires n < |s| && s[n] == 0 && 0 !in s[..n]
    ensures ReadSpec(acc, s) ==
            if Accept(acc + s[..n]).Some? then (Accept(acc + s[..n]), s[n + 1..])
            else ReadSpec([], s[n + 1..])
    decreases |s|
  {
    if n == 0 {
      assert acc + s[..0] == acc;
    } else {
      assert s[0] in s[..n];
      assert s[1..][..n - 1] == s[..n][1..];
      ReadSpecPacket(acc + [s[0]], s[1..], n - 1);
      assert acc + [s[0]] + s[1..][..n - 1] == acc + s[..n];
      assert s[1..][n..] == s[n + 1..];
    }
  }

  /** Reading frame by frame loses and invents nothing. */
  lemma {:induction false} ReadAllIsAcceptAll(acc: seq<byte>, s: seq<byte>)
    ensures var (frame, rest) := ReadSpec(acc, s);
            AcceptAll(Packets(acc, s)) == if frame.None? then [] else [frame.value] + AcceptAll(Packets([], rest))
    decreases |s|
  {
    if s != [] {
      if s[0] != 0 {
        ReadAllIsAcceptAll(acc + [s[0]], s[1..]);
      } else {
        assert Packets(acc, s)[1..] == Packets([], s[1..]);
        ReadAllIsAcceptAll([], s[1..]);
      }
    }
  }

  lemma {:induction false} ReadAllAccepts(s: seq<byte>)
    ensures ReadAll(s) == AcceptAll(Packets([], s))
    decreases |s|
  {
    ReadAllIsAcceptAll([], s);
    ReadSpecShrinks([], s);
    var (frame, rest) := ReadSpec([], s);
    if frame.Some? {
      ReadAllAccepts(rest);
    }
  }

  // ----- the bounded receivers on the same stream ---------------------------------

  /** The receiver's buffer after the bytes `acc` of a packet: full and flagged when they were too many. */
  function Buffered(acc: seq<byte>): RxState {
    if |acc| <= MAX_FRAME_COBS then RxState(acc, false) else RxState(acc[..MAX_FRAME_COBS], true)
  }

  /** What a receiver delivers for one complete packet. */
  function Received(side: Side, p: seq<byte>): Option<Frame> {
    if p == [] || |p| > MAX_FRAME_COBS then None else Deliver(side, p)
  }

  function ReceivedAll(side: Side, ps: seq<seq<byte>>): seq<Frame> {
    if ps == [] then [] else OptSeq(Received(side, ps[0])) + ReceivedAll(side, ps[1..])
  }

  /** A receiver's output depends on the packets alone. */
  lemma {:induction false} ReceiverReadsPackets(side: Side, acc: seq<byte>, s: seq<byte>)
    ensures FeedFrames(side, Buffered(acc), s) == ReceivedAll(side, Packets(acc, s))
    decreases |s|
  {
    if s != [] {
      if s[0] == 0 {
        ReceiverReadsPackets(side, [], s[1..]);
        assert Packets(acc, s)[1..] == Packets([], s[1..]);
        assert FeedFrame(side, Buffered(acc), s[0]) == Received(side, acc);
      } else {
        ReceiverReadsPackets(side, acc + [s[0]], s[1..]);
        NextBuffered(acc, s[0]);
      }
    }
  }

  lemma NextBuffered(acc: seq<byte>, b: byte)
    requires b != 0
    ensures FeedState(Buffered(acc), b) == Buffered(acc + [b])
  {
    if |acc| >= MAX_FRAME_COBS {
      assert (acc + [b])[..MAX_FRAME_COBS] == acc[..MAX_FRAME_COBS];
    }
  }

  /** The firmware drops exactly the packets whose payload exceeds its 256 bytes. */
  lemma FirmwareAccepts(p: seq<byte>)
    ensures Received(Firmware, p) ==
            if Accept(p).Some? && Sendable(Accept(p).value) then Accept(p) else None
  {
    if Decode(p).Some? && Parse(Decode(p).value).Some? {
      var d, f := Decode(p).value, Accept(p).value;
      ParseInvertsRaw(d, f);
      DecodedFromLength(p);
    }
  }

  /** The daemon drops exactly the packets that overflow its 265-byte buffer. */
  lemma DaemonAccepts(p: seq<byte>)
    ensures Received(Daemon, p) == if |p| <= 265 then Accept(p) else None
  {
  }

  /**
   * The bounded firmware parser and the unbounded packet reader agree on every byte stream,
   * garbage included, up to frames no conforming sender builds.
   */
  lemma {:induction false} FirmwareAgrees(ps: seq<seq<byte>>)
    ensures ReceivedAll(Firmware, ps) == Short(AcceptAll(ps))
  {
    if ps != [] {
      FirmwareAgrees(ps[1..]);
      FirmwareAccepts(ps[0]);
      ShortAppend(OptSeq(Accept(ps[0])), AcceptAll(ps[1..]));
    }
  }

  lemma ShortAppend(a: seq<Frame>, b: seq<Frame>)
    requires |a| <= 1
    ensures Short(a + b) == Short(a) + Short(b)
  {
    if a == [] {
      assert a + b == b;
    } else {
      assert a[1..] == [] && (a + b)[1..] == b;
    }
  }

  lemma FirmwareAndClientAgree(s: seq<byte>)
    ensures FeedFrames(Firmware, IDLE, s) == Short(ReadAll(s))
  {
    ReceiverReadsPackets(Firmware, [], s);
    FirmwareAgrees(Packets([], s));
    ReadAllAccepts(s);
  }

  /** Whatever the firmware accepts, the daemon accepts too, byte for byte the same. */
  lemma FirmwareImpliesDaemon(p: seq<byte>)
    requires Received(Firmware, p).Some?
    ensures Received(Daemon, p) == Received(Firmware, p)
  {
    FirmwareAccepts(p);
  }

  lemma {:induction false} PacketsAppend(acc: seq<byte>, s: seq<byte>, t: seq<byte>)
    ensures Packets(acc, s + [0] + t) == Packets(acc, s + [0]) + Packets([], t)
    decreases |s|
  {
    if s == [] {
      var none: seq<byte> := [];
      assert (s + [0] + t)[1..] == t && (s + [0])[1..] == none;
      assert Packets([], none) == [];
    } else {
      assert (s + [0] + t)[1..] == s[1..] + [0] + t && (s + [0])[1..] == s[1..] + [0];
      PacketsAppend(if s[0] == 0 then [] else acc + [s[0]], s[1..], t);
    }
  }

  lemma {:induction false} ZeroFreePacket(acc: seq<byte>, e: seq<byte>)
    requires 0 !in e
    ensures Packets(acc, e + [0]) == [acc + e]
    decreases |e|
  {
    if e == [] {
      var none: seq<byte> := [];
      assert (e + [0])[1..] == none && Packets([], none) == [];
      assert acc + e == acc;
    } else {
      assert e[0] in e;
      assert (e + [0])[1..] == e[1..] + [0];
      ZeroFreePacket(acc + [e[0]], e[1..]);
      assert acc + [e[0]] + e[1..] == acc + e;
    }
  }

  lemma {:induction false} AcceptAllAppend(ps: seq<seq<byte>>, qs: seq<seq<byte>>)
    ensures AcceptAll(ps + qs) == AcceptAll(ps) + AcceptAll(qs)
  {
    if ps == [] {
      assert ps + qs == qs;
    } else {
      assert (ps + qs)[1..] == ps[1..] + qs;
      AcceptAllAppend(ps[1..], qs);
    }
  }

  lemma {:induction false} AcceptSent(fs: seq<Frame>)
    requires forall f :: f in fs ==> Sendable(f)
    ensures AcceptAll(Packets([], WireAll(fs))) == fs
  {
    if fs != [] {
      assert Sendable(fs[0]);
      var e := Encode(Raw(fs[0]));
      WireShape(fs[0]);
      PacketsAppend([], e, WireAll(fs[1..]));
      ZeroFreePacket([], e);
      assert [] + e == e;
      DeliverSent(Daemon, fs[0]);
      AcceptSent(fs[1..]);
      assert Packets([], WireAll(fs))[1..] == Packets([], WireAll(fs[1..]));
    }
  }

  /** The client, too, reads back exactly what a conforming sender wrote after any garbage. */
  lemma ClientReadsSent(garbage: seq<byte>, fs: seq<Frame>)
    requires forall f :: f in fs ==> Sendable(f)
    ensures ReadAll(garbage + [0] + WireAll(fs)) == ReadAll(garbage + [0]) + fs
  {
    ReadAllAccepts(garbage + [0] + WireAll(fs));
    ReadAllAccepts(garbage + [0]);
    PacketsAppend([], garbage, WireAll(fs));
    AcceptAllAppend(Packets([], garbage + [0]), Packets([], WireAll(fs)));
    AcceptSent(fs);
  }
}
