/**
 * The COBS + CRC-16 framed link between the Pi and the RP2040 (firmware/crsf/src/ipc.c),
 * with the daemon's parser (pi/daemon/internal/ipc/parser.go) as its twin.
 */
module Ipc {
  import opened Bytes
  import opened Crc
  import opened Cobs

  const MAX_PAYLOAD := 256
  const MAX_FRAME_RAW := 262
  const MAX_FRAME_COBS := 265

  /** `sn` is the sequence-number byte. */
  datatype Frame = Frame(kind: byte, sn: byte, payload: seq<byte>)

  // ----- one frame ----------------------------------------------------------------

  /** Type, sequence number, little-endian length and payload: what the CRC covers. */
  function Body(f: Frame): seq<byte>
    requires |f.payload| < 0x1_0000
  {
    [f.kind, f.sn, Lo(|f.payload|), Hi(|f.payload|)] + f.payload
  }

  function Raw(f: Frame): seq<byte>
    requires |f.payload| < 0x1_0000
  {
    Join(f, Crc16(Body(f)))
  }

  /** A body with a checksum behind it, low byte first. */
  function Join(f: Frame, crc: word): seq<byte>
    requires |f.payload| < 0x1_0000
  {
    Body(f) + [Lo(crc), Hi(crc)]
  }

  /** The bytes of one frame on the wire, delimiter included. */
  function Wire(f: Frame): seq<byte>
    requires |f.payload| < 0x1_0000
  {
    Encode(Raw(f)) + [0]
  }

  /** The frame in `d` and the checksum stored behind it; None when the lengths disagree. */
  function Split(d: seq<byte>): Option<(Frame, word)> {
    if |d| < 6 then None
    else
      var len: int := Word(d[2], d[3]);
      if |d| != 4 + len + 2 then None
      else Some((Frame(d[0], d[1], d[4..4 + len]), Word(d[4 + len], d[4 + len + 1])))
  }

  /** The checks between COBS decoding and delivery. */
  function Parse(d: seq<byte>): Option<Frame> {
    match Split(d)
    case None => None
    case Some((f, crc)) => if crc == Crc16(d[..|d| - 2]) then Some(f) else None
  }

  lemma SplitInvertsJoin(d: seq<byte>, f: Frame, crc: word)
    ensures Split(d) == Some((f, crc)) <==> |f.payload| < 0x1_0000 && d == Join(f, crc)
    ensures Split(d) == Some((f, crc)) ==> d[..|d| - 2] == Body(f)
  {
    if Split(d) == Some((f, crc)) {
      var len: int := Word(d[2], d[3]);
      WordOfLoHi(d[2], d[3]);
      WordOfLoHi(d[4 + len], d[4 + len + 1]);
      assert d[..4 + len] == Body(f);
      assert d == d[..4 + len] + [d[4 + len], d[4 + len + 1]];
    }
    if |f.payload| < 0x1_0000 && d == Join(f, crc) {
      assert d[4..4 + |f.payload|] == f.payload;
      LoHiOfWord(|f.payload|);
      LoHiOfWord(crc);
    }
  }

  /** Parsing undoes building, and nothing but a built frame parses. */
  lemma ParseInvertsRaw(d: seq<byte>, f: Frame)
    ensures Parse(d) == Some(f) <==> |f.payload| < 0x1_0000 && d == Raw(f)
  {
    if Parse(d) == Some(f) {
      SplitInvertsJoin(d, f, Split(d).value.1);
    }
    if |f.payload| < 0x1_0000 && d == Raw(f) {
      SplitInvertsJoin(d, f, Crc16(Body(f)));
    }
  }

  // ----- the receiving parser -------------------------------------------------------

  /** Both receivers buffer MAX_FRAME_COBS bytes; they differ in the buffer they decode into. */
  datatype Side = Firmware | Daemon

  datatype RxState = RxState(buf: seq<byte>, overrun: bool)

  const IDLE := RxState([], false)

  function Unstuff(side: Side, buf: seq<byte>): Option<seq<byte>> {
    match side
    case Firmware => DecodeBounded(buf, MAX_FRAME_RAW)
    case Daemon => Decode(buf)
  }

  function Deliver(side: Side, buf: seq<byte>): Option<Frame> {
    match Unstuff(side, buf)
    case None => None
    case Some(d) => Parse(d)
  }

  function FeedState(st: RxState, b: byte): RxState {
    if b == 0 then IDLE
    else if |st.buf| < MAX_FRAME_COBS then st.(buf := st.buf + [b])
    else st.(overrun := true)
  }

  function FeedFrame(side: Side, st: RxState, b: byte): Option<Frame> {
    if b != 0 || st.overrun || st.buf == [] then None else Deliver(side, st.buf)
  }

  /** The daemon reports an error for a packet it cannot decode or parse; one that overran is dropped in silence. */
  predicate Rejects(st: RxState, b: byte) {
    b == 0 && !st.overrun && st.buf != [] && Deliver(Daemon, st.buf).None?
  }

  function FeedStates(st: RxState, s: seq<byte>): RxState
    decreases |s|
  {
    if s == [] then st else FeedStates(FeedState(st, s[0]), s[1..])
  }

  /** Some packet completed while `s` is fed is reported. */
  predicate AnyRejected(st: RxState, s: seq<byte>)
    decreases |s|
  {
    s != [] && (Rejects(st, s[0]) || AnyRejected(FeedState(st, s[0]), s[1..]))
  }

  lemma {:induction false} RejectedSnoc(st: RxState, s: seq<byte>, b: byte)
    ensures AnyRejected(st, s + [b]) <==> AnyRejected(st, s) || Rejects(FeedStates(st, s), b)
    decreases |s|
  {
    if s == [] {
      assert (s + [b])[1..] == [];
    } else {
      assert (s + [b])[1..] == s[1..] + [b];
      RejectedSnoc(FeedState(st, s[0]), s[1..], b);
    }
  }

  /** The frames delivered while `s` is fed byte by byte. */
  function FeedFrames(side: Side, st: RxState, s: seq<byte>): seq<Frame>
    decreases |s|
  {
    if s == [] then [] else OptSeq(FeedFrame(side, st, s[0])) + FeedFrames(side, FeedState(st, s[0]), s[1..])
  }

  lemma {:induction false} FeedAppend(side: Side, st: RxState, s: seq<byte>, t: seq<byte>)
    ensures FeedStates(st, s + t) == FeedStates(FeedStates(st, s), t)
    ensures FeedFrames(side, st, s + t) ==
            FeedFrames(side, st, s) + FeedFrames(side, FeedStates(st, s), t)
    decreases |s|
  {
    if s == [] {
      assert s + t == t;
    } else {
      assert (s + t)[1..] == s[1..] + t;
      FeedAppend(side, FeedState(st, s[0]), s[1..], t);
    }
  }

  lemma FeedSnoc(side: Side, st: RxState, s: seq<byte>, b: byte)
    ensures FeedStates(st, s + [b]) == FeedState(FeedStates(st, s), b)
    ensures FeedFrames(side, st, s + [b]) ==
            FeedFrames(side, st, s) + OptSeq(FeedFrame(side, FeedStates(st, s), b))
  {
    var mid, none: seq<byte> := FeedStates(st, s), [b][1..];
    FeedAppend(side, st, s, [b]);
    assert none == [];
    assert FeedStates(FeedState(mid, b), none) == FeedState(mid, b);
    assert FeedFrames(side, FeedState(mid, b), none) == [];
  }

  /** One more byte of a batch. */
  lemma FeedNext(side: Side, st: RxState, s: seq<byte>, i: nat)
    requires i < |s|
    ensures var st', f := FeedStates(st, s[..i]), FeedFrame(side, FeedStates(st, s[..i]), s[i]);
            && FeedStates(st, s[..i + 1]) == FeedState(st', s[i])
            && FeedFrames(side, st, s[..i + 1]) ==
               if f.Some? then FeedFrames(side, st, s[..i]) + [f.value] else FeedFrames(side, st, s[..i])
  {
    assert s[..i + 1] == s[..i] + [s[i]];
    FeedSnoc(side, st, s[..i], s[i]);
  }

  /** The firmware's receiver: static buffers, one byte a call. */
  class Receiver {
    const rxCobs: array<byte>
    const rxDecoded: array<byte>
    var rxCobsLen: nat
    var rxOverrun: bool

    ghost predicate Valid()
      reads this, rxCobs, rxDecoded
    {
      rxCobs != rxDecoded && rxCobs.Length == MAX_FRAME_COBS && rxDecoded.Length == MAX_FRAME_RAW &&
      rxCobsLen <= rxCobs.Length
    }

    ghost function State(): RxState
      requires Valid()
      reads this, rxCobs, rxDecoded
    {
      RxState(rxCobs[..rxCobsLen], rxOverrun)
    }

    constructor ()
      ensures Valid() && State() == IDLE && fresh(rxCobs) && fresh(rxDecoded)
    {
      rxCobs := new byte[MAX_FRAME_COBS];
      rxDecoded := new byte[MAX_FRAME_RAW];
      rxCobsLen := 0;
      rxOverrun := false;
    }

    /** ipc_feed */
    method Feed(b: byte) returns (frame: Option<Frame>)
      requires Valid()
      modifies this, rxCobs, rxDecoded
      ensures Valid()
      ensures State() == FeedState(old(State()), b)
      ensures frame == FeedFrame(Firmware, old(State()), b)
    {
      if b == 0 {
        if rxOverrun || rxCobsLen == 0 {
          rxCobsLen := 0;
          rxOverrun := false;
          return None;
        }
        var decLen := CobsDecode(rxCobs[..rxCobsLen], rxDecoded);
        rxCobsLen := 0;
        if decLen < 6 {
          return None;
        }
        frame := ParseDecoded(rxDecoded, decLen);
        return;
      }
      if rxCobsLen < rxCobs.Length {
        rxCobs[rxCobsLen] := b;
        rxCobsLen := rxCobsLen + 1;
        assert rxCobs[..rxCobsLen] == old(rxCobs[..rxCobsLen]) + [b];
      } else {
        rxOverrun := true;
      }
      return None;
    }

    /** The length and CRC checks on a decoded frame. */
    static method ParseDecoded(dec: array<byte>, decLen: nat) returns (frame: Option<Frame>)
      requires 6 <= decLen <= dec.Length
      ensures frame == Parse(dec[..decLen])
    {
      ghost var d := dec[..decLen];
      var payloadLen: int := Word(dec[2], dec[3]);
      if decLen != 4 + payloadLen + 2 {
        return None;
      }
      var gotCrc := Word(dec[4 + payloadLen], dec[4 + payloadLen + 1]);
      var calcCrc := ComputeCrc16(dec[..4 + payloadLen]);
      assert dec[..4 + payloadLen] == d[..4 + payloadLen];
      if gotCrc != calcCrc {
        return None;
      }
      assert dec[4..4 + payloadLen] == d[4..4 + payloadLen];
      return Some(Frame(dec[0], dec[1], dec[4..4 + payloadLen]));
    }
  }

  /** The daemon's receiver: a growing slice, one chunk a call. */
  class DaemonParser {
    var buf: seq<byte>
    var overflow: bool

    ghost function State(): RxState
      reads this
    {
      RxState(buf, overflow)
    }

    constructor ()
      ensures State() == IDLE
    {
      buf := [];
      overflow := false;
    }

    /** The body of Parser.Feed's loop. */
    method FeedByte(b: byte) returns (frame: Option<Frame>, bad: bool)
      modifies this
      ensures State() == FeedState(old(State()), b)
      ensures frame == FeedFrame(Daemon, old(State()), b)
      ensures bad == Rejects(old(State()), b)
    {
      if b == 0 {
        if overflow || |buf| == 0 {
          buf := [];
          overflow := false;
          return None, false;
        }
        var decoded := GoDecode(buf);
        buf := [];
        if decoded.None? {
          return None, true;
        }
        frame := GoParse(decoded.value);
        return frame, frame.None?;
      }
      if |buf| >= MAX_FRAME_COBS {
        overflow := true;
        return None, false;
      }
      buf := buf + [b];
      return None, false;
    }

    /** Parser.Feed; `failed` tells that the error it returns beside the frames is not nil. */
    method Feed(input: seq<byte>) returns (frames: seq<Frame>, failed: bool)
      modifies this
      ensures State() == FeedStates(old(State()), input)
      ensures frames == FeedFrames(Daemon, old(State()), input)
      ensures failed == AnyRejected(old(State()), input)
    {
      hide Parse, Decode;
      frames, failed := [], false;
      ghost var start := State();
      assert input[..0] == [];
      for i := 0 to |input|
        invariant State() == FeedStates(start, input[..i])
        invariant frames == FeedFrames(Daemon, start, input[..i])
        invariant failed == AnyRejected(start, input[..i])
      {
        FeedSnoc(Daemon, start, input[..i], input[i]);
        RejectedSnoc(start, input[..i], input[i]);
        assert input[..i + 1] == input[..i] + [input[i]];
        var frame, bad := FeedByte(input[i]);
        frames, failed := frames + OptSeq(frame), failed || bad;
      }
      assert input[..|input|] == input;
    }
  }

  /** ipcParseFrame / ParseFrame on the Go side; None for the three error returns. */
  method GoParse(decoded: seq<byte>) returns (r: Option<Frame>)
    ensures r == Parse(decoded)
  {
    if |decoded| < 6 {
      return None;
    }
    var plen: int := Word(decoded[2], decoded[3]);
    if |decoded| != 4 + plen + 2 {
      return None;
    }
    var gotCrc := Word(decoded[4 + plen], decoded[4 + plen + 1]);
    var wantCrc := ComputeCrc16(decoded[..4 + plen]);
    if gotCrc != wantCrc {
      return None;
    }
    return Some(Frame(decoded[0], decoded[1], decoded[4..4 + plen]));
  }

  // ----- sending --------------------------------------------------------------------

  /** A frame that fits the encoder's and the decoder's buffers. */
  predicate Sendable(f: Frame) {
    |f.payload| <= 256
  }

  function WireAll(fs: seq<Frame>): seq<byte>
    requires forall f :: f in fs ==> Sendable(f)
  {
    if fs == [] then []
    else
      assert fs[0] in fs && Sendable(fs[0]);
      Wire(fs[0]) + WireAll(fs[1..])
  }

  lemma {:induction false} WireAllSnoc(fs: seq<Frame>, f: Frame)
    requires Sendable(f) && forall g :: g in fs ==> Sendable(g)
    ensures forall g :: g in fs + [f] ==> Sendable(g)
    ensures WireAll(fs + [f]) == WireAll(fs) + Wire(f)
  {
    var none: seq<Frame> := [];
    if fs == none {
      assert fs + [f] == [f] && [f][1..] == none;
      assert WireAll(none) == [] && Wire(f) + [] == Wire(f);
    } else {
      assert Sendable(fs[0]);
      assert (fs + [f])[0] == fs[0] && (fs + [f])[1..] == fs[1..] + [f];
      WireAllSnoc(fs[1..], f);
      assert Wire(fs[0]) + (WireAll(fs[1..]) + Wire(f)) == Wire(fs[0]) + WireAll(fs[1..]) + Wire(f);
    }
  }

  lemma WireShape(f: Frame)
    requires Sendable(f)
    ensures 0 !in Encode(Raw(f)) && |Raw(f)| == |f.payload| + 6
    ensures 0 < |Encode(Raw(f))| < 265
    ensures |Wire(f)| <= |f.payload| + 8 + (|f.payload| + 6) / 254
  {
    EncodeShape(Raw(f));
  }

  /** The firmware's sender; `wire` is everything the writer callback has been given. */
  class Sender {
    const bound: bool
    var wire: seq<byte>
    ghost var sent: seq<Frame>

    /** The wire carries exactly the frames sent, back to back. */
    ghost predicate InSync()
      reads this
    {
      (forall f :: f in sent ==> Sendable(f)) && wire == WireAll(sent)
    }

    /** ipc_init: no writer, or one. */
    constructor (bound: bool)
      ensures this.bound == bound && sent == [] && wire == [] && InSync()
    {
      this.bound := bound;
      wire, sent := [], [];
    }

    /** ipc_send: 0, or -1 with nothing written. */
    method Send(kind: byte, sn: byte, payload: seq<byte>) returns (rc: int)
      modifies this`wire, this`sent
      ensures rc == 0 <==> bound && |payload| <= 256
      ensures rc == 0 || rc == -1
      ensures sent == old(sent) + if rc == 0 then [Frame(kind, sn, payload)] else []
      ensures rc != 0 ==> wire == old(wire)
      ensures old(InSync()) ==> InSync()
    {
      assert sent + [] == sent;
      if |payload| > MAX_PAYLOAD {
        return -1;
      }
      ghost var f := Frame(kind, sn, payload);
      WireShape(f);
      var raw := new byte[MAX_FRAME_RAW];
      var len := |payload|;
      FillBody(raw, kind, sn, payload);
      var crc := ComputeCrc16(raw[..4 + len]);
      raw[4 + len], raw[4 + len + 1] := Lo(crc), Hi(crc);
      assert raw[..4 + len] == Body(f);
      assert raw[..4 + len + 2] == Raw(f);
      var enc := new byte[MAX_FRAME_COBS];
      var encLen := CobsEncode(raw[..4 + len + 2], enc);
      if encLen < 0 || !bound {
        return -1;
      }
      Transmit(enc[..encLen]);
      if old(InSync()) {
        WireAllSnoc(sent, f);
      }
      sent := sent + [f];
      return 0;
    }

    /** The encoded frame and its delimiter through the injected writer. */
    method Transmit(enc: seq<byte>)
      modifies this`wire
      ensures wire == old(wire) + (enc + [0])
    {
      assert old(wire) + enc[..0] == old(wire);
      for i := 0 to |enc|
        invariant wire == old(wire) + enc[..i]
      {
        wire := wire + [enc[i]];
        assert old(wire) + enc[..i] + [enc[i]] == old(wire) + enc[..i + 1];
      }
      wire := wire + [0];
      assert old(wire) + enc[..|enc|] + [0] == old(wire) + (enc + [0]);
    }
  }

  /** Header bytes and memcpy of the payload. */
  method FillBody(raw: array<byte>, kind: byte, sn: byte, payload: seq<byte>)
    requires raw.Length == MAX_FRAME_RAW && |payload| <= MAX_PAYLOAD
    modifies raw
    ensures raw[..4 + |payload|] == Body(Frame(kind, sn, payload))
  {
    var len := |payload|;
    raw[0], raw[1], raw[2], raw[3] := kind, sn, Lo(len), Hi(len);
    for i := 0 to len
      invariant raw[0] == kind && raw[1] == sn && raw[2] == Lo(len) && raw[3] == Hi(len)
      invariant raw[4..4 + i] == payload[..i]
    {
      raw[4 + i] := payload[i];
    }
  }

  /** ipcBuildFrame / BuildFrame: None for the "payload too large" error. */
  method GoBuild(kind: byte, sn: byte, payload: seq<byte>) returns (r: Option<seq<byte>>)
    ensures r.Some? <==> |payload| <= 256
    ensures r.Some? ==> r.value == Wire(Frame(kind, sn, payload))
  {
    if |payload| > MAX_PAYLOAD {
      return None;
    }
    var inner := [kind, sn, Lo(|payload|), Hi(|payload|)] + payload;
    var crc := ComputeCrc16(inner);
    inner := inner + [Lo(crc), Hi(crc)];
    var encoded := GoEncode(inner);
    return Some(encoded + [0]);
  }

  // ----- the stream -------------------------------------------------------------------

  /** Zero-free bytes only pile up in the buffer. */
  lemma {:induction false} FeedZeroFree(side: Side, st: RxState, s: seq<byte>)
    requires 0 !in s && !st.overrun && |st.buf| + |s| <= MAX_FRAME_COBS
    ensures FeedStates(st, s) == RxState(st.buf + s, false)
    ensures FeedFrames(side, st, s) == []
    decreases |s|
  {
    hide Deliver;
    if s == [] {
      assert st.buf + s == st.buf;
    } else {
      assert s[0] in s;
      var st' := RxState(st.buf + [s[0]], false);
      assert FeedState(st, s[0]) == st' && FeedFrame(side, st, s[0]) == None;
      FeedZeroFree(side, st', s[1..]);
      assert st.buf + [s[0]] + s[1..] == st.buf + s;
    }
  }

  lemma FeedDelimiter(side: Side, st: RxState)
    ensures FeedStates(st, [0]) == IDLE
    ensures FeedFrames(side, st, [0]) == OptSeq(FeedFrame(side, st, 0))
  {
    var none: seq<byte> := [];
    FeedSnoc(side, st, none, 0);
    assert none + [0] == [0];
  }

  lemma DeliverSent(side: Side, f: Frame)
    requires Sendable(f)
    ensures Deliver(side, Encode(Raw(f))) == Some(f)
  {
    DecodeEncode(Raw(f));
    ParseInvertsRaw(Raw(f), f);
    WireShape(f);
  }

  /** One sent frame is delivered by its own delimiter. */
  lemma FeedWire(side: Side, f: Frame)
    requires Sendable(f)
    ensures FeedStates(IDLE, Wire(f)) == IDLE
    ensures FeedFrames(side, IDLE, Wire(f)) == [f]
  {
    var e := Encode(Raw(f));
    WireShape(f);
    FeedZeroFree(side, IDLE, e);
    assert IDLE.buf + e == e;
    FeedAppend(side, IDLE, e, [0]);
    FeedDelimiter(side, RxState(e, false));
    DeliverSent(side, f);
  }

  lemma {:induction false} FeedWireAll(side: Side, fs: seq<Frame>)
    requires forall f :: f in fs ==> Sendable(f)
    ensures FeedStates(IDLE, WireAll(fs)) == IDLE
    ensures FeedFrames(side, IDLE, WireAll(fs)) == fs
  {
    if fs != [] {
      FeedWire(side, fs[0]);
      FeedAppend(side, IDLE, Wire(fs[0]), WireAll(fs[1..]));
      FeedWireAll(side, fs[1..]);
    }
  }

  /**
   * Resynchronisation and delivery: from any parser state, after any garbage and one
   * delimiter, a stream of sent frames is delivered exactly, in order, and leaves the
   * parser empty.
   */
  lemma StreamDelivery(side: Side, st: RxState, garbage: seq<byte>, fs: seq<Frame>)
    requires forall f :: f in fs ==> Sendable(f)
    ensures FeedStates(st, garbage + [0] + WireAll(fs)) == IDLE
    ensures FeedFrames(side, st, garbage + [0] + WireAll(fs)) ==
            FeedFrames(side, st, garbage + [0]) + fs
  {
    FeedAppend(side, st, garbage, [0]);
    FeedDelimiter(side, FeedStates(st, garbage));
    FeedAppend(side, st, garbage + [0], WireAll(fs));
    FeedWireAll(side, fs);
  }
}
