/**
 * The Pi's end of the IPC link (pi/daemon/internal/ipc/link.go and protocol.go): what it sends and
 * when, behind the handshake gate, and which callback each received frame reaches. All callbacks
 * are taken to be set; tickers and the wait for an answer are operations that may come at any time.
 */
module PiLink {
  import opened Bytes
  import opened Ipc

  // ----- payloads ---------------------------------------------------------------------------

  /** Sixteen words, slot i at bytes 2i and 2i + 1, low byte first. */
  function IntentBytes(ch: seq<word>): seq<byte> {
    seq(2 * |ch|, k requires 0 <= k < 2 * |ch| => if k % 2 == 0 then ch[k / 2] % 256 else ch[k / 2] / 256)
  }

  /** The loop of SendChannelIntent over PutUint16. */
  method BuildIntent(ch: seq<word>) returns (payload: seq<byte>)
    requires |ch| == 16
    ensures payload == IntentBytes(ch)
  {
    var buf := new byte[32](_ => 0);
    for i := 0 to 16
      invariant forall k :: 0 <= k < 2 * i ==> buf[k] == IntentBytes(ch)[k]
    {
      buf[2 * i], buf[2 * i + 1] := ch[i] % 256, ch[i] / 256;
    }
    payload := buf[..];
  }

  datatype ArmConfig = ArmConfig(thrIdx: byte, armIdx: byte, thrThreshold: word, armDisarmValue: word)

  predicate InRange(c: ArmConfig) { c.thrIdx < 16 && c.armIdx < 16 }

  /** BuildArmConfigPayload */
  function ConfigBytes(c: ArmConfig): seq<byte> {
    [c.thrIdx, c.armIdx, c.thrThreshold % 256, c.thrThreshold / 256, c.armDisarmValue % 256, c.armDisarmValue / 256]
  }

  /** ParseArmConfigPayload; None for its errors. */
  function ParseConfig(p: seq<byte>): Option<ArmConfig> {
    if |p| < 6 then None
    else
      var c := ArmConfig(p[0], p[1], Word(p[2], p[3]), Word(p[4], p[5]));
      if InRange(c) then Some(c) else None
  }

  /** Parsing undoes building for every configuration with slots in range, and refuses all others. */
  lemma ConfigReadsBack(c: ArmConfig)
    ensures ParseConfig(ConfigBytes(c)) == if InRange(c) then Some(c) else None
  {
    LoHiOfWord(c.thrThreshold);
    LoHiOfWord(c.armDisarmValue);
  }

  /** buildHelloPayload: protocol version, three reserved zeros, and as much of the version string as fits. */
  function HelloBytes(proto: byte, version: seq<byte>): seq<byte> {
    [proto, 0, 0, 0] + version[..Min(|version|, MAX_PAYLOAD - 4)]
  }

  /** parseHelloPayload: short payloads count as version 0. */
  function ParseHello(p: seq<byte>): (byte, seq<byte>) {
    if |p| < 4 then (0, []) else (p[0], p[4..])
  }

  lemma HelloReadsBack(proto: byte, version: seq<byte>)
    ensures |HelloBytes(proto, version)| <= 256
    ensures ParseHello(HelloBytes(proto, version)) == (proto, version[..Min(|version|, 252)])
  {
    var v := version[..Min(|version|, MAX_PAYLOAD - 4)];
    assert ([proto, 0, 0, 0] + v)[4..] == v;
  }

  // ----- the link's state ---------------------------------------------------------------------

  /** The callbacks, with their arguments. */
  datatype Call =
    | OnLog(text: seq<byte>)
    | OnTelemetry(payload: seq<byte>)
    | OnInputEvent(id: byte, state: byte)
    | OnHeartbeatRx(sn: byte)
    | OnFrame(f: Frame)

  datatype Pi = Pi(closed: bool, txSeq: byte, hsOk: bool, hsLegacy: bool, remote: seq<byte>,
                   sent: seq<Frame>, calls: seq<Call>)

  function Opened(): Pi { Pi(false, 0, false, false, [], [], []) }

  predicate GateOpen(p: Pi) { p.hsOk || p.hsLegacy }

  /** sendFrame: the number is used up before the length is looked at. */
  function Post(p: Pi, kind: byte, payload: seq<byte>): Pi {
    if p.closed then p
    else if |payload| > MAX_PAYLOAD then p.(txSeq := Inc8(p.txSeq))
    else p.(txSeq := Inc8(p.txSeq), sent := p.sent + [Frame(kind, p.txSeq, payload)])
  }

  /** recordHandshakeResult: the first match opens the gate for good. */
  function Recorded(p: Pi, proto: byte, version: seq<byte>): Pi {
    if p.hsOk then p else p.(remote := version, hsOk := proto == 4)
  }

  function Called(p: Pi, c: Call): Pi { p.(calls := p.calls + [c]) }

  /** dispatch */
  function Dispatched(p: Pi, version: seq<byte>, f: Frame): Pi {
    if f.kind == 0x14 then Called(p, OnLog(f.payload))
    else if f.kind == 0x10 then
      Post(Recorded(p, ParseHello(f.payload).0, ParseHello(f.payload).1), 0x11, HelloBytes(4, version))
    else if f.kind == 0x11 then Recorded(p, ParseHello(f.payload).0, ParseHello(f.payload).1)
    else if f.kind == 0x12 then Called(p, OnTelemetry(f.payload))
    else if f.kind == 0x05 then
      if |f.payload| >= 2 then Called(p, OnInputEvent(f.payload[0], f.payload[1])) else p
    else if f.kind == 0x03 then Called(p, OnHeartbeatRx(if |f.payload| >= 1 then f.payload[0] else 0))
    else Called(p, OnFrame(f))
  }

  /** What can happen to the link. */
  datatype Op =
    | Beat
    | Intent(ch: seq<word>)
    | Config(c: ArmConfig)
    | SayHello
    | GiveUp
    | Receive(f: Frame)
    | Close

  predicate OpOk(op: Op) { op.Intent? ==> |op.ch| == 16 }

  function Do(p: Pi, version: seq<byte>, op: Op): Pi {
    match op
    case Beat => Post(p, 0x03, [0])
    case Intent(ch) => if GateOpen(p) then Post(p, 0x01, IntentBytes(ch)) else p
    case Config(c) => if GateOpen(p) then Post(p, 0x15, ConfigBytes(c)) else p
    case SayHello => Post(p, 0x10, HelloBytes(4, version))
    case GiveUp => if p.hsOk then p else p.(hsLegacy := true)
    case Receive(f) => Dispatched(p, version, f)
    case Close => p.(closed := true)
  }

  class DaemonLink {
    const version: seq<byte>
    var closed: bool
    var txSeq: byte
    var hsOk: bool
    var hsLegacy: bool
    var remote: seq<byte>
    var calls: seq<Call>
    /** What the serial port has been given, and the frames that makes. */
    var wire: seq<byte>
    ghost var sent: seq<Frame>

    ghost function View(): Pi
      reads this
    {
      Pi(closed, txSeq, hsOk, hsLegacy, remote, sent, calls)
    }

    ghost predicate InSync()
      reads this
    {
      (forall f :: f in sent ==> Sendable(f)) && wire == WireAll(sent)
    }

    constructor (version: seq<byte>)
      ensures this.version == version && View() == Opened() && InSync()
    {
      this.version := version;
      closed, txSeq, hsOk, hsLegacy, remote, calls := false, 0, false, false, [], [];
      wire, sent := [], [];
    }

    method SendFrame(kind: byte, payload: seq<byte>) returns (ok: bool)
      modifies this`txSeq, this`wire, this`sent
      ensures ok <==> !closed && |payload| <= 256
      ensures View() == Post(old(View()), kind, payload)
      ensures old(InSync()) ==> InSync()
    {
      if closed {
        return false;
      }
      var sn := txSeq;
      txSeq := Inc8(txSeq);
      var frame := GoBuild(kind, sn, payload);
      if frame.None? {
        return false;
      }
      wire := wire + frame.value;
      if old(InSync()) {
        WireAllSnoc(sent, Frame(kind, sn, payload));
      }
      sent := sent + [Frame(kind, sn, payload)];
      return true;
    }

    /** One tick of heartbeatLoop. */
    method SendHeartbeat()
      modifies this`txSeq, this`wire, this`sent
      ensures View() == Do(old(View()), version, Beat)
      ensures old(InSync()) ==> InSync()
    {
      var ok := SendFrame(0x03, [0]);
    }

    /** Silently dropped before the handshake. */
    method SendChannelIntent(ch: seq<word>)
      requires |ch| == 16
      modifies this`txSeq, this`wire, this`sent
      ensures View() == Do(old(View()), version, Intent(ch))
      ensures old(InSync()) ==> InSync()
    {
      var gateOpen := hsOk || hsLegacy;
      if !gateOpen {
        return;
      }
      var buf := BuildIntent(ch);
      var ok := SendFrame(0x01, buf);
    }

    method SendArmConfig(c: ArmConfig)
      modifies this`txSeq, this`wire, this`sent
      ensures View() == Do(old(View()), version, Config(c))
      ensures old(InSync()) ==> InSync()
    {
      var gateOpen := hsOk || hsLegacy;
      if !gateOpen {
        return;
      }
      var ok := SendFrame(0x15, ConfigBytes(c));
    }

    method SendHello(kind: byte)
      modifies this`txSeq, this`wire, this`sent
      ensures View() == Post(old(View()), kind, HelloBytes(4, version))
      ensures old(InSync()) ==> InSync()
    {
      var ok := SendFrame(kind, HelloBytes(4, version));
    }

    /** The end of handshakeLoop's wait. */
    method GiveUpWaiting()
      modifies this`hsLegacy
      ensures View() == Do(old(View()), version, GiveUp)
    {
      if !hsOk {
        hsLegacy := true;
      }
    }

    method RecordHandshakeResult(proto: byte, ver: seq<byte>)
      modifies this`hsOk, this`remote
      ensures View() == Recorded(old(View()), proto, ver)
    {
      if hsOk {
        return;
      }
      remote := ver;
      if proto == 4 {
        hsOk := true;
      }
    }

    method Dispatch(f: Frame)
      modifies this`txSeq, this`wire, this`sent, this`hsOk, this`remote, this`calls
      ensures View() == Do(old(View()), version, Receive(f))
      ensures old(InSync()) ==> InSync()
    {
      if f.kind == 0x14 {
        calls := calls + [OnLog(f.payload)];
      } else if f.kind == 0x10 {
        var hello := ParseHello(f.payload);
        RecordHandshakeResult(hello.0, hello.1);
        SendHello(0x11);
      } else if f.kind == 0x11 {
        var hello := ParseHello(f.payload);
        RecordHandshakeResult(hello.0, hello.1);
      } else if f.kind == 0x12 {
        calls := calls + [OnTelemetry(f.payload)];
      } else if f.kind == 0x05 {
        if |f.payload| >= 2 {
          calls := calls + [OnInputEvent(f.payload[0], f.payload[1])];
        }
      } else if f.kind == 0x03 {
        var sn: byte := 0;
        if |f.payload| >= 1 {
          sn := f.payload[0];
        }
        calls := calls + [OnHeartbeatRx(sn)];
      } else {
        calls := calls + [OnFrame(f)];
      }
    }
  }

  // ----- runs of the link -----------------------------------------------------------------------

  function Run(version: seq<byte>, ops: seq<Op>): Pi {
    if ops == [] then Opened() else Do(Run(version, ops[..|ops| - 1]), version, ops[|ops| - 1])
  }

  /** A hello or its acknowledgement from a peer of the same protocol version. */
  predicate Greets(op: Op) {
    op.Receive? && op.f.kind in {0x10, 0x11} && |op.f.payload| >= 4 && op.f.payload[0] == 4
  }

  /** Frames that steer the aircraft. */
  predicate Steers(f: Frame) { f.kind == 0x01 || f.kind == 0x15 }

  /**
   * The handshake gate, after every run: it is open exactly if a peer of the same version has
   * greeted or the wait was given up, and no intent or configuration has been sent before that.
   */
  lemma {:induction false} GateKept(version: seq<byte>, ops: seq<Op>)
    ensures Run(version, ops).hsOk <==> exists op :: op in ops && Greets(op)
    ensures GateOpen(Run(version, ops)) <==> exists op :: op in ops && (Greets(op) || op.GiveUp?)
    ensures (exists f :: f in Run(version, ops).sent && Steers(f)) ==> GateOpen(Run(version, ops))
  {
    if ops != [] {
      var n := |ops| - 1;
      GateKept(version, ops[..n]);
      assert ops == ops[..n] + [ops[n]];
      DoAndGate(Run(version, ops[..n]), version, ops[n]);
    }
  }

  lemma DoAndGate(p: Pi, version: seq<byte>, op: Op)
    ensures Do(p, version, op).hsOk == (p.hsOk || Greets(op))
    ensures GateOpen(Do(p, version, op)) == (GateOpen(p) || Greets(op) || op.GiveUp?)
    ensures forall f :: f in Do(p, version, op).sent && f !in p.sent && Steers(f) ==> GateOpen(p)
  {
  }

  /** Numbers without gap from 0, and nothing the receivers' buffers cannot hold. */
  predicate Consecutive(p: Pi) {
    p.txSeq == |p.sent| % 256 && forall k :: 0 <= k < |p.sent| ==> p.sent[k].sn == k % 256 && Sendable(p.sent[k])
  }

  /** Nothing sent, or one frame with the next number. */
  predicate OneMore(p: Pi, p': Pi) {
    (p'.sent == p.sent && p'.txSeq == p.txSeq) ||
    (p'.sent != [] && p'.sent == p.sent + [p'.sent[|p'.sent| - 1]] && p'.sent[|p'.sent| - 1].sn == p.txSeq
     && p'.txSeq == Inc8(p.txSeq) && Sendable(p'.sent[|p'.sent| - 1]))
  }

  lemma DoSendsOne(p: Pi, version: seq<byte>, op: Op)
    requires OpOk(op)
    ensures OneMore(p, Do(p, version, op))
  {
    HelloReadsBack(4, version);
  }

  lemma NextNumber(p: Pi, p': Pi)
    requires Consecutive(p) && OneMore(p, p')
    ensures Consecutive(p')
  {
  }

  /** The Pi's frames carry 0, 1, 2, ... modulo 256 without gap, and all of them fit the link. */
  lemma {:induction false} PiNumbers(version: seq<byte>, ops: seq<Op>)
    requires forall op :: op in ops ==> OpOk(op)
    ensures Consecutive(Run(version, ops))
  {
    if ops == [] {
      return;
    }
    hide Do, OneMore, Consecutive;
    var n := |ops| - 1;
    assert ops[n] in ops;
    PiNumbers(version, ops[..n]);
    DoSendsOne(Run(version, ops[..n]), version, ops[n]);
    NextNumber(Run(version, ops[..n]), Run(version, ops));
  }
}
