/**
 * The Mega's pin map (firmware/io/src/hal.cpp): a CRC-protected EEPROM record, staged writes
 * that take effect at the next boot, and a fallback to compiled defaults.
 */
module Hal {
  import opened Bytes
  import opened Crc
  import opened CrcErrors

  /** HAL_PIN_COUNT, kPayloadBytes and the record with its CRC. */
  const PIN_COUNT := 42
  const PAYLOAD_BYTES := 90
  const RECORD_BYTES := 92
  const PIN_MIN := 2
  const PIN_MAX := 69

  /** Entry i of the table is pin number and flag byte of HalPinId i. */
  datatype PinMap = PinMap(pins: seq<byte>, flags: seq<byte>)

  predicate Sized(m: PinMap) { |m.pins| == PIN_COUNT && |m.flags| == PIN_COUNT }

  predicate PinOk(p: byte) { PIN_MIN <= p <= PIN_MAX }

  predicate MapOk(m: PinMap) { Sized(m) && forall i :: 0 <= i < PIN_COUNT ==> PinOk(m.pins[i]) }

  /** Magic 0x5A455243 with its low byte first, layout version 5, entry count. */
  function HeaderByte(k: nat): byte {
    match k
    case 0 => 0x43
    case 1 => 0x52
    case 2 => 0x45
    case 3 => 0x5A
    case 4 => 5
    case _ => PIN_COUNT
  }

  /** Byte k of the payload: the header, then pin and flags by turns. */
  function PayloadByte(m: PinMap, k: nat): byte
    requires Sized(m) && k < PAYLOAD_BYTES
  {
    if k < 6 then HeaderByte(k) else if k % 2 == 0 then m.pins[(k - 6) / 2] else m.flags[(k - 6) / 2]
  }

  function Payload(m: PinMap): seq<byte>
    requires Sized(m)
  {
    seq(PAYLOAD_BYTES, k requires 0 <= k < PAYLOAD_BYTES => PayloadByte(m, k))
  }

  function WithCrc(p: seq<byte>): seq<byte> { p + [Lo(Crc16(p)), Hi(Crc16(p))] }

  function Record(m: PinMap): seq<byte>
    requires Sized(m)
  {
    WithCrc(Payload(m))
  }

  /** The map an EEPROM image would be read as, whatever its header and CRC say. */
  function MapIn(e: seq<byte>): PinMap
    requires |e| >= PAYLOAD_BYTES
  {
    PinMap(seq(PIN_COUNT, i requires 0 <= i < PIN_COUNT => e[6 + 2 * i]),
           seq(PIN_COUNT, i requires 0 <= i < PIN_COUNT => e[7 + 2 * i]))
  }

  predicate HeaderOk(e: seq<byte>)
    requires |e| >= PAYLOAD_BYTES
  {
    forall k :: 0 <= k < 6 ==> e[k] == HeaderByte(k)
  }

  predicate CrcOk(e: seq<byte>)
    requires |e| >= RECORD_BYTES
  {
    Crc16(e[..PAYLOAD_BYTES]) == Word(e[PAYLOAD_BYTES], e[PAYLOAD_BYTES + 1])
  }

  /** tryLoadFromEEPROM */
  function Load(e: seq<byte>): (r: Option<PinMap>)
    requires |e| >= RECORD_BYTES
    ensures r.Some? ==> MapOk(r.value)
  {
    if HeaderOk(e) && CrcOk(e) && MapOk(MapIn(e)) then Some(MapIn(e)) else None
  }

  /** An EEPROM image holds the record of a map. */
  predicate Holds(e: seq<byte>, m: PinMap)
    requires |e| >= RECORD_BYTES
  {
    Sized(m) && e[..RECORD_BYTES] == Record(m)
  }

  lemma PayloadOfMap(e: seq<byte>)
    requires |e| >= RECORD_BYTES && HeaderOk(e)
    ensures Payload(MapIn(e)) == e[..PAYLOAD_BYTES]
  {
    forall k | 0 <= k < PAYLOAD_BYTES
      ensures PayloadByte(MapIn(e), k) == e[k]
    {
      if k >= 6 {
        assert k == 6 + 2 * ((k - 6) / 2) + k % 2;
      }
    }
  }

  lemma EntryOffsets(m: PinMap, i: nat)
    requires Sized(m) && i < PIN_COUNT
    ensures PayloadByte(m, 6 + 2 * i) == m.pins[i] && PayloadByte(m, 7 + 2 * i) == m.flags[i]
  {
  }

  lemma MapOfPayload(m: PinMap, e: seq<byte>)
    requires |e| >= PAYLOAD_BYTES && Sized(m) && e[..PAYLOAD_BYTES] == Payload(m)
    ensures HeaderOk(e) && MapIn(e) == m
  {
    forall k | 0 <= k < 6
      ensures e[k] == HeaderByte(k)
    {
      assert e[k] == Payload(m)[k];
    }
    var m' := MapIn(e);
    forall i | 0 <= i < PIN_COUNT
      ensures m'.pins[i] == m.pins[i] && m'.flags[i] == m.flags[i]
    {
      EntryOffsets(m, i);
      assert e[6 + 2 * i] == Payload(m)[6 + 2 * i] && e[7 + 2 * i] == Payload(m)[7 + 2 * i];
    }
    assert m'.pins == m.pins && m'.flags == m.flags;
  }

  /** Loading inverts writing, and nothing but the written record of a legal map loads. */
  lemma LoadInvertsRecord(e: seq<byte>, m: PinMap)
    requires |e| >= RECORD_BYTES
    ensures Load(e) == Some(m) <==> MapOk(m) && Holds(e, m)
  {
    var p := e[..PAYLOAD_BYTES];
    assert e[..RECORD_BYTES] == p + [e[PAYLOAD_BYTES], e[PAYLOAD_BYTES + 1]];
    if Load(e) == Some(m) {
      PayloadOfMap(e);
      WordOfLoHi(e[PAYLOAD_BYTES], e[PAYLOAD_BYTES + 1]);
    }
    if MapOk(m) && Holds(e, m) {
      RecordParts(e, m);
    }
  }

  lemma RecordParts(e: seq<byte>, m: PinMap)
    requires |e| >= RECORD_BYTES && Holds(e, m)
    ensures e[..PAYLOAD_BYTES] == Payload(m) && HeaderOk(e) && CrcOk(e) && MapIn(e) == m
  {
    assert e[..PAYLOAD_BYTES] == e[..RECORD_BYTES][..PAYLOAD_BYTES];
    assert e[PAYLOAD_BYTES] == e[..RECORD_BYTES][PAYLOAD_BYTES];
    assert e[PAYLOAD_BYTES + 1] == e[..RECORD_BYTES][PAYLOAD_BYTES + 1];
    LoHiOfWord(Crc16(Payload(m)));
    MapOfPayload(m, e);
  }

  // ----- the board: live map and EEPROM -------------------------------------------------------

  function DefaultPin(i: nat): byte
    requires i < PIN_COUNT
  {
    if i < 6 then 44 + i              // vfd0: 44..49
    else if i < 12 then 50 + i        // vfd1: 56..61
    else if i < 22 then 14 + i        // buttons: 26..35
    else if i < 26 then 14 + i        // leds: 36..39
    else if i == 26 then 40           // ws_data
    else if i < 31 then i - 5         // relays: 22..25
    else if i == 31 then 54           // ldr_0
    else if i == 32 then 5            // buzzer
    else if i < 36 then i - 31        // enc0: 2..4
    else if i < 40 then i - 30        // servos: 6..9
    else if i == 40 then 53           // glcd_cs
    else 10                           // glcd_reset
  }

  function Defaults(): PinMap {
    PinMap(seq(PIN_COUNT, i requires 0 <= i < PIN_COUNT => DefaultPin(i)), seq(PIN_COUNT, i => 0))
  }

  lemma DefaultsOk()
    ensures MapOk(Defaults())
    ensures forall i, j :: 0 <= i < j < PIN_COUNT ==> Defaults().pins[i] != Defaults().pins[j]
  {
  }

  datatype Source = DEFAULTS | EEPROM

  datatype Board = Board(live: PinMap, source: Source, eeprom: seq<byte>)

  /** begin: the record if it is valid, else the defaults, which are then also written back. */
  function Begin(e: seq<byte>): Board
    requires |e| >= RECORD_BYTES
  {
    match Load(e)
    case Some(m) => Board(m, EEPROM, e)
    case None => Board(Defaults(), DEFAULTS, Record(Defaults()) + e[RECORD_BYTES..])
  }

  /** Replacing one payload byte and renewing the CRC. */
  function Restage(e: seq<byte>, k: nat, v: byte): seq<byte>
    requires |e| >= RECORD_BYTES && k < PAYLOAD_BYTES
  {
    WithCrc(e[..PAYLOAD_BYTES][k := v]) + e[RECORD_BYTES..]
  }

  function Wiped(e: seq<byte>): seq<byte>
    requires |e| >= RECORD_BYTES
  {
    seq(RECORD_BYTES, k => 0xFF) + e[RECORD_BYTES..]
  }

  /** What the protocol can ask of the HAL, with the power cycle or watchdog reboot as the last case. */
  datatype Op = StagePin(id: byte, pin: byte) | StageFlags(id: byte, flags: byte) | ResetDefaults | Reboot

  predicate Accepted(op: Op) {
    match op
    case StagePin(id, pin) => id < PIN_COUNT && PinOk(pin)
    case StageFlags(id, _) => id < PIN_COUNT
    case _ => true
  }

  function Do(b: Board, op: Op): (r: Board)
    requires |b.eeprom| >= RECORD_BYTES
    ensures |r.eeprom| == |b.eeprom|
  {
    if !Accepted(op) then b
    else
      match op
      case StagePin(id, pin) => b.(eeprom := Restage(b.eeprom, 6 + 2 * id, pin))
      case StageFlags(id, flags) => b.(eeprom := Restage(b.eeprom, 7 + 2 * id, flags))
      case ResetDefaults => b.(eeprom := Wiped(b.eeprom))
      case Reboot => Begin(b.eeprom)
  }

  function Run(e: seq<byte>, ops: seq<Op>): (r: Board)
    requires |e| >= RECORD_BYTES
    ensures |r.eeprom| == |e|
  {
    if ops == [] then Begin(e) else Do(Run(e, ops[..|ops| - 1]), ops[|ops| - 1])
  }

  // ----- the simple map it implements ----------------------------------------------------------

  /** A live map, and the map staged for the next boot; None after a wipe. */
  datatype Simple = Simple(live: PinMap, source: Source, staged: Option<PinMap>)

  function SimpleBegin(staged: Option<PinMap>): Simple {
    match staged
    case Some(m) => Simple(m, EEPROM, staged)
    case None => Simple(Defaults(), DEFAULTS, Some(Defaults()))
  }

  function Assign(m: PinMap, op: Op): PinMap
    requires Sized(m) && Accepted(op)
  {
    match op
    case StagePin(id, pin) => m.(pins := m.pins[id := pin])
    case StageFlags(id, flags) => m.(flags := m.flags[id := flags])
    case _ => m
  }

  function DoSimple(s: Simple, op: Op): Simple
    requires s.staged.Some? ==> Sized(s.staged.value)
  {
    if !Accepted(op) then s
    else
      match op
      case ResetDefaults => s.(staged := None)
      case Reboot => SimpleBegin(s.staged)
      case _ => if s.staged.None? then s else s.(staged := Some(Assign(s.staged.value, op)))
  }

  /** The EEPROM holds the staged map's record, or has lost its magic. */
  predicate Implements(b: Board, s: Simple) {
    && |b.eeprom| >= RECORD_BYTES && b.live == s.live && b.source == s.source
    && match s.staged
       case Some(m) => MapOk(m) && Holds(b.eeprom, m)
       case None => b.eeprom[0] == 0xFF
  }

  lemma RestageHolds(e: seq<byte>, m: PinMap, m': PinMap, k: nat, v: byte)
    requires |e| >= RECORD_BYTES && Holds(e, m) && Sized(m') && k < PAYLOAD_BYTES
    requires Payload(m') == Payload(m)[k := v]
    ensures Holds(Restage(e, k, v), m')
  {
    RecordParts(e, m);
    var r := WithCrc(Payload(m'));
    assert (r + e[RECORD_BYTES..])[..RECORD_BYTES] == r;
  }

  lemma PinIsPayloadByte(m: PinMap, id: nat, v: byte)
    requires Sized(m) && id < PIN_COUNT
    ensures Payload(m.(pins := m.pins[id := v])) == Payload(m)[6 + 2 * id := v]
    ensures Payload(m.(flags := m.flags[id := v])) == Payload(m)[7 + 2 * id := v]
  {
    var p, f := m.(pins := m.pins[id := v]), m.(flags := m.flags[id := v]);
    forall k | 0 <= k < PAYLOAD_BYTES
      ensures PayloadByte(p, k) == Payload(m)[6 + 2 * id := v][k]
      ensures PayloadByte(f, k) == Payload(m)[7 + 2 * id := v][k]
    {
    }
  }

  lemma NoMagicNoLoad(e: seq<byte>)
    requires |e| >= RECORD_BYTES && e[0] == 0xFF
    ensures Load(e) == None
  {
    assert HeaderByte(0) == 0x43;
  }

  lemma BeginImplements(e: seq<byte>, staged: Option<PinMap>)
    requires |e| >= RECORD_BYTES && Load(e) == staged
    ensures Implements(Begin(e), SimpleBegin(staged))
  {
    if staged.Some? {
      LoadInvertsRecord(e, staged.value);
    } else {
      DefaultsOk();
      var r := Record(Defaults());
      assert (r + e[RECORD_BYTES..])[..RECORD_BYTES] == r;
    }
  }

  lemma StepImplements(b: Board, s: Simple, op: Op)
    requires Implements(b, s)
    ensures Implements(Do(b, op), DoSimple(s, op))
  {
    if Accepted(op) {
      match op
      case Reboot =>
        if s.staged.Some? {
          LoadInvertsRecord(b.eeprom, s.staged.value);
        } else {
          NoMagicNoLoad(b.eeprom);
        }
        BeginImplements(b.eeprom, s.staged);
      case ResetDefaults =>
      case _ => StageImplements(b, s, op);
    }
  }

  lemma StageImplements(b: Board, s: Simple, op: Op)
    requires Implements(b, s) && Accepted(op) && (op.StagePin? || op.StageFlags?)
    ensures Implements(Do(b, op), DoSimple(s, op))
  {
    if s.staged.Some? {
      var m := s.staged.value;
      PinIsPayloadByte(m, op.id, if op.StagePin? then op.pin else op.flags);
      RestageHolds(b.eeprom, m, Assign(m, op), if op.StagePin? then 6 + 2 * op.id else 7 + 2 * op.id,
                   if op.StagePin? then op.pin else op.flags);
    }
  }

  function RunSimple(s: Simple, ops: seq<Op>): (r: Simple)
    requires s.staged.Some? ==> Sized(s.staged.value)
    ensures r.staged.Some? ==> Sized(r.staged.value)
  {
    if ops == [] then s else DoSimple(RunSimple(s, ops[..|ops| - 1]), ops[|ops| - 1])
  }

  /**
   * Refinement over whole runs: from any EEPROM contents, the byte-level board follows the simple
   * map through every sequence of commands and reboots.
   */
  lemma {:induction false} RunImplements(e: seq<byte>, ops: seq<Op>)
    requires |e| >= RECORD_BYTES
    ensures Implements(Run(e, ops), RunSimple(SimpleBegin(Load(e)), ops))
  {
    if ops == [] {
      BeginImplements(e, Load(e));
    } else {
      var n := |ops| - 1;
      RunImplements(e, ops[..n]);
      StepImplements(Run(e, ops[..n]), RunSimple(SimpleBegin(Load(e)), ops[..n]), ops[n]);
    }
  }

  // ----- what the staging rules mean ----------------------------------------------------------

  /** Neither a wipe nor a boot. */
  predicate OnlyStages(ops: seq<Op>) {
    forall op :: op in ops ==> op.StagePin? || op.StageFlags?
  }

  /** The last accepted pin number for an entry, or the one it had. */
  function LastPin(ops: seq<Op>, id: nat, was: byte): byte {
    if ops == [] then was
    else
      var op := ops[|ops| - 1];
      if op.StagePin? && op.id == id && PinOk(op.pin) then op.pin else LastPin(ops[..|ops| - 1], id, was)
  }

  function LastFlags(ops: seq<Op>, id: nat, was: byte): byte {
    if ops == [] then was
    else
      var op := ops[|ops| - 1];
      if op.StageFlags? && op.id == id then op.flags else LastFlags(ops[..|ops| - 1], id, was)
  }

  /** The map that a batch of staging commands asks for. */
  function Asked(m: PinMap, ops: seq<Op>): PinMap
    requires Sized(m)
  {
    PinMap(seq(PIN_COUNT, i requires 0 <= i < PIN_COUNT => LastPin(ops, i, m.pins[i])),
           seq(PIN_COUNT, i requires 0 <= i < PIN_COUNT => LastFlags(ops, i, m.flags[i])))
  }

  lemma AskedOnce(m: PinMap, ops: seq<Op>, op: Op)
    requires Sized(m) && (op.StagePin? || op.StageFlags?)
    ensures Asked(m, ops + [op]) == if Accepted(op) then Assign(Asked(m, ops), op) else Asked(m, ops)
  {
    assert (ops + [op])[..|ops|] == ops;
    var l, r := Asked(m, ops + [op]), if Accepted(op) then Assign(Asked(m, ops), op) else Asked(m, ops);
    assert l.pins == r.pins && l.flags == r.flags;
  }

  lemma {:induction false} SimpleStages(s: Simple, ops: seq<Op>)
    requires OnlyStages(ops) && s.staged.Some? && Sized(s.staged.value)
    ensures RunSimple(s, ops) == s.(staged := Some(Asked(s.staged.value, ops)))
  {
    var m := s.staged.value;
    if ops == [] {
      assert Asked(m, ops).pins == m.pins && Asked(m, ops).flags == m.flags;
    } else {
      var n := |ops| - 1;
      assert ops[n] in ops && ops == ops[..n] + [ops[n]];
      SimpleStages(s, ops[..n]);
      AskedOnce(m, ops[..n], ops[n]);
    }
  }

  /**
   * Staging does not touch the live map, and the next boot loads, entry by entry, the last
   * accepted value, or what was live; refused commands have no effect at all.
   */
  lemma StagedAtNextBoot(e: seq<byte>, ops: seq<Op>)
    requires |e| >= RECORD_BYTES && OnlyStages(ops)
    ensures var live := Begin(e).live;
            && Sized(live)
            && Run(e, ops).live == live
            && Run(e, ops + [Reboot]).live == Asked(live, ops)
            && Run(e, ops + [Reboot]).source == EEPROM
  {
    var s := SimpleBegin(Load(e));
    RunImplements(e, []);
    RunImplements(e, ops);
    RunImplements(e, ops + [Reboot]);
    SimpleStages(s, ops);
    assert (ops + [Reboot])[..|ops|] == ops;
  }

  lemma {:induction false} WipeSticks(s: Simple, ops: seq<Op>)
    requires s.staged.None? && Reboot !in ops
    ensures RunSimple(s, ops) == s
  {
    if ops != [] {
      var n := |ops| - 1;
      assert ops[n] in ops;
      WipeSticks(s, ops[..n]);
    }
  }

  lemma {:induction false} RunSimpleAppend(s: Simple, a: seq<Op>, b: seq<Op>)
    requires s.staged.Some? ==> Sized(s.staged.value)
    ensures RunSimple(s, a + b) == RunSimple(RunSimple(s, a), b)
  {
    if b == [] {
      assert a + b == a;
    } else {
      var n := |b| - 1;
      assert (a + b)[..|a| + n] == a + b[..n];
      RunSimpleAppend(s, a, b[..n]);
    }
  }

  /**
   * After resetDefaults, whatever else is staged before the next boot is lost: the boot finds no
   * record, loads the defaults and leaves their valid record behind.
   */
  lemma ResetWins(e: seq<byte>, before: seq<Op>, after: seq<Op>)
    requires |e| >= RECORD_BYTES && Reboot !in after
    ensures var b := Run(e, before + [ResetDefaults] + after + [Reboot]);
            b.live == Defaults() && b.source == DEFAULTS && Holds(b.eeprom, Defaults())
  {
    var s := SimpleBegin(Load(e));
    var ops := before + [ResetDefaults] + after;
    RunImplements(e, ops + [Reboot]);
    assert (ops + [Reboot])[..|ops|] == ops;
    RunSimpleAppend(s, before + [ResetDefaults], after);
    assert (before + [ResetDefaults])[..|before|] == before;
    WipeSticks(RunSimple(s, before + [ResetDefaults]), after);
  }

  /** Whatever the EEPROM holds and whatever is asked, the live map is legal and memory past the record is untouched. */
  lemma {:induction false} AlwaysLegal(e: seq<byte>, ops: seq<Op>)
    requires |e| >= RECORD_BYTES
    ensures MapOk(Run(e, ops).live)
    ensures Run(e, ops).eeprom[RECORD_BYTES..] == e[RECORD_BYTES..]
  {
    DefaultsOk();
    if ops != [] {
      var n := |ops| - 1;
      AlwaysLegal(e, ops[..n]);
      TailKept(Run(e, ops[..n]), ops[n]);
    } else {
      var r := Record(Defaults());
      assert (r + e[RECORD_BYTES..])[RECORD_BYTES..] == e[RECORD_BYTES..];
    }
  }

  lemma TailKept(b: Board, op: Op)
    requires |b.eeprom| >= RECORD_BYTES && MapOk(b.live)
    ensures MapOk(Do(b, op).live) && Do(b, op).eeprom[RECORD_BYTES..] == b.eeprom[RECORD_BYTES..]
  {
    DefaultsOk();
  }

  // ----- power cuts and decay -----------------------------------------------------------------

  /** Writing `after` over `before` byte by byte, cut off after j bytes. */
  function Torn(before: seq<byte>, after: seq<byte>, j: nat): seq<byte>
    requires |before| == |after| && j <= |after|
  {
    after[..j] + before[j..]
  }

  /**
   * A power cut in the middle of staging one value cannot mix maps: the next boot loads the old
   * map, the new one, or the defaults.
   */
  lemma CutStaging(e: seq<byte>, m: PinMap, op: Op, j: nat)
    requires |e| >= RECORD_BYTES && MapOk(m) && Holds(e, m) && j <= |e|
    requires Accepted(op) && (op.StagePin? || op.StageFlags?)
    ensures var after := Do(Board(m, EEPROM, e), op).eeprom;
            Begin(Torn(e, after, j)).live in {m, Assign(m, op), Defaults()}
  {
    var after := Do(Board(m, EEPROM, e), op).eeprom;
    StageImplements(Board(m, EEPROM, e), Simple(m, EEPROM, Some(m)), op);
    TornIsEither(e, after, m, Assign(m, op), j, if op.StagePin? then 6 + 2 * op.id else 7 + 2 * op.id,
                 if op.StagePin? then op.pin else op.flags) by {
      PinIsPayloadByte(m, op.id, if op.StagePin? then op.pin else op.flags);
    }
  }

  lemma TornIsEither(e: seq<byte>, after: seq<byte>, m: PinMap, m': PinMap, j: nat, k: nat, v: byte)
    requires RECORD_BYTES <= |e| == |after| && Holds(e, m) && Holds(after, m') && j <= |e|
    requires k < PAYLOAD_BYTES && Payload(m') == Payload(m)[k := v]
    ensures Load(Torn(e, after, j)) in {Some(m), Some(m'), None}
  {
    var torn := Torn(e, after, j);
    RecordParts(e, m);
    RecordParts(after, m');
    TornPrefix(e, after, j, PAYLOAD_BYTES, k, v);
    if j > k {
      MapOfPayload(m', torn);
    } else {
      MapOfPayload(m, torn);
    }
  }

  lemma TornPrefix(before: seq<byte>, after: seq<byte>, j: nat, n: nat, k: nat, v: byte)
    requires |before| == |after| && j <= |after| && k < n <= |after| && after[..n] == before[..n][k := v]
    ensures Torn(before, after, j)[..n] == if j > k then after[..n] else before[..n]
  {
    forall i | 0 <= i < n
      ensures after[i] == if i == k then v else before[i]
    {
      assert after[i] == after[..n][i];
    }
  }

  /** Two neighbouring bytes of the record, i and i + 1, hold other values. */
  function Decayed(e: seq<byte>, i: nat, x: byte, y: byte): seq<byte>
    requires i + 1 < |e|
  {
    e[i := x][i + 1 := y]
  }

  /**
   * Decay of two neighbouring bytes, exactly: it goes unnoticed only if nothing changed or it is
   * the pair the checksum does not see, 0x89 in the last flag byte and 0xA1 in the byte behind it.
   * Then the board boots with that flag byte changed; in all other cases with the defaults.
   */
  lemma NeighbourDecay(e: seq<byte>, m: PinMap, i: nat, x: byte, y: byte)
    requires |e| >= RECORD_BYTES && MapOk(m) && Holds(e, m) && i + 1 < RECORD_BYTES
    ensures var e' := Decayed(e, i, x, y);
            Load(e') ==
            if e' == e then Some(m)
            else if BlindPair(e[..RECORD_BYTES], e'[..RECORD_BYTES], i)
            then Some(m.(flags := m.flags[PIN_COUNT - 1 := x]))
            else None
  {
    hide Crc16, CrcOk, MapIn, HeaderOk, MapOk, Holds;
    var e' := Decayed(e, i, x, y);
    RecordParts(e, m);
    DecayChecks(e, i, x, y);
    if e' == e {
      LoadInvertsRecord(e, m);
    } else if BlindPair(e[..RECORD_BYTES], e'[..RECORD_BYTES], i) {
      LastFlagDecays(e, m, x, y);
    }
  }

  lemma LastFlagDecays(e: seq<byte>, m: PinMap, x: byte, y: byte)
    requires |e| >= RECORD_BYTES && MapOk(m) && Holds(e, m)
    ensures var e', m' := Decayed(e, PAYLOAD_BYTES - 1, x, y), m.(flags := m.flags[PIN_COUNT - 1 := x]);
            HeaderOk(e') && MapIn(e') == m' && MapOk(m')
  {
    hide Crc16;
    RecordParts(e, m);
    PinIsPayloadByte(m, PIN_COUNT - 1, x);
    var e' := Decayed(e, PAYLOAD_BYTES - 1, x, y);
    assert e'[..PAYLOAD_BYTES] == e[..PAYLOAD_BYTES][PAYLOAD_BYTES - 1 := x];
    MapOfPayload(m.(flags := m.flags[PIN_COUNT - 1 := x]), e');
  }

  /** The checksum test on the record, as CrcErrors has it. */
  lemma RecordChecks(e: seq<byte>)
    requires |e| >= RECORD_BYTES
    ensures CrcOk(e) <==> Checks(e[..RECORD_BYTES])
  {
    var d := e[..RECORD_BYTES];
    assert d[..PAYLOAD_BYTES] == e[..PAYLOAD_BYTES];
    WordOfLoHi(e[PAYLOAD_BYTES], e[PAYLOAD_BYTES + 1]);
    LoHiOfWord(Crc16(e[..PAYLOAD_BYTES]));
  }

  lemma DecayIsLocal(e: seq<byte>, i: nat, x: byte, y: byte)
    requires |e| >= RECORD_BYTES && i + 1 < RECORD_BYTES
    ensures var e' := Decayed(e, i, x, y);
            && DifferOnlyAt(e[..RECORD_BYTES], e'[..RECORD_BYTES], i)
            && (e' == e <==> e'[..RECORD_BYTES] == e[..RECORD_BYTES])
  {
    var e' := Decayed(e, i, x, y);
    assert e == e[..RECORD_BYTES] + e[RECORD_BYTES..] && e' == e'[..RECORD_BYTES] + e[RECORD_BYTES..];
  }

  lemma DecayChecks(e: seq<byte>, i: nat, x: byte, y: byte)
    requires |e| >= RECORD_BYTES && CrcOk(e) && i + 1 < RECORD_BYTES
    ensures var e' := Decayed(e, i, x, y);
            CrcOk(e') <==> e' == e || BlindPair(e[..RECORD_BYTES], e'[..RECORD_BYTES], i)
  {
    hide Crc16, CrcOk, Checks, BlindPair;
    var e' := Decayed(e, i, x, y);
    RecordChecks(e);
    RecordChecks(e');
    DecayIsLocal(e, i, x, y);
    NeighbourChecks(e[..RECORD_BYTES], e'[..RECORD_BYTES], i);
  }

  /** One decayed byte anywhere in the record is always noticed: the next boot falls back to the defaults. */
  lemma DecayDetected(e: seq<byte>, m: PinMap, q: nat, v: byte)
    requires |e| >= RECORD_BYTES && Holds(e, m) && q < RECORD_BYTES && v != e[q]
    ensures Load(e[q := v]) == None && Begin(e[q := v]).live == Defaults()
  {
    RecordParts(e, m);
    var i := if q == RECORD_BYTES - 1 then q - 1 else q;
    var e' := Decayed(e, i, if q == i then v else e[i], if q == i then e[i + 1] else v);
    assert e' == e[q := v];
    DecayChecks(e, i, e'[i], e'[i + 1]);
    OneByteNotBlind(e[..RECORD_BYTES], e'[..RECORD_BYTES], i);
  }

  // ----- hal.cpp's static state and functions ---------------------------------------------------

  class PinHal {
    const eeprom: array<byte>
    const pins: array<byte>
    const flags: array<byte>
    var source: Source

    ghost predicate Valid()
      reads this
    {
      && eeprom.Length >= RECORD_BYTES && pins.Length == PIN_COUNT && flags.Length == PIN_COUNT
      && eeprom != pins && eeprom != flags && pins != flags
    }

    ghost function View(): Board
      requires Valid()
      reads this, eeprom, pins, flags
    {
      Board(PinMap(pins[..], flags[..]), source, eeprom[..])
    }

    /** Power-on: the EEPROM keeps its contents, RAM starts at zero. */
    constructor (eeprom: array<byte>)
      requires eeprom.Length >= RECORD_BYTES
      ensures Valid() && this.eeprom == eeprom && fresh(pins) && fresh(flags)
      ensures eeprom[..] == old(eeprom[..])
    {
      this.eeprom := eeprom;
      pins := new byte[PIN_COUNT](_ => 0);
      flags := new byte[PIN_COUNT](_ => 0);
      source := DEFAULTS;
    }

    method WriteBufToEeprom(buf: seq<byte>, crc: word)
      requires Valid() && |buf| == PAYLOAD_BYTES
      modifies eeprom
      ensures eeprom[..] == buf + [Lo(crc), Hi(crc)] + old(eeprom[..])[RECORD_BYTES..]
    {
      var addr := 0;
      while addr < |buf|
        invariant 0 <= addr <= |buf|
        invariant forall k :: 0 <= k < addr ==> eeprom[k] == buf[k]
        invariant forall k :: addr <= k < eeprom.Length ==> eeprom[k] == old(eeprom[k])
      {
        eeprom[addr] := buf[addr];
        addr := addr + 1;
      }
      eeprom[addr] := Lo(crc);
      eeprom[addr + 1] := Hi(crc);
    }

    method WriteDefaultsToEeprom()
      requires Valid()
      modifies eeprom
      ensures eeprom[..] == Record(Defaults()) + old(eeprom[..])[RECORD_BYTES..]
    {
      var buf := new byte[PAYLOAD_BYTES];
      FillDefaults(buf);
      var crc := ComputeCrc16(buf[..]);
      WriteBufToEeprom(buf[..], crc);
    }

    static method FillDefaults(buf: array<byte>)
      requires buf.Length == PAYLOAD_BYTES
      modifies buf
      ensures buf[..] == Payload(Defaults())
    {
      forall k | 0 <= k < 6 {
        buf[k] := HeaderByte(k);
      }
      for i := 0 to PIN_COUNT
        invariant forall k :: 0 <= k < 6 + 2 * i ==> buf[k] == PayloadByte(Defaults(), k)
      {
        EntryOffsets(Defaults(), i);
        buf[6 + 2 * i] := DefaultPin(i);
        buf[7 + 2 * i] := 0;
      }
    }

    method TryLoadFromEeprom() returns (ok: bool)
      requires Valid()
      modifies pins, flags
      ensures ok <==> Load(eeprom[..]).Some?
      ensures ok ==> PinMap(pins[..], flags[..]) == Load(eeprom[..]).value
      ensures !ok ==> pins[..] == old(pins[..]) && flags[..] == old(flags[..])
    {
      ghost var e := eeprom[..];
      var buf := eeprom[..PAYLOAD_BYTES];
      var storedCrc := Word(eeprom[PAYLOAD_BYTES], eeprom[PAYLOAD_BYTES + 1]);
      LoadFromBuffer(e, buf);
      if buf[0] != 0x43 || buf[1] != 0x52 || buf[2] != 0x45 || buf[3] != 0x5A {
        return false;
      }
      if buf[4] != 5 || buf[5] != PIN_COUNT {
        return false;
      }
      var crc := ComputeCrc16(buf);
      if crc != storedCrc {
        return false;
      }
      ok := CheckPins(buf);
      if ok {
        Populate(buf);
      }
    }

    static method CheckPins(buf: seq<byte>) returns (ok: bool)
      requires |buf| == PAYLOAD_BYTES
      ensures ok <==> forall i :: 0 <= i < PIN_COUNT ==> PinOk(buf[6 + 2 * i])
    {
      for i := 0 to PIN_COUNT
        invariant forall k :: 0 <= k < i ==> PinOk(buf[6 + 2 * k])
      {
        if buf[6 + 2 * i] < PIN_MIN || buf[6 + 2 * i] > PIN_MAX {
          return false;
        }
      }
      return true;
    }

    method Populate(buf: seq<byte>)
      requires Valid() && |buf| == PAYLOAD_BYTES
      modifies pins, flags
      ensures PinMap(pins[..], flags[..]) == MapIn(buf)
    {
      for i := 0 to PIN_COUNT
        invariant forall k :: 0 <= k < i ==> pins[k] == buf[6 + 2 * k] && flags[k] == buf[7 + 2 * k]
      {
        pins[i] := buf[6 + 2 * i];
        flags[i] := buf[7 + 2 * i];
      }
    }

    method Boot()
      requires Valid()
      modifies this`source, eeprom, pins, flags
      ensures View() == Begin(old(eeprom[..]))
    {
      var loaded := TryLoadFromEeprom();
      if loaded {
        source := EEPROM;
        return;
      }
      forall i | 0 <= i < PIN_COUNT {
        pins[i] := DefaultPin(i);
      }
      forall i | 0 <= i < PIN_COUNT {
        flags[i] := 0;
      }
      assert pins[..] == Defaults().pins && flags[..] == Defaults().flags;
      WriteDefaultsToEeprom();
      source := DEFAULTS;
    }

    /** pin() and flags(): 0xFF and 0 for an id that does not exist. */
    method Pin(id: byte) returns (p: byte)
      requires Valid()
      ensures p == if id < PIN_COUNT then View().live.pins[id] else 0xFF
    {
      if id >= PIN_COUNT {
        return 0xFF;
      }
      return pins[id];
    }

    method Flags(id: byte) returns (f: byte)
      requires Valid()
      ensures f == if id < PIN_COUNT then View().live.flags[id] else 0
    {
      if id >= PIN_COUNT {
        return 0;
      }
      return flags[id];
    }

    method DoStagePin(id: byte, pinNumber: byte) returns (ok: bool)
      requires Valid()
      modifies eeprom
      ensures ok <==> Accepted(StagePin(id, pinNumber))
      ensures View() == Do(old(View()), StagePin(id, pinNumber))
    {
      if id >= PIN_COUNT {
        return false;
      }
      if pinNumber < PIN_MIN || pinNumber > PIN_MAX {
        return false;
      }
      Rewrite(6 + 2 * id, pinNumber);
      return true;
    }

    method DoStageFlags(id: byte, newFlags: byte) returns (ok: bool)
      requires Valid()
      modifies eeprom
      ensures ok <==> Accepted(StageFlags(id, newFlags))
      ensures View() == Do(old(View()), StageFlags(id, newFlags))
    {
      if id >= PIN_COUNT {
        return false;
      }
      Rewrite(7 + 2 * id, newFlags);
      return true;
    }

    /** Read the payload back, change one byte, write it with a new CRC. */
    method Rewrite(k: nat, v: byte)
      requires Valid() && k < PAYLOAD_BYTES
      modifies eeprom
      ensures eeprom[..] == Restage(old(eeprom[..]), k, v)
    {
      ghost var before := eeprom[..];
      var buf := new byte[PAYLOAD_BYTES];
      for i := 0 to PAYLOAD_BYTES
        invariant eeprom[..] == before
        invariant forall j :: 0 <= j < i ==> buf[j] == before[j]
      {
        buf[i] := eeprom[i];
      }
      buf[k] := v;
      assert buf[..] == before[..PAYLOAD_BYTES][k := v];
      var crc := ComputeCrc16(buf[..]);
      WriteBufToEeprom(buf[..], crc);
    }

    method DoResetDefaults()
      requires Valid()
      modifies eeprom
      ensures View() == Do(old(View()), ResetDefaults)
    {
      var addr := 0;
      while addr < RECORD_BYTES
        invariant 0 <= addr <= RECORD_BYTES
        invariant forall k :: 0 <= k < addr ==> eeprom[k] == 0xFF
        invariant forall k :: addr <= k < eeprom.Length ==> eeprom[k] == old(eeprom[k])
      {
        eeprom[addr] := 0xFF;
        addr := addr + 1;
      }
      assert eeprom[..] == Wiped(old(eeprom[..]));
    }
  }

  /** The checks of tryLoadFromEEPROM, in its order, on its buffer. */
  lemma LoadFromBuffer(e: seq<byte>, buf: seq<byte>)
    requires |e| >= RECORD_BYTES && buf == e[..PAYLOAD_BYTES]
    ensures var header := buf[0] == 0x43 && buf[1] == 0x52 && buf[2] == 0x45 && buf[3] == 0x5A &&
                          buf[4] == 5 && buf[5] == PIN_COUNT;
            Load(e) == if header && Crc16(buf) == Word(e[PAYLOAD_BYTES], e[PAYLOAD_BYTES + 1]) &&
                          (forall i :: 0 <= i < PIN_COUNT ==> PinOk(buf[6 + 2 * i]))
                       then Some(MapIn(buf)) else None
  {
    HeaderIs(e);
    assert forall k :: 0 <= k < PAYLOAD_BYTES ==> buf[k] == e[k];
    assert MapIn(buf) == MapIn(e);
    assert forall i :: 0 <= i < PIN_COUNT ==> MapIn(e).pins[i] == buf[6 + 2 * i];
    if MapOk(MapIn(e)) {
      forall i | 0 <= i < PIN_COUNT
        ensures PinOk(buf[6 + 2 * i])
      {
        assert PinOk(MapIn(e).pins[i]);
      }
    }
  }

  lemma HeaderIs(e: seq<byte>)
    requires |e| >= PAYLOAD_BYTES
    ensures HeaderOk(e) <==>
            e[0] == 0x43 && e[1] == 0x52 && e[2] == 0x45 && e[3] == 0x5A && e[4] == 5 && e[5] == PIN_COUNT
  {
    if HeaderOk(e) {
      assert e[0] == HeaderByte(0) && e[1] == HeaderByte(1) && e[2] == HeaderByte(2);
      assert e[3] == HeaderByte(3) && e[4] == HeaderByte(4) && e[5] == HeaderByte(5);
    }
  }
}
