/**
 * What the command lines do to a board (firmware/io/src/subsystems/hal_subsystem.cpp), told by the
 * lines themselves: sessions of commands, the defaults they lead back to, and refusals.
 */
module HalCommands {
  import opened Bytes
  import opened Text
  import opened Hal
  import opened HalNames
  import opened Crc
  import opened HalProtocol

  predicate Ready(b: Board) { Sized(b.live) && |b.eeprom| >= RECORD_BYTES }

  lemma HandleKeepsReady(b: Board, ts: seq<string>)
    requires Ready(b)
    ensures Ready(Handle(b, ts).board)
  {
    DefaultsOk();
  }

  /** The board after a session of command lines. */
  function Served(b: Board, lines: seq<string>): (r: Board)
    requires Ready(b)
    ensures Ready(r)
  {
    if lines == [] then b
    else
      var before := Served(b, lines[..|lines| - 1]);
      HandleKeepsReady(before, Tokens(lines[|lines| - 1]));
      Handle(before, Tokens(lines[|lines| - 1])).board
  }

  predicate IsReboot(line: string) {
    var ts := Tokens(line);
    |ts| >= 3 && ts[0] == "SET" && ts[2] == "reboot"
  }

  /** Nothing but a reboot gives a wiped EEPROM its magic back. */
  lemma WipeLasts(b: Board, line: string)
    requires Ready(b) && b.eeprom[0] == 0xFF && !IsReboot(line)
    ensures Handle(b, Tokens(line)).board.eeprom[0] == 0xFF
  {
    var ts := Tokens(line);
    if |ts| >= 3 {
      StagingKeepsWipe(b, ts);
      OpKeepsWipe(b, ResetDefaults);
    }
    hide Do, Tokens, SetPin, SetFlag;
  }

  lemma StagingKeepsWipe(b: Board, ts: seq<string>)
    requires Ready(b) && b.eeprom[0] == 0xFF && |ts| >= 3
    ensures SetPin(b, ts).board.eeprom[0] == 0xFF && SetFlag(b, ts).board.eeprom[0] == 0xFF
  {
    if |ts| >= 5 && IdOf(ts[3]).Some? {
      var id := IdOf(ts[3]).value;
      forall v: byte
        ensures Do(b, StagePin(id, v)).eeprom[0] == 0xFF && Do(b, StageFlags(id, v)).eeprom[0] == 0xFF
      {
        OpKeepsWipe(b, StagePin(id, v));
        OpKeepsWipe(b, StageFlags(id, v));
      }
    }
    hide Do, IdOf, Strtol, Mask, PinStaged, FlagStaged;
  }

  lemma OpKeepsWipe(b: Board, op: Op)
    requires Ready(b) && b.eeprom[0] == 0xFF && !op.Reboot?
    ensures Do(b, op).eeprom[0] == 0xFF
  {
    hide Crc16;
  }

  lemma {:induction false} SessionKeepsWipe(b: Board, lines: seq<string>)
    requires Ready(b) && b.eeprom[0] == 0xFF && forall line :: line in lines ==> !IsReboot(line)
    ensures Served(b, lines).eeprom[0] == 0xFF
  {
    if lines != [] {
      var n := |lines| - 1;
      assert lines[n] in lines;
      SessionKeepsWipe(b, lines[..n]);
      WipeLasts(Served(b, lines[..n]), lines[n]);
    }
  }

  lemma ResetHandled(b: Board, ts: seq<string>)
    requires Ready(b) && |ts| >= 3 && ts[0] == "SET" && ts[2] == "reset-defaults"
    ensures var e := Handle(b, ts).board.eeprom; e != [] && e[0] == 0xFF
  {
    assert |ts[2]| == 14 && |"pin"| == 3 && |"flag"| == 4;
    assert ts[0] != "GET" by { assert ts[0][0] == 'S'; }
  }

  lemma ResetTokens()
    ensures var ts := Tokens("SET hal reset-defaults"); |ts| == 3 && ts[0] == "SET" && ts[2] == "reset-defaults"
  {
    ThreeWords("SET", "hal", "reset-defaults");
    assert "SET" + " " + "hal" + " " + "reset-defaults" == "SET hal reset-defaults";
  }

  lemma ResetServed(b: Board)
    requires Ready(b)
    ensures var e := Handle(b, Tokens("SET hal reset-defaults")).board.eeprom; e != [] && e[0] == 0xFF
  {
    ResetTokens();
    hide *;
    ResetHandled(b, Tokens("SET hal reset-defaults"));
  }

  /**
   * SET hal reset-defaults, then any commands but a reboot, then SET hal reboot: on every board
   * that leaves the compiled defaults live, with their valid record stored again.
   */
  lemma ResetCommandWins(b: Board, lines: seq<string>)
    requires Ready(b) && forall line :: line in lines ==> !IsReboot(line)
    ensures var wiped := Handle(b, Tokens("SET hal reset-defaults")).board;
            Ready(wiped) &&
            var r := Handle(Served(wiped, lines), Tokens("SET hal reboot")).board;
            && r.live == Defaults() && r.source == DEFAULTS
            && |r.eeprom| >= RECORD_BYTES && Load(r.eeprom) == Some(Defaults())
  {
    var wiped := Handle(b, Tokens("SET hal reset-defaults")).board;
    HandleKeepsReady(b, Tokens("SET hal reset-defaults"));
    ResetServed(b);
    SessionKeepsWipe(wiped, lines);
    var last := Served(wiped, lines);
    RebootServed(last);
    NoMagicNoLoad(last.eeprom);
    BeginImplements(last.eeprom, None);
    LoadInvertsRecord(Begin(last.eeprom).eeprom, Defaults());
    DefaultsOk();
  }

  // ----- single commands, through the next boot -------------------------------------------------

  /** The board runs what its EEPROM holds. */
  predicate Settled(b: Board) { |b.eeprom| >= RECORD_BYTES && MapOk(b.live) && Holds(b.eeprom, b.live) }

  lemma StageThenBoot(b: Board, op: Op)
    requires Settled(b) && Accepted(op) && (op.StagePin? || op.StageFlags?)
    ensures Do(b, op).live == b.live && Ready(Do(b, op))
    ensures Do(Do(b, op), Reboot).live == Assign(b.live, op)
  {
    var s := Simple(b.live, b.source, Some(b.live));
    StepImplements(b, s, op);
    StepImplements(Do(b, op), DoSimple(s, op), Reboot);
  }

  lemma RefusedThenBoot(b: Board, op: Op)
    requires Settled(b) && !Accepted(op)
    ensures Do(b, op) == b && Do(b, Reboot).live == b.live
  {
    LoadInvertsRecord(b.eeprom, b.live);
  }

  lemma RebootBoots(b: Board)
    requires Ready(b)
    ensures Handle(b, Tokens("SET hal reboot")).board == Do(b, Reboot)
  {
    RebootServed(b);
  }

  lemma PinStages(b: Board, i: nat, n: byte)
    requires Settled(b) && i < PIN_COUNT
    ensures Handle(b, Tokens(PinCommand(i, n))).board == Do(b, StagePin(i, n))
  {
    PinCommandServed(b, i, n);
  }

  lemma FlagStages(b: Board, i: nat, m: byte)
    requires Settled(b) && i < PIN_COUNT
    ensures Handle(b, Tokens(FlagCommand(i, m))).board == Do(b, StageFlags(i, m))
  {
    FlagCommandServed(b, i, m);
  }

  /** What the next boot makes of a board that has handled one command. */
  ghost predicate BootsInto(b: Board, line: string, m: PinMap)
    requires Ready(b)
  {
    var staged := Handle(b, Tokens(line)).board;
    && staged.live == b.live && Ready(staged)
    && Handle(staged, Tokens("SET hal reboot")).board.live == m
  }

  /**
   * The printed SET hal pin changes nothing until the reboot, and then exactly the entry of that
   * name, exactly if the number is in 2..69.
   */
  lemma PinCommandTakesEffect(b: Board, i: nat, n: byte)
    requires Settled(b) && i < PIN_COUNT
    ensures BootsInto(b, PinCommand(i, n),
                      if 2 <= n <= 69 then PinMap(b.live.pins[i := n], b.live.flags) else b.live)
  {
    hide Handle, Tokens, PinCommand, Do;
    PinStages(b, i, n);
    if PinOk(n) {
      StageThenBoot(b, StagePin(i, n));
    } else {
      RefusedThenBoot(b, StagePin(i, n));
    }
    RebootBoots(Do(b, StagePin(i, n)));
  }

  lemma FlagCommandTakesEffect(b: Board, i: nat, m: byte)
    requires Settled(b) && i < PIN_COUNT
    ensures BootsInto(b, FlagCommand(i, m), PinMap(b.live.pins, b.live.flags[i := m]))
  {
    hide Handle, Tokens, FlagCommand, Do;
    FlagStages(b, i, m);
    StageThenBoot(b, StageFlags(i, m));
    RebootBoots(Do(b, StageFlags(i, m)));
  }

  /** Whatever the words: a reply that begins with "!" means that nothing has changed. */
  lemma RefusalChangesNothing(b: Board, ts: seq<string>)
    requires Ready(b)
    ensures var e := Handle(b, ts);
            e.out != [] && e.out[0] != "" && e.out[0][0] == '!' ==> e.board == b
  {
    if |ts| >= 5 {
      forall n: byte
        ensures PinStaged(ts[3], n)[0] == '>' && FlagStaged(ts[3], n)[0] == '>'
      {
        StagedReplies(ts[3], n);
      }
    }
    FixedReplies();
    hide PinStaged, FlagStaged, Do, IdOf, Strtol, Mask;
  }

  lemma FixedReplies()
    ensures ("> " + "hal reset-defaults staged (reboot to apply)")[0] == '>' && "> hal reboot"[0] == '>'
  {
  }

  lemma StagedReplies(name: string, n: byte)
    ensures PinStaged(name, n)[0] == '>' && FlagStaged(name, n)[0] == '>'
  {
    assert "> hal staged pin "[0] == '>' && "> hal staged flag "[0] == '>';
    FrontStays("> hal staged pin ", name, " " + Numeral(n) + " (reboot to apply)");
    assert PinStaged(name, n) == "> hal staged pin " + name + (" " + Numeral(n) + " (reboot to apply)");
    FrontStays("> hal staged flag ", name, " 0x" + Hex2(n) + " (reboot to apply)");
    assert FlagStaged(name, n) == "> hal staged flag " + name + (" 0x" + Hex2(n) + " (reboot to apply)");
  }

  lemma FrontStays(a: string, b: string, c: string)
    requires a != []
    ensures (a + b + c)[0] == a[0]
  {
  }

  /** GET hal source tells where the live map came from. */
  lemma SourceTold(b: Board, ts: seq<string>)
    requires Ready(b) && |ts| >= 3 && ts[0] == "GET" && ts[2] == "source"
    ensures Handle(b, ts).out == [if b.source == EEPROM then "> hal source eeprom" else "> hal source defaults"]
  {
    assert |ts[2]| == 6 && |"map"| == 3;
    assert "> hal source " + "eeprom" == "> hal source eeprom";
    assert "> hal source " + "defaults" == "> hal source defaults";
  }

  /** And a GET never changes anything. */
  lemma GetChangesNothing(b: Board, ts: seq<string>)
    requires Ready(b) && ts != [] && ts[0] == "GET"
    ensures Handle(b, ts).board == b
  {
  }

  // ----- the compiled tables, as hal.cpp lists them -----------------------------------------------

  lemma DefaultTable()
    ensures Defaults().pins == [44, 45, 46, 47, 48, 49, 56, 57, 58, 59, 60, 61,
                                26, 27, 28, 29, 30, 31, 32, 33, 34, 35, 36, 37, 38, 39, 40,
                                22, 23, 24, 25, 54, 5, 2, 3, 4, 6, 7, 8, 9, 53, 10]
    ensures forall i :: 0 <= i < 42 ==> Defaults().flags[i] == 0
  {
  }

  lemma NameTable()
    ensures Name(0) == "vfd0_rs" && Name(1) == "vfd0_en" && Name(2) == "vfd0_d4" && Name(5) == "vfd0_d7"
    ensures Name(6) == "vfd1_rs" && Name(7) == "vfd1_en" && Name(8) == "vfd1_d4" && Name(11) == "vfd1_d7"
    ensures Name(12) == "button_0" && Name(21) == "button_9" && Name(22) == "led_0" && Name(25) == "led_3"
    ensures Name(26) == "ws_data" && Name(27) == "relay_0" && Name(30) == "relay_3" && Name(31) == "ldr_0"
    ensures Name(32) == "buzzer" && Name(33) == "enc0_a" && Name(34) == "enc0_b" && Name(35) == "enc0_sw"
    ensures Name(36) == "servo_0" && Name(39) == "servo_3" && Name(40) == "glcd_cs" && Name(41) == "glcd_reset"
  {
  }

  // ----- the formats, written out -----------------------------------------------------------------

  /** The record in EEPROM: magic, version and count, then pin and flags by turns, then the checksum, low byte first. */
  lemma RecordLayout(e: seq<byte>, m: PinMap)
    requires |e| >= RECORD_BYTES && Holds(e, m)
    ensures e[0] == 0x43 && e[1] == 0x52 && e[2] == 0x45 && e[3] == 0x5A && e[4] == 5 && e[5] == 42
    ensures forall i :: 0 <= i < 42 ==> e[6 + 2 * i] == m.pins[i] && e[7 + 2 * i] == m.flags[i]
    ensures Crc16(e[..90]) % 256 == e[90] && Crc16(e[..90]) / 256 == e[91]
  {
    RecordParts(e, m);
    hide Crc16, Holds;
    HeaderBytes(e);
    EntryBytes(e, m);
    ChecksumBytes(e);
  }

  lemma HeaderBytes(e: seq<byte>)
    requires |e| >= PAYLOAD_BYTES && HeaderOk(e)
    ensures e[0] == 0x43 && e[1] == 0x52 && e[2] == 0x45 && e[3] == 0x5A && e[4] == 5 && e[5] == 42
  {
    assert e[0] == HeaderByte(0) && e[1] == HeaderByte(1) && e[2] == HeaderByte(2);
    assert e[3] == HeaderByte(3) && e[4] == HeaderByte(4) && e[5] == HeaderByte(5);
  }

  lemma EntryBytes(e: seq<byte>, m: PinMap)
    requires |e| >= PAYLOAD_BYTES && MapIn(e) == m
    ensures |m.pins| == |m.flags| == 42
    ensures forall i :: 0 <= i < 42 ==> e[6 + 2 * i] == m.pins[i] && e[7 + 2 * i] == m.flags[i]
  {
    forall i | 0 <= i < 42
      ensures e[6 + 2 * i] == m.pins[i] && e[7 + 2 * i] == m.flags[i]
    {
      assert MapIn(e).pins[i] == e[6 + 2 * i] && MapIn(e).flags[i] == e[7 + 2 * i];
    }
  }

  lemma ChecksumBytes(e: seq<byte>)
    requires |e| >= RECORD_BYTES && CrcOk(e)
    ensures Crc16(e[..90]) % 256 == e[90] && Crc16(e[..90]) / 256 == e[91]
  {
    WordOfLoHi(e[90], e[91]);
    hide Crc16;
  }

  /** "> hal pin %u %s %u 0x%02x" and the header in front of the list. */
  lemma MapFormat(b: Board, i: nat)
    requires Sized(b.live) && i < PIN_COUNT
    ensures |MapLines(b)| == 43
    ensures MapLines(b)[0] ==
            "> " + ("hal" + " " + ("map" + " " + ("source=" + (if b.source == EEPROM then "eeprom" else "defaults")
                                                  + " " + ("count=" + Numeral(42)))))
    ensures MapLines(b)[1 + i] ==
            "> " + ("hal" + " " + ("pin" + " " + (Numeral(i) + " " + (Name(i) + " " +
            (Numeral(b.live.pins[i]) + " " + ("0x" + Hex2(b.live.flags[i])))))))
  {
    hide Numeral, Hex2, Name;
    var n, x, p, f := Numeral(i), Name(i), Numeral(b.live.pins[i]), "0x" + Hex2(b.live.flags[i]);
    assert ["hal", "pin"] + [n, x, p, f] == ["hal"] + (["pin"] + ([n] + ([x] + ([p] + [f]))));
    JoinedMore("hal", ["pin"] + ([n] + ([x] + ([p] + [f]))));
    JoinedMore("pin", [n] + ([x] + ([p] + [f])));
    JoinedMore(n, [x] + ([p] + [f]));
    JoinedMore(x, [p] + [f]);
    JoinedMore(p, [f]);
    var s, c := "source=" + SourceName(b.source), "count=" + Numeral(PIN_COUNT);
    assert ["hal", "map", s, c] == ["hal"] + (["map"] + ([s] + [c]));
    JoinedMore("hal", ["map"] + ([s] + [c]));
    JoinedMore("map", [s] + [c]);
    JoinedMore(s, [c]);
  }

  /** The flag argument in its three notations: 0x and two digits, 0b and binary digits, or decimal digits. */
  lemma HexMask(d: string)
    requires |d| == 2 && AllDigits(d, 16)
    ensures Mask("0x" + d) == Mask("0X" + d) == Some(Value(d, 16))
  {
    StrtolDigits(d, 16);
    TwoHexDigits(d);
    hide Strtol, Value, AllDigits;
    FrontCut("0x", d);
    FrontCut("0X", d);
  }

  lemma BinaryMask(d: string)
    requires d != [] && AllDigits(d, 2)
    ensures Mask("0b" + d) == Mask("0B" + d) == Some(Clamp32(Value(d, 2)))
  {
    StrtolDigits(d, 2);
    hide Strtol, Value, AllDigits, Clamp32;
    FrontCut("0b", d);
    FrontCut("0B", d);
  }

  lemma DecimalMask(d: string)
    requires d != [] && AllDigits(d, 10)
    ensures Mask(d) == Some(Clamp32(Value(d, 10)))
  {
    StrtolDigits(d, 10);
    assert |d| > 1 ==> d[1] in d;
    hide Strtol, Value;
  }

  lemma FrontCut(a: string, d: string)
    requires |a| == 2
    ensures (a + d)[2..] == d && (a + d)[0] == a[0] && (a + d)[1] == a[1]
  {
  }

  lemma TwoHexDigits(d: string)
    requires |d| == 2 && AllDigits(d, 16)
    ensures Value(d, 16) < 256
  {
    assert d[0] in d && d[1] in d;
    assert d[..1] == [d[0]] && [d[0]][..0] == [];
    assert Value(d[..1], 16) == DigitValue(d[0]);
  }
}
