/**
 * The HAL's protocol surface (firmware/io/src/subsystems/hal_subsystem.cpp): commands as lists of
 * words in, lines of text out, over the pin map of module Hal.
 */
module HalProtocol {
  import opened Bytes
  import opened Text
  import opened Hal
  import opened HalNames

  const MAX_TOKENS := 8

  /** What a command leaves: the board after it, and the lines it printed, without their newlines. */
  datatype Effect = Effect(board: Board, out: seq<string>)

  function Tokens(line: string): seq<string> {
    var ws := Words(Firmware, line);
    ws[..Min(|ws|, MAX_TOKENS)]
  }

  function SourceName(s: Source): string { if s == EEPROM then "eeprom" else "defaults" }

  function MapHeader(source: Source): string {
    "> " + Joined(["hal", "map", "source=" + SourceName(source), "count=" + Numeral(PIN_COUNT)])
  }

  function PinWords(m: PinMap, i: nat): seq<string>
    requires Sized(m) && i < PIN_COUNT
  {
    [Numeral(i), Name(i), Numeral(m.pins[i]), "0x" + Hex2(m.flags[i])]
  }

  function PinLine(m: PinMap, i: nat): string
    requires Sized(m) && i < PIN_COUNT
  {
    "> " + Joined(["hal", "pin"] + PinWords(m, i))
  }

  /** emitMap: a header and one line an entry. */
  function MapLines(b: Board): seq<string>
    requires Sized(b.live)
  {
    [MapHeader(b.source)] + seq(PIN_COUNT, i requires 0 <= i < PIN_COUNT => PinLine(b.live, i))
  }

  function HalError(message: string): seq<string> { ["! hal " + message] }

  function HandleGet(b: Board, ts: seq<string>): seq<string>
    requires Sized(b.live)
  {
    if |ts| < 3 || ts[2] == "map" then MapLines(b)
    else if ts[2] == "source" then ["> hal source " + SourceName(b.source)]
    else HalError("unknown-get")
  }

  function SetPin(b: Board, ts: seq<string>): Effect
    requires |b.eeprom| >= RECORD_BYTES
  {
    if |ts| < 5 then Effect(b, HalError("usage:set hal pin <name> <num>"))
    else if IdOf(ts[3]).None? then Effect(b, HalError("unknown-pin-name"))
    else
      match Strtol(ts[4], 10)
      case None => Effect(b, HalError("invalid-pin-number"))
      case Some(n) =>
        if n < 0 || n > 255 then Effect(b, HalError("pin-out-of-range"))
        else if !PinOk(n) then Effect(b, HalError("stage-failed"))
        else Effect(Do(b, StagePin(IdOf(ts[3]).value, n)), [PinStaged(ts[3], n)])
  }

  function PinStaged(name: string, n: byte): string {
    "> hal staged pin " + name + " " + Numeral(n) + " (reboot to apply)"
  }

  /** The bitmask argument: hex after 0x, binary after 0b, else decimal. */
  function Mask(s: string): Option<int> {
    if |s| > 1 && s[0] == '0' && (s[1] == 'x' || s[1] == 'X') then Strtol(s[2..], 16)
    else if |s| > 1 && s[0] == '0' && (s[1] == 'b' || s[1] == 'B') then Strtol(s[2..], 2)
    else Strtol(s, 10)
  }

  function SetFlag(b: Board, ts: seq<string>): Effect
    requires |b.eeprom| >= RECORD_BYTES
  {
    if |ts| < 5 then Effect(b, HalError("usage:set hal flag <name> <bitmask>"))
    else if IdOf(ts[3]).None? then Effect(b, HalError("unknown-pin-name"))
    else
      match Mask(ts[4])
      case None => Effect(b, HalError("invalid-bitmask"))
      case Some(m) =>
        if m < 0 || m > 255 then Effect(b, HalError("bitmask-out-of-range"))
        else Effect(Do(b, StageFlags(IdOf(ts[3]).value, m)), [FlagStaged(ts[3], m)])
  }

  function FlagStaged(name: string, m: byte): string {
    "> hal staged flag " + name + " 0x" + Hex2(m) + " (reboot to apply)"
  }

  /** A reboot answers, then restarts the board from its EEPROM. */
  function HandleSet(b: Board, ts: seq<string>): Effect
    requires |b.eeprom| >= RECORD_BYTES
  {
    if |ts| < 3 then Effect(b, HalError("missing-param"))
    else if ts[2] == "pin" then SetPin(b, ts)
    else if ts[2] == "flag" then SetFlag(b, ts)
    else if ts[2] == "reset-defaults" then
      Effect(Do(b, ResetDefaults), ["> " + "hal reset-defaults staged (reboot to apply)"])
    else if ts[2] == "reboot" then Effect(Do(b, Reboot), ["> hal reboot"])
    else Effect(b, HalError("unknown-set"))
  }

  /** handle, for a command whose target is the HAL; any other verb is refused by the dispatcher. */
  function Handle(b: Board, ts: seq<string>): Effect
    requires Sized(b.live) && |b.eeprom| >= RECORD_BYTES
  {
    if ts == [] then Effect(b, [])
    else if ts[0] == "GET" then Effect(b, HandleGet(b, ts))
    else if ts[0] == "SET" then HandleSet(b, ts)
    else Effect(b, HalError("unknown-command"))
  }

  // ----- the object ---------------------------------------------------------------------------

  class HalSubsystem {
    const hal: PinHal
    var out: seq<string>

    ghost predicate Valid()
      reads this, hal
    {
      hal.Valid()
    }

    constructor (hal: PinHal)
      requires hal.Valid()
      ensures Valid() && this.hal == hal && out == []
    {
      this.hal := hal;
      out := [];
    }

    method Print(line: string)
      modifies this
      ensures out == old(out) + [line]
    {
      out := out + [line];
    }

    method EmitMap()
      requires Valid()
      modifies this
      ensures Valid() && out == old(out) + MapLines(hal.View())
    {
      Print(MapHeader(hal.source));
      ghost var b := hal.View();
      for i := 0 to PIN_COUNT
        invariant Valid() && hal.View() == b
        invariant out == old(out) + MapLines(b)[..1 + i]
      {
        var pin := hal.Pin(i);
        var flags := hal.Flags(i);
        Print("> " + Joined(["hal", "pin"] + [Numeral(i), Name(i), Numeral(pin), "0x" + Hex2(flags)]));
        assert MapLines(b)[..1 + (i + 1)] == MapLines(b)[..1 + i] + [PinLine(b.live, i)];
      }
      assert MapLines(b)[..1 + PIN_COUNT] == MapLines(b);
    }

    method PrintError(message: string)
      modifies this
      ensures out == old(out) + HalError(message)
    {
      Print("! hal " + message);
    }

    method HandleGetCommand(ts: seq<string>)
      requires Valid()
      modifies this
      ensures Valid() && out == old(out) + HandleGet(hal.View(), ts)
    {
      if |ts| < 3 || ts[2] == "map" {
        EmitMap();
      } else if ts[2] == "source" {
        Print("> hal source " + SourceName(hal.source));
      } else {
        PrintError("unknown-get");
      }
    }

    method SetPinCommand(ts: seq<string>)
      requires Valid()
      modifies this, hal.eeprom
      ensures Valid() && Effect(hal.View(), out) == After(old(out), SetPin(old(hal.View()), ts))
    {
      if |ts| < 5 {
        PrintError("usage:set hal pin <name> <num>");
        return;
      }
      var id := PinIdByName(ts[3]);
      if id.None? {
        PrintError("unknown-pin-name");
        return;
      }
      var n := Strtol(ts[4], 10);
      if n.None? {
        PrintError("invalid-pin-number");
        return;
      }
      if n.value < 0 || n.value > 255 {
        PrintError("pin-out-of-range");
        return;
      }
      var ok := hal.DoStagePin(id.value, n.value);
      if !ok {
        PrintError("stage-failed");
        return;
      }
      Print(PinStaged(ts[3], n.value));
    }

    method SetFlagCommand(ts: seq<string>)
      requires Valid()
      modifies this, hal.eeprom
      ensures Valid() && Effect(hal.View(), out) == After(old(out), SetFlag(old(hal.View()), ts))
    {
      if |ts| < 5 {
        PrintError("usage:set hal flag <name> <bitmask>");
        return;
      }
      var id := PinIdByName(ts[3]);
      if id.None? {
        PrintError("unknown-pin-name");
        return;
      }
      var m := Mask(ts[4]);
      if m.None? {
        PrintError("invalid-bitmask");
        return;
      }
      if m.value < 0 || m.value > 255 {
        PrintError("bitmask-out-of-range");
        return;
      }
      var ok := hal.DoStageFlags(id.value, m.value);
      Print(FlagStaged(ts[3], m.value));
    }

    method HandleSetCommand(ts: seq<string>)
      requires Valid()
      modifies this, hal, hal.eeprom, hal.pins, hal.flags
      ensures Valid() && Effect(hal.View(), out) == After(old(out), HandleSet(old(hal.View()), ts))
    {
      if |ts| < 3 {
        PrintError("missing-param");
      } else if ts[2] == "pin" {
        SetPinCommand(ts);
      } else if ts[2] == "flag" {
        SetFlagCommand(ts);
      } else if ts[2] == "reset-defaults" {
        hal.DoResetDefaults();
        Print("> " + "hal reset-defaults staged (reboot to apply)");
      } else if ts[2] == "reboot" {
        Print("> hal reboot");
        hal.Boot();
      } else {
        PrintError("unknown-set");
      }
    }

    method HandleCommand(ts: seq<string>)
      requires Valid()
      modifies this, hal, hal.eeprom, hal.pins, hal.flags
      ensures Valid() && Effect(hal.View(), out) == After(old(out), Handle(old(hal.View()), ts))
    {
      assert out + [] == out;
      if ts == [] {
        return;
      }
      if ts[0] == "GET" {
        HandleGetCommand(ts);
      } else if ts[0] == "SET" {
        HandleSetCommand(ts);
      } else {
        PrintError("unknown-command");
      }
    }
  }

  /** The board an effect leaves, with its lines after those already printed. */
  function After(out: seq<string>, e: Effect): Effect { Effect(e.board, out + e.out) }

  // ----- what the lines mean to each other ------------------------------------------------------

  /** No line outgrows the 64-byte buffers they are printed into. */
  lemma LinesFit(b: Board, i: nat)
    requires Sized(b.live) && i < PIN_COUNT
    ensures |PinLine(b.live, i)| - 2 < 64 && |MapHeader(b.source)| - 2 < 64
    ensures forall n: byte :: |PinStaged(Name(i), n)| - 2 < 64
    ensures forall m: byte :: |FlagStaged(Name(i), m)| - 2 < 64
  {
    RankOfName(i);
    forall n: byte
      ensures |Numeral(n)| <= 3
    {
      NumeralLength(n);
    }
    FourWords(Numeral(i), Name(i), Numeral(b.live.pins[i]), "0x" + Hex2(b.live.flags[i]));
    HeaderLength(b.source);
  }

  lemma JoinedMore(w: string, ws: seq<string>)
    requires ws != []
    ensures Joined([w] + ws) == w + " " + Joined(ws)
  {
    assert ([w] + ws)[1..] == ws;
  }

  lemma FourWords(w: string, x: string, y: string, z: string)
    ensures |Joined(["hal", "pin"] + [w, x, y, z])| == 8 + |w| + 1 + |x| + 1 + |y| + 1 + |z|
  {
    assert ["hal", "pin"] + [w, x, y, z] == ["hal"] + (["pin"] + ([w] + ([x] + ([y] + [z]))));
    JoinedMore("hal", ["pin"] + ([w] + ([x] + ([y] + [z]))));
    JoinedMore("pin", [w] + ([x] + ([y] + [z])));
    JoinedMore(w, [x] + ([y] + [z]));
    JoinedMore(x, [y] + [z]);
    JoinedMore(y, [z]);
  }

  lemma HeaderLength(source: Source)
    ensures |MapHeader(source)| < 64
  {
    NumeralLength(PIN_COUNT);
    var s, c := "source=" + SourceName(source), "count=" + Numeral(PIN_COUNT);
    assert ["hal", "map", s, c] == ["hal"] + (["map"] + ([s] + [c]));
    JoinedMore("hal", ["map"] + ([s] + [c]));
    JoinedMore("map", [s] + [c]);
    JoinedMore(s, [c]);
  }

  lemma NumeralIsWord(n: nat, b: Blanks)
    ensures IsWord(b, Numeral(n))
  {
    NumeralReadsBack(n);
    DigitsAreWords(Numeral(n), 10, b);
  }

  lemma DigitsAreWords(s: string, base: nat, b: Blanks)
    requires s != [] && AllDigits(s, base) && base <= 16
    ensures IsWord(b, s)
  {
    forall k | 0 <= k < |s|
      ensures !IsBlank(b, s[k])
    {
      assert s[k] in s;
    }
  }

  lemma HexIsWord(v: byte, b: Blanks)
    ensures IsWord(b, "0x" + Hex2(v))
  {
    Hex2ReadsBack(v);
    DigitsAreWords(Hex2(v), 16, b);
  }

  /** The commands the configurator sends. */
  function PinCommand(i: nat, n: byte): string
    requires i < PIN_COUNT
  {
    Joined(["SET", "hal", "pin", Name(i), Numeral(n)])
  }

  function FlagCommand(i: nat, m: byte): string
    requires i < PIN_COUNT
  {
    Joined(["SET", "hal", "flag", Name(i), "0x" + Hex2(m)])
  }

  lemma WordsAreTokens(ws: seq<string>)
    requires |ws| <= MAX_TOKENS && forall w :: w in ws ==> IsWord(Firmware, w)
    ensures Tokens(Joined(ws)) == ws
  {
    WordsOfJoined(Firmware, ws);
  }

  /** A printed SET hal pin is tokenised, looked up and scanned back into the very staging it asks for. */
  lemma PinCommandServed(b: Board, i: nat, n: byte)
    requires Sized(b.live) && |b.eeprom| >= RECORD_BYTES && i < PIN_COUNT
    ensures Handle(b, Tokens(PinCommand(i, n))) ==
            Effect(Do(b, StagePin(i, n)), if PinOk(n) then [PinStaged(Name(i), n)] else HalError("stage-failed"))
  {
    NameIsWord(i, Firmware);
    NumeralIsWord(n, Firmware);
    WordsAreTokens(["SET", "hal", "pin", Name(i), Numeral(n)]);
    PinWordsHandled(b, i, n);
  }

  lemma PinWordsHandled(b: Board, i: nat, n: byte)
    requires Sized(b.live) && |b.eeprom| >= RECORD_BYTES && i < PIN_COUNT
    ensures Handle(b, ["SET", "hal", "pin", Name(i), Numeral(n)]) ==
            Effect(Do(b, StagePin(i, n)), if PinOk(n) then [PinStaged(Name(i), n)] else HalError("stage-failed"))
  {
    IdOfName(i);
    NumeralReadsBack(n);
    StrtolDigits(Numeral(n), 10);
  }

  lemma FlagCommandServed(b: Board, i: nat, m: byte)
    requires Sized(b.live) && |b.eeprom| >= RECORD_BYTES && i < PIN_COUNT
    ensures Handle(b, Tokens(FlagCommand(i, m))) == Effect(Do(b, StageFlags(i, m)), [FlagStaged(Name(i), m)])
  {
    NameIsWord(i, Firmware);
    HexIsWord(m, Firmware);
    WordsAreTokens(["SET", "hal", "flag", Name(i), "0x" + Hex2(m)]);
    FlagWordsHandled(b, i, m);
  }

  lemma FlagWordsHandled(b: Board, i: nat, m: byte)
    requires Sized(b.live) && |b.eeprom| >= RECORD_BYTES && i < PIN_COUNT
    ensures Handle(b, ["SET", "hal", "flag", Name(i), "0x" + Hex2(m)]) ==
            Effect(Do(b, StageFlags(i, m)), [FlagStaged(Name(i), m)])
  {
    IdOfName(i);
    Hex2ReadsBack(m);
    StrtolDigits(Hex2(m), 16);
    assert ("0x" + Hex2(m))[2..] == Hex2(m);
  }

  lemma QueryServed(b: Board)
    requires Sized(b.live) && |b.eeprom| >= RECORD_BYTES
    ensures Handle(b, Tokens("GET hal map")) == Effect(b, MapLines(b))
  {
    ThreeWords("GET", "hal", "map");
    assert "GET" + " " + "hal" + " " + "map" == "GET hal map";
    QueryHandled(b, ["GET", "hal", "map"]);
  }

  lemma QueryHandled(b: Board, ts: seq<string>)
    requires Sized(b.live) && |b.eeprom| >= RECORD_BYTES && |ts| >= 3 && ts[0] == "GET" && ts[2] == "map"
    ensures Handle(b, ts) == Effect(b, MapLines(b))
  {
    assert HandleGet(b, ts) == MapLines(b);
  }

  lemma RebootServed(b: Board)
    requires Sized(b.live) && |b.eeprom| >= RECORD_BYTES
    ensures Handle(b, Tokens("SET hal reboot")) == Effect(Do(b, Reboot), ["> hal reboot"])
  {
    ThreeWords("SET", "hal", "reboot");
    assert "SET" + " " + "hal" + " " + "reboot" == "SET hal reboot";
    RebootHandled(b, ["SET", "hal", "reboot"]);
  }

  lemma RebootHandled(b: Board, ts: seq<string>)
    requires Sized(b.live) && |b.eeprom| >= RECORD_BYTES && |ts| >= 3 && ts[0] == "SET" && ts[2] == "reboot"
    ensures Handle(b, ts) == Effect(Do(b, Reboot), ["> hal reboot"])
  {
    assert |ts[2]| == 6 && |"pin"| == 3 && |"flag"| == 4 && |"reset-defaults"| == 14;
    assert ts[2] != "pin" && ts[2] != "flag" && ts[2] != "reset-defaults";
    assert ts[0] != "GET" by { assert ts[0][0] == 'S'; }
    assert HandleSet(b, ts) == Effect(Do(b, Reboot), ["> hal reboot"]);
  }

  lemma ThreeWords(x: string, y: string, z: string)
    requires IsWord(Firmware, x) && IsWord(Firmware, y) && IsWord(Firmware, z)
    ensures Tokens(x + " " + y + " " + z) == [x, y, z]
  {
    assert [x, y, z] == [x] + ([y] + [z]);
    JoinedMore(x, [y] + [z]);
    JoinedMore(y, [z]);
    assert x + " " + (y + " " + z) == x + " " + y + " " + z;
    WordsAreTokens([x, y, z]);
  }
}
