/**
 * The configurator's -apply mode (tools/zerotx-iohal-config/main.go) against the board: what a
 * run leaves live, and exactly when it reports success.
 */
module Configurator {
  import opened Bytes
  import opened Text
  import opened Hal
  import opened HalNames
  import opened HalProtocol
  import opened MapQuery

  datatype PinConfig = PinConfig(pin: byte, activeLow: bool)

  type Config = map<string, PinConfig>

  /** FlagBitActiveLow or nothing. */
  function WantedFlags(c: PinConfig): byte { if c.activeLow then 1 else 0 }

  datatype Change = Change(name: string, pinChanged: bool, flagChanged: bool, newPin: byte, newFlags: byte)

  function ChangeFor(e: Entry, c: PinConfig): Change {
    Change(e.name, c.pin != e.pin, WantedFlags(c) != e.flags, c.pin, WantedFlags(c))
  }

  predicate Needed(ch: Change) { ch.pinChanged || ch.flagChanged }

  /** The changes for a list of entries, in their order. */
  function Plan(es: seq<Entry>, cfg: Config): seq<Change> {
    if es == [] then []
    else
      var n := |es| - 1;
      Plan(es[..n], cfg) +
      if es[n].name in cfg && Needed(ChangeFor(es[n], cfg[es[n].name])) then [ChangeFor(es[n], cfg[es[n].name])] else []
  }

  /** Every configured name exists on the board. */
  predicate Known(cfg: Config) { forall name :: name in cfg ==> IdOf(name).Some? }

  /** Every configured pin number is one the firmware accepts. */
  predicate Legal(cfg: Config) { forall name :: name in cfg ==> PinOk(cfg[name].pin) }

  /** What a configuration asks of each entry. */
  type Asks = a: seq<Option<PinConfig>> | |a| == 42 witness seq(42, _ => None)

  function AsksOf(cfg: Config): Asks {
    seq(42, i requires 0 <= i < 42 => if Name(i) in cfg then Some(cfg[Name(i)]) else None)
  }

  function NewPin(was: byte, c: Option<PinConfig>): byte {
    if c.Some? && PinOk(c.value.pin) then c.value.pin else was
  }

  function NewFlags(was: byte, c: Option<PinConfig>): byte {
    if c.Some? then WantedFlags(c.value) else was
  }

  /**
   * The map a configuration makes of m: every configured flag byte, and every configured pin
   * number the firmware accepts; everything else as it was.
   */
  function Merged(m: PinMap, asks: Asks): PinMap
    requires Sized(m)
  {
    PinMap(seq(PIN_COUNT, i requires 0 <= i < PIN_COUNT => NewPin(m.pins[i], asks[i])),
           seq(PIN_COUNT, i requires 0 <= i < PIN_COUNT => NewFlags(m.flags[i], asks[i])))
  }

  // ----- what the pushed commands stage ---------------------------------------------------------

  /** The commands of one change, applied to entry id of the staged map. */
  function PushAt(m: PinMap, id: nat, ch: Change): PinMap
    requires Sized(m) && id < PIN_COUNT
  {
    var m' := if ch.pinChanged && PinOk(ch.newPin) then m.(pins := m.pins[id := ch.newPin]) else m;
    if ch.flagChanged then m'.(flags := m'.flags[id := ch.newFlags]) else m'
  }

  function Push(m: PinMap, ch: Change): (r: PinMap)
    requires Sized(m)
    ensures Sized(r)
  {
    var id := IdOf(ch.name);
    if id.Some? then PushAt(m, id.value, ch) else m
  }

  function PushAll(m: PinMap, chs: seq<Change>): (r: PinMap)
    requires Sized(m)
    ensures Sized(r)
  {
    if chs == [] then m else Push(PushAll(m, chs[..|chs| - 1]), chs[|chs| - 1])
  }

  /** What pushing leaves in an entry that was live as `was` and staged as `staged`. */
  function PushedPin(staged: byte, was: byte, c: Option<PinConfig>): byte {
    if c.Some? && c.value.pin != was && PinOk(c.value.pin) then c.value.pin else staged
  }

  function PushedFlags(staged: byte, was: byte, c: Option<PinConfig>): byte {
    if c.Some? && WantedFlags(c.value) != was then WantedFlags(c.value) else staged
  }

  /** Pushed for the first i entries, as staged from there on. */
  function PartPushed(s: PinMap, m: PinMap, asks: Asks, i: nat): PinMap
    requires Sized(s) && Sized(m) && i <= PIN_COUNT
  {
    PinMap(seq(PIN_COUNT, k requires 0 <= k < PIN_COUNT =>
                            if k < i then PushedPin(s.pins[k], m.pins[k], asks[k]) else s.pins[k]),
           seq(PIN_COUNT, k requires 0 <= k < PIN_COUNT =>
                            if k < i then PushedFlags(s.flags[k], m.flags[k], asks[k]) else s.flags[k]))
  }

  /** The map staged by a run over a board that runs m with s staged. */
  function Pushed(s: PinMap, m: PinMap, asks: Asks): PinMap
    requires Sized(s) && Sized(m)
  {
    PartPushed(s, m, asks, PIN_COUNT)
  }

  /** The change one entry needs, if it needs one. */
  function ChangeOf(e: Entry, c: Option<PinConfig>): Option<Change> {
    if c.Some? && Needed(ChangeFor(e, c.value)) then Some(ChangeFor(e, c.value)) else None
  }

  lemma OneMoreEntry(s: PinMap, m: PinMap, asks: Asks, i: nat, name: string)
    requires Sized(s) && Sized(m) && i < PIN_COUNT
    ensures var ch := ChangeOf(Entry(i, name, m.pins[i], m.flags[i]), asks[i]);
            PartPushed(s, m, asks, i + 1) ==
            if ch.Some? then PushAt(PartPushed(s, m, asks, i), i, ch.value) else PartPushed(s, m, asks, i)
  {
    var part, next := PartPushed(s, m, asks, i), PartPushed(s, m, asks, i + 1);
    var ch := ChangeOf(Entry(i, name, m.pins[i], m.flags[i]), asks[i]);
    var r := if ch.Some? then PushAt(part, i, ch.value) else part;
    assert next.pins == r.pins && next.flags == r.flags;
  }

  lemma {:induction false} PlanPushes(s: PinMap, m: PinMap, cfg: Config, i: nat)
    requires Sized(s) && Sized(m) && i <= PIN_COUNT
    ensures PushAll(s, Plan(EntriesOf(m)[..i], cfg)) == PartPushed(s, m, AsksOf(cfg), i)
  {
    if i == 0 {
      var part := PartPushed(s, m, AsksOf(cfg), 0);
      assert part.pins == s.pins && part.flags == s.flags;
      assert EntriesOf(m)[..0] == [];
    } else {
      PlanPushes(s, m, cfg, i - 1);
      OneMoreEntry(s, m, AsksOf(cfg), i - 1, Name(i - 1));
      PrefixStep(s, m, cfg, i - 1);
    }
  }

  /** One more entry considered. */
  lemma PrefixStep(s: PinMap, m: PinMap, cfg: Config, i: nat)
    requires Sized(s) && Sized(m) && i < PIN_COUNT
    ensures var ch, part := ChangeOf(EntryOf(m, i), AsksOf(cfg)[i]), PushAll(s, Plan(EntriesOf(m)[..i], cfg));
            && Plan(EntriesOf(m)[..i + 1], cfg) == Plan(EntriesOf(m)[..i], cfg) + OptSeq(ch)
            && PushAll(s, Plan(EntriesOf(m)[..i + 1], cfg)) == if ch.Some? then PushAt(part, i, ch.value) else part
  {
    var es, ch := EntriesOf(m)[..i + 1], ChangeOf(EntryOf(m, i), AsksOf(cfg)[i]);
    assert es[..i] == EntriesOf(m)[..i] && es[i] == EntryOf(m, i);
    IdOfName(i);
    PushStep(s, Plan(EntriesOf(m)[..i], cfg), ch, i);
  }

  lemma PushStep(m: PinMap, before: seq<Change>, ch: Option<Change>, id: nat)
    requires Sized(m) && id < PIN_COUNT && (ch.Some? ==> IdOf(ch.value.name) == Some(id))
    ensures PushAll(m, before + OptSeq(ch)) ==
            if ch.Some? then PushAt(PushAll(m, before), id, ch.value) else PushAll(m, before)
  {
    if ch.Some? {
      assert (before + [ch.value])[..|before|] == before;
    } else {
      assert before + [] == before;
    }
  }

  /** The whole plan, pushed onto what is staged; if that is the live map, the merged map. */
  lemma PlanStages(s: PinMap, m: PinMap, cfg: Config)
    requires MapOk(s) && MapOk(m)
    ensures PushAll(s, Plan(EntriesOf(m), cfg)) == Pushed(s, m, AsksOf(cfg))
    ensures MapOk(Pushed(s, m, AsksOf(cfg)))
    ensures s == m ==> Pushed(s, m, AsksOf(cfg)) == Merged(m, AsksOf(cfg))
  {
    PlanPushes(s, m, cfg, PIN_COUNT);
    assert EntriesOf(m)[..PIN_COUNT] == EntriesOf(m);
    PushedOntoLive(s, m, AsksOf(cfg));
  }

  lemma PushedOntoLive(s: PinMap, m: PinMap, asks: Asks)
    requires MapOk(s) && MapOk(m)
    ensures MapOk(Pushed(s, m, asks))
    ensures s == m ==> Pushed(s, m, asks) == Merged(m, asks)
  {
    if s == m {
      assert Pushed(s, m, asks).pins == Merged(m, asks).pins;
      assert Pushed(s, m, asks).flags == Merged(m, asks).flags;
    }
  }

  // ----- the verification pass --------------------------------------------------------------------

  /** A change shows in a map. */
  predicate Shows(m: PinMap, ch: Change)
    requires Sized(m)
  {
    var id := IdOf(ch.name);
    id.Some? && m.pins[id.value] == ch.newPin && m.flags[id.value] == ch.newFlags
  }

  predicate AllShow(m: PinMap, chs: seq<Change>)
    requires Sized(m)
  {
    forall ch :: ch in chs ==> Shows(m, ch)
  }

  /** Entry k's change, as the plan has it. */
  function ChangeAt(m: PinMap, cfg: Config, k: nat): Option<Change>
    requires Sized(m) && k < PIN_COUNT
  {
    ChangeOf(EntryOf(m, k), AsksOf(cfg)[k])
  }

  function Somes<T>(os: seq<Option<T>>): seq<T> {
    if os == [] then [] else Somes(os[..|os| - 1]) + OptSeq(os[|os| - 1])
  }

  lemma {:induction false} SomesMembers<T>(os: seq<Option<T>>, x: T)
    ensures x in Somes(os) <==> Some(x) in os
  {
    if os != [] {
      var n := |os| - 1;
      SomesMembers(os[..n], x);
      assert os == os[..n] + [os[n]];
    }
  }

  lemma SomesSnoc<T>(os: seq<Option<T>>, i: nat)
    requires i < |os|
    ensures Somes(os[..i + 1]) == Somes(os[..i]) + OptSeq(os[i])
  {
    assert os[..i + 1][..i] == os[..i];
  }

  function ChangesOf(m: PinMap, cfg: Config): seq<Option<Change>>
    requires Sized(m)
  {
    seq(PIN_COUNT, k requires 0 <= k < PIN_COUNT => ChangeAt(m, cfg, k))
  }

  lemma {:induction false} PlanIsSomes(m: PinMap, cfg: Config, i: nat)
    requires Sized(m) && i <= PIN_COUNT
    ensures Plan(EntriesOf(m)[..i], cfg) == Somes(ChangesOf(m, cfg)[..i])
  {
    if i == 0 {
      assert EntriesOf(m)[..0] == [] && ChangesOf(m, cfg)[..0] == [];
    } else {
      PlanIsSomes(m, cfg, i - 1);
      PrefixStep(m, m, cfg, i - 1);
      SomesSnoc(ChangesOf(m, cfg), i - 1);
    }
  }

  lemma PlanMembers(m: PinMap, cfg: Config, ch: Change)
    requires Sized(m)
    ensures ch in Plan(EntriesOf(m), cfg) <==> Some(ch) in ChangesOf(m, cfg)
  {
    PlanIsSomes(m, cfg, PIN_COUNT);
    assert EntriesOf(m)[..PIN_COUNT] == EntriesOf(m) && ChangesOf(m, cfg)[..PIN_COUNT] == ChangesOf(m, cfg);
    SomesMembers(ChangesOf(m, cfg), ch);
  }

  lemma ShowsInMerged(m: PinMap, cfg: Config, k: nat)
    requires MapOk(m) && k < PIN_COUNT && ChangeAt(m, cfg, k).Some?
    ensures Shows(Merged(m, AsksOf(cfg)), ChangeAt(m, cfg, k).value) <==> PinOk(AsksOf(cfg)[k].value.pin)
  {
    IdOfName(k);
  }

  lemma IllegalIsPlanned(m: PinMap, cfg: Config, name: string)
    requires MapOk(m) && Known(cfg) && name in cfg && !PinOk(cfg[name].pin)
    ensures var k := IdOf(name).value;
            ChangeAt(m, cfg, k).Some? && !PinOk(AsksOf(cfg)[k].value.pin)
  {
  }

  /** All planned changes show in the merged map exactly when every configured pin number is legal. */
  lemma VerifiedIffLegal(m: PinMap, cfg: Config)
    requires MapOk(m) && Known(cfg)
    ensures AllShow(Merged(m, AsksOf(cfg)), Plan(EntriesOf(m), cfg)) <==> Legal(cfg)
  {
    if Legal(cfg) {
      forall ch | ch in Plan(EntriesOf(m), cfg)
        ensures Shows(Merged(m, AsksOf(cfg)), ch)
      {
        PlanMembers(m, cfg, ch);
        var k :| 0 <= k < PIN_COUNT && ChangesOf(m, cfg)[k] == Some(ch);
        ShowsInMerged(m, cfg, k);
      }
    } else {
      var name :| name in cfg && !PinOk(cfg[name].pin);
      IllegalIsPlanned(m, cfg, name);
      var k := IdOf(name).value;
      ShowsInMerged(m, cfg, k);
      assert ChangesOf(m, cfg)[k] == Some(ChangeAt(m, cfg, k).value);
      PlanMembers(m, cfg, ChangeAt(m, cfg, k).value);
    }
  }

  // ----- the session over the serial line -------------------------------------------------------

  predicate IsReply(line: string) { "> " <= line || "! " <= line }

  /** readUntil(isResponseOrError): whether a reply arrives. */
  function Answered(lines: seq<string>): bool
    decreases |lines|
  {
    if lines == [] then false
    else
      var line := Trimmed(lines[0]);
      (!Skipped(line) && IsReply(line)) || Answered(lines[1..])
  }

  /** The EEPROM holds the record of the live map, as after any boot with nothing staged since. */
  predicate Synced(b: Board) { |b.eeprom| >= RECORD_BYTES && MapOk(b.live) && Holds(b.eeprom, b.live) }

  /** The board still runs what it ran, with `s` staged; None if its EEPROM has been wiped since it booted. */
  predicate Staged(b: Board, was: Board, s: Option<PinMap>) {
    && |b.eeprom| == |was.eeprom|
    && Implements(b, Simple(was.live, was.source, s))
  }

  /** What SET hal pin, SET hal flag, and the commands of a plan make of it. */
  function AfterPin(s: Option<PinMap>, id: nat, pin: byte): Option<PinMap>
    requires id < PIN_COUNT && (s.Some? ==> Sized(s.value))
  {
    if s.Some? && PinOk(pin) then Some(s.value.(pins := s.value.pins[id := pin])) else s
  }

  function AfterFlags(s: Option<PinMap>, id: nat, flags: byte): Option<PinMap>
    requires id < PIN_COUNT && (s.Some? ==> Sized(s.value))
  {
    if s.Some? then Some(s.value.(flags := s.value.flags[id := flags])) else None
  }

  function AfterChange(s: Option<PinMap>, ch: Change): Option<PinMap>
    requires s.Some? ==> Sized(s.value)
  {
    if s.Some? then Some(Push(s.value, ch)) else None
  }

  function AfterPlan(s: Option<PinMap>, chs: seq<Change>): Option<PinMap>
    requires s.Some? ==> Sized(s.value)
  {
    if s.Some? then Some(PushAll(s.value, chs)) else None
  }

  /** What the next boot makes live. */
  function Booting(s: Option<PinMap>): PinMap { if s.Some? then s.value else Defaults() }

  /** What is staged once a run over a board that runs m with s staged has pushed its plan. */
  function StagedBy(s: Option<PinMap>, m: PinMap, asks: Asks): Option<PinMap>
    requires Sized(m) && (s.Some? ==> Sized(s.value))
  {
    if s.Some? then Some(Pushed(s.value, m, asks)) else None
  }

  class Session {
    const mega: HalSubsystem
    /** What the board will say unasked before each coming reply. */
    var chatter: seq<seq<string>>

    ghost predicate Valid()
      reads this, mega, mega.hal
    {
      mega.Valid() && Quiet(chatter)
    }

    ghost function Board(): Board
      requires mega.Valid()
      reads mega, mega.hal, mega.hal.eeprom, mega.hal.pins, mega.hal.flags
    {
      mega.hal.View()
    }

    constructor (mega: HalSubsystem, chatter: seq<seq<string>>)
      requires mega.Valid() && Quiet(chatter)
      ensures Valid() && this.mega == mega && this.chatter == chatter
    {
      this.mega := mega;
      this.chatter := chatter;
    }

    /** One command to the board, and the lines that arrive in answer. */
    method Exchange(command: string) returns (lines: seq<string>)
      requires Valid()
      modifies this, mega, mega.hal, mega.hal.eeprom, mega.hal.pins, mega.hal.flags
      ensures Valid()
      ensures var e := Handle(old(Board()), Tokens(command));
              Board() == e.board && lines == Woven(old(chatter), e.out)
    {
      var before := |mega.out|;
      mega.HandleCommand(Tokens(command));
      var replies := mega.out[before..];
      lines := Woven(chatter, replies);
      var rest := chatter[Min(|chatter|, |replies|)..];
      assert forall batch :: batch in rest ==> batch in chatter;
      chatter := rest;
    }

    /** queryMap */
    method QueryMap() returns (r: Option<Query>)
      requires Valid()
      modifies this, mega, mega.hal, mega.hal.eeprom, mega.hal.pins, mega.hal.flags
      ensures Valid() && Board() == old(Board())
      ensures r == Some(Query(PIN_COUNT, EntriesOf(Board().live), SourceName(Board().source)))
    {
      QueryServed(Board());
      MapReadsBack(Board(), chatter);
      var lines := Exchange("GET hal map");
      r := ReadMap(lines);
    }

    /** SET hal pin: errors the board reports are read, and not acted upon. */
    method SendPin(name: string, pin: byte, ghost id: nat, ghost was: Board, ghost s: Option<PinMap>) returns (ok: bool)
      requires Valid() && id < PIN_COUNT && Name(id) == name && Staged(Board(), was, s)
      modifies this, mega, mega.hal, mega.hal.eeprom, mega.hal.pins, mega.hal.flags
      ensures Valid() && ok && Staged(Board(), was, AfterPin(s, id, pin))
    {
      PinExchanged(Board(), was, s, id, pin, chatter);
      var lines := Exchange(Joined(["SET", "hal", "pin", name, Numeral(pin)]));
      ok := Answered(lines);
    }

    method SendFlags(name: string, flags: byte, ghost id: nat, ghost was: Board, ghost s: Option<PinMap>)
      returns (ok: bool)
      requires Valid() && id < PIN_COUNT && Name(id) == name && Staged(Board(), was, s)
      modifies this, mega, mega.hal, mega.hal.eeprom, mega.hal.pins, mega.hal.flags
      ensures Valid() && ok && Staged(Board(), was, AfterFlags(s, id, flags))
    {
      FlagsExchanged(Board(), was, s, id, flags, chatter);
      var lines := Exchange(Joined(["SET", "hal", "flag", name, "0x" + Hex2(flags)]));
      ok := Answered(lines);
    }

    /** The commands of one change. */
    method SendChange(ch: Change, ghost was: Board, ghost s: Option<PinMap>) returns (ok: bool)
      requires Valid() && IdOf(ch.name).Some? && Staged(Board(), was, s)
      modifies this, mega, mega.hal, mega.hal.eeprom, mega.hal.pins, mega.hal.flags
      ensures Valid() && ok && Staged(Board(), was, AfterChange(s, ch))
    {
      ghost var id := IdOf(ch.name).value;
      ghost var s' := s;
      ok := true;
      if ch.pinChanged {
        ok := SendPin(ch.name, ch.newPin, id, was, s);
        s' := AfterPin(s, id, ch.newPin);
      }
      if ok && ch.flagChanged {
        ok := SendFlags(ch.name, ch.newFlags, id, was, s');
      }
    }

    method SendAll(chs: seq<Change>, ghost was: Board, ghost s: Option<PinMap>) returns (ok: bool)
      requires Valid() && Staged(Board(), was, s) && forall ch :: ch in chs ==> IdOf(ch.name).Some?
      modifies this, mega, mega.hal, mega.hal.eeprom, mega.hal.pins, mega.hal.flags
      ensures Valid() && ok && Staged(Board(), was, AfterPlan(s, chs))
    {
      assert chs[..0] == [];
      for k := 0 to |chs|
        invariant Valid() && Staged(Board(), was, AfterPlan(s, chs[..k]))
      {
        assert chs[..k + 1][..k] == chs[..k] && chs[k] in chs;
        var sent := SendChange(chs[k], was, AfterPlan(s, chs[..k]));
        if !sent {
          return false;
        }
      }
      assert chs[..|chs|] == chs;
      ok := true;
    }

    /** SET hal reboot, and the wait for the board to come back; nothing it prints meanwhile is kept. */
    method Restart()
      requires Valid()
      modifies this, mega, mega.hal, mega.hal.eeprom, mega.hal.pins, mega.hal.flags
      ensures Valid() && Board() == Begin(old(Board()).eeprom)
    {
      RebootServed(Board());
      var drained := Exchange("SET hal reboot");
    }

    /**
     * runApply on a board in any state it can be in: one map live, and `s` staged. No SET error is
     * ever acted upon, yet: after a reboot the live map is what the plan makes of `s`, and the run
     * reports success exactly when every planned change shows in it. With nothing else staged,
     * success means that every configured entry agrees and every other one is as before.
     */
    method RunApply(cfg: Config, noReboot: bool, ghost s: Option<PinMap>) returns (ok: bool)
      requires Valid() && MapOk(Board().live) && Staged(Board(), Board(), s)
      modifies this, mega, mega.hal, mega.hal.eeprom, mega.hal.pins, mega.hal.flags
      ensures Valid()
      ensures !Known(cfg) ==> !ok && Board() == old(Board())
      ensures Known(cfg) && Plan(EntriesOf(old(Board()).live), cfg) == [] ==> ok && Board() == old(Board())
      ensures Known(cfg) && noReboot ==>
                ok && Staged(Board(), old(Board()), StagedBy(s, old(Board()).live, AsksOf(cfg)))
      ensures Known(cfg) && !noReboot && Plan(EntriesOf(old(Board()).live), cfg) != [] ==>
                && Synced(Board()) && Board().live == Booting(StagedBy(s, old(Board()).live, AsksOf(cfg)))
                && (ok <==> AllShow(Board().live, Plan(EntriesOf(old(Board()).live), cfg)))
      ensures !noReboot && ok && s == Some(old(Board()).live) ==>
                forall i :: 0 <= i < PIN_COUNT ==>
                  && Agrees(Board().live, cfg, i)
                  && (Name(i) !in cfg ==> SameEntry(Board().live, old(Board()).live, i))
    {
      ghost var was := Board();
      var first := QueryMap();
      var entries := first.value.entries;
      var known := IndexByName(entries);
      KnownMeansIndexed(was.live, cfg);
      var unknown := HasUnknown(cfg, known);
      if unknown {
        return false;
      }
      StagedByPlan(s, was.live, cfg);
      SoundThroughout(was.live, cfg);
      var changes := MakePlan(entries, cfg);
      if changes == [] {
        return true;
      }
      ok := ApplyChanges(changes, cfg, noReboot, was, s);
    }

    /** Push, reboot, query again and compare. */
    method ApplyChanges(changes: seq<Change>, cfg: Config, noReboot: bool, ghost was: Board, ghost s: Option<PinMap>)
      returns (ok: bool)
      requires Valid() && MapOk(was.live) && Board() == was && Staged(was, was, s)
      requires Known(cfg) && changes == Plan(EntriesOf(was.live), cfg)
      modifies this, mega, mega.hal, mega.hal.eeprom, mega.hal.pins, mega.hal.flags
      ensures Valid()
      ensures noReboot ==> ok && Staged(Board(), was, StagedBy(s, was.live, AsksOf(cfg)))
      ensures !noReboot ==>
                && Synced(Board()) && Board().live == Booting(StagedBy(s, was.live, AsksOf(cfg)))
                && (ok <==> AllShow(Board().live, changes))
    {
      ghost var pushed := StagedBy(s, was.live, AsksOf(cfg));
      StagedByPlan(s, was.live, cfg);
      PlannedNamesKnown(was.live, cfg);
      var sent := SendAll(changes, was, s);
      if noReboot {
        return true;
      }
      BootsStaged(Board(), was, pushed);
      Restart();
      var second := QueryMap();
      var known2 := IndexByName(second.value.entries);
      var bad := CountBad(changes, known2);
      MatchesIsShows(Booting(pushed), changes);
      ok := bad == 0;
    }
  }

  lemma {:induction false} ReplyAfterNoise(noise: seq<string>, rest: seq<string>)
    requires Answered(rest)
    ensures Answered(noise + rest)
    decreases |noise|
  {
    if noise == [] {
      assert noise + rest == rest;
    } else {
      assert (noise + rest)[1..] == noise[1..] + rest;
      ReplyAfterNoise(noise[1..], rest);
    }
  }

  /** One reply gets through whatever chatter comes first. */
  lemma ReplyArrives(chatter: seq<seq<string>>, reply: string)
    requires IsReply(reply)
    ensures Answered(Woven(chatter, [reply]))
  {
    TrimKeepsReply(reply);
    assert [reply][1..] == [];
    assert Answered([reply]);
    if chatter == [] {
      assert Woven(chatter, [reply]) == [reply];
    } else {
      assert Woven(chatter[1..], []) == [];
      assert Woven(chatter, [reply]) == chatter[0] + [reply];
      ReplyAfterNoise(chatter[0], [reply]);
    }
  }

  lemma {:induction false} TrimKeepsReply(reply: string)
    requires IsReply(reply)
    ensures IsReply(Trimmed(reply)) && !Skipped(Trimmed(reply))
  {
    assert reply[1] == ' ';
    if reply[|reply| - 1] in {'\r', '\n'} {
      assert IsReply(reply[..|reply| - 1]);
      TrimKeepsReply(reply[..|reply| - 1]);
    }
  }

  lemma StagePinEffect(b: Board, was: Board, s: Option<PinMap>, id: nat, pin: byte)
    requires id < PIN_COUNT && Staged(b, was, s)
    ensures Staged(Do(b, StagePin(id, pin)), was, AfterPin(s, id, pin))
  {
    if PinOk(pin) {
      StageImplements(b, Simple(was.live, was.source, s), StagePin(id, pin));
    }
  }

  lemma StageFlagsEffect(b: Board, was: Board, s: Option<PinMap>, id: nat, flags: byte)
    requires id < PIN_COUNT && Staged(b, was, s)
    ensures Staged(Do(b, StageFlags(id, flags)), was, AfterFlags(s, id, flags))
  {
    StageImplements(b, Simple(was.live, was.source, s), StageFlags(id, flags));
  }

  lemma ErrorArrives(chatter: seq<seq<string>>, message: string)
    ensures Answered(Woven(chatter, HalError(message)))
  {
    var reply := "! hal " + message;
    assert reply[..2] == "! ";
    ReplyArrives(chatter, reply);
  }

  lemma PinExchanged(b: Board, was: Board, s: Option<PinMap>, id: nat, pin: byte, chatter: seq<seq<string>>)
    requires id < PIN_COUNT && Staged(b, was, s) && Sized(b.live)
    ensures var e := Handle(b, Tokens(PinCommand(id, pin)));
            Staged(e.board, was, AfterPin(s, id, pin)) && Answered(Woven(chatter, e.out))
  {
    PinCommandServed(b, id, pin);
    StagePinEffect(b, was, s, id, pin);
    if PinOk(pin) {
      ReplyArrives(chatter, PinStaged(Name(id), pin));
    } else {
      ErrorArrives(chatter, "stage-failed");
    }
  }

  lemma FlagsExchanged(b: Board, was: Board, s: Option<PinMap>, id: nat, flags: byte, chatter: seq<seq<string>>)
    requires id < PIN_COUNT && Staged(b, was, s) && Sized(b.live)
    ensures var e := Handle(b, Tokens(FlagCommand(id, flags)));
            Staged(e.board, was, AfterFlags(s, id, flags)) && Answered(Woven(chatter, e.out))
  {
    FlagCommandServed(b, id, flags);
    StageFlagsEffect(b, was, s, id, flags);
    ReplyArrives(chatter, FlagStaged(Name(id), flags));
  }

  // ----- the loops that touch no device -----------------------------------------------------------

  function ByName(es: seq<Entry>): map<string, Entry> {
    if es == [] then map[] else ByName(es[..|es| - 1])[es[|es| - 1].name := es[|es| - 1]]
  }

  method IndexByName(es: seq<Entry>) returns (known: map<string, Entry>)
    ensures known == ByName(es)
  {
    known := map[];
    for i := 0 to |es|
      invariant known == ByName(es[..i])
    {
      assert es[..i + 1][..i] == es[..i];
      known := known[es[i].name := es[i]];
    }
    assert es[..|es|] == es;
  }

  lemma {:induction false} ByNameOfPrefix(m: PinMap, i: nat, k: nat)
    requires Sized(m) && k < i <= PIN_COUNT
    ensures var known := ByName(EntriesOf(m)[..i]); Name(k) in known && known[Name(k)] == EntryOf(m, k)
  {
    var es := EntriesOf(m);
    assert es[..i][..i - 1] == es[..i - 1] && es[..i][i - 1] == EntryOf(m, i - 1);
    if k < i - 1 {
      ByNameOfPrefix(m, i - 1, k);
      if Name(k) == Name(i - 1) {
        NamesDiffer(k, i - 1);
      }
    }
  }

  lemma {:induction false} ByNameKeys(m: PinMap, i: nat, name: string)
    requires Sized(m) && i <= PIN_COUNT && name in ByName(EntriesOf(m)[..i])
    ensures IdOf(name).Some?
  {
    if i > 0 {
      var es := EntriesOf(m);
      assert es[..i][..i - 1] == es[..i - 1] && es[..i][i - 1] == EntryOf(m, i - 1);
      if name == Name(i - 1) {
        IdOfName(i - 1);
      } else {
        ByNameKeys(m, i - 1, name);
      }
    }
  }

  /** The tool's index has exactly the board's names, each with its entry. */
  lemma IndexIsIdOf(m: PinMap, name: string)
    requires Sized(m)
    ensures name in ByName(EntriesOf(m)) <==> IdOf(name).Some?
    ensures IdOf(name).Some? ==> ByName(EntriesOf(m))[name] == EntryOf(m, IdOf(name).value)
  {
    assert EntriesOf(m)[..PIN_COUNT] == EntriesOf(m);
    if name in ByName(EntriesOf(m)) {
      ByNameKeys(m, PIN_COUNT, name);
    }
    if IdOf(name).Some? {
      ByNameOfPrefix(m, PIN_COUNT, IdOf(name).value);
    }
  }

  /** The check before any change is made, in the order the map happens to yield its keys. */
  method HasUnknown(cfg: Config, known: map<string, Entry>) returns (unknown: bool)
    ensures unknown <==> exists name :: name in cfg && name !in known
  {
    var left := cfg.Keys;
    while left != {}
      invariant left <= cfg.Keys
      invariant forall name :: name in cfg && name !in left ==> name in known
      decreases |left|
    {
      var name :| name in left;
      if name !in known {
        return true;
      }
      left := left - {name};
    }
    return false;
  }

  method MakePlan(es: seq<Entry>, cfg: Config) returns (chs: seq<Change>)
    ensures chs == Plan(es, cfg)
  {
    chs := [];
    for i := 0 to |es|
      invariant chs == Plan(es[..i], cfg)
    {
      assert es[..i + 1][..i] == es[..i];
      var e := es[i];
      if e.name in cfg {
        var c := cfg[e.name];
        var desiredFlags: byte := 0;
        if c.activeLow {
          desiredFlags := 1;
        }
        var ch := Change(e.name, c.pin != e.pin, desiredFlags != e.flags, c.pin, desiredFlags);
        if ch.pinChanged || ch.flagChanged {
          chs := chs + [ch];
        }
      }
    }
    assert es[..|es|] == es;
  }

  predicate Matches(known: map<string, Entry>, ch: Change) {
    ch.name in known && known[ch.name].pin == ch.newPin && known[ch.name].flags == ch.newFlags
  }

  method CountBad(chs: seq<Change>, known: map<string, Entry>) returns (bad: nat)
    ensures bad == 0 <==> forall ch :: ch in chs ==> Matches(known, ch)
  {
    bad := 0;
    for k := 0 to |chs|
      invariant bad == 0 <==> forall j :: 0 <= j < k ==> Matches(known, chs[j])
    {
      if chs[k].name !in known {
        bad := bad + 1;
      } else {
        var got := known[chs[k].name];
        if got.pin != chs[k].newPin || got.flags != chs[k].newFlags {
          bad := bad + 1;
        }
      }
    }
  }

  lemma KnownMeansIndexed(m: PinMap, cfg: Config)
    requires Sized(m)
    ensures Known(cfg) <==> forall name :: name in cfg ==> name in ByName(EntriesOf(m))
  {
    forall name | name in cfg
      ensures name in ByName(EntriesOf(m)) <==> IdOf(name).Some?
    {
      IndexIsIdOf(m, name);
    }
  }

  lemma PlannedNamesKnown(m: PinMap, cfg: Config)
    requires Sized(m)
    ensures forall ch :: ch in Plan(EntriesOf(m), cfg) ==> IdOf(ch.name).Some?
  {
    forall ch | ch in Plan(EntriesOf(m), cfg)
      ensures IdOf(ch.name).Some?
    {
      PlanMembers(m, cfg, ch);
      var k :| 0 <= k < PIN_COUNT && ChangesOf(m, cfg)[k] == Some(ch);
      IdOfName(k);
    }
  }

  lemma MatchesIsShows(m: PinMap, chs: seq<Change>)
    requires Sized(m)
    ensures forall ch :: ch in chs ==> (Matches(ByName(EntriesOf(m)), ch) <==> Shows(m, ch))
  {
    forall ch | ch in chs
      ensures Matches(ByName(EntriesOf(m)), ch) <==> Shows(m, ch)
    {
      IndexIsIdOf(m, ch.name);
    }
  }

  lemma BootsStaged(b: Board, was: Board, s: Option<PinMap>)
    requires Staged(b, was, s)
    ensures Begin(b.eeprom).live == Booting(s) && Synced(Begin(b.eeprom))
  {
    StepImplements(b, Simple(was.live, was.source, s), Reboot);
    DefaultsOk();
  }

  lemma StagedByPlan(s: Option<PinMap>, m: PinMap, cfg: Config)
    requires (s.Some? ==> MapOk(s.value)) && MapOk(m)
    ensures AfterPlan(s, Plan(EntriesOf(m), cfg)) == StagedBy(s, m, AsksOf(cfg))
    ensures MapOk(Booting(StagedBy(s, m, AsksOf(cfg))))
  {
    DefaultsOk();
    if s.Some? {
      PlanStages(s.value, m, cfg);
    }
  }

  /** A map agrees with a configuration on entry i. */
  predicate Agrees(m: PinMap, cfg: Config, i: nat)
    requires Sized(m) && i < PIN_COUNT
  {
    Name(i) in cfg ==>
      m.pins[i] == cfg[Name(i)].pin && m.flags[i] == if cfg[Name(i)].activeLow then 1 else 0
  }

  predicate SameEntry(m: PinMap, m': PinMap, i: nat)
    requires Sized(m) && Sized(m') && i < PIN_COUNT
  {
    m.pins[i] == m'.pins[i] && m.flags[i] == m'.flags[i]
  }

  /**
   * Soundness: on a board with nothing staged, success means that every configured entry now
   * agrees and every other one is unchanged; and the tool succeeds whenever the configuration
   * names known entries and legal pins.
   */
  lemma ApplySound(m: PinMap, cfg: Config, i: nat)
    requires MapOk(m) && Known(cfg) && i < PIN_COUNT
    ensures var m' := Pushed(m, m, AsksOf(cfg));
            && (AllShow(m', Plan(EntriesOf(m), cfg)) <==> Legal(cfg))
            && (Legal(cfg) ==> Agrees(m', cfg, i))
            && (Name(i) !in cfg ==> SameEntry(m', m, i))
  {
    PlanStages(m, m, cfg);
    VerifiedIffLegal(m, cfg);
  }

  /** Soundness for all entries at once, the case of an empty plan included. */
  lemma SoundThroughout(m: PinMap, cfg: Config)
    requires MapOk(m) && Known(cfg)
    ensures var m' := Pushed(m, m, AsksOf(cfg));
            forall i :: 0 <= i < PIN_COUNT ==>
              && (AllShow(m', Plan(EntriesOf(m), cfg)) ==> Agrees(m', cfg, i))
              && (Plan(EntriesOf(m), cfg) == [] ==> Agrees(m, cfg, i))
              && (Name(i) !in cfg ==> SameEntry(m', m, i))
  {
    forall i | 0 <= i < PIN_COUNT
      ensures var m' := Pushed(m, m, AsksOf(cfg));
              && (AllShow(m', Plan(EntriesOf(m), cfg)) ==> Agrees(m', cfg, i))
              && (Plan(EntriesOf(m), cfg) == [] ==> Agrees(m, cfg, i))
              && (Name(i) !in cfg ==> SameEntry(m', m, i))
    {
      ApplySound(m, cfg, i);
      ChangePlanned(m, cfg, i);
    }
  }

  /** An entry has a planned change exactly if it disagrees; the change shows exactly in maps that agree. */
  lemma ChangePlanned(m: PinMap, cfg: Config, i: nat)
    requires Sized(m) && i < PIN_COUNT
    ensures var ch := ChangeAt(m, cfg, i);
            && (ch.Some? <==> !Agrees(m, cfg, i))
            && (ch.Some? ==> ch.value in Plan(EntriesOf(m), cfg))
            && (ch.Some? ==> forall m' | Sized(m') :: Shows(m', ch.value) <==> Agrees(m', cfg, i))
  {
    var ch := ChangeAt(m, cfg, i);
    IdOfName(i);
    if ch.Some? {
      assert ChangesOf(m, cfg)[i] == ch;
      PlanMembers(m, cfg, ch.value);
    }
  }

  /** The run reports success exactly when every entry that disagreed agrees in the map booted. */
  lemma SuccessExactly(m: PinMap, cfg: Config, m': PinMap)
    requires Sized(m) && Sized(m')
    ensures AllShow(m', Plan(EntriesOf(m), cfg)) <==>
            forall i :: 0 <= i < PIN_COUNT && !Agrees(m, cfg, i) ==> Agrees(m', cfg, i)
  {
    forall i | 0 <= i < PIN_COUNT && !Agrees(m, cfg, i)
      ensures AllShow(m', Plan(EntriesOf(m), cfg)) ==> Agrees(m', cfg, i)
    {
      ChangePlanned(m, cfg, i);
    }
    if forall i :: 0 <= i < PIN_COUNT && !Agrees(m, cfg, i) ==> Agrees(m', cfg, i) {
      forall ch | ch in Plan(EntriesOf(m), cfg)
        ensures Shows(m', ch)
      {
        PlanMembers(m, cfg, ch);
        var k :| 0 <= k < PIN_COUNT && ChangesOf(m, cfg)[k] == Some(ch);
        ChangePlanned(m, cfg, k);
      }
    }
  }

  /**
   * With something else staged beforehand, or the EEPROM wiped, success can be wrong: an entry that
   * was already live as configured gets no command and no check, so the reboot gives it the stale
   * staged value or the default. A reported success means agreement on an entry exactly if the
   * entry has a planned change or the boot would have kept it as it was live.
   */
  lemma ApplyAfterStaleStaging(s: Option<PinMap>, m: PinMap, cfg: Config, i: nat)
    requires (s.Some? ==> MapOk(s.value)) && MapOk(m) && Known(cfg) && i < PIN_COUNT && Name(i) in cfg
    requires AllShow(Booting(StagedBy(s, m, AsksOf(cfg))), Plan(EntriesOf(m), cfg))
    ensures Agrees(Booting(StagedBy(s, m, AsksOf(cfg))), cfg, i) <==>
            !Agrees(m, cfg, i) || SameEntry(Booting(s), m, i)
  {
    StagedByPlan(s, m, cfg);
    SuccessExactly(m, cfg, Booting(StagedBy(s, m, AsksOf(cfg))));
  }

  /** A configuration of the first two entries, both active high. */
  function TwoPins(p: byte, q: byte): Config { map[Name(0) := PinConfig(p, false), Name(1) := PinConfig(q, false)] }

  lemma TwoPinsKnown(p: byte, q: byte)
    ensures Known(TwoPins(p, q)) && Name(0) in TwoPins(p, q) && Name(1) in TwoPins(p, q)
    ensures TwoPins(p, q)[Name(0)].pin == p && TwoPins(p, q)[Name(1)].pin == q
    ensures forall i :: 2 <= i < PIN_COUNT ==> Name(i) !in TwoPins(p, q)
  {
    forall i | 0 <= i < PIN_COUNT
      ensures IdOf(Name(i)) == Some(i)
    {
      IdOfName(i);
    }
  }

  /** Entry 0 live as configured but staged as something else, entry 1 to be changed: success, and entry 0 is wrong. */
  lemma StaleStagingMisleads(m: PinMap, stale: byte, q: byte)
    requires MapOk(m) && m.flags[0] == m.flags[1] == 0
    requires PinOk(stale) && stale != m.pins[0] && PinOk(q) && q != m.pins[1]
    ensures var s, cfg := m.(pins := m.pins[0 := stale]), TwoPins(m.pins[0], q);
            var m' := Booting(StagedBy(Some(s), m, AsksOf(cfg)));
            && MapOk(s) && Known(cfg) && Legal(cfg)
            && AllShow(m', Plan(EntriesOf(m), cfg)) && Agrees(m, cfg, 0) && !Agrees(m', cfg, 0)
  {
    var s, cfg := m.(pins := m.pins[0 := stale]), TwoPins(m.pins[0], q);
    TwoPinsKnown(m.pins[0], q);
    SuccessExactly(m, cfg, Pushed(s, m, AsksOf(cfg)));
  }

  /** A wiped board with its first two entries moved, asked for one of them and the default of the other: likewise. */
  lemma WipeMisleads(moved: byte)
    requires PinOk(moved) && moved != 44
    ensures var d := Defaults();
            var m, cfg := d.(pins := d.pins[0 := moved][1 := 63]), TwoPins(moved, 45);
            var m' := Booting(StagedBy(None, m, AsksOf(cfg)));
            && MapOk(m) && Known(cfg) && Legal(cfg)
            && AllShow(m', Plan(EntriesOf(m), cfg)) && Agrees(m, cfg, 0) && !Agrees(m', cfg, 0)
  {
    var d, cfg := Defaults(), TwoPins(moved, 45);
    TwoPinsKnown(moved, 45);
    DefaultsOk();
    SuccessExactly(d.(pins := d.pins[0 := moved][1 := 63]), cfg, d);
  }
}
