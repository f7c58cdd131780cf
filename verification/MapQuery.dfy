/**
 * The configurator's reading side (tools/zerotx-iohal-config/main.go): lines from the serial
 * port, the callback that collects the map, and why it collects just what the firmware printed.
 */
module MapQuery {
  import opened Bytes
  import opened Text
  import opened Hal
  import opened HalNames
  import opened HalProtocol

  datatype Entry = Entry(index: byte, name: string, pin: byte, flags: byte)

  /** queryMap's captured variables. */
  datatype Query = Query(expected: int, entries: seq<Entry>, source: string)

  function Start(): Query { Query(-1, [], "") }

  // ----- one line ---------------------------------------------------------------------------

  /** strings.TrimRight with the two line-end characters. */
  function Trimmed(s: string): string {
    if s != [] && s[|s| - 1] in {'\r', '\n'} then Trimmed(s[..|s| - 1]) else s
  }

  /** Blank lines, comments and events never reach the callback. */
  predicate Skipped(line: string) { line == "" || line[0] == '#' || "EVENT " <= line }

  function EqualsAt(s: string): (i: nat)
    ensures i <= |s| && (i < |s| ==> s[i] == '=')
    ensures forall k :: 0 <= k < i ==> s[k] != '='
  {
    if s == [] || s[0] == '=' then 0 else 1 + EqualsAt(s[1..])
  }

  /** One key=value word of the header. */
  function TakeField(q: Query, kv: string): Query {
    var i := EqualsAt(kv);
    if i == |kv| then q
    else if kv[..i] == "source" then q.(source := kv[i + 1..])
    else if kv[..i] == "count" then q.(expected := ScanInt(kv[i + 1..]))
    else q
  }

  function TakeFields(q: Query, kvs: seq<string>): Query {
    if kvs == [] then q else TakeField(TakeFields(q, kvs[..|kvs| - 1]), kvs[|kvs| - 1])
  }

  predicate Complete(q: Query) { q.expected > 0 && |q.entries| >= q.expected }

  function EntryFrom(fields: seq<string>): Entry
    requires |fields| >= 4
  {
    Entry(ScanByte(fields[0]), fields[1], ScanByte(fields[2]), ScanHexByte(fields[3]))
  }

  /** The callback: what it captures, and whether to stop reading. */
  function Absorb(q: Query, line: string): (Query, bool) {
    if !("> hal " <= line) then (q, false)
    else if "hal map " <= line[2..] then (TakeFields(q, Words(GoFields, line[10..])), false)
    else if "hal pin " <= line[2..] then
      var fields := Words(GoFields, line[10..]);
      if |fields| < 4 then (q, false)
      else
        var q' := q.(entries := q.entries + [EntryFrom(fields)]);
        (q', Complete(q'))
    else (q, Complete(q))
  }

  /** readUntil with that callback, on the lines that arrive in time; None when they run out. */
  function Listen(q: Query, lines: seq<string>): Option<Query>
    decreases |lines|
  {
    if lines == [] then None
    else
      var line := Trimmed(lines[0]);
      if Skipped(line) then Listen(q, lines[1..])
      else
        var step := Absorb(q, line);
        if step.1 then Some(step.0) else Listen(step.0, lines[1..])
  }

  /** The same as a loop over the arriving lines. */
  method ReadMap(lines: seq<string>) returns (r: Option<Query>)
    ensures r == Listen(Start(), lines)
  {
    var q := Start();
    var i := 0;
    assert lines[0..] == lines;
    while i < |lines|
      invariant 0 <= i <= |lines|
      invariant Listen(Start(), lines) == Listen(q, lines[i..])
    {
      var line := Trimmed(lines[i]);
      assert lines[i..][0] == lines[i] && lines[i..][1..] == lines[i + 1..];
      i := i + 1;
      if Skipped(line) {
        continue;
      }
      var step := Absorb(q, line);
      q := step.0;
      if step.1 {
        return Some(q);
      }
    }
    return None;
  }

  // ----- what it makes of the firmware's lines -----------------------------------------------

  function EntryOf(m: PinMap, i: nat): Entry
    requires Sized(m) && i < PIN_COUNT
  {
    Entry(i, Name(i), m.pins[i], m.flags[i])
  }

  function EntriesOf(m: PinMap): seq<Entry>
    requires Sized(m)
  {
    seq(PIN_COUNT, i requires 0 <= i < PIN_COUNT => EntryOf(m, i))
  }

  /** Output nobody asked for: events, boot messages, anything that is no reply. */
  predicate Unsolicited(line: string) { !("> " <= Trimmed(line)) && !("! " <= Trimmed(line)) }

  predicate Quiet(chatter: seq<seq<string>>) {
    forall batch :: batch in chatter ==> forall line :: line in batch ==> Unsolicited(line)
  }

  /** Replies with chatter before each of them. */
  function Woven(chatter: seq<seq<string>>, replies: seq<string>): seq<string>
    decreases |replies|
  {
    if replies == [] then []
    else if chatter == [] then replies
    else chatter[0] + [replies[0]] + Woven(chatter[1..], replies[1..])
  }

  lemma {:induction false} ChatterIgnored(q: Query, noise: seq<string>, rest: seq<string>)
    requires forall line :: line in noise ==> Unsolicited(line)
    ensures Listen(q, noise + rest) == Listen(q, rest)
    decreases |noise|
  {
    if noise == [] {
      assert noise + rest == rest;
    } else {
      assert noise[0] in noise && (noise + rest)[1..] == noise[1..] + rest;
      NotHal(Trimmed(noise[0]));
      ChatterIgnored(q, noise[1..], rest);
    }
  }

  lemma NotHal(line: string)
    requires !("> " <= line)
    ensures !("> hal " <= line)
  {
    assert "> hal "[..2] == "> ";
  }

  lemma {:induction false} JoinedEnd(ws: seq<string>)
    requires ws != [] && ws[|ws| - 1] != ""
    ensures var s, w := Joined(ws), ws[|ws| - 1]; s != "" && s[|s| - 1] == w[|w| - 1]
  {
    if |ws| > 1 {
      JoinedEnd(ws[1..]);
    }
  }

  lemma PinLineText(m: PinMap, i: nat)
    requires Sized(m) && i < PIN_COUNT
    ensures PinLine(m, i) == "> hal pin " + Joined(PinWords(m, i))
  {
    var ws := PinWords(m, i);
    assert ["hal", "pin"] + ws == ["hal"] + (["pin"] + ws);
    JoinedMore("hal", ["pin"] + ws);
    JoinedMore("pin", ws);
    assert "> " + ("hal" + " " + ("pin" + " " + Joined(ws))) == "> hal pin " + Joined(ws);
  }

  lemma PinWordsAreWords(m: PinMap, i: nat)
    requires Sized(m) && i < PIN_COUNT
    ensures Words(GoFields, Joined(PinWords(m, i))) == PinWords(m, i)
  {
    NumeralIsWord(i, GoFields);
    NameIsWord(i, GoFields);
    NumeralIsWord(m.pins[i], GoFields);
    HexIsWord(m.flags[i], GoFields);
    WordsOfJoined(GoFields, PinWords(m, i));
  }

  /** A printed entry is scanned back as that entry. */
  lemma EntryReadsBack(m: PinMap, i: nat)
    requires Sized(m) && i < PIN_COUNT
    ensures EntryFrom(PinWords(m, i)) == EntryOf(m, i)
  {
    ScanNumeral(i);
    ScanNumeral(m.pins[i]);
    ScanHex2(m.flags[i]);
  }

  lemma TextOfPinLine(rest: string)
    ensures var line := "> hal pin " + rest;
            "> hal " <= line && !("hal map " <= line[2..]) && "hal pin " <= line[2..] && line[10..] == rest
  {
    var line := "> hal pin " + rest;
    assert line[2..][4] == 'p' && "hal map "[4] == 'm';
  }

  lemma PinLineAbsorbed(q: Query, m: PinMap, i: nat)
    requires Sized(m) && i < PIN_COUNT
    ensures var q' := q.(entries := q.entries + [EntryOf(m, i)]);
            Absorb(q, PinLine(m, i)) == (q', Complete(q'))
  {
    PinLineText(m, i);
    TextOfPinLine(Joined(PinWords(m, i)));
    PinWordsAreWords(m, i);
    EntryReadsBack(m, i);
  }

  lemma PinLineKept(m: PinMap, i: nat)
    requires Sized(m) && i < PIN_COUNT
    ensures Trimmed(PinLine(m, i)) == PinLine(m, i) && !Skipped(PinLine(m, i))
  {
    PinLineText(m, i);
    JoinedEnd(PinWords(m, i));
    var line, ws := PinLine(m, i), PinWords(m, i);
    assert line[0] == '>' && line[|line| - 1] == Joined(ws)[|Joined(ws)| - 1];
    assert "EVENT "[0] == 'E';
  }

  lemma HeaderText(source: Source)
    ensures MapHeader(source) == "> hal map " + Joined(["source=" + SourceName(source), "count=" + Numeral(PIN_COUNT)])
  {
    MapWords("source=" + SourceName(source), "count=" + Numeral(PIN_COUNT));
  }

  lemma MapWords(s: string, c: string)
    ensures "> " + Joined(["hal", "map", s, c]) == "> hal map " + Joined([s, c])
  {
    assert ["hal", "map", s, c] == ["hal"] + (["map"] + [s, c]);
    JoinedMore("hal", ["map"] + [s, c]);
    JoinedMore("map", [s, c]);
    assert "> " + ("hal" + " " + ("map" + " " + Joined([s, c]))) == "> hal map " + Joined([s, c]);
  }

  lemma FieldRead(q: Query, key: string, value: string)
    requires '=' !in key
    ensures var kv := key + "=" + value;
            EqualsAt(kv) == |key| && kv[..|key|] == key && kv[|key| + 1..] == value
  {
    var kv := key + "=" + value;
    assert kv[|key|] == '=';
    assert forall k :: 0 <= k < |key| ==> kv[k] == key[k];
    var i := EqualsAt(kv);
    assert i <= |key|;
    assert forall k :: 0 <= k < |key| ==> kv[k] in key;
  }

  lemma HeaderFields(q: Query, source: Source)
    ensures TakeFields(q, ["source=" + SourceName(source), "count=" + Numeral(PIN_COUNT)]) ==
            Query(PIN_COUNT, q.entries, SourceName(source))
  {
    var s, c := "source" + "=" + SourceName(source), "count" + "=" + Numeral(PIN_COUNT);
    FieldRead(q, "source", SourceName(source));
    FieldRead(q, "count", Numeral(PIN_COUNT));
    ScanNumeral(PIN_COUNT);
    assert s == "source=" + SourceName(source) && c == "count=" + Numeral(PIN_COUNT);
    assert "count"[0] != "source"[0];
    assert [s, c][..1] == [s] && [s][..0] == [];
    assert TakeFields(q, [s]) == TakeField(q, s);
  }

  lemma HeaderWords(source: Source)
    ensures var ws := ["source=" + SourceName(source), "count=" + Numeral(PIN_COUNT)];
            Words(GoFields, Joined(ws)) == ws
  {
    NumeralIsWord(PIN_COUNT, GoFields);
    WordsOfJoined(GoFields, ["source=" + SourceName(source), "count=" + Numeral(PIN_COUNT)]);
  }

  lemma TextOfHeader(rest: string)
    ensures var line := "> hal map " + rest;
            "> hal " <= line && "hal map " <= line[2..] && line[10..] == rest
  {
  }

  lemma HeaderAbsorbed(source: Source)
    ensures Absorb(Start(), MapHeader(source)) == (Query(PIN_COUNT, [], SourceName(source)), false)
  {
    var ws := ["source=" + SourceName(source), "count=" + Numeral(PIN_COUNT)];
    HeaderText(source);
    TextOfHeader(Joined(ws));
    HeaderWords(source);
    HeaderFields(Start(), source);
  }

  lemma HeaderKept(source: Source)
    ensures Trimmed(MapHeader(source)) == MapHeader(source) && !Skipped(MapHeader(source))
  {
    HeaderText(source);
    var ws := ["source=" + SourceName(source), "count=" + Numeral(PIN_COUNT)];
    JoinedEnd(ws);
    NumeralIsWord(PIN_COUNT, GoFields);
    var line, n := MapHeader(source), Numeral(PIN_COUNT);
    assert line[0] == '>' && line[|line| - 1] == Joined(ws)[|Joined(ws)| - 1];
    assert ws[1][|ws[1]| - 1] == n[|n| - 1];
    assert "EVENT "[0] == 'E';
  }

  // ----- the whole answer ----------------------------------------------------------------------

  lemma OneReply(q: Query, chatter: seq<seq<string>>, replies: seq<string>, q': Query, done: bool)
    requires Quiet(chatter) && replies != []
    requires Trimmed(replies[0]) == replies[0] && !Skipped(replies[0]) && Absorb(q, replies[0]) == (q', done)
    ensures var rest := if chatter == [] then [] else chatter[1..];
            Quiet(rest) &&
            Listen(q, Woven(chatter, replies)) == if done then Some(q') else Listen(q', Woven(rest, replies[1..]))
  {
    if chatter == [] {
      assert Woven(chatter, replies) == replies;
      assert Woven([], replies[1..]) == replies[1..];
    } else {
      assert chatter[0] in chatter;
      var tail := [replies[0]] + Woven(chatter[1..], replies[1..]);
      assert Woven(chatter, replies) == chatter[0] + tail;
      ChatterIgnored(q, chatter[0], tail);
      assert tail[0] == replies[0] && tail[1..] == Woven(chatter[1..], replies[1..]);
      assert Listen(q, tail) == if done then Some(q') else Listen(q', tail[1..]);
      assert forall batch :: batch in chatter[1..] ==> batch in chatter;
    }
  }

  function PinLines(m: PinMap): seq<string>
    requires Sized(m)
  {
    seq(PIN_COUNT, i requires 0 <= i < PIN_COUNT => PinLine(m, i))
  }

  lemma {:induction false} PinsRead(m: PinMap, source: string, i: nat, chatter: seq<seq<string>>)
    requires Sized(m) && i < PIN_COUNT && Quiet(chatter)
    ensures Listen(Query(PIN_COUNT, EntriesOf(m)[..i], source), Woven(chatter, PinLines(m)[i..])) ==
            Some(Query(PIN_COUNT, EntriesOf(m), source))
    decreases PIN_COUNT - i
  {
    var q := Query(PIN_COUNT, EntriesOf(m)[..i], source);
    var q' := Query(PIN_COUNT, EntriesOf(m)[..i + 1], source);
    assert EntriesOf(m)[..i] + [EntryOf(m, i)] == EntriesOf(m)[..i + 1];
    PinLineAbsorbed(q, m, i);
    PinLineKept(m, i);
    assert PinLines(m)[i..][0] == PinLine(m, i) && PinLines(m)[i..][1..] == PinLines(m)[i + 1..];
    OneReply(q, chatter, PinLines(m)[i..], q', Complete(q'));
    if i + 1 < PIN_COUNT {
      PinsRead(m, source, i + 1, if chatter == [] then [] else chatter[1..]);
    } else {
      assert EntriesOf(m)[..i + 1] == EntriesOf(m);
    }
  }

  /**
   * Printer and parser are inverse: whatever events or boot messages arrive in between, the tool
   * collects exactly the board's map, entry for entry, and its source.
   */
  lemma MapReadsBack(b: Board, chatter: seq<seq<string>>)
    requires Sized(b.live) && Quiet(chatter)
    ensures Listen(Start(), Woven(chatter, MapLines(b))) ==
            Some(Query(PIN_COUNT, EntriesOf(b.live), SourceName(b.source)))
  {
    HeaderAbsorbed(b.source);
    HeaderKept(b.source);
    OneReply(Start(), chatter, MapLines(b), Query(PIN_COUNT, [], SourceName(b.source)), false);
    assert MapLines(b)[1..] == PinLines(b.live)[0..];
    assert EntriesOf(b.live)[..0] == [];
    PinsRead(b.live, SourceName(b.source), 0, if chatter == [] then [] else chatter[1..]);
  }
}
