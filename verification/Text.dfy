/**
 * The text primitives that the IO board's firmware and the configurator exchange lines with:
 * printed numerals, the scanners that read them back, and splitting a line into words.
 */
module Text {
  import opened Bytes

  // ----- numerals --------------------------------------------------------------------

  /** Lower-case digit, up to base 16. */
  function DigitChar(d: nat): char
    requires d < 16
  {
    if d < 10 then (48 + d) as char else (87 + d) as char
  }

  /** The value of a digit in either case; 16 for any other character. */
  function DigitValue(c: char): nat {
    if '0' <= c <= '9' then c as int - 48
    else if 'a' <= c <= 'f' then c as int - 87
    else if 'A' <= c <= 'F' then c as int - 55
    else 16
  }

  predicate IsDigit(c: char, base: nat) { DigitValue(c) < base }

  /** %u and %d of a natural number. */
  function Numeral(n: nat): (s: string)
    ensures s != []
  {
    if n < 10 then [DigitChar(n)] else Numeral(n / 10) + [DigitChar(n % 10)]
  }

  /** %02x of a byte. */
  function Hex2(b: byte): string { [DigitChar(b / 16), DigitChar(b % 16)] }

  /** The value of a string of digits. */
  function Value(s: string, base: nat): nat {
    if s == [] then 0 else base * Value(s[..|s| - 1], base) + DigitValue(s[|s| - 1])
  }

  predicate AllDigits(s: string, base: nat) { forall c :: c in s ==> IsDigit(c, base) }

  lemma {:induction false} NumeralReadsBack(n: nat)
    ensures AllDigits(Numeral(n), 10) && Value(Numeral(n), 10) == n
  {
    if n >= 10 {
      NumeralReadsBack(n / 10);
      assert Numeral(n)[..|Numeral(n)| - 1] == Numeral(n / 10);
    } else {
      assert Numeral(n)[..0] == [];
    }
  }

  lemma Hex2ReadsBack(b: byte)
    ensures AllDigits(Hex2(b), 16) && Value(Hex2(b), 16) == b
  {
    var s := Hex2(b);
    assert s[..1] == [DigitChar(b / 16)];
    assert [DigitChar(b / 16)][..0] == [];
    assert Value([DigitChar(b / 16)], 16) == b / 16;
  }

  lemma {:induction false} NumeralLength(n: nat)
    ensures |Numeral(n)| <= if n < 10 then 1 else if n < 100 then 2 else if n < 1000 then 3 else n
  {
    if n >= 10 {
      NumeralLength(n / 10);
    }
  }

  // ----- scanners ----------------------------------------------------------------------

  /** How many characters at the front are digits. */
  function DigitRun(s: string, base: nat): (n: nat)
    ensures n <= |s| && AllDigits(s[..n], base)
  {
    if s == [] || !IsDigit(s[0], base) then 0
    else
      var n := DigitRun(s[1..], base);
      assert s[..1 + n] == [s[0]] + s[1..][..n];
      1 + n
  }

  lemma {:induction false} DigitRunAll(s: string, base: nat)
    requires AllDigits(s, base)
    ensures DigitRun(s, base) == |s|
  {
    if s != [] {
      assert s[0] in s;
      DigitRunAll(s[1..], base);
    }
  }

  /** fmt.Sscanf with %d into an unsigned byte that starts at 0: an error leaves it there. */
  function ScanByte(s: string): byte {
    var k := DigitRun(s, 10);
    if k == 0 || Value(s[..k], 10) > 255 then 0 else Value(s[..k], 10)
  }

  /** fmt.Sscanf with %d into an int that starts at 0. */
  function ScanInt(s: string): int {
    if s == [] then 0
    else
      var t := if s[0] == '-' || s[0] == '+' then s[1..] else s;
      var k := DigitRun(t, 10);
      var m: int := Value(t[..k], 10);
      var v: int := if s[0] == '-' then -m else m;
      if k == 0 || v < -0x8000_0000_0000_0000 || v >= 0x8000_0000_0000_0000 then 0 else v
  }

  /** fmt.Sscanf with 0x%x into a uint that starts at 0, cut down to a byte. */
  function ScanHexByte(s: string): byte {
    if |s| < 2 || s[0] != '0' || s[1] != 'x' then 0
    else
      var k := DigitRun(s[2..], 16);
      if k == 0 || Value(s[2..][..k], 16) >= 0x1_0000_0000_0000_0000 then 0 else Value(s[2..][..k], 16) % 256
  }

  lemma ScanNumeral(n: byte)
    ensures ScanByte(Numeral(n)) == n && ScanInt(Numeral(n)) == n
  {
    NumeralReadsBack(n);
    DigitRunAll(Numeral(n), 10);
    var s := Numeral(n);
    assert s[..|s|] == s;
    assert IsDigit(s[0], 10) by { assert s[0] in s; }
  }

  lemma ScanHex2(b: byte)
    ensures ScanHexByte("0x" + Hex2(b)) == b
  {
    var s := "0x" + Hex2(b);
    assert s[2..] == Hex2(b);
    Hex2ReadsBack(b);
    DigitRunAll(Hex2(b), 16);
    assert Hex2(b)[..2] == Hex2(b);
  }

  /** isspace in the C locale. */
  predicate IsCSpace(c: char) { c == ' ' || 9 <= c as int <= 13 }

  function SkipSpace(s: string): string {
    if s != [] && IsCSpace(s[0]) then SkipSpace(s[1..]) else s
  }

  /**
   * strtol as section 7.22.1.4 of ISO C11 has it, with a 32-bit long: the value if it used up
   * the whole string, None if some of the string is left.
   */
  function Strtol(s: string, base: nat): Option<int> {
    var t := SkipSpace(s);
    var signed := t != [] && (t[0] == '-' || t[0] == '+');
    var u := if signed then t[1..] else t;
    var prefixed := base == 16 && |u| > 2 && u[0] == '0' && (u[1] == 'x' || u[1] == 'X') && IsDigit(u[2], 16);
    var w := if prefixed then u[2..] else u;
    var k := DigitRun(w, base);
    if k == 0 then (if s == [] then Some(0) else None)
    else if k < |w| then None
    else
      var v: int := Value(w, base);
      Some(Clamp32(if signed && t[0] == '-' then -v else v))
  }

  function Clamp32(n: int): int {
    if n > 0x7FFF_FFFF then 0x7FFF_FFFF else if n < -0x8000_0000 then -0x8000_0000 else n
  }

  lemma StrtolDigits(s: string, base: nat)
    requires s != [] && AllDigits(s, base) && base <= 16
    requires base == 16 ==> |s| == 2
    ensures Strtol(s, base) == Some(Clamp32(Value(s, base)))
  {
    assert s[0] in s;
    assert SkipSpace(s) == s;
    DigitRunAll(s, base);
  }

  // ----- words ---------------------------------------------------------------------------

  /** The two notions of a separator: strings.Fields on ASCII text, and the firmware's tokenizer. */
  datatype Blanks = GoFields | Firmware

  predicate IsBlank(b: Blanks, c: char) {
    match b
    case GoFields => IsCSpace(c)
    case Firmware => c == ' ' || c == '\t'
  }

  /** How many characters at the front are blank, or are not. */
  function BlankRun(b: Blanks, s: string, blank: bool): (n: nat)
    ensures n <= |s|
    ensures forall k :: 0 <= k < n ==> IsBlank(b, s[k]) == blank
    ensures n < |s| ==> IsBlank(b, s[n]) != blank
  {
    if s == [] || IsBlank(b, s[0]) != blank then 0 else 1 + BlankRun(b, s[1..], blank)
  }

  function Words(b: Blanks, s: string): seq<string>
    decreases |s|, 1
  {
    WordsHere(b, s[BlankRun(b, s, true)..])
  }

  /** The words of a text that does not start with a blank. */
  function WordsHere(b: Blanks, t: string): seq<string>
    requires t != [] ==> !IsBlank(b, t[0])
    decreases |t|, 0
  {
    if t == [] then []
    else
      var n := BlankRun(b, t, false);
      [t[..n]] + Words(b, t[n..])
  }

  predicate IsWord(b: Blanks, w: string) { w != [] && forall k :: 0 <= k < |w| ==> !IsBlank(b, w[k]) }

  /** The words with one space between them. */
  function Joined(ws: seq<string>): string {
    if ws == [] then "" else if |ws| == 1 then ws[0] else ws[0] + " " + Joined(ws[1..])
  }

  lemma {:induction false} WordsOfJoined(b: Blanks, ws: seq<string>)
    requires forall w :: w in ws ==> IsWord(b, w)
    ensures Words(b, Joined(ws)) == ws
  {
    if ws != [] {
      assert ws[0] in ws;
      if |ws| == 1 {
        LastWord(b, ws[0]);
        assert Joined(ws) == ws[0] && ws == [ws[0]];
      } else {
        var first, rest := ws[0], ws[1..];
        assert Joined(ws) == first + " " + Joined(rest) && ws == [first] + rest;
        WordsOfJoined(b, rest);
        WordAndMore(b, first, Joined(rest));
      }
    }
  }

  lemma LastWord(b: Blanks, w: string)
    requires IsWord(b, w)
    ensures Words(b, w) == [w]
  {
    FirstWord(b, w, "");
    assert w + "" == w;
    assert Words(b, "") == [];
  }

  lemma WordAndMore(b: Blanks, w: string, more: string)
    requires IsWord(b, w)
    ensures Words(b, w + " " + more) == [w] + Words(b, more)
  {
    var rest := " " + more;
    SameText(w, more);
    FirstWord(b, w, rest);
    SkipOneBlank(b, more);
  }

  lemma SameText(w: string, more: string)
    ensures w + " " + more == w + (" " + more)
  {
  }

  lemma FirstWord(b: Blanks, w: string, rest: string)
    requires IsWord(b, w) && (rest == "" || IsBlank(b, rest[0]))
    ensures Words(b, w + rest) == [w] + Words(b, rest)
  {
    var s := w + rest;
    assert s[0] == w[0] && BlankRun(b, s, true) == 0 && s[0..] == s;
    var n := BlankRun(b, s, false);
    assert forall k :: 0 <= k < |w| ==> s[k] == w[k];
    assert rest != "" ==> s[|w|] == rest[0];
    assert n == |w|;
    assert s[..n] == w && s[n..] == rest;
  }

  lemma SkipOneBlank(b: Blanks, s: string)
    ensures Words(b, " " + s) == Words(b, s)
  {
    var t := " " + s;
    assert t[1..] == s;
    assert BlankRun(b, t, true) == 1 + BlankRun(b, s, true);
    var i := BlankRun(b, s, true);
    assert t[1 + i..] == s[i..];
  }
}
