/** The protocol names of the pin map's entries (kHalPinNames in firmware/io/src/hal.cpp). */
module HalNames {
  import opened Hal
  import opened Text
  import opened Bytes

  function VfdLine(k: nat): string
    requires k < 6
  {
    if k == 0 then "rs" else if k == 1 then "en" else "d" + [DigitChar(k + 2)]
  }

  function Name(i: nat): (s: string)
    requires i < PIN_COUNT
  {
    if i < 6 then "vfd0_" + VfdLine(i)
    else if i < 12 then "vfd1_" + VfdLine(i - 6)
    else if i < 22 then "button_" + [DigitChar(i - 12)]
    else if i < 26 then "led_" + [DigitChar(i - 22)]
    else if i == 26 then "ws_data"
    else if i < 31 then "relay_" + [DigitChar(i - 27)]
    else if i == 31 then "ldr_0"
    else if i == 32 then "buzzer"
    else if i == 33 then "enc0_a"
    else if i == 34 then "enc0_b"
    else if i == 35 then "enc0_sw"
    else if i < 40 then "servo_" + [DigitChar(i - 36)]
    else if i == 40 then "glcd_cs"
    else "glcd_reset"
  }

  /** The entry a name belongs to, read off a few of its characters. */
  function Rank(s: string): int
    requires |s| >= 5
  {
    if s[0] == 'v' && |s| == 7 then
      (if s[3] == '0' then 0 else 6) + (if s[5] == 'r' then 0 else if s[5] == 'e' then 1 else DigitValue(s[6]) - 2)
    else if s[0] == 'b' && |s| == 8 then 12 + DigitValue(s[7])
    else if s[0] == 'b' then 32
    else if s[0] == 'l' && s[1] == 'e' then 22 + DigitValue(s[4])
    else if s[0] == 'l' then 31
    else if s[0] == 'w' then 26
    else if s[0] == 'r' && |s| == 7 then 27 + DigitValue(s[6])
    else if s[0] == 'e' then (if |s| == 7 then 35 else if |s| > 5 && s[5] == 'a' then 33 else 34)
    else if s[0] == 's' && |s| == 7 then 36 + DigitValue(s[6])
    else if |s| == 7 then 40 else 41
  }

  lemma RankOfName(i: nat)
    requires i < PIN_COUNT
    ensures 5 <= |Name(i)| <= 10 && Rank(Name(i)) == i
  {
  }

  /** No two entries share a name. */
  lemma NamesDiffer(i: nat, j: nat)
    requires i < PIN_COUNT && j < PIN_COUNT && Name(i) == Name(j)
    ensures i == j
  {
    RankOfName(i);
    RankOfName(j);
  }

  /** Names survive being a word of a line, for either side's idea of a word. */
  lemma NameIsWord(i: nat, b: Blanks)
    requires i < PIN_COUNT
    ensures IsWord(b, Name(i))
  {
    forall k | 0 <= k < |Name(i)|
      ensures !IsBlank(b, Name(i)[k])
    {
      NameCharacter(i, k);
    }
  }

  lemma NameCharacter(i: nat, k: nat)
    requires i < PIN_COUNT && k < |Name(i)|
    ensures Name(i)[k] > ' '
  {
  }

  /** pinIdByName: a linear search by strcmp; None when nothing matches. */
  function IdOf(name: string): (r: Option<byte>)
    ensures r.Some? ==> r.value < PIN_COUNT && Name(r.value) == name
    ensures r.None? ==> forall i :: 0 <= i < PIN_COUNT ==> Name(i) != name
  {
    IdFrom(name, 0)
  }

  function IdFrom(name: string, i: nat): (r: Option<byte>)
    requires i <= PIN_COUNT
    ensures r.Some? ==> i <= r.value < PIN_COUNT && Name(r.value) == name
    ensures r.None? ==> forall k :: i <= k < PIN_COUNT ==> Name(k) != name
    decreases PIN_COUNT - i
  {
    if i == PIN_COUNT then None else if Name(i) == name then Some(i) else IdFrom(name, i + 1)
  }

  method PinIdByName(name: string) returns (r: Option<byte>)
    ensures r == IdOf(name)
  {
    r := None;
    for i := 0 to PIN_COUNT
      invariant IdFrom(name, 0) == IdFrom(name, i)
    {
      if Name(i) == name {
        return Some(i);
      }
    }
  }

  lemma IdOfName(i: nat)
    requires i < PIN_COUNT
    ensures IdOf(Name(i)) == Some(i)
  {
    var r := IdOf(Name(i));
    if r.Some? {
      NamesDiffer(r.value, i);
    }
  }
}
