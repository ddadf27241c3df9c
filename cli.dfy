/**
 * The colour-argument validator of the command-line front end: a string
 * passes when it is `#` followed by three, four, six or eight hex digits.
 * The checks run in order and the first that fails gives the message.
 */
module Cli {
  import opened Wrappers
  import opened Format

  /** The validator's answer: accepted, or refused with a message. */
  datatype Checked = Ok | Err(message: string)

  const EmptyMessage: string := "The colour string must not be empty"
  const FormatMessage: string := "Format must be either: #rgb, #argb, #rrggbb, #aarrggbb"
  const DigitsMessage: string := "Invalid number of digits"
  const HexMessage: string := "Digits must be hex"

  /** `str::find` with the "not a hex digit" test, from character `from` on: the first such position. */
  function FindNonHex(s: string, from: nat): (r: Option<nat>)
    requires from <= |s|
    ensures r.Some? ==> from <= r.value < |s| && !IsHexDigit(s[r.value])
    ensures r.Some? ==> forall k :: from <= k < r.value ==> IsHexDigit(s[k])
    ensures r.None? <==> forall k :: from <= k < |s| ==> IsHexDigit(s[k])
    decreases |s| - from
  {
    if from == |s| then None
    else if !IsHexDigit(s[from]) then Some(from)
    else FindNonHex(s, from + 1)
  }

  /**
   * `is_colo` as written: empty, then the leading `#`, then the digit count
   * (the byte length less one), then a hex scan over the whole string.
   */
  function IsColo(s: string): Checked
  {
    if |s| == 0 then Err(EmptyMessage)
    else if s[0] != '#' then Err(FormatMessage)
    else if Utf8Len(s) - 1 !in {3, 4, 6, 8} then Err(DigitsMessage)
    else if FindNonHex(s, 0).Some? then Err(HexMessage)
    else Ok
  }

  /** The scan as written starts at the `#`, which is no hex digit, so no string is ever accepted. */
  lemma IsColoNeverOk(s: string)
    ensures IsColo(s).Err?
    ensures |s| > 0 && s[0] == '#' && Utf8Len(s) - 1 in {3, 4, 6, 8} ==> IsColo(s) == Err(HexMessage)
    ensures IsColo(s) != Err(HexMessage) ==> IsColo(s) == IsColoIntended(s)
  {
    if |s| > 0 && s[0] == '#' {
      assert !IsHexDigit(s[0]);
    }
  }

  /** `#fff` is refused by `is_colo` as written and accepted once the scan skips the `#`. */
  lemma ShortWhiteRefused()
    ensures IsColo("#fff") == Err(HexMessage)
    ensures IsColoIntended("#fff") == Ok
  {
    var s := "#fff";
    assert AllAscii(s);
    assert !IsHexDigit(s[0]);
    assert s[1..] == "fff";
    assert FindNonHex("fff", 3) == None;
  }

  /** `is_colo` as evidently intended: the hex scan covers the digits after the `#`. */
  function IsColoIntended(s: string): Checked
  {
    if |s| == 0 then Err(EmptyMessage)
    else if s[0] != '#' then Err(FormatMessage)
    else if Utf8Len(s) - 1 !in {3, 4, 6, 8} then Err(DigitsMessage)
    else if FindNonHex(s[1..], 0).Some? then Err(HexMessage)
    else Ok
  }

  /** Each refusal of the corrected validator names the first check that fails. */
  lemma IsColoIntendedErrors(s: string)
    ensures IsColoIntended(s) == Err(EmptyMessage) <==> |s| == 0
    ensures IsColoIntended(s) == Err(FormatMessage) <==> |s| > 0 && s[0] != '#'
    ensures IsColoIntended(s) == Err(DigitsMessage) <==> |s| > 0 && s[0] == '#' && Utf8Len(s) - 1 !in {3, 4, 6, 8}
    ensures IsColoIntended(s) == Err(HexMessage) <==>
      |s| > 0 && s[0] == '#' && Utf8Len(s) - 1 in {3, 4, 6, 8} && !AllHex(s[1..])
  {
  }

  /** The corrected validator accepts exactly `#` followed by three, four, six or eight hex digits. */
  lemma IsColoIntendedAccepts(s: string)
    ensures IsColoIntended(s) == Ok <==> |s| > 0 && s[0] == '#' && AllHex(s[1..]) && |s| - 1 in {3, 4, 6, 8}
  {
    if |s| > 0 && s[0] == '#' {
      WidthSplit(s);
      if AllHex(s[1..]) {
        HexIsAscii(s[1..]);
      }
    }
    if IsColoIntended(s) == Ok {
      HexIsAscii(s[1..]);
    }
  }

  /** A leading ASCII character adds one byte. */
  lemma WidthSplit(s: string)
    requires |s| > 0 && s[0] == '#'
    ensures Utf8Len(s) == 1 + Utf8Len(s[1..])
  {
    assert CharWidth(s[0]) == 1;
  }

  /** A string the corrected validator accepts is one the decoder reads into a colour in the unit range. */
  lemma AcceptedDecodes(s: string)
    requires IsColoIntended(s) == Ok
    ensures StrictHexColour(s).Decoded? && InUnitRange(StrictHexColour(s).colour)
  {
    IsColoIntendedAccepts(s);
    HexIsAscii(s[1..]);
    StrictHexColourCases(s);
    StrictHexColourInUnitRange(s);
  }
}
