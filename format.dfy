/**
 * The drawing-independent data of the bar: colours, the style snapshot a
 * segment carries, the two segment kinds, and the hex colour decoder.
 *
 * Channels are exact reals: a group of hex digits is divided by 16^m - 1,
 * which is exact rational arithmetic.
 */
module Format {
  import opened Wrappers

  /** A colour; `Colour::new(r, g, b, a)` is this constructor, storing its arguments unchanged. */
  datatype Colour = Colour(r: real, g: real, b: real, a: real)

  predicate InUnitRange(c: Colour)
  {
    0.0 <= c.r <= 1.0 && 0.0 <= c.g <= 1.0 && 0.0 <= c.b <= 1.0 && 0.0 <= c.a <= 1.0
  }

  /** Background, over/underline colours (present when enabled), their sizes and the click bindings. */
  datatype BG = BG(bg: Colour, ol: Option<Colour>, ul: Option<Colour>,
                   olSize: real, ulSize: real, cmd: seq<(nat, string)>)

  /** A run of text with its foreground colour and font description. */
  datatype Text = Text(fg: Colour, text: string, font: string)

  /** A segment of the bar: styled text or an elastic filler. */
  datatype FormatItem = TextItem(content: Text, style: BG) | Filler(style: BG)

  // ---------------------------------------------------------------------------
  // Byte length of a Rust string (UTF-8)

  predicate IsAscii(c: char)
  {
    c as int < 0x80
  }

  /** Number of bytes UTF-8 uses for `c`. */
  function CharWidth(c: char): (w: nat)
    ensures 1 <= w <= 4
    ensures w == 1 <==> IsAscii(c)
  {
    if c as int < 0x80 then 1
    else if c as int < 0x800 then 2
    else if c as int < 0x1_0000 then 3
    else 4
  }

  predicate AllAscii(s: string)
  {
    forall i :: 0 <= i < |s| ==> IsAscii(s[i])
  }

  /** `str::len`: the UTF-8 byte length, never below the character count, equal to it exactly on ASCII. */
  function Utf8Len(s: string): (n: nat)
    ensures |s| <= n
    ensures n == |s| <==> AllAscii(s)
  {
    if s == [] then 0
    else
      var n := CharWidth(s[0]) + Utf8Len(s[1..]);
      assert AllAscii(s) <==> IsAscii(s[0]) && AllAscii(s[1..]) by {
        if IsAscii(s[0]) && AllAscii(s[1..]) {
          forall i | 0 <= i < |s| ensures IsAscii(s[i]) {
            if i > 0 { assert s[i] == s[1..][i - 1]; }
          }
        }
      }
      n
  }

  // ---------------------------------------------------------------------------
  // Hex digits

  /** `[[:xdigit:]]`, also the digits `from_str_radix(_, 16)` accepts. */
  predicate IsHexDigit(c: char)
  {
    '0' <= c <= '9' || 'a' <= c <= 'f' || 'A' <= c <= 'F'
  }

  predicate AllHex(s: string)
  {
    forall i :: 0 <= i < |s| ==> IsHexDigit(s[i])
  }

  function DigitValue(c: char): (v: nat)
    requires IsHexDigit(c)
    ensures v < 16
  {
    if '0' <= c <= '9' then c as int - '0' as int
    else if 'a' <= c <= 'f' then c as int - 'a' as int + 10
    else c as int - 'A' as int + 10
  }

  function Pow16(k: nat): (p: nat)
    ensures p >= 1 && (k >= 1 ==> p >= 16)
  {
    if k == 0 then 1 else 16 * Pow16(k - 1)
  }

  /** The number a string of hex digits denotes, most significant first. */
  function HexValue(d: string): (v: nat)
    requires AllHex(d)
    ensures v < Pow16(|d|)
  {
    if d == [] then 0
    else 16 * HexValue(d[..|d| - 1]) + DigitValue(d[|d| - 1])
  }

  /** The unsigned part of `from_str_radix`: at least one digit, all of them hex. */
  function Magnitude(d: string): Option<int>
  {
    if d != [] && AllHex(d) then Some(HexValue(d)) else None
  }

  /**
   * `i32::from_str_radix(h, 16)`, which also takes one leading `+` or `-`
   * before the digits when `acceptSign` holds (as Rust's does); with
   * `acceptSign` false only plain hex digits are read.
   */
  function GroupValue(h: string, acceptSign: bool): Option<int>
  {
    if acceptSign && |h| > 0 && (h[0] == '+' || h[0] == '-') then
      match Magnitude(h[1..])
      case None => None
      case Some(v) => if h[0] == '-' then Some(-v) else Some(v)
    else Magnitude(h)
  }

  // ---------------------------------------------------------------------------
  // from_hex

  const InvalidLength := "Provided string as invalid length"

  /** What `Colour::from_hex` does: a colour, an `Err`, or a panic in `from_str_radix(...).unwrap()`. */
  datatype HexResult = Decoded(colour: Colour) | Rejected(message: string) | BadDigit

  /** At most one leading `#` is removed. */
  function StripHash(hex: string): string
  {
    if |hex| > 0 && hex[0] == '#' then hex[1..] else hex
  }

  /** Digits per group `m` and first channel written `b` (0 = alpha) for each accepted byte length. */
  function GroupShape(len: nat): (r: Option<(nat, nat)>)
    ensures r.Some? <==> len in {3, 4, 6, 8}
    ensures r.Some? ==> 1 <= r.value.0 <= 2 && r.value.1 <= 1
  {
    if len == 3 then Some((1, 1))
    else if len == 4 then Some((1, 0))
    else if len == 6 then Some((2, 1))
    else if len == 8 then Some((2, 0))
    else None
  }

  /** The groups `chars().take(m)` yields from character `pos` on, until the iterator is exhausted; the last may be short. */
  function Chunks(s: string, m: nat, pos: nat): seq<string>
    requires m >= 1 && pos <= |s|
    decreases |s| - pos
  {
    if pos == |s| then []
    else
      var end := if pos + m <= |s| then pos + m else |s|;
      [s[pos..end]] + Chunks(s, m, end)
  }

  /** A group value divided by `16^m - 1` (the largest `m`-digit value), for one or two digits per group. */
  function Normalise(v: int, m: nat): real
    requires 1 <= m <= 2
  {
    if m == 1 then v as real / 15.0 else v as real / 255.0
  }

  /** The values of all groups, or `None` as soon as one of them does not parse. */
  function ParseGroups(gs: seq<string>, acceptSign: bool): (r: Option<seq<int>>)
    ensures r.Some? ==> |r.value| == |gs|
  {
    if gs == [] then Some([])
    else
      match ParseGroups(gs[..|gs| - 1], acceptSign)
      case None => None
      case Some(vs) =>
        match GroupValue(gs[|gs| - 1], acceptSign)
        case None => None
        case Some(v) => Some(vs + [v])
  }

  /** The array `c = [a, r, g, b]`, initially `[1, 0, 0, 0]`, once the values `vs` were written from index `b` on. */
  function Fill(vs: seq<int>, m: nat, b: nat): (c: seq<real>)
    requires 1 <= m <= 2 && b + |vs| <= 4
    ensures |c| == 4
  {
    if vs == [] then [1.0, 0.0, 0.0, 0.0]
    else Fill(vs[..|vs| - 1], m, b)[b + |vs| - 1 := Normalise(vs[|vs| - 1], m)]
  }

  lemma ChunksFit(s: string, m: nat, b: nat)
    requires GroupShape(Utf8Len(s)) == Some((m, b))
    ensures |Chunks(s, m, 0)| + b <= 4
  {
    ChunksCount(s, m, 0);
  }

  /** The decoder, parameterised by whether a group may carry a sign. */
  function DecodeHex(hex: string, acceptSign: bool): (r: HexResult)
    ensures r.Rejected? <==> Utf8Len(StripHash(hex)) !in {3, 4, 6, 8}
    ensures r.Rejected? ==> r.message == InvalidLength
  {
    var s := StripHash(hex);
    match GroupShape(Utf8Len(s))
    case None => Rejected(InvalidLength)
    case Some((m, b)) =>
      match ParseGroups(Chunks(s, m, 0), acceptSign)
      case None => BadDigit
      case Some(vs) =>
        ChunksFit(s, m, b);
        var c := Fill(vs, m, b);
        Decoded(Colour(c[1], c[2], c[3], c[0]))
  }

  /** `Colour::from_hex` as written: groups go through `i32::from_str_radix`, signs included. */
  function HexColour(hex: string): HexResult
  {
    DecodeHex(hex, true)
  }

  /** `Colour::from_hex` as evidently intended: every group is plain hex digits. */
  function StrictHexColour(hex: string): HexResult
  {
    DecodeHex(hex, false)
  }

  lemma {:induction false} ChunksCount(s: string, m: nat, pos: nat)
    requires (m == 1 || m == 2) && pos <= |s|
    ensures m == 1 ==> |Chunks(s, m, pos)| == |s| - pos
    ensures m == 2 ==> |Chunks(s, m, pos)| == (|s| - pos + 1) / 2
    decreases |s| - pos
  {
    if pos < |s| {
      ChunksCount(s, m, if pos + m <= |s| then pos + m else |s|);
    }
  }

  lemma AppendAssoc<T>(a: seq<T>, b: seq<T>, c: seq<T>)
    ensures (a + b) + c == a + (b + c)
  {
  }

  /** Parsing one more group extends the values, or fails when that group does not parse. */
  lemma ParseGroupsSnoc(gs: seq<string>, g: string, acceptSign: bool)
    ensures GroupValue(g, acceptSign).None? ==> ParseGroups(gs + [g], acceptSign).None?
    ensures ParseGroups(gs, acceptSign).Some? && GroupValue(g, acceptSign).Some? ==>
      ParseGroups(gs + [g], acceptSign) == Some(ParseGroups(gs, acceptSign).value + [GroupValue(g, acceptSign).value])
  {
    assert (gs + [g])[..|gs|] == gs;
  }

  /** Writing one more value updates exactly its own slot of the array. */
  lemma FillSnoc(vs: seq<int>, v: int, m: nat, b: nat)
    requires 1 <= m <= 2 && b + |vs| + 1 <= 4
    ensures Fill(vs + [v], m, b) == Fill(vs, m, b)[b + |vs| := Normalise(v, m)]
  {
    assert (vs + [v])[..|vs|] == vs;
  }

  /** Once a group fails, every longer run of groups fails too. */
  lemma {:induction false} ParseGroupsFailurePersists(p: seq<string>, q: seq<string>, acceptSign: bool)
    requires ParseGroups(p, acceptSign).None?
    ensures ParseGroups(p + q, acceptSign).None?
    decreases |q|
  {
    if q != [] {
      var q' := q[..|q| - 1];
      assert (p + q)[..|p + q| - 1] == p + q';
      ParseGroupsFailurePersists(p, q', acceptSign);
    } else {
      assert p + q == p;
    }
  }

  // ---------------------------------------------------------------------------
  // Structure of the groups

  /** A character a group may hold: a hex digit, or a sign when signs are read. */
  predicate GroupChar(c: char, acceptSign: bool)
  {
    IsHexDigit(c) || (acceptSign && (c == '+' || c == '-'))
  }

  /** A group that does not start with a sign. */
  predicate Unsigned(h: string)
  {
    h == [] || (h[0] != '+' && h[0] != '-')
  }

  /** A group that parses consists of group characters only. */
  lemma GroupValueChars(h: string, acceptSign: bool)
    ensures GroupValue(h, acceptSign).Some? ==> forall j :: 0 <= j < |h| ==> GroupChar(h[j], acceptSign)
  {
    if GroupValue(h, acceptSign).Some? && acceptSign && |h| > 0 && (h[0] == '+' || h[0] == '-') {
      forall j | 1 <= j < |h| ensures IsHexDigit(h[j]) {
        assert h[j] == h[1..][j - 1];
      }
    }
  }

  /** Without a leading sign, reading signs or not makes no difference. */
  lemma GroupValueUnsigned(h: string)
    requires Unsigned(h)
    ensures GroupValue(h, true) == GroupValue(h, false)
  {
  }

  /** All groups parse exactly when each one does, and the values are the groups' own values. */
  lemma {:induction false} ParseGroupsElementwise(gs: seq<string>, acceptSign: bool)
    ensures ParseGroups(gs, acceptSign).Some? <==> forall i :: 0 <= i < |gs| ==> GroupValue(gs[i], acceptSign).Some?
    ensures ParseGroups(gs, acceptSign).Some? ==>
      forall i :: 0 <= i < |gs| ==> GroupValue(gs[i], acceptSign) == Some(ParseGroups(gs, acceptSign).value[i])
    decreases |gs|
  {
    if gs != [] {
      var p := gs[..|gs| - 1];
      ParseGroupsElementwise(p, acceptSign);
      assert forall i :: 0 <= i < |p| ==> p[i] == gs[i];
    }
  }

  /** Groups without leading signs parse alike whether or not signs are read. */
  lemma {:induction false} ParseGroupsUnsigned(gs: seq<string>)
    requires forall i :: 0 <= i < |gs| ==> Unsigned(gs[i])
    ensures ParseGroups(gs, true) == ParseGroups(gs, false)
    decreases |gs|
  {
    if gs != [] {
      var p := gs[..|gs| - 1];
      assert forall i :: 0 <= i < |p| ==> p[i] == gs[i];
      ParseGroupsUnsigned(p);
      GroupValueUnsigned(gs[|gs| - 1]);
    }
  }

  /** Every character from `pos` on lies in a group; so when all groups parse, all characters are group characters. */
  lemma {:induction false} ChunksChars(s: string, m: nat, pos: nat, acceptSign: bool)
    requires m >= 1 && pos <= |s|
    requires forall i :: 0 <= i < |Chunks(s, m, pos)| ==> GroupValue(Chunks(s, m, pos)[i], acceptSign).Some?
    ensures forall k :: pos <= k < |s| ==> GroupChar(s[k], acceptSign)
    decreases |s| - pos
  {
    if pos < |s| {
      var end := if pos + m <= |s| then pos + m else |s|;
      var h := s[pos..end];
      var gs := Chunks(s, m, pos);
      assert gs == [h] + Chunks(s, m, end);
      assert gs[0] == h;
      GroupValueChars(h, acceptSign);
      assert forall i :: 0 <= i < |Chunks(s, m, end)| ==> Chunks(s, m, end)[i] == gs[i + 1];
      ChunksChars(s, m, end, acceptSign);
      forall k | pos <= k < end ensures GroupChar(s[k], acceptSign) {
        assert s[k] == h[k - pos];
      }
    }
  }

  /** Groups start at characters of the string, so a sign-free string has unsigned groups. */
  lemma {:induction false} ChunksUnsigned(s: string, m: nat, pos: nat)
    requires m >= 1 && pos <= |s|
    requires forall k :: pos <= k < |s| ==> s[k] != '+' && s[k] != '-'
    ensures forall i :: 0 <= i < |Chunks(s, m, pos)| ==> Unsigned(Chunks(s, m, pos)[i])
    decreases |s| - pos
  {
    if pos < |s| {
      var end := if pos + m <= |s| then pos + m else |s|;
      var gs := Chunks(s, m, pos);
      assert gs == [s[pos..end]] + Chunks(s, m, end);
      assert forall i :: 0 <= i < |Chunks(s, m, end)| ==> Chunks(s, m, end)[i] == gs[i + 1];
      ChunksUnsigned(s, m, end);
    }
  }

  /** With one digit per group, group `i` is character `pos + i`. */
  lemma {:induction false} ChunksAt1(s: string, pos: nat, i: nat)
    requires pos + i < |s|
    ensures |Chunks(s, 1, pos)| == |s| - pos
    ensures Chunks(s, 1, pos)[i] == s[pos + i..pos + i + 1]
    decreases i
  {
    ChunksCount(s, 1, pos);
    if i > 0 {
      ChunksAt1(s, pos + 1, i - 1);
    }
  }

  /** With two digits per group over an even remainder, group `i` is characters `pos + 2i` and `pos + 2i + 1`. */
  lemma {:induction false} ChunksAt2(s: string, pos: nat, i: nat)
    requires pos + 2 * i + 2 <= |s| && (|s| - pos) % 2 == 0
    ensures |Chunks(s, 2, pos)| == (|s| - pos) / 2
    ensures Chunks(s, 2, pos)[i] == s[pos + 2 * i..pos + 2 * i + 2]
    decreases i
  {
    ChunksCount(s, 2, pos);
    if i > 0 {
      ChunksAt2(s, pos + 2, i - 1);
    }
  }

  /** Slot `j` of the array after writing `vs` from index `b`. */
  lemma {:induction false} FillAt(vs: seq<int>, m: nat, b: nat, j: nat)
    requires 1 <= m <= 2 && b + |vs| <= 4 && j < 4
    ensures Fill(vs, m, b)[j] == if b <= j < b + |vs| then Normalise(vs[j - b], m) else if j == 0 then 1.0 else 0.0
    decreases |vs|
  {
    if vs != [] {
      FillAt(vs[..|vs| - 1], m, b, j);
    }
  }

  // ---------------------------------------------------------------------------
  // Reference decoding of a string of hex digits

  /** One digit scaled to [0, 1]. */
  function Channel1(c: char): real
    requires IsHexDigit(c)
  {
    DigitValue(c) as real / 15.0
  }

  /** Two digits, most significant first, scaled to [0, 1]. */
  function Channel2(hi: char, lo: char): real
    requires IsHexDigit(hi) && IsHexDigit(lo)
  {
    (16 * DigitValue(hi) + DigitValue(lo)) as real / 255.0
  }

  /** Hex digits are ASCII, so their byte length is their character count. */
  lemma HexIsAscii(s: string)
    requires AllHex(s)
    ensures Utf8Len(s) == |s|
  {
    assert AllAscii(s);
  }

  /**
   * The colour `#rgb`, `#argb`, `#rrggbb` or `#aarrggbb` names: each channel
   * is its digits' value over the largest value of that many digits, and
   * alpha is 1 when it is not given.
   */
  function HexDigitsColour(s: string): (c: Colour)
    requires AllHex(s) && Utf8Len(s) in {3, 4, 6, 8}
    ensures InUnitRange(c)
  {
    HexIsAscii(s);
    if |s| == 3 then Colour(Channel1(s[0]), Channel1(s[1]), Channel1(s[2]), 1.0)
    else if |s| == 4 then Colour(Channel1(s[1]), Channel1(s[2]), Channel1(s[3]), Channel1(s[0]))
    else if |s| == 6 then Colour(Channel2(s[0], s[1]), Channel2(s[2], s[3]), Channel2(s[4], s[5]), 1.0)
    else Colour(Channel2(s[2], s[3]), Channel2(s[4], s[5]), Channel2(s[6], s[7]), Channel2(s[0], s[1]))
  }

  lemma HexValue1(h: string)
    requires |h| == 1 && AllHex(h)
    ensures HexValue(h) == DigitValue(h[0])
  {
    assert h[..0] == [];
  }

  lemma HexValue2(h: string)
    requires |h| == 2 && AllHex(h)
    ensures HexValue(h) == 16 * DigitValue(h[0]) + DigitValue(h[1])
  {
    HexValue1(h[..1]);
  }

  /** A non-empty group of hex digits parses to its value, with or without sign reading. */
  lemma GroupValueDigits(h: string, acceptSign: bool)
    requires |h| > 0 && AllHex(h)
    ensures GroupValue(h, acceptSign) == Some(HexValue(h))
  {
  }

  /** Single-digit groups of hex digits parse to the digits' values. */
  lemma GroupsOfDigits1(s: string, acceptSign: bool)
    requires AllHex(s)
    ensures ParseGroups(Chunks(s, 1, 0), acceptSign).Some?
    ensures var vs := ParseGroups(Chunks(s, 1, 0), acceptSign).value;
      |vs| == |s| && forall i :: 0 <= i < |s| ==> vs[i] == DigitValue(s[i])
  {
    var gs := Chunks(s, 1, 0);
    ChunksCount(s, 1, 0);
    forall i | 0 <= i < |gs| ensures GroupValue(gs[i], acceptSign) == Some(DigitValue(s[i])) {
      ChunksAt1(s, 0, i);
      assert gs[i][0] == s[i];
      HexValue1(gs[i]);
      GroupValueDigits(gs[i], acceptSign);
    }
    ParseGroupsElementwise(gs, acceptSign);
  }

  /** Two-digit groups of an even string of hex digits parse to the pairs' values. */
  lemma GroupsOfDigits2(s: string, acceptSign: bool)
    requires AllHex(s) && |s| % 2 == 0
    ensures ParseGroups(Chunks(s, 2, 0), acceptSign).Some?
    ensures var vs := ParseGroups(Chunks(s, 2, 0), acceptSign).value;
      |vs| == |s| / 2 && forall i :: 0 <= i < |s| / 2 ==> vs[i] == 16 * DigitValue(s[2 * i]) + DigitValue(s[2 * i + 1])
  {
    var gs := Chunks(s, 2, 0);
    ChunksCount(s, 2, 0);
    forall i | 0 <= i < |gs|
      ensures GroupValue(gs[i], acceptSign) == Some(16 * DigitValue(s[2 * i]) + DigitValue(s[2 * i + 1]))
    {
      ChunksAt2(s, 0, i);
      assert gs[i][0] == s[2 * i] && gs[i][1] == s[2 * i + 1];
      HexValue2(gs[i]);
      GroupValueDigits(gs[i], acceptSign);
    }
    ParseGroupsElementwise(gs, acceptSign);
  }

  /** Single-digit layouts (`#rgb`, `#argb`) decode to the reference colour. */
  lemma DecodeDigits1(hex: string, acceptSign: bool)
    requires AllHex(StripHash(hex)) && |StripHash(hex)| in {3, 4}
    ensures DecodeHex(hex, acceptSign) == Decoded(HexDigitsColour(StripHash(hex)))
  {
    var s := StripHash(hex);
    HexIsAscii(s);
    var b := if |s| == 3 then 1 else 0;
    GroupsOfDigits1(s, acceptSign);
    var vs := ParseGroups(Chunks(s, 1, 0), acceptSign).value;
    FillAt(vs, 1, b, 0);
    FillAt(vs, 1, b, 1);
    FillAt(vs, 1, b, 2);
    FillAt(vs, 1, b, 3);
  }

  /** Two-digit layouts (`#rrggbb`, `#aarrggbb`) decode to the reference colour. */
  lemma DecodeDigits2(hex: string, acceptSign: bool)
    requires AllHex(StripHash(hex)) && |StripHash(hex)| in {6, 8}
    ensures DecodeHex(hex, acceptSign) == Decoded(HexDigitsColour(StripHash(hex)))
  {
    var s := StripHash(hex);
    HexIsAscii(s);
    var b := if |s| == 6 then 1 else 0;
    GroupsOfDigits2(s, acceptSign);
    var vs := ParseGroups(Chunks(s, 2, 0), acceptSign).value;
    FillAt(vs, 2, b, 0);
    FillAt(vs, 2, b, 1);
    FillAt(vs, 2, b, 2);
    FillAt(vs, 2, b, 3);
  }

  /** A string of hex digits of an accepted length decodes to the reference colour. */
  lemma DecodeDigits(hex: string, acceptSign: bool)
    requires AllHex(StripHash(hex)) && Utf8Len(StripHash(hex)) in {3, 4, 6, 8}
    ensures DecodeHex(hex, acceptSign) == Decoded(HexDigitsColour(StripHash(hex)))
  {
    HexIsAscii(StripHash(hex));
    if |StripHash(hex)| <= 4 {
      DecodeDigits1(hex, acceptSign);
    } else {
      DecodeDigits2(hex, acceptSign);
    }
  }

  /** A decoded colour came from group characters only. */
  lemma DecodedChars(hex: string, acceptSign: bool)
    ensures DecodeHex(hex, acceptSign).Decoded? ==>
      forall k :: 0 <= k < |StripHash(hex)| ==> GroupChar(StripHash(hex)[k], acceptSign)
  {
    var s := StripHash(hex);
    if DecodeHex(hex, acceptSign).Decoded? {
      var (m, b) := GroupShape(Utf8Len(s)).value;
      ParseGroupsElementwise(Chunks(s, m, 0), acceptSign);
      ChunksChars(s, m, 0, acceptSign);
    }
  }

  /**
   * The corrected decoder, completely: a bad length is an `Err`, hex digits
   * give the reference colour, and any other character panics.
   */
  lemma StrictHexColourCases(hex: string)
    ensures StrictHexColour(hex) ==
      var s := StripHash(hex);
      if Utf8Len(s) !in {3, 4, 6, 8} then Rejected(InvalidLength)
      else if AllHex(s) then Decoded(HexDigitsColour(s))
      else BadDigit
  {
    var s := StripHash(hex);
    if Utf8Len(s) in {3, 4, 6, 8} {
      if AllHex(s) {
        DecodeDigits(hex, false);
      } else {
        DecodedChars(hex, false);
      }
    }
  }

  /** The corrected decoder only yields colours with every channel in [0, 1]. */
  lemma StrictHexColourInUnitRange(hex: string)
    ensures StrictHexColour(hex).Decoded? ==> InUnitRange(StrictHexColour(hex).colour)
  {
    StrictHexColourCases(hex);
  }

  /** On a string without `+` or `-` the code as written agrees with the corrected decoder. */
  lemma HexColourUnsigned(hex: string)
    requires forall k :: 0 <= k < |StripHash(hex)| ==> StripHash(hex)[k] != '+' && StripHash(hex)[k] != '-'
    ensures HexColour(hex) == StrictHexColour(hex)
  {
    var s := StripHash(hex);
    match GroupShape(Utf8Len(s))
    case None =>
    case Some((m, b)) =>
      ChunksUnsigned(s, m, 0);
      ParseGroupsUnsigned(Chunks(s, m, 0));
  }

  /** The groups of `-f0000`. */
  lemma SignedChunks()
    ensures Chunks("-f0000", 2, 0) == ["-f", "00", "00"]
  {
    var s := "-f0000";
    assert s[0..2] == "-f" && s[2..4] == "00" && s[4..6] == "00";
    assert Chunks(s, 2, 6) == [];
    assert Chunks(s, 2, 4) == ["00"];
    assert Chunks(s, 2, 2) == ["00", "00"];
  }

  /** Read with signs, `-f` is minus fifteen and `00` is zero. */
  lemma SignedGroupValues()
    ensures GroupValue("-f", true) == Some(-15)
    ensures GroupValue("00", true) == Some(0)
  {
    assert "-f"[1..] == "f";
    HexValue1("f");
    HexValue2("00");
  }

  /** The groups of `-f0000` and their values when signs are read. */
  lemma SignedGroupsParse()
    ensures Chunks("-f0000", 2, 0) == ["-f", "00", "00"]
    ensures ParseGroups(["-f", "00", "00"], true) == Some([-15, 0, 0])
  {
    SignedChunks();
    SignedGroupValues();
    assert ParseGroups([], true) == Some([]);
    ParseGroupsSnoc([], "-f", true);
    assert [] + ["-f"] == ["-f"];
    assert [] + [-15] == [-15];
    assert ParseGroups(["-f"], true) == Some([-15]);
    ParseGroupsSnoc(["-f"], "00", true);
    assert ["-f"] + ["00"] == ["-f", "00"];
    assert [-15] + [0] == [-15, 0];
    assert ParseGroups(["-f", "00"], true) == Some([-15, 0]);
    ParseGroupsSnoc(["-f", "00"], "00", true);
    assert ["-f", "00"] + ["00"] == ["-f", "00", "00"];
    assert [-15, 0] + [0] == [-15, 0, 0];
  }

  /** The code as written decodes a signed group: `#-f0000` gives a negative red channel. */
  lemma SignedGroupDecodes()
    ensures HexColour("#-f0000") == Decoded(Colour(-15.0 / 255.0, 0.0, 0.0, 1.0))
  {
    var s := "-f0000";
    assert StripHash("#-f0000") == s;
    assert AllAscii(s);
    assert GroupShape(Utf8Len(s)) == Some((2, 1));
    SignedGroupsParse();
    var vs := [-15, 0, 0];
    FillAt(vs, 2, 1, 0);
    FillAt(vs, 2, 1, 1);
    FillAt(vs, 2, 1, 2);
    FillAt(vs, 2, 1, 3);
  }

  /** The corrected decoder refuses the signed group. */
  lemma SignedGroupRefused()
    ensures StrictHexColour("#-f0000") == BadDigit
  {
    var s := "-f0000";
    assert StripHash("#-f0000") == s;
    assert AllAscii(s);
    assert !AllHex(s) by {
      assert !IsHexDigit(s[0]);
    }
    StrictHexColourCases("#-f0000");
  }

  /** The `#` is optional: with or without it the same string decodes the same way. */
  lemma HashOptional(s: string)
    requires |s| == 0 || s[0] != '#'
    ensures HexColour("#" + s) == HexColour(s)
    ensures StrictHexColour("#" + s) == StrictHexColour(s)
  {
    assert ("#" + s)[1..] == s;
  }

  /** Leading `#` handling: only one is removed, so a second one is read as a digit and panics. */
  lemma DoubleHashPanics()
    ensures HexColour("##f00") == BadDigit
  {
    var s := "#f00";
    assert StripHash("##f00") == s;
    assert !IsHexDigit(s[0]) && s[0] != '+' && s[0] != '-';
    DecodedChars("##f00", true);
  }

  /**
   * `Colour::from_hex`: strips one `#`, picks the group layout from the byte
   * length, and fills the array `[a, r, g, b]` (initially `[1, 0, 0, 0]`)
   * group by group from index `b`; a group that `from_str_radix` refuses
   * panics (`BadDigit`).
   */
  method FromHex(hex: string) returns (res: HexResult)
    ensures res == HexColour(hex)
  {
    var s := hex;
    if |s| > 0 && s[0] == '#' {
      s := s[1..];
    }
    assert s == StripHash(hex);
    var len := Utf8Len(s);
    var shape := GroupShape(len);
    if shape.None? {
      return Rejected(InvalidLength);
    }
    var (m, b) := shape.value;
    var c := new real[4];
    c[0], c[1], c[2], c[3] := 1.0, 0.0, 0.0, 0.0;
    ghost var gs := Chunks(s, m, 0);
    ChunksFit(s, m, b);
    var pos := 0;
    var n := 0;
    ghost var done: seq<string> := [];
    ghost var vals: seq<int> := [];
    while pos < |s|
      invariant 0 <= pos <= |s| && n == |done| == |vals| <= |gs|
      invariant gs == done + Chunks(s, m, pos)
      invariant ParseGroups(done, true) == Some(vals)
      invariant c[..] == Fill(vals, m, b)
    {
      var end := if pos + m <= |s| then pos + m else |s|;
      var h := s[pos..end];
      assert Chunks(s, m, pos) == [h] + Chunks(s, m, end);
      AppendAssoc(done, [h], Chunks(s, m, end));
      var v := GroupValue(h, true);
      ParseGroupsSnoc(done, h, true);
      if v.None? {
        ParseGroupsFailurePersists(done + [h], Chunks(s, m, end), true);
        return BadDigit;
      }
      FillSnoc(vals, v.value, m, b);
      ghost var before := c[..];
      c[b + n] := Normalise(v.value, m);
      assert c[..] == before[b + n := Normalise(v.value, m)];
      assert before == Fill(vals, m, b);
      assert c[..] == Fill(vals + [v.value], m, b);
      done, vals := done + [h], vals + [v.value];
      n := n + 1;
      pos := end;
    }
    assert done == gs;
    assert ParseGroups(Chunks(s, m, 0), true) == Some(vals);
    res := Decoded(Colour(c[1], c[2], c[3], c[0]));
  }
}
