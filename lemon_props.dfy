/**
 * What the parser promises: how each tag changes the style, the button
 * stack and the zone; where fillers can stand; which text ends up in which
 * zone; when a line panics; and a few lines worked through.
 */
module LemonProperties {
  import opened Wrappers
  import opened Format
  import opened Markup
  import opened Lemon

  // Tags, one at a time

  /** A colour channel of a style. */
  function ColourOf(style: Style, ch: Channel): Colour
  {
    match ch
    case Foreground => style.fg
    case Background => style.bg
    case Underline => style.ul
    case Overline => style.ol
  }

  /** Setting a channel changes that channel and no other part of the style. */
  lemma SetChannelOnly(style: Style, ch: Channel, c: Colour)
    ensures ColourOf(SetChannel(style, ch, c), ch) == c
    ensures forall other: Channel :: other != ch ==> ColourOf(SetChannel(style, ch, c), other) == ColourOf(style, other)
    ensures SetChannel(style, ch, c).oline == style.oline && SetChannel(style, ch, c).uline == style.uline
    ensures SetChannel(style, ch, c).font == style.font
  {
    forall other: Channel | other != ch
      ensures ColourOf(SetChannel(style, ch, c), other) == ColourOf(style, other)
    {
      match ch
      case Foreground =>
      case Background =>
      case Underline =>
      case Overline =>
    }
  }

  /**
   * `F#-`, `B#-`, `U#-`, `u#-` restore the parser's own setting for that
   * channel, whatever the style, and change nothing else.
   */
  lemma ResetRestoresSetting(cfg: Config, st: State, ch: Channel)
    requires Shaped(st)
    ensures ApplyTag(cfg, st, ColourTag(ch, ResetColour)) == Running(st.(style := SetChannel(st.style, ch, DefaultOf(cfg, ch))))
    ensures ColourOf(ApplyTag(cfg, st, ColourTag(ch, ResetColour)).state.style, ch) ==
      match ch
      case Foreground => cfg.fg
      case Background => cfg.bg
      case Underline => cfg.ul
      case Overline => cfg.ol
  {
    SetChannelOnly(st.style, ch, DefaultOf(cfg, ch));
  }

  /**
   * A colour tag with hex digits: seven digits panic; three, four, six or
   * eight set the channel to the colour the digits spell, which lies in
   * the unit range, and change nothing else.
   */
  lemma HexColourTag(cfg: Config, st: State, ch: Channel, d: string)
    requires Shaped(st) && WellFormedTag(ColourTag(ch, HexDigits(d)))
    ensures |d| == 7 <==> ApplyTag(cfg, st, ColourTag(ch, HexDigits(d))).Aborted?
    ensures |d| != 7 ==>
      ApplyTag(cfg, st, ColourTag(ch, HexDigits(d))) == Running(st.(style := SetChannel(st.style, ch, HexDigitsColour(d))))
      && InUnitRange(HexDigitsColour(d))
  {
    HexIsAscii(d);
    StrictHexColourCases(d);
    assert StripHash(d) == d by {
      assert IsHexDigit(d[0]);
    }
  }

  /**
   * `R` exchanges the text and background colours and changes nothing
   * else; reading it twice gives back the state.
   */
  lemma SwapTwiceRestores(cfg: Config, st: State)
    requires Shaped(st)
    ensures ApplyTag(cfg, st, SwapTag).Running?
    ensures var r := ApplyTag(cfg, st, SwapTag).state;
      && r.style.fg == st.style.bg && r.style.bg == st.style.fg
      && r.style.ol == st.style.ol && r.style.ul == st.style.ul
      && r.style.oline == st.style.oline && r.style.uline == st.style.uline && r.style.font == st.style.font
      && r.butts == st.butts && r.buckets == st.buckets && r.zone == st.zone && r.warnings == st.warnings
    ensures ApplyTag(cfg, ApplyTag(cfg, st, SwapTag).state, SwapTag) == Running(st)
  {
  }

  /** The line flag an attribute tag names. */
  function LineFlag(style: Style, line: AttrLine): bool
  {
    match line
    case OverLine => style.oline
    case UnderLine => style.uline
  }

  /**
   * `!` negates the named line flag, `+` sets it, `-` clears it, the other
   * operator characters leave it; the other flag, the colours, the font,
   * the button stack, the buckets and the warnings are never touched.
   */
  lemma AttrTagFlags(cfg: Config, st: State, op: AttrOp, line: AttrLine)
    requires Shaped(st) && WellFormedTag(AttrTag(op, line))
    ensures ApplyTag(cfg, st, AttrTag(op, line)).Running?
    ensures LineFlag(ApplyTag(cfg, st, AttrTag(op, line)).state.style, line) ==
      match op
      case Toggle => !LineFlag(st.style, line)
      case Enable => true
      case Disable => false
      case Inert(_) => LineFlag(st.style, line)
    ensures var other := if line == OverLine then UnderLine else OverLine;
      LineFlag(ApplyTag(cfg, st, AttrTag(op, line)).state.style, other) == LineFlag(st.style, other)
    ensures var r := ApplyTag(cfg, st, AttrTag(op, line)).state;
      && r.style.fg == st.style.fg && r.style.bg == st.style.bg && r.style.ol == st.style.ol && r.style.ul == st.style.ul
      && r.style.font == st.style.font
      && r.butts == st.butts && r.buckets == st.buckets && r.zone == st.zone && r.warnings == st.warnings
  {
  }

  /** `I:<path>` is accepted and does nothing. */
  lemma ImageTagInert(cfg: Config, st: State, path: string)
    requires Shaped(st) && WellFormedTag(ImageTag(path))
    ensures ApplyTag(cfg, st, ImageTag(path)) == Running(st)
  {
  }

  /** `!` twice gives back the state. */
  lemma ToggleTwiceRestores(cfg: Config, st: State, line: AttrLine)
    requires Shaped(st)
    ensures ApplyTag(cfg, ApplyTag(cfg, st, AttrTag(Toggle, line)).state, AttrTag(Toggle, line)) == Running(st)
  {
  }

  /**
   * `T-` gives the joined font list; `T<n>` with `k = n - 1` gives the
   * `k`-th listed font below the list's length, the empty font at it, and
   * beyond it the joined list with a warning.
   */
  lemma FontTagCases(cfg: Config, st: State, f: FontArg)
    requires Shaped(st) && WellFormedTag(FontTag(f))
    ensures ApplyTag(cfg, st, FontTag(f)).Running?
    ensures var r := ApplyTag(cfg, st, FontTag(f)).state;
      match f
      case ResetFont => r == st.(style := st.style.(font := Join(cfg.fontList, ", ")))
      case FontIndex(n) =>
        if n - 1 < |cfg.fontList| then r == st.(style := st.style.(font := cfg.fontList[n - 1]))
        else if n - 1 == |cfg.fontList| then r == st.(style := st.style.(font := ""))
        else r == st.(style := st.style.(font := Join(cfg.fontList, ", ")), warnings := st.warnings + [FontIndexTooHigh(n - 1)])
  {
  }

  /** `A<b>:cmd:` pushes the binding, the button one when none is given; `A` then pops it again. */
  lemma OpenThenCloseRestores(cfg: Config, st: State, b: Option<nat>, cmd: string)
    requires Shaped(st) && WellFormedTag(OpenClick(b, cmd))
    ensures ApplyTag(cfg, st, OpenClick(b, cmd)) == Running(st.(butts := st.butts + [(if b.None? then 1 else b.value, cmd)]))
    ensures ApplyTag(cfg, ApplyTag(cfg, st, OpenClick(b, cmd)).state, CloseClick) == Running(st)
  {
    assert (st.butts + [(if b.None? then 1 else b.value, cmd)])[..|st.butts|] == st.butts;
  }

  /** `A` with no binding open leaves the stack empty and only adds a warning. */
  lemma CloseWithoutOpenWarns(cfg: Config, st: State)
    requires Shaped(st) && st.butts == []
    ensures ApplyTag(cfg, st, CloseClick) == Running(st.(warnings := st.warnings + [UnassociatedClose]))
  {
  }

  /** A zone tag for the current zone changes nothing. */
  lemma SameZoneUnchanged(cfg: Config, st: State, z: Zone)
    requires Shaped(st) && ZoneIndex(z) == st.zone
    ensures ApplyTag(cfg, st, ZoneTag(z)) == Running(st)
  {
  }

  /**
   * A zone tag for another zone: the bucket being left gains one filler
   * unless it already ends in one or is the right zone; no other bucket
   * changes; the named zone becomes current.
   */
  lemma OtherZoneSwitches(cfg: Config, st: State, z: Zone)
    requires Shaped(st) && ZoneIndex(z) != st.zone
    ensures ApplyTag(cfg, st, ZoneTag(z)).Running?
    ensures var r := ApplyTag(cfg, st, ZoneTag(z)).state;
      && r.zone == ZoneIndex(z)
      && r.buckets[st.zone] == (if EndsInFiller(st.buckets[st.zone]) || st.zone == 2 then st.buckets[st.zone]
                                 else st.buckets[st.zone] + [Filler(GetBg(cfg, st.style, st.butts))])
      && (forall j :: 0 <= j < 3 && j != st.zone ==> r.buckets[j] == st.buckets[j])
      && r.style == st.style && r.butts == st.butts && r.warnings == st.warnings
  {
  }

  /** Only zone tags touch the buckets and the zone. */
  lemma TagKeepsBuckets(cfg: Config, st: State, tag: Tag)
    requires Shaped(st) && WellFormedTag(tag) && !tag.ZoneTag? && ApplyTag(cfg, st, tag).Running?
    ensures ApplyTag(cfg, st, tag).state.buckets == st.buckets
    ensures ApplyTag(cfg, st, tag).state.zone == st.zone
  {
    match tag
    case ColourTag(ch, arg) =>
    case FontTag(f) =>
    case _ =>
  }

  /**
   * The background snapshot of a segment: the over- and underline colours
   * are present exactly when their flags are set, and the bindings are the
   * stack as it stands.
   */
  lemma GetBgSnapshot(cfg: Config, style: Style, butts: seq<(nat, string)>)
    ensures GetBg(cfg, style, butts).ol.Some? <==> style.oline
    ensures GetBg(cfg, style, butts).ul.Some? <==> style.uline
    ensures style.oline ==> GetBg(cfg, style, butts).ol.value == style.ol
    ensures style.uline ==> GetBg(cfg, style, butts).ul.value == style.ul
    ensures GetBg(cfg, style, butts).bg == style.bg && GetBg(cfg, style, butts).cmd == butts
  {
  }

  /**
   * Pushing a span: an empty span changes nothing; otherwise the current
   * bucket loses a trailing filler and gains one text segment carrying the
   * current text colour, font and background snapshot.
   */
  lemma FlushSpan(cfg: Config, st: State, text: string)
    requires Shaped(st)
    ensures var r := Flush(cfg, st, text);
      var v := st.buckets[st.zone];
      && (|text| == 0 ==> r == st)
      && (|text| > 0 ==>
            r.buckets[st.zone] == (if EndsInFiller(v) then v[..|v| - 1] else v)
                                    + [TextItem(Text(st.style.fg, text, st.style.font), GetBg(cfg, st.style, st.butts))])
      && (forall j :: 0 <= j < 3 && j != st.zone ==> r.buckets[j] == st.buckets[j])
      && r.style == st.style && r.butts == st.butts && r.zone == st.zone && r.warnings == st.warnings
  {
    if |text| == 0 {
      assert st.buckets[st.zone := st.buckets[st.zone]] == st.buckets;
    }
  }

  // Where fillers stand

  /** Every segment but the last of a bucket is text. */
  predicate FillersLast(v: seq<FormatItem>)
  {
    forall j :: 0 <= j < |v| - 1 ==> v[j].TextItem?
  }

  predicate NoFillers(v: seq<FormatItem>)
  {
    forall j :: 0 <= j < |v| ==> v[j].TextItem?
  }

  /** Fillers stand only at the end of the left and centre buckets, and never in the right one. */
  predicate WellShaped(st: State)
  {
    Shaped(st) && FillersLast(st.buckets[0]) && FillersLast(st.buckets[1]) && NoFillers(st.buckets[2])
  }

  lemma InitialWellShaped(cfg: Config)
    ensures WellShaped(Initial(cfg))
  {
  }

  lemma PushTextFillersLast(v: seq<FormatItem>, t: Text, bg: BG)
    requires FillersLast(v)
    ensures FillersLast(PushText(v, t, bg))
    ensures NoFillers(v) ==> NoFillers(PushText(v, t, bg))
  {
  }

  lemma FlushWellShaped(cfg: Config, st: State, text: string)
    requires WellShaped(st)
    ensures WellShaped(Flush(cfg, st, text))
  {
    PushTextFillersLast(st.buckets[st.zone], Text(st.style.fg, text, st.style.font), GetBg(cfg, st.style, st.butts));
  }

  lemma ApplyTagWellShaped(cfg: Config, st: State, tag: Tag)
    requires WellShaped(st) && WellFormedTag(tag)
    ensures ApplyTag(cfg, st, tag).Running? ==> WellShaped(ApplyTag(cfg, st, tag).state)
  {
    if !tag.ZoneTag? {
      if ApplyTag(cfg, st, tag).Running? {
        TagKeepsBuckets(cfg, st, tag);
      }
    } else if ZoneIndex(tag.zone) != st.zone {
      OtherZoneSwitches(cfg, st, tag.zone);
      var v := st.buckets[st.zone];
      if !(EndsInFiller(v) || st.zone == 2) {
        assert FillersLast(v + [Filler(GetBg(cfg, st.style, st.butts))]);
      }
    }
  }

  /** However the line reads, the fillers keep to the ends of the left and centre buckets. */
  lemma {:induction false} RunWellShaped(cfg: Config, cs: seq<Chunk>)
    requires WellFormedChunks(cs)
    ensures Run(cfg, cs).Running? ==> WellShaped(Run(cfg, cs).state)
  {
    if |cs| == 0 {
      InitialWellShaped(cfg);
    } else {
      var p := cs[..|cs| - 1];
      assert WellFormedChunks(p);
      RunWellShaped(cfg, p);
      if Run(cfg, p).Running? {
        var st := Run(cfg, p).state;
        var c := cs[|cs| - 1];
        FlushWellShaped(cfg, st, c.text);
        ApplyTagWellShaped(cfg, Flush(cfg, st, c.text), c.tag);
      }
    }
  }

  predicate NoAdjacent(v: seq<FormatItem>)
  {
    forall j :: 0 <= j < |v| - 1 ==> !(v[j].Filler? && v[j + 1].Filler?)
  }

  /** A bucket whose fillers stand last holds no two fillers side by side. */
  lemma NoAdjacentFillers(v: seq<FormatItem>)
    requires FillersLast(v)
    ensures NoAdjacent(v)
  {
  }

  /** However the line reads, no bucket holds two fillers side by side. */
  lemma RunNoAdjacentFillers(cfg: Config, cs: seq<Chunk>)
    requires WellFormedChunks(cs)
    ensures Run(cfg, cs).Running? ==> forall z :: 0 <= z < 3 ==> NoAdjacent(Run(cfg, cs).state.buckets[z])
  {
    RunWellShaped(cfg, cs);
    if Run(cfg, cs).Running? {
      var b := Run(cfg, cs).state.buckets;
      NoAdjacentFillers(b[0]);
      NoAdjacentFillers(b[1]);
      NoAdjacentFillers(b[2]);
    }
  }

  /** The number of fillers among the segments. */
  function FillerCount(v: seq<FormatItem>): nat
  {
    if |v| == 0 then 0 else FillerCount(v[..|v| - 1]) + (if v[|v| - 1].Filler? then 1 else 0)
  }

  lemma {:induction false} FillerCountAppend(a: seq<FormatItem>, b: seq<FormatItem>)
    ensures FillerCount(a + b) == FillerCount(a) + FillerCount(b)
    decreases |b|
  {
    if |b| > 0 {
      assert (a + b)[..|a + b| - 1] == a + b[..|b| - 1];
      FillerCountAppend(a, b[..|b| - 1]);
    } else {
      assert a + b == a;
    }
  }

  lemma {:induction false} NoFillersCount(v: seq<FormatItem>)
    requires NoFillers(v)
    ensures FillerCount(v) == 0
    decreases |v|
  {
    if |v| > 0 {
      NoFillersCount(v[..|v| - 1]);
    }
  }

  lemma FillersLastCount(v: seq<FormatItem>)
    requires FillersLast(v)
    ensures FillerCount(v) <= 1
  {
    if |v| > 0 {
      NoFillersCount(v[..|v| - 1]);
    }
  }

  /** A parsed line holds at most two fillers: one closing the left zone, one closing the centre. */
  lemma AtMostTwoFillers(cfg: Config, m: Markup)
    requires WellFormedChunks(m.chunks)
    ensures Interpret(cfg, m).Parsed? ==> FillerCount(Interpret(cfg, m).items) <= 2
  {
    RunWellShaped(cfg, m.chunks);
    if Run(cfg, m.chunks).Running? {
      var st := Run(cfg, m.chunks).state;
      FlushWellShaped(cfg, st, m.tail);
      var b := Flush(cfg, st, m.tail).buckets;
      FillerCountAppend(b[0], b[1]);
      FillerCountAppend(b[0] + b[1], b[2]);
      FillersLastCount(b[0]);
      FillersLastCount(b[1]);
      NoFillersCount(b[2]);
    }
  }

  // Which text lands in which zone

  /** The texts of the segments, in order. */
  function Texts(v: seq<FormatItem>): seq<string>
  {
    if |v| == 0 then [] else Texts(v[..|v| - 1]) + (if v[|v| - 1].TextItem? then [v[|v| - 1].content.text] else [])
  }

  lemma {:induction false} TextsAppend(a: seq<FormatItem>, b: seq<FormatItem>)
    ensures Texts(a + b) == Texts(a) + Texts(b)
    decreases |b|
  {
    if |b| > 0 {
      assert (a + b)[..|a + b| - 1] == a + b[..|b| - 1];
      TextsAppend(a, b[..|b| - 1]);
    } else {
      assert a + b == a;
    }
  }

  /** The zone current after the chunks `cs`: the last zone tag's, or the left one. */
  function ZoneOf(cs: seq<Chunk>): nat
  {
    if |cs| == 0 then 0
    else if cs[|cs| - 1].tag.ZoneTag? then ZoneIndex(cs[|cs| - 1].tag.zone)
    else ZoneOf(cs[..|cs| - 1])
  }

  /** The non-empty spans of `cs` read while zone `z` was current, in order. */
  function SpansIn(cs: seq<Chunk>, z: nat): seq<string>
  {
    if |cs| == 0 then []
    else
      var p := cs[..|cs| - 1];
      SpansIn(p, z) + (if ZoneOf(p) == z && |cs[|cs| - 1].text| > 0 then [cs[|cs| - 1].text] else [])
  }

  lemma PushTextTexts(v: seq<FormatItem>, t: Text, bg: BG)
    ensures Texts(PushText(v, t, bg)) == Texts(v) + (if |t.text| > 0 then [t.text] else [])
  {
    if |t.text| > 0 && EndsInFiller(v) {
      assert v == v[..|v| - 1] + [v[|v| - 1]];
      TextsAppend(v[..|v| - 1], [v[|v| - 1]]);
      TextsAppend(v[..|v| - 1], [TextItem(t, bg)]);
    } else if |t.text| > 0 {
      TextsAppend(v, [TextItem(t, bg)]);
    }
  }

  /** A tag moves no text: only a zone tag changes the zone, and fillers carry no text. */
  lemma ApplyTagTexts(cfg: Config, st: State, tag: Tag)
    requires Shaped(st) && WellFormedTag(tag) && ApplyTag(cfg, st, tag).Running?
    ensures var r := ApplyTag(cfg, st, tag).state;
      && r.zone == (if tag.ZoneTag? then ZoneIndex(tag.zone) else st.zone)
      && Texts(r.buckets[0]) == Texts(st.buckets[0])
      && Texts(r.buckets[1]) == Texts(st.buckets[1])
      && Texts(r.buckets[2]) == Texts(st.buckets[2])
  {
    if !tag.ZoneTag? {
      TagKeepsBuckets(cfg, st, tag);
    } else if ZoneIndex(tag.zone) != st.zone {
      OtherZoneSwitches(cfg, st, tag.zone);
      var v := st.buckets[st.zone];
      if !(EndsInFiller(v) || st.zone == 2) {
        TextsAppend(v, [Filler(GetBg(cfg, st.style, st.butts))]);
      }
    }
  }

  /** After the chunks `cs`, zone `z`'s bucket holds as text exactly the non-empty spans read in zone `z`. */
  lemma {:induction false} RunTexts(cfg: Config, cs: seq<Chunk>)
    requires WellFormedChunks(cs) && Run(cfg, cs).Running?
    ensures Run(cfg, cs).state.zone == ZoneOf(cs)
    ensures forall z :: 0 <= z < 3 ==> Texts(Run(cfg, cs).state.buckets[z]) == SpansIn(cs, z)
  {
    if |cs| > 0 {
      var p := cs[..|cs| - 1];
      var c := cs[|cs| - 1];
      assert WellFormedChunks(p);
      assert Run(cfg, p).Running?;
      RunTexts(cfg, p);
      var st := Run(cfg, p).state;
      var f := Flush(cfg, st, c.text);
      assert Run(cfg, cs) == ApplyTag(cfg, f, c.tag);
      FlushSpan(cfg, st, c.text);
      PushTextTexts(st.buckets[st.zone], Text(st.style.fg, c.text, st.style.font), GetBg(cfg, st.style, st.butts));
      ApplyTagTexts(cfg, f, c.tag);
      var r := Run(cfg, cs).state;
      forall z | 0 <= z < 3
        ensures Texts(r.buckets[z]) == SpansIn(cs, z)
      {
        assert SpansIn(cs, z) == SpansIn(p, z) + (if ZoneOf(p) == z && |c.text| > 0 then [c.text] else []);
        if z != st.zone {
          assert f.buckets[z] == st.buckets[z];
        }
        assert Texts(f.buckets[z]) == SpansIn(cs, z);
      }
    }
  }

  /** The texts of a line as it reads: for each zone in order, its spans and then the tail if it ends there. */
  function LineTexts(m: Markup): seq<string>
  {
    var tail := if |m.tail| > 0 then [m.tail] else [];
    var z := ZoneOf(m.chunks);
    SpansIn(m.chunks, 0) + (if z == 0 then tail else [])
    + SpansIn(m.chunks, 1) + (if z == 1 then tail else [])
    + SpansIn(m.chunks, 2) + (if z == 2 then tail else [])
  }

  /**
   * The segments of a parsed line are the left zone's texts, then the
   * centre's, then the right's, whatever order the zone tags came in.
   */
  lemma ParseTextsByZone(cfg: Config, m: Markup)
    requires WellFormedChunks(m.chunks) && Interpret(cfg, m).Parsed?
    ensures Texts(Interpret(cfg, m).items) == LineTexts(m)
  {
    RunTexts(cfg, m.chunks);
    var st := Run(cfg, m.chunks).state;
    var b := Flush(cfg, st, m.tail).buckets;
    assert Interpret(cfg, m).items == b[0] + b[1] + b[2];
    var tail := if |m.tail| > 0 then [m.tail] else [];
    PushTextTexts(st.buckets[st.zone], Text(st.style.fg, m.tail, st.style.font), GetBg(cfg, st.style, st.butts));
    forall z | 0 <= z < 3
      ensures Texts(b[z]) == SpansIn(m.chunks, z) + (if ZoneOf(m.chunks) == z then tail else [])
    {
      if z != st.zone {
        assert b[z] == st.buckets[z];
      }
    }
    var x0, x1, x2 := SpansIn(m.chunks, 0), SpansIn(m.chunks, 1), SpansIn(m.chunks, 2);
    var t0 := if ZoneOf(m.chunks) == 0 then tail else [];
    var t1 := if ZoneOf(m.chunks) == 1 then tail else [];
    var t2 := if ZoneOf(m.chunks) == 2 then tail else [];
    TextsAppend(b[0], b[1]);
    TextsAppend(b[0] + b[1], b[2]);
    assert Texts(Interpret(cfg, m).items) == (x0 + t0) + (x1 + t1) + (x2 + t2);
    AppendAssoc(x0 + t0, x1, t1);
    AppendAssoc(x0 + t0 + x1 + t1, x2, t2);
    assert LineTexts(m) == x0 + t0 + x1 + t1 + x2 + t2;
  }

  // When a line panics

  /** A colour tag with seven hex digits: the regex admits it, `from_hex` refuses it and `unwrap` panics. */
  predicate SevenDigitColour(t: Tag)
  {
    t.ColourTag? && t.arg.HexDigits? && |t.arg.digits| == 7
  }

  lemma ApplyTagAborts(cfg: Config, st: State, tag: Tag)
    requires Shaped(st) && WellFormedTag(tag)
    ensures ApplyTag(cfg, st, tag).Aborted? <==> SevenDigitColour(tag)
  {
    if tag.ColourTag? && tag.arg.HexDigits? {
      HexColourTag(cfg, st, tag.channel, tag.arg.digits);
    }
  }

  /** The chunks read so far panic exactly when one of their tags is a seven-digit colour. */
  lemma {:induction false} RunAborts(cfg: Config, cs: seq<Chunk>)
    requires WellFormedChunks(cs)
    ensures Run(cfg, cs).Aborted? <==> exists j :: 0 <= j < |cs| && SevenDigitColour(cs[j].tag)
  {
    if |cs| > 0 {
      var p := cs[..|cs| - 1];
      assert WellFormedChunks(p);
      RunAborts(cfg, p);
      if Run(cfg, p).Running? {
        var st := Run(cfg, p).state;
        ApplyTagAborts(cfg, Flush(cfg, st, cs[|cs| - 1].text), cs[|cs| - 1].tag);
      }
      if exists j :: 0 <= j < |cs| && SevenDigitColour(cs[j].tag) {
        var j :| 0 <= j < |cs| && SevenDigitColour(cs[j].tag);
        if j < |cs| - 1 {
          assert p[j] == cs[j];
        }
      }
      if exists j :: 0 <= j < |p| && SevenDigitColour(p[j].tag) {
        var j :| 0 <= j < |p| && SevenDigitColour(p[j].tag);
        assert cs[j] == p[j];
      }
    }
  }

  /** A line panics exactly when it holds a seven-digit colour tag; otherwise it parses. */
  lemma PanicsIff(cfg: Config, m: Markup)
    requires WellFormedChunks(m.chunks)
    ensures Interpret(cfg, m) == Panicked <==> exists j :: 0 <= j < |m.chunks| && SevenDigitColour(m.chunks[j].tag)
  {
    RunAborts(cfg, m.chunks);
  }

  // Lines worked through

  /** The background of a segment read with the settings' default style under the bindings `butts`. */
  function Plain(cfg: Config, s: string, butts: seq<(nat, string)>): FormatItem
  {
    TextItem(Text(cfg.fg, s, AllFonts(cfg)), GetBg(cfg, DefaultStyle(cfg), butts))
  }

  lemma RunOne(cfg: Config, c0: Chunk)
    requires WellFormedTag(c0.tag)
    ensures WellFormedChunks([c0])
    ensures Run(cfg, [c0]) == Step(cfg, Initial(cfg), c0)
  {
    assert [c0][..0] == [];
  }

  lemma RunTwo(cfg: Config, c0: Chunk, c1: Chunk)
    requires WellFormedTag(c0.tag) && WellFormedTag(c1.tag)
    ensures WellFormedChunks([c0, c1])
    ensures Run(cfg, [c0, c1]) ==
      match Step(cfg, Initial(cfg), c0)
      case Aborted => Aborted
      case Running(st) => Step(cfg, st, c1)
  {
    RunOne(cfg, c0);
    assert [c0, c1][..1] == [c0];
  }

  /** A span read into a bucket that ends in no filler, then a switch away from that zone: the bucket gains the text and a filler. */
  lemma SpanThenSwitch(cfg: Config, st: State, text: string, z: Zone)
    requires Shaped(st) && |text| > 0 && ZoneIndex(z) != st.zone && st.zone != 2
    ensures Step(cfg, st, Chunk(text, ZoneTag(z))).Running?
    ensures var r := Step(cfg, st, Chunk(text, ZoneTag(z))).state;
      var bg := GetBg(cfg, st.style, st.butts);
      && r.zone == ZoneIndex(z) && r.style == st.style && r.butts == st.butts && r.warnings == st.warnings
      && r.buckets[st.zone] == (if EndsInFiller(st.buckets[st.zone]) then st.buckets[st.zone][..|st.buckets[st.zone]| - 1] else st.buckets[st.zone])
                               + [TextItem(Text(st.style.fg, text, st.style.font), bg), Filler(bg)]
      && (forall j :: 0 <= j < 3 && j != st.zone ==> r.buckets[j] == st.buckets[j])
  {
    FlushSpan(cfg, st, text);
    var f := Flush(cfg, st, text);
    OtherZoneSwitches(cfg, f, z);
    var v := st.buckets[st.zone];
    var bg := GetBg(cfg, st.style, st.butts);
    var w := if EndsInFiller(v) then v[..|v| - 1] else v;
    AppendAssoc(w, [TextItem(Text(st.style.fg, text, st.style.font), bg)], [Filler(bg)]);
  }

  /** The state after `left%{c}mid%{r}`. */
  lemma ThreeZonesRun(cfg: Config)
    ensures WellFormedChunks([Chunk("left", ZoneTag(Center)), Chunk("mid", ZoneTag(Right))])
    ensures var r := Run(cfg, [Chunk("left", ZoneTag(Center)), Chunk("mid", ZoneTag(Right))]);
      var f := Filler(GetBg(cfg, DefaultStyle(cfg), []));
      && r.Running? && Shaped(r.state) && r.state.zone == 2
      && r.state.style == DefaultStyle(cfg) && r.state.butts == [] && r.state.warnings == []
      && r.state.buckets[0] == [Plain(cfg, "left", []), f]
      && r.state.buckets[1] == [Plain(cfg, "mid", []), f]
      && r.state.buckets[2] == []
  {
    RunTwo(cfg, Chunk("left", ZoneTag(Center)), Chunk("mid", ZoneTag(Right)));
    var s0 := Initial(cfg);
    SpanThenSwitch(cfg, s0, "left", Center);
    var s2 := Step(cfg, s0, Chunk("left", ZoneTag(Center))).state;
    SpanThenSwitch(cfg, s2, "mid", Right);
  }

  /** `left%{c}mid%{r}right`: three texts, the left and centre zones each closed by a filler. */
  lemma ThreeZones(cfg: Config)
    ensures var f := Filler(GetBg(cfg, DefaultStyle(cfg), []));
      ParseSpec(cfg, "left%{c}mid%{r}right")
      == Parsed([Plain(cfg, "left", []), f, Plain(cfg, "mid", []), f, Plain(cfg, "right", [])], [])
  {
    TokeniseTwoTags("left%{c}mid%{r}right", "left", "c", "mid", "r", "right", ZoneTag(Center), ZoneTag(Right));
    ThreeZonesInterpreted(cfg);
  }

  /** The same line, from its split into chunks on. */
  lemma ThreeZonesInterpreted(cfg: Config)
    ensures var f := Filler(GetBg(cfg, DefaultStyle(cfg), []));
      Interpret(cfg, Markup([Chunk("left", ZoneTag(Center)), Chunk("mid", ZoneTag(Right))], "right"))
      == Parsed([Plain(cfg, "left", []), f, Plain(cfg, "mid", []), f, Plain(cfg, "right", [])], [])
  {
    var f := Filler(GetBg(cfg, DefaultStyle(cfg), []));
    ThreeZonesRun(cfg);
    var s4 := Run(cfg, [Chunk("left", ZoneTag(Center)), Chunk("mid", ZoneTag(Right))]).state;
    FlushSpan(cfg, s4, "right");
    var s5 := Flush(cfg, s4, "right");
    assert s5.buckets[2] == [Plain(cfg, "right", [])];
    assert s5.buckets[0] + s5.buckets[1] + s5.buckets[2] == [Plain(cfg, "left", []), f, Plain(cfg, "mid", []), f, Plain(cfg, "right", [])];
  }

  /**
   * `%{c}%{r}`: each bucket holds one filler, so where the left and centre
   * buckets meet the flat output has two fillers side by side.
   */
  lemma SeamFillers(cfg: Config)
    ensures var f := Filler(GetBg(cfg, DefaultStyle(cfg), []));
      ParseSpec(cfg, "%{c}%{r}") == Parsed([f, f], [])
  {
    TokeniseTwoTags("%{c}%{r}", "", "c", "", "r", "", ZoneTag(Center), ZoneTag(Right));
    SeamInterpreted(cfg);
  }

  /** The same line, from its split into chunks on. */
  lemma SeamInterpreted(cfg: Config)
    ensures var f := Filler(GetBg(cfg, DefaultStyle(cfg), []));
      Interpret(cfg, Markup([Chunk("", ZoneTag(Center)), Chunk("", ZoneTag(Right))], "")) == Parsed([f, f], [])
  {
    var f := Filler(GetBg(cfg, DefaultStyle(cfg), []));
    RunTwo(cfg, Chunk("", ZoneTag(Center)), Chunk("", ZoneTag(Right)));
    var s0 := Initial(cfg);
    FlushSpan(cfg, s0, "");
    OtherZoneSwitches(cfg, s0, Center);
    var s2 := ApplyTag(cfg, s0, ZoneTag(Center)).state;
    assert s2.buckets[0] == [f] && s2.buckets[1] == [] && s2.zone == 1;
    FlushSpan(cfg, s2, "");
    OtherZoneSwitches(cfg, s2, Right);
    var s4 := ApplyTag(cfg, s2, ZoneTag(Right)).state;
    assert s4.buckets[0] == [f] && s4.buckets[1] == [f] && s4.buckets[2] == [];
    FlushSpan(cfg, s4, "");
    assert s4.buckets[0] + s4.buckets[1] + s4.buckets[2] == [f, f];
  }

  /** `%{r}R%{l}L`: the left text still comes first, and the filler the left zone got is taken back by its text. */
  lemma RightThenLeft(cfg: Config)
    ensures ParseSpec(cfg, "%{r}R%{l}L") == Parsed([Plain(cfg, "L", []), Plain(cfg, "R", [])], [])
  {
    TokeniseTwoTags("%{r}R%{l}L", "", "r", "R", "l", "L", ZoneTag(Right), ZoneTag(Left));
    RightThenLeftInterpreted(cfg);
  }

  /** The same line, from its split into chunks on. */
  lemma RightThenLeftInterpreted(cfg: Config)
    ensures Interpret(cfg, Markup([Chunk("", ZoneTag(Right)), Chunk("R", ZoneTag(Left))], "L"))
      == Parsed([Plain(cfg, "L", []), Plain(cfg, "R", [])], [])
  {
    var f := Filler(GetBg(cfg, DefaultStyle(cfg), []));
    RunTwo(cfg, Chunk("", ZoneTag(Right)), Chunk("R", ZoneTag(Left)));
    var s0 := Initial(cfg);
    FlushSpan(cfg, s0, "");
    OtherZoneSwitches(cfg, s0, Right);
    var s2 := ApplyTag(cfg, s0, ZoneTag(Right)).state;
    assert s2.buckets[0] == [f];
    FlushSpan(cfg, s2, "R");
    var s3 := Flush(cfg, s2, "R");
    assert s3.buckets[2] == [Plain(cfg, "R", [])];
    OtherZoneSwitches(cfg, s3, Left);
    var s4 := ApplyTag(cfg, s3, ZoneTag(Left)).state;
    assert s4.buckets[2] == [Plain(cfg, "R", [])];
    FlushSpan(cfg, s4, "L");
    var s5 := Flush(cfg, s4, "L");
    assert s5.buckets[0] == [Plain(cfg, "L", [])];
    assert s5.buckets[0] + s5.buckets[1] + s5.buckets[2] == [Plain(cfg, "L", []), Plain(cfg, "R", [])];
  }

  /** `%{c}hello`: the empty left zone still gets a filler when it is left. */
  lemma CentreOnly(cfg: Config)
    ensures ParseSpec(cfg, "%{c}hello")
      == Parsed([Filler(GetBg(cfg, DefaultStyle(cfg), [])), Plain(cfg, "hello", [])], [])
  {
    TokeniseOneTag("%{c}hello", "", "c", "hello", ZoneTag(Center));
    CentreOnlyInterpreted(cfg);
  }

  /** The same line, from its split into chunks on. */
  lemma CentreOnlyInterpreted(cfg: Config)
    ensures Interpret(cfg, Markup([Chunk("", ZoneTag(Center))], "hello"))
      == Parsed([Filler(GetBg(cfg, DefaultStyle(cfg), [])), Plain(cfg, "hello", [])], [])
  {
    var f := Filler(GetBg(cfg, DefaultStyle(cfg), []));
    RunOne(cfg, Chunk("", ZoneTag(Center)));
    var s0 := Initial(cfg);
    FlushSpan(cfg, s0, "");
    OtherZoneSwitches(cfg, s0, Center);
    var s2 := ApplyTag(cfg, s0, ZoneTag(Center)).state;
    assert s2.buckets[0] == [f];
    FlushSpan(cfg, s2, "hello");
    var s3 := Flush(cfg, s2, "hello");
    assert s3.buckets[1] == [Plain(cfg, "hello", [])];
    assert s3.buckets[0] + s3.buckets[1] + s3.buckets[2] == [f, Plain(cfg, "hello", [])];
  }

  /** The state after `%{A:run:}go%{A}`. */
  lemma ClickBindingRun(cfg: Config)
    ensures ValidCommand("run")
    ensures WellFormedChunks([Chunk("", OpenClick(None, "run")), Chunk("go", CloseClick)])
    ensures var r := Run(cfg, [Chunk("", OpenClick(None, "run")), Chunk("go", CloseClick)]);
      && r.Running? && Shaped(r.state) && r.state.zone == 0 && r.state.butts == [] && r.state.warnings == []
      && r.state.buckets[0] == [Plain(cfg, "go", [(1, "run")])] && r.state.buckets[1] == [] && r.state.buckets[2] == []
  {
    assert ValidCommand("run");
    var c0, c1 := Chunk("", OpenClick(None, "run")), Chunk("go", CloseClick);
    RunTwo(cfg, c0, c1);
    var s0 := Initial(cfg);
    FlushSpan(cfg, s0, "");
    OpenThenCloseRestores(cfg, s0, None, "run");
    var s2 := ApplyTag(cfg, s0, OpenClick(None, "run")).state;
    assert s2.style == DefaultStyle(cfg) && s2.butts == [(1, "run")] && s2.zone == 0;
    FlushSpan(cfg, s2, "go");
    var s3 := Flush(cfg, s2, "go");
    assert s3.buckets[0] == [Plain(cfg, "go", [(1, "run")])];
  }

  /** The body `A:run:` opens a binding of `run`, button unspecified. */
  lemma ClickBody()
    ensures Recognise("A:run:") == Some(OpenClick(None, "run"))
  {
    var b := "A:run:";
    assert b[1..] == ":run:";
    assert b[1..][1..4] == "run";
    assert ValidCommand("run");
  }

  /** `%{A:run:}go%{A}`: the text carries the binding open while it was read, button one. */
  lemma ClickBinding(cfg: Config)
    ensures ParseSpec(cfg, "%{A:run:}go%{A}") == Parsed([Plain(cfg, "go", [(1, "run")])], [])
  {
    ClickBody();
    TokeniseTwoTags("%{A:run:}go%{A}", "", "A:run:", "go", "A", "", OpenClick(None, "run"), CloseClick);
    ClickBindingInterpreted(cfg);
  }

  /** The same line, from its split into chunks on. */
  lemma ClickBindingInterpreted(cfg: Config)
    ensures Interpret(cfg, Markup([Chunk("", OpenClick(None, "run")), Chunk("go", CloseClick)], "")) == Parsed([Plain(cfg, "go", [(1, "run")])], [])
  {
    ClickBindingRun(cfg);
    var s4 := Run(cfg, [Chunk("", OpenClick(None, "run")), Chunk("go", CloseClick)]).state;
    FlushSpan(cfg, s4, "");
    assert s4.buckets[0] + s4.buckets[1] + s4.buckets[2] == [Plain(cfg, "go", [(1, "run")])];
  }

  /** `%{A}x`: closing with nothing open warns once and the text is read as usual. */
  lemma StrayClose(cfg: Config)
    ensures ParseSpec(cfg, "%{A}x") == Parsed([Plain(cfg, "x", [])], [UnassociatedClose])
  {
    TokeniseOneTag("%{A}x", "", "A", "x", CloseClick);
    StrayCloseInterpreted(cfg);
  }

  /** The same line, from its split into chunks on. */
  lemma StrayCloseInterpreted(cfg: Config)
    ensures Interpret(cfg, Markup([Chunk("", CloseClick)], "x")) == Parsed([Plain(cfg, "x", [])], [UnassociatedClose])
  {
    RunOne(cfg, Chunk("", CloseClick));
    var s0 := Initial(cfg);
    FlushSpan(cfg, s0, "");
    var s2 := ApplyTag(cfg, s0, CloseClick).state;
    assert s2 == s0.(warnings := [UnassociatedClose]);
    FlushSpan(cfg, s2, "x");
    var s3 := Flush(cfg, s2, "x");
    assert s3.buckets[0] == [Plain(cfg, "x", [])];
    assert s3.buckets[0] + s3.buckets[1] + s3.buckets[2] == [Plain(cfg, "x", [])];
  }

  /** A line with no tag is one text segment in the left zone, or nothing when it is empty. */
  lemma PlainLine(cfg: Config, fmt: string)
    requires forall k :: 0 <= k < |fmt| ==> !MatchesAt(fmt, k)
    ensures ParseSpec(cfg, fmt) == Parsed(if |fmt| == 0 then [] else [Plain(cfg, fmt, [])], [])
  {
    NoMatchNoTag(fmt, 0);
    assert fmt[0..] == fmt;
  }

  lemma {:induction false} NoMatchNoTag(s: string, p: nat)
    requires p <= |s| && forall k :: p <= k < |s| ==> !MatchesAt(s, k)
    ensures FindTag(s, p).None?
    decreases |s| - p
  {
    if p < |s| {
      NoMatchNoTag(s, p + 1);
    }
  }

  /** With the settings `new` gives, the joined font list is the empty font. */
  lemma DefaultFontEmpty()
    ensures Join([""], ", ") == ""
  {
  }
}
