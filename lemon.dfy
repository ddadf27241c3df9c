/**
 * The lemonbar markup parser: a line is read tag by tag, each text span is
 * appended to the bucket of the current zone with a snapshot of the style in
 * effect, and the three buckets (left, centre, right) are concatenated.
 *
 * The specification is a fold of `Step` over the tokenised line; the class
 * `LemonParser` carries the parser's settings and its `Parse` method keeps
 * the source's local variables and loop and is proved to compute the fold.
 */
module Lemon {
  import opened Wrappers
  import opened Format
  import opened Markup

  /** The two messages the parser writes to standard error. */
  datatype Warning = FontIndexTooHigh(index: nat) | UnassociatedClose

  /** The parser's settings: default colours, line sizes and the font list. */
  datatype Config = Config(bg: Colour, fg: Colour, ol: Colour, ul: Colour,
                           olSize: real, ulSize: real, fontList: seq<string>)

  /** The colours, line flags and font in effect while reading a line. */
  datatype Style = Style(fg: Colour, bg: Colour, ol: Colour, ul: Colour,
                         oline: bool, uline: bool, font: string)

  /** Everything the parse carries from tag to tag. */
  datatype State = State(style: Style, butts: seq<(nat, string)>, buckets: seq<seq<FormatItem>>,
                         zone: nat, warnings: seq<Warning>)

  /** A parse in progress, or one that panicked. */
  datatype Progress = Running(state: State) | Aborted

  /** The result of `parse`: the segments and the warnings written, or a panic. */
  datatype ParseOutcome = Parsed(items: seq<FormatItem>, warnings: seq<Warning>) | Panicked

  /** `[..].join(sep)`. */
  function Join(xs: seq<string>, sep: string): string
  {
    if |xs| == 0 then ""
    else if |xs| == 1 then xs[0]
    else Join(xs[..|xs| - 1], sep) + sep + xs[|xs| - 1]
  }

  /** The font description used when no font tag is in effect: all fonts, comma separated. */
  function AllFonts(cfg: Config): string
  {
    Join(cfg.fontList, ", ")
  }

  function DefaultStyle(cfg: Config): Style
  {
    Style(cfg.fg, cfg.bg, cfg.ol, cfg.ul, false, false, AllFonts(cfg))
  }

  /** Three empty buckets, the left zone current, and an empty button stack. */
  function Initial(cfg: Config): State
  {
    State(DefaultStyle(cfg), [], [[], [], []], 0, [])
  }

  predicate Shaped(st: State)
  {
    |st.buckets| == 3 && st.zone < 3
  }

  /** `get_bg`: the background snapshot of a segment. */
  function GetBg(cfg: Config, style: Style, butts: seq<(nat, string)>): BG
  {
    BG(style.bg,
       if style.oline then Some(style.ol) else None,
       if style.uline then Some(style.ul) else None,
       cfg.olSize, cfg.ulSize, butts)
  }

  predicate EndsInFiller(v: seq<FormatItem>)
  {
    |v| > 0 && v[|v| - 1].Filler?
  }

  /** `pusht`: an empty span adds nothing; otherwise a trailing filler is dropped and the text appended. */
  function PushText(v: seq<FormatItem>, t: Text, bg: BG): seq<FormatItem>
  {
    if |t.text| == 0 then v
    else (if EndsInFiller(v) then v[..|v| - 1] else v) + [TextItem(t, bg)]
  }

  /** `pushf`: a trailing filler is dropped, otherwise a filler is appended. */
  function PushFiller(v: seq<FormatItem>, bg: BG): seq<FormatItem>
  {
    if EndsInFiller(v) then v[..|v| - 1] else v + [Filler(bg)]
  }

  /** The span before a tag, or the tail, pushed onto the current bucket. */
  function Flush(cfg: Config, st: State, text: string): (r: State)
    requires Shaped(st)
    ensures Shaped(r)
  {
    var bucket := PushText(st.buckets[st.zone], Text(st.style.fg, text, st.style.font), GetBg(cfg, st.style, st.butts));
    st.(buckets := st.buckets[st.zone := bucket])
  }

  /**
   * A zone tag: switching to another zone first closes the current bucket
   * with a filler, unless it already ends in one or is the right zone.
   */
  function SwitchZone(cfg: Config, st: State, n: nat): (r: State)
    requires Shaped(st) && n < 3
    ensures Shaped(r)
  {
    if st.zone == n then st
    else
      var v := st.buckets[st.zone];
      var v' := if EndsInFiller(v) || st.zone == 2 then v else PushFiller(v, GetBg(cfg, st.style, st.butts));
      st.(buckets := st.buckets[st.zone := v'], zone := n)
  }

  /** The configured colour a `-` argument restores. */
  function DefaultOf(cfg: Config, ch: Channel): Colour
  {
    match ch
    case Foreground => cfg.fg
    case Background => cfg.bg
    case Underline => cfg.ul
    case Overline => cfg.ol
  }

  function SetChannel(style: Style, ch: Channel, c: Colour): Style
  {
    match ch
    case Foreground => style.(fg := c)
    case Background => style.(bg := c)
    case Underline => style.(ul := c)
    case Overline => style.(ol := c)
  }

  /** The new value of a line flag. */
  function ApplyOp(op: AttrOp, flag: bool): bool
  {
    match op
    case Toggle => !flag
    case Enable => true
    case Disable => false
    case Inert(_) => flag
  }

  function SetAttr(style: Style, op: AttrOp, line: AttrLine): Style
  {
    match line
    case OverLine => style.(oline := ApplyOp(op, style.oline))
    case UnderLine => style.(uline := ApplyOp(op, style.uline))
  }

  /**
   * A `T<n>` tag: the index is `n - 1`; beyond the list's length it warns
   * and uses all fonts, at the length it gives the empty font, below it the
   * listed font.
   */
  function SelectFont(cfg: Config, st: State, n: nat): State
    requires 1 <= n
  {
    var k := n - 1;
    if k > |cfg.fontList| then
      st.(style := st.style.(font := AllFonts(cfg)), warnings := st.warnings + [FontIndexTooHigh(k)])
    else
      st.(style := st.style.(font := if k < |cfg.fontList| then cfg.fontList[k] else ""))
  }

  /** What one tag does to the state; a colour `from_hex` refuses panics. */
  function ApplyTag(cfg: Config, st: State, tag: Tag): (r: Progress)
    requires Shaped(st) && WellFormedTag(tag)
    ensures r.Running? ==> Shaped(r.state)
  {
    match tag
    case ZoneTag(z) => Running(SwitchZone(cfg, st, ZoneIndex(z)))
    case SwapTag => Running(st.(style := st.style.(fg := st.style.bg, bg := st.style.fg)))
    case ColourTag(ch, ResetColour) => Running(st.(style := SetChannel(st.style, ch, DefaultOf(cfg, ch))))
    case ColourTag(ch, HexDigits(d)) =>
      (match StrictHexColour(d)
       case Decoded(c) => Running(st.(style := SetChannel(st.style, ch, c)))
       case _ => Aborted)
    case AttrTag(op, line) => Running(st.(style := SetAttr(st.style, op, line)))
    case FontTag(ResetFont) => Running(st.(style := st.style.(font := AllFonts(cfg))))
    case FontTag(FontIndex(n)) => Running(SelectFont(cfg, st, n))
    case OpenClick(b, cmd) => Running(st.(butts := st.butts + [(if b.Some? then b.value else 1, cmd)]))
    case CloseClick =>
      if |st.butts| == 0 then Running(st.(warnings := st.warnings + [UnassociatedClose]))
      else Running(st.(butts := st.butts[..|st.butts| - 1]))
    case ImageTag(_) => Running(st)
  }

  /** One chunk: its span is pushed, then its tag applied. */
  function Step(cfg: Config, st: State, c: Chunk): (r: Progress)
    requires Shaped(st) && WellFormedTag(c.tag)
    ensures r.Running? ==> Shaped(r.state)
  {
    ApplyTag(cfg, Flush(cfg, st, c.text), c.tag)
  }

  /** The state after the chunks `cs`, each read in order from the initial state. */
  function Run(cfg: Config, cs: seq<Chunk>): (r: Progress)
    requires WellFormedChunks(cs)
    ensures r.Running? ==> Shaped(r.state)
  {
    if |cs| == 0 then Running(Initial(cfg))
    else
      match Run(cfg, cs[..|cs| - 1])
      case Aborted => Aborted
      case Running(st) => Step(cfg, st, cs[|cs| - 1])
  }

  /** The chunks and the tail: after the last tag the tail is pushed and the buckets concatenated. */
  function Interpret(cfg: Config, m: Markup): ParseOutcome
    requires WellFormedChunks(m.chunks)
  {
    match Run(cfg, m.chunks)
    case Aborted => Panicked
    case Running(st) =>
      var last := Flush(cfg, st, m.tail);
      Parsed(last.buckets[0] + last.buckets[1] + last.buckets[2], last.warnings)
  }

  /** `LemonParser::parse` on a line. */
  function ParseSpec(cfg: Config, fmt: string): ParseOutcome
  {
    Interpret(cfg, Tokenise(fmt, 0))
  }

  /** Reading one more chunk is one more step. */
  lemma RunSnoc(cfg: Config, cs: seq<Chunk>, k: nat)
    requires WellFormedChunks(cs) && k < |cs|
    ensures WellFormedChunks(cs[..k]) && WellFormedChunks(cs[..k + 1])
    ensures Run(cfg, cs[..k + 1]) ==
      match Run(cfg, cs[..k])
      case Aborted => Aborted
      case Running(st) => Step(cfg, st, cs[k])
  {
    assert cs[..k + 1][..k] == cs[..k];
  }

  /** Once a parse panics it stays panicked. */
  lemma {:induction false} AbortedPersists(cfg: Config, cs: seq<Chunk>, k: nat)
    requires WellFormedChunks(cs) && k <= |cs|
    requires WellFormedChunks(cs[..k]) && Run(cfg, cs[..k]).Aborted?
    ensures Run(cfg, cs).Aborted?
    decreases |cs| - k
  {
    if k < |cs| {
      RunSnoc(cfg, cs, k);
      AbortedPersists(cfg, cs, k + 1);
    } else {
      assert cs[..k] == cs;
    }
  }

  /** A colour argument of hex digits, read by `from_hex` as written, is read as by the corrected decoder. */
  lemma TagDigitsUnsigned(d: string)
    requires AllHex(d)
    ensures HexColour(d) == StrictHexColour(d)
  {
    assert StripHash(d) == d by {
      if |d| > 0 {
        assert IsHexDigit(d[0]);
      }
    }
    HexColourUnsigned(d);
  }

  /**
   * One arm of the tag `match` in `parse`: the local colours, line flags,
   * font, button stack, buckets and zone are updated as the tag says; a
   * colour that `from_hex` refuses panics on `unwrap`.
   */
  method ReadTag(cfg: Config, st: State, tag: Tag) returns (p: Progress)
    requires Shaped(st) && WellFormedTag(tag)
    ensures p == ApplyTag(cfg, st, tag)
  {
    var fgc, bgc, olc, ulc := st.style.fg, st.style.bg, st.style.ol, st.style.ul;
    var oline, uline, font := st.style.oline, st.style.uline, st.style.font;
    var butts, v, i, warnings := st.butts, st.buckets, st.zone, st.warnings;
    match tag {
      case ZoneTag(z) =>
        var n := ZoneIndex(z);
        if i != n {
          if !EndsInFiller(v[i]) && i != 2 {
            v := v[i := PushFiller(v[i], GetBg(cfg, st.style, butts))];
          }
          i := n;
        }
      case SwapTag =>
        fgc, bgc := bgc, fgc;
      case ColourTag(ch, arg) =>
        var col: Colour;
        match arg {
          case ResetColour =>
            col := DefaultOf(cfg, ch);
          case HexDigits(d) =>
            var res := FromHex(d);
            TagDigitsUnsigned(d);
            if !res.Decoded? {
              return Aborted;
            }
            col := res.colour;
        }
        match ch {
          case Foreground => fgc := col;
          case Background => bgc := col;
          case Underline => ulc := col;
          case Overline => olc := col;
        }
      case AttrTag(op, line) =>
        match line {
          case OverLine => oline := ApplyOp(op, oline);
          case UnderLine => uline := ApplyOp(op, uline);
        }
      case FontTag(arg) =>
        match arg {
          case ResetFont =>
            font := Join(cfg.fontList, ", ");
          case FontIndex(n) =>
            var idx := n - 1;
            if idx > |cfg.fontList| {
              warnings := warnings + [FontIndexTooHigh(idx)];
              font := Join(cfg.fontList, ", ");
            } else {
              font := if idx < |cfg.fontList| then cfg.fontList[idx] else "";
            }
        }
      case OpenClick(b, cmd) =>
        var button := if b.Some? then b.value else 1;
        butts := butts + [(button, cmd)];
      case CloseClick =>
        if |butts| == 0 {
          warnings := warnings + [UnassociatedClose];
        } else {
          butts := butts[..|butts| - 1];
        }
      case ImageTag(_) =>
    }
    p := Running(State(Style(fgc, bgc, olc, ulc, oline, uline, font), butts, v, i, warnings));
  }

  /** The parser's settings; `parse` reads them and changes nothing. */
  class LemonParser {
    var bg: Colour
    var fg: Colour
    var ol: Colour
    var ul: Colour
    var olSize: real
    var ulSize: real
    var fontList: seq<string>

    /** `LemonParser::new`: transparent black background and lines, opaque white text, size-1 lines, one empty font. */
    constructor ()
      ensures bg == Colour(0.0, 0.0, 0.0, 0.0) && fg == Colour(1.0, 1.0, 1.0, 1.0)
      ensures ol == bg && ul == bg
      ensures olSize == 1.0 && ulSize == 1.0
      ensures fontList == [""]
    {
      bg := Colour(0.0, 0.0, 0.0, 0.0);
      fg := Colour(1.0, 1.0, 1.0, 1.0);
      ol := Colour(0.0, 0.0, 0.0, 0.0);
      ul := Colour(0.0, 0.0, 0.0, 0.0);
      olSize := 1.0;
      ulSize := 1.0;
      fontList := [""];
    }

    function Settings(): Config
      reads this
    {
      Config(bg, fg, ol, ul, olSize, ulSize, fontList)
    }

    /**
     * `parse`: walks the tags of `fmt` left to right; the state is pushed
     * the span before each tag (`pusht`), then the tag is read, and at the
     * end the tail is pushed and the buckets concatenated.
     */
    method Parse(fmt: string) returns (out: ParseOutcome)
      ensures out == ParseSpec(Settings(), fmt)
    {
      var cfg := Settings();
      var m := Tokenise(fmt, 0);
      var cs := m.chunks;
      var st := State(Style(fg, bg, ol, ul, false, false, Join(fontList, ", ")), [], [[], [], []], 0, []);
      var k := 0;
      assert cs[..0] == [];
      while k < |cs|
        invariant 0 <= k <= |cs| && Shaped(st)
        invariant WellFormedChunks(cs[..k])
        invariant Run(cfg, cs[..k]) == Running(st)
      {
        var c := cs[k];
        RunSnoc(cfg, cs, k);
        st := st.(buckets := st.buckets[st.zone := PushText(st.buckets[st.zone], Text(st.style.fg, c.text, st.style.font), GetBg(cfg, st.style, st.butts))]);
        var p := ReadTag(cfg, st, c.tag);
        if p.Aborted? {
          AbortedPersists(cfg, cs, k + 1);
          assert cs[..|cs|] == cs;
          return Panicked;
        }
        st := p.state;
        k := k + 1;
      }
      assert cs[..k] == cs;
      var v := st.buckets[st.zone := PushText(st.buckets[st.zone], Text(st.style.fg, m.tail, st.style.font), GetBg(cfg, st.style, st.butts))];
      out := Parsed(v[0] + v[1] + v[2], st.warnings);
    }
  }
}
