/**
 * The lemonbar-style markup the parser reads: the tags recognised between
 * `%{` and `}`, how a tag body is read, how it is written back, and how a
 * line splits into text spans and tags the way the tag regex's `find_iter`
 * does (leftmost tag first, each tag closed as early as possible).
 */
module Markup {
  import opened Wrappers
  import opened Format

  /** The three zones of the bar: `%{l}`, `%{c}`, `%{r}`. */
  datatype Zone = Left | Center | Right

  /** The index of a zone's bucket. */
  function ZoneIndex(z: Zone): (n: nat)
    ensures n < 3
    ensures z == Left <==> n == 0
    ensures z == Right <==> n == 2
  {
    match z
    case Left => 0
    case Center => 1
    case Right => 2
  }

  /** What a colour tag sets: `F` foreground, `B` background, `U` underline colour, `u` overline colour. */
  datatype Channel = Foreground | Background | Underline | Overline

  /** `-` restores the configured colour; otherwise hex digits follow the `#`. */
  datatype ColourArg = ResetColour | HexDigits(digits: string)

  /**
   * The character before `u` or `o` in an attribute tag: `!` toggles, `+`
   * enables, `-` disables; the other characters of the class `[!-+]`
   * (`"` to `*`) are accepted and do nothing.
   */
  datatype AttrOp = Toggle | Enable | Disable | Inert(op: char)

  /** `o` is the overline, `u` the underline. */
  datatype AttrLine = OverLine | UnderLine

  /** `T-` restores the joined font list; `T1` to `T9` pick a font, counting from one. */
  datatype FontArg = ResetFont | FontIndex(n: nat)

  datatype Tag =
    | ZoneTag(zone: Zone)
    | SwapTag
    | ColourTag(channel: Channel, arg: ColourArg)
    | AttrTag(op: AttrOp, line: AttrLine)
    | FontTag(font: FontArg)
    | OpenClick(button: Option<nat>, command: string)
    | CloseClick
    | ImageTag(path: string)

  /** A click command: one or more characters, where a `:` only occurs escaped as `\:`. */
  predicate ValidCommand(cmd: string)
  {
    |cmd| > 0 && cmd[0] != ':' && forall j :: 0 < j < |cmd| && cmd[j] == ':' ==> cmd[j - 1] == '\\'
  }

  predicate IsDigit19(c: char)
  {
    '1' <= c <= '9'
  }

  predicate InertOp(c: char)
  {
    '"' <= c <= '*'
  }

  /** The tags the regex can produce. */
  predicate WellFormedTag(t: Tag)
  {
    match t
    case ColourTag(_, HexDigits(d)) => AllHex(d) && |d| in {3, 4, 6, 7, 8}
    case AttrTag(Inert(c), _) => InertOp(c)
    case FontTag(FontIndex(n)) => 1 <= n <= 9
    case OpenClick(b, cmd) => (b.Some? ==> 1 <= b.value <= 9) && ValidCommand(cmd)
    case ImageTag(p) => |p| > 0 && '\n' !in p
    case _ => true
  }

  function ChannelChar(c: Channel): char
  {
    match c
    case Foreground => 'F'
    case Background => 'B'
    case Underline => 'U'
    case Overline => 'u'
  }

  function OpChar(op: AttrOp): char
  {
    match op
    case Toggle => '!'
    case Enable => '+'
    case Disable => '-'
    case Inert(c) => c
  }

  function LineChar(l: AttrLine): char
  {
    match l
    case OverLine => 'o'
    case UnderLine => 'u'
  }

  function Digit19(n: nat): char
    requires 1 <= n <= 9
  {
    ('0' as int + n) as char
  }

  /** The text between `%{` and `}` that stands for `t`. */
  function Render(t: Tag): string
    requires WellFormedTag(t)
  {
    match t
    case ZoneTag(Left) => "l"
    case ZoneTag(Center) => "c"
    case ZoneTag(Right) => "r"
    case SwapTag => "R"
    case ColourTag(ch, ResetColour) => [ChannelChar(ch), '#', '-']
    case ColourTag(ch, HexDigits(d)) => [ChannelChar(ch), '#'] + d
    case AttrTag(op, line) => [OpChar(op), LineChar(line)]
    case FontTag(ResetFont) => "T-"
    case FontTag(FontIndex(n)) => ['T', Digit19(n)]
    case OpenClick(None, cmd) => "A:" + cmd + ":"
    case OpenClick(Some(b), cmd) => ['A', Digit19(b), ':'] + cmd + ":"
    case CloseClick => "A"
    case ImageTag(p) => "I:" + p
  }

  function ChannelOf(c: char): Option<Channel>
  {
    if c == 'F' then Some(Foreground)
    else if c == 'B' then Some(Background)
    else if c == 'U' then Some(Underline)
    else if c == 'u' then Some(Overline)
    else None
  }

  function OpOf(c: char): Option<AttrOp>
  {
    if c == '!' then Some(Toggle)
    else if c == '+' then Some(Enable)
    else if c == '-' then Some(Disable)
    else if InertOp(c) then Some(Inert(c))
    else None
  }

  function LineOf(c: char): Option<AttrLine>
  {
    if c == 'o' then Some(OverLine) else if c == 'u' then Some(UnderLine) else None
  }

  /** `[BFUu]#(-|(?:[[:xdigit:]]{3,4}){1,2})` after the channel letter. */
  function ColourTagOf(ch: Channel, rest: string): (r: Option<Tag>)
    ensures r.Some? ==> WellFormedTag(r.value)
  {
    if |rest| == 2 && rest[0] == '#' && rest[1] == '-' then Some(ColourTag(ch, ResetColour))
    else if |rest| >= 1 && rest[0] == '#' && AllHex(rest[1..]) && |rest| - 1 in {3, 4, 6, 7, 8} then
      Some(ColourTag(ch, HexDigits(rest[1..])))
    else None
  }

  /** `[!-+\-][uo]` after the operator character. */
  function AttrTagOf(op: AttrOp, rest: string): (r: Option<Tag>)
    requires op.Inert? ==> InertOp(op.op)
    ensures r.Some? ==> WellFormedTag(r.value)
  {
    if |rest| == 1 && LineOf(rest[0]).Some? then Some(AttrTag(op, LineOf(rest[0]).value)) else None
  }

  /** `T(-|[1-9])` after the `T`. */
  function FontTagOf(rest: string): (r: Option<Tag>)
    ensures r.Some? ==> WellFormedTag(r.value)
  {
    if |rest| == 1 && rest[0] == '-' then Some(FontTag(ResetFont))
    else if |rest| == 1 && IsDigit19(rest[0]) then Some(FontTag(FontIndex(rest[0] as int - '0' as int)))
    else None
  }

  /** `A(?:([1-9])?:((?:[^:]|\\:)+?):)?` after the `A`; the button is absent when no digit is given. */
  function ClickOf(rest: string): (r: Option<Tag>)
    ensures r.Some? ==> WellFormedTag(r.value)
  {
    if |rest| == 0 then Some(CloseClick)
    else
      var k := if IsDigit19(rest[0]) then 1 else 0;
      if |rest| >= k + 3 && rest[k] == ':' && rest[|rest| - 1] == ':' && ValidCommand(rest[k + 1..|rest| - 1]) then
        Some(OpenClick(if k == 1 then Some(rest[0] as int - '0' as int) else None, rest[k + 1..|rest| - 1]))
      else None
  }

  /** `I:(.+?)` after the `I`: a path of at least one character and no line break. */
  function ImageOf(rest: string): (r: Option<Tag>)
    ensures r.Some? ==> WellFormedTag(r.value)
  {
    if |rest| >= 2 && rest[0] == ':' && '\n' !in rest[1..] then Some(ImageTag(rest[1..])) else None
  }

  /**
   * Reading a tag body as the whole of the tag regex's alternation; the
   * first character decides the alternative, and only tags the regex can
   * produce come out.
   */
  function Recognise(b: string): (r: Option<Tag>)
    ensures r.Some? ==> WellFormedTag(r.value)
  {
    if |b| == 0 then None
    else
      var t, rest := b[0], b[1..];
      if |rest| == 0 && t == 'l' then Some(ZoneTag(Left))
      else if |rest| == 0 && t == 'c' then Some(ZoneTag(Center))
      else if |rest| == 0 && t == 'r' then Some(ZoneTag(Right))
      else if |rest| == 0 && t == 'R' then Some(SwapTag)
      else if ChannelOf(t).Some? then ColourTagOf(ChannelOf(t).value, rest)
      else if OpOf(t).Some? then AttrTagOf(OpOf(t).value, rest)
      else if t == 'T' then FontTagOf(rest)
      else if t == 'A' then ClickOf(rest)
      else if t == 'I' then ImageOf(rest)
      else None
  }

  lemma ChannelOfChar(t: char)
    ensures ChannelOf(t).Some? ==> ChannelChar(ChannelOf(t).value) == t
    ensures OpOf(t).Some? ==> OpChar(OpOf(t).value) == t
  {
  }

  lemma ClickRendersBack(rest: string)
    ensures ClickOf(rest).Some? ==> Render(ClickOf(rest).value) == "A" + rest
  {
    if ClickOf(rest).Some? {
      if |rest| == 0 {
        assert "A" + rest == "A";
      } else {
        var k := if IsDigit19(rest[0]) then 1 else 0;
        var cmd := rest[k + 1..|rest| - 1];
        assert ClickOf(rest).value.command == cmd;
        if k == 1 {
          assert Digit19(rest[0] as int - '0' as int) == rest[0];
          assert rest == [rest[0], ':'] + cmd + ":";
          assert "A" + rest == ['A', rest[0], ':'] + cmd + ":";
        } else {
          assert rest == ":" + cmd + ":";
          assert "A" + rest == "A:" + cmd + ":";
        }
      }
    }
  }

  /** Whatever is read renders back to the same body. */
  lemma RenderRecognise(b: string)
    ensures Recognise(b).Some? ==> Render(Recognise(b).value) == b
  {
    if Recognise(b).Some? {
      var t, rest := b[0], b[1..];
      assert b == [t] + rest;
      ChannelOfChar(t);
      if ChannelOf(t).Some? {
        if |rest| >= 1 && rest[0] == '#' && !(|rest| == 2 && rest[1] == '-') {
          assert rest == ['#'] + rest[1..];
        }
      } else if OpOf(t).Some? {
      } else if t == 'T' {
      } else if t == 'A' {
        ClickRendersBack(rest);
      } else if t == 'I' {
        assert rest == ":" + rest[1..];
      }
    }
  }

  lemma RecogniseColour(ch: Channel, a: ColourArg)
    requires WellFormedTag(ColourTag(ch, a))
    ensures Recognise(Render(ColourTag(ch, a))) == Some(ColourTag(ch, a))
  {
    var b := Render(ColourTag(ch, a));
    assert b[0] == ChannelChar(ch);
    if a.HexDigits? {
      assert b[1..] == ['#'] + a.digits;
      assert b[1..][1..] == a.digits;
    }
  }

  lemma RecogniseClick(button: Option<nat>, cmd: string)
    requires WellFormedTag(OpenClick(button, cmd))
    ensures Recognise(Render(OpenClick(button, cmd))) == Some(OpenClick(button, cmd))
  {
    var b := Render(OpenClick(button, cmd));
    assert b[0] == 'A';
    if button.None? {
      assert b[1..] == ":" + cmd + ":";
      assert b[1..][1..|b[1..]| - 1] == cmd;
    } else {
      assert b[1..] == [Digit19(button.value), ':'] + cmd + ":";
      assert b[1..][2..|b[1..]| - 1] == cmd;
    }
  }

  lemma RecogniseImage(p: string)
    requires WellFormedTag(ImageTag(p))
    ensures Recognise(Render(ImageTag(p))) == Some(ImageTag(p))
  {
    var b := Render(ImageTag(p));
    assert b[0] == 'I';
    assert b[1..] == ":" + p;
    assert b[1..][1..] == p;
  }

  /** Every well-formed tag is read back from its rendering. */
  lemma RecogniseRender(t: Tag)
    requires WellFormedTag(t)
    ensures Recognise(Render(t)) == Some(t)
  {
    match t
    case ColourTag(ch, a) => RecogniseColour(ch, a);
    case OpenClick(button, cmd) => RecogniseClick(button, cmd);
    case ImageTag(p) => RecogniseImage(p);
    case AttrTag(op, line) =>
      assert Render(t)[0] == OpChar(op) && Render(t)[1..] == [LineChar(line)];
    case FontTag(f) =>
      assert Render(t)[0] == 'T';
    case _ =>
  }

  // ---------------------------------------------------------------------------
  // Splitting a line into spans and tags

  /** A text span followed by the tag that ends it. */
  datatype Chunk = Chunk(text: string, tag: Tag)

  /** A line: spans each ended by a tag, and the text after the last tag. */
  datatype Markup = Markup(chunks: seq<Chunk>, tail: string)

  predicate WellFormedChunks(cs: seq<Chunk>)
  {
    forall j :: 0 <= j < |cs| ==> WellFormedTag(cs[j].tag)
  }

  /** A `%{` starts at `start`. */
  predicate Opens(s: string, start: nat)
  {
    start + 2 <= |s| && s[start] == '%' && s[start + 1] == '{'
  }

  /** The `}` at `end` closes a tag opened at `start` around a recognised body. */
  predicate ClosesAt(s: string, start: nat, end: nat)
    requires start + 2 <= end < |s|
  {
    s[end] == '}' && Recognise(s[start + 2..end]).Some?
  }

  /** The first position from `q` on that closes the tag opened at `start`. */
  function TagEnd(s: string, start: nat, q: nat): (r: Option<nat>)
    requires start + 2 <= q <= |s|
    ensures r.Some? ==> q <= r.value < |s| && ClosesAt(s, start, r.value)
    decreases |s| - q
  {
    if q == |s| then None
    else if ClosesAt(s, start, q) then Some(q)
    else TagEnd(s, start, q + 1)
  }

  /** No position before the one `TagEnd` finds closes the tag; when it finds none, none does. */
  lemma {:induction false} TagEndFirst(s: string, start: nat, q: nat)
    requires start + 2 <= q <= |s|
    ensures TagEnd(s, start, q).Some? ==> forall e :: q <= e < TagEnd(s, start, q).value ==> !ClosesAt(s, start, e)
    ensures TagEnd(s, start, q).None? ==> forall e :: q <= e < |s| ==> !ClosesAt(s, start, e)
    decreases |s| - q
  {
    if q < |s| && !ClosesAt(s, start, q) {
      TagEndFirst(s, start, q + 1);
    }
  }

  /** A tag matches starting at `start`. */
  predicate MatchesAt(s: string, start: nat)
  {
    Opens(s, start) && TagEnd(s, start, start + 2).Some?
  }

  /** The leftmost position from `p` on where a tag matches. */
  function FindTag(s: string, p: nat): (r: Option<nat>)
    requires p <= |s|
    ensures r.Some? ==> p <= r.value < |s| && MatchesAt(s, r.value)
    decreases |s| - p
  {
    if p == |s| then None
    else if MatchesAt(s, p) then Some(p)
    else FindTag(s, p + 1)
  }

  /** No tag matches before the position `FindTag` finds; when it finds none, no tag matches at all. */
  lemma {:induction false} FindTagLeftmost(s: string, p: nat)
    requires p <= |s|
    ensures FindTag(s, p).Some? ==> forall k :: p <= k < FindTag(s, p).value ==> !MatchesAt(s, k)
    ensures FindTag(s, p).None? ==> forall k :: p <= k < |s| ==> !MatchesAt(s, k)
    decreases |s| - p
  {
    if p < |s| {
      if MatchesAt(s, p) {
        assert FindTag(s, p) == Some(p);
      } else {
        FindTagLeftmost(s, p + 1);
        assert FindTag(s, p) == FindTag(s, p + 1);
        var bound := if FindTag(s, p).Some? then FindTag(s, p).value else |s|;
        forall k | p <= k < bound
          ensures !MatchesAt(s, k)
        {
          if k == p {
          }
        }
      }
    }
  }

  /** A span with its tag written out, as it stands in the line. */
  function Piece(c: Chunk): string
    requires WellFormedTag(c.tag)
  {
    c.text + "%{" + Render(c.tag) + "}"
  }

  /**
   * The next match from `from` on, with the span before it, and where
   * reading resumes: the leftmost position where a tag matches, closed at
   * the first `}` that ends a recognised body.
   */
  function NextTag(s: string, from: nat): (r: Option<(Chunk, nat)>)
    requires from <= |s|
    ensures r.Some? ==> from < r.value.1 <= |s| && WellFormedTag(r.value.0.tag)
  {
    match FindTag(s, from)
    case None => None
    case Some(start) =>
      var end := TagEnd(s, start, start + 2).value;
      assert ClosesAt(s, start, end);
      Some((Chunk(s[from..start], Recognise(s[start + 2..end]).value), end + 1))
  }

  /** The next piece is the line's own text, and its tag matches right after the span. */
  lemma NextTagPiece(s: string, from: nat)
    requires from <= |s|
    ensures NextTag(s, from).Some? ==>
      var c := NextTag(s, from).value.0;
      s[from..NextTag(s, from).value.1] == Piece(c) && MatchesAt(s, from + |c.text|)
  {
    match FindTag(s, from)
    case None =>
    case Some(start) =>
      var end := TagEnd(s, start, start + 2).value;
      assert ClosesAt(s, start, end);
      var tag := Recognise(s[start + 2..end]).value;
      RenderRecognise(s[start + 2..end]);
      var c := Chunk(s[from..start], tag);
      assert NextTag(s, from) == Some((c, end + 1));
      assert from + |c.text| == start;
      PieceAt(s, from, start, end, c);
  }

  /** The span before the next tag holds no match; with no next tag, nothing from `from` on matches. */
  lemma NextTagLeftmost(s: string, from: nat)
    requires from <= |s|
    ensures NextTag(s, from).Some? ==>
      forall k :: from <= k < from + |NextTag(s, from).value.0.text| ==> !MatchesAt(s, k)
    ensures NextTag(s, from).None? ==> forall k :: from <= k < |s| ==> !MatchesAt(s, k)
  {
    FindTagLeftmost(s, from);
  }

  /** The piece of a chunk whose span and body are the line's own text between `from` and `end`. */
  lemma PieceAt(s: string, from: nat, start: nat, end: nat, c: Chunk)
    requires from <= start && start + 2 <= end < |s| && s[start] == '%' && s[start + 1] == '{' && s[end] == '}'
    requires WellFormedTag(c.tag) && c.text == s[from..start] && Render(c.tag) == s[start + 2..end]
    ensures s[from..end + 1] == Piece(c)
  {
    SplitAtTag(s, from, start, end);
  }

  /** A piece of the line cut around the tag between `start` and `end`. */
  lemma SplitAtTag(s: string, from: nat, start: nat, end: nat)
    requires from <= start && start + 2 <= end < |s| && s[start] == '%' && s[start + 1] == '{' && s[end] == '}'
    ensures s[from..end + 1] == s[from..start] + "%{" + s[start + 2..end] + "}"
  {
    assert s[start..start + 2] == "%{";
    assert s[end..end + 1] == "}";
    assert s[from..end + 1] == s[from..start] + s[start..end + 1];
    assert s[start..end + 1] == s[start..start + 2] + s[start + 2..end + 1];
    assert s[start + 2..end + 1] == s[start + 2..end] + s[end..end + 1];
    AppendAssoc(s[from..start], "%{", s[start + 2..end] + "}");
    AppendAssoc(s[from..start] + "%{", s[start + 2..end], "}");
  }

  /** The split `find_iter` gives from character `from` on: the matches in order and the spans between them. */
  function Tokenise(s: string, from: nat): (m: Markup)
    requires from <= |s|
    ensures WellFormedChunks(m.chunks)
    decreases |s| - from
  {
    match NextTag(s, from)
    case None => Markup([], s[from..])
    case Some((c, next)) =>
      var rest := Tokenise(s, next);
      var cs := [c] + rest.chunks;
      assert forall j :: 0 < j < |cs| ==> cs[j] == rest.chunks[j - 1];
      Markup(cs, rest.tail)
  }

  /**
   * The tag opened at `start` and closed at `end` is the next match from
   * `from` on when no `%` stands between `from` and `start` and no `}`
   * inside the tag.
   */
  lemma NextTagAt(s: string, from: nat, start: nat, end: nat, t: Tag)
    requires from <= start && start + 2 <= end < |s|
    requires s[start] == '%' && s[start + 1] == '{' && s[end] == '}'
    requires '%' !in s[from..start] && '}' !in s[start + 2..end]
    requires Recognise(s[start + 2..end]) == Some(t)
    ensures NextTag(s, from) == Some((Chunk(s[from..start], t), end + 1))
  {
    TagEndAt(s, start, start + 2, end);
    assert MatchesAt(s, start);
    FindTagAt(s, from, start);
    assert TagEnd(s, start, start + 2).value == end;
  }

  /** From `from` on, a span, a tag whose body reads as `t`, and the rest: the next match is that tag. */
  lemma NextTagIn(s: string, from: nat, span: string, body: string, rest: string, t: Tag)
    requires from <= |s| && s[from..] == span + "%{" + body + "}" + rest
    requires '%' !in span && '}' !in body && Recognise(body) == Some(t)
    ensures NextTag(s, from) == Some((Chunk(span, t), from + |span| + |body| + 3))
  {
    var start := from + |span|;
    var end := start + 2 + |body|;
    assert s[from..start] == span;
    assert s[start + 2..end] == body;
    assert s[start] == '%' && s[start + 1] == '{' && s[end] == '}';
    NextTagAt(s, from, start, end, t);
  }

  /** `a%{x}c`, where `x` is a tag body and neither `a` nor `c` holds a `%`, splits into one chunk and the tail `c`. */
  lemma TokeniseOneTag(s: string, a: string, x: string, c: string, t: Tag)
    requires s == a + "%{" + x + "}" + c
    requires '%' !in a && '}' !in x && Recognise(x) == Some(t) && '%' !in c
    ensures Tokenise(s, 0) == Markup([Chunk(a, t)], c)
  {
    var n := |a| + |x| + 3;
    assert s[n..] == c;
    TokeniseRest(s, n, c);
    assert s[0..] == s;
    TokeniseStep(s, 0, a, x, c, t, n, Markup([], c));
  }

  /** `a%{x}b%{y}c`, where `x` and `y` are tag bodies and `a`, `b`, `c` hold no `%`, splits into two chunks and the tail `c`. */
  lemma TokeniseTwoTags(s: string, a: string, x: string, b: string, y: string, c: string, t0: Tag, t1: Tag)
    requires s == a + "%{" + x + "}" + b + "%{" + y + "}" + c
    requires '%' !in a && '}' !in x && Recognise(x) == Some(t0)
    requires '%' !in b && '}' !in y && Recognise(y) == Some(t1) && '%' !in c
    ensures Tokenise(s, 0) == Markup([Chunk(a, t0), Chunk(b, t1)], c)
  {
    var u, r := a + "%{" + x + "}", b + "%{" + y + "}" + c;
    assert s == u + r by {
      ConcatAssoc(u, b + "%{" + y + "}", c);
      ConcatAssoc(u, b + "%{" + y, "}");
      ConcatAssoc(u, b + "%{", y);
      ConcatAssoc(u, b, "%{");
    }
    DropPrefix(u, r);
    DropPrefix(b + "%{" + y + "}", c);
    DropPrefix(s[..|u| + |b| + |y| + 3], c);
    assert s[|u|..][|b| + |y| + 3..] == c;
    var m := Markup([Chunk(b, t1)], c);
    assert Tokenise(s, |u|) == m by {
      var n1 := |u| + |b| + |y| + 3;
      TokeniseRest(s, n1, c);
      TokeniseStep(s, |u|, b, y, c, t1, n1, Markup([], c));
    }
    assert s[0..] == u + r;
    TokeniseStep(s, 0, a, x, r, t0, |u|, m);
    TwoChunks(Chunk(a, t0), Chunk(b, t1));
  }

  lemma TwoChunks(c0: Chunk, c1: Chunk)
    ensures [c0] + [c1] == [c0, c1]
  {
  }

  lemma ConcatAssoc(p: string, q: string, w: string)
    ensures p + q + w == p + (q + w)
  {
  }

  lemma DropPrefix(p: string, w: string)
    ensures (p + w)[|p|..] == w
  {
  }

  /** A tail with no `%` splits into no chunks. */
  lemma TokeniseRest(s: string, p: nat, c: string)
    requires p <= |s| && s[p..] == c && '%' !in c
    ensures Tokenise(s, p) == Markup([], c)
  {
    NoTagFrom(s, p);
    TokeniseEnd(s, p);
  }

  /** From `from`, where the text reads `span%{body}rest` and the split after the match is `m`, the split is the match followed by `m`. */
  lemma TokeniseStep(s: string, from: nat, span: string, body: string, rest: string, t: Tag, next: nat, m: Markup)
    requires from <= |s| && s[from..] == span + "%{" + body + "}" + rest
    requires '%' !in span && '}' !in body && Recognise(body) == Some(t)
    requires next == from + |span| + |body| + 3 && Tokenise(s, next) == m
    ensures Tokenise(s, from) == Markup([Chunk(span, t)] + m.chunks, m.tail)
  {
    NextTagIn(s, from, span, body, rest, t);
    TokeniseCons(s, from, Chunk(span, t), next, m);
  }

  /** The split from `from` on, when the next match is `c`, reading resumes at `next`, and the split from there is `m`. */
  lemma TokeniseCons(s: string, from: nat, c: Chunk, next: nat, m: Markup)
    requires from <= |s| && NextTag(s, from) == Some((c, next)) && Tokenise(s, next) == m
    ensures Tokenise(s, from) == Markup([c] + m.chunks, m.tail)
  {
    TokeniseAt(s, from, c, next);
  }

  lemma TokeniseAt(s: string, from: nat, c: Chunk, next: nat)
    requires from <= |s| && NextTag(s, from) == Some((c, next))
    ensures next <= |s|
    ensures Tokenise(s, from) == Markup([c] + Tokenise(s, next).chunks, Tokenise(s, next).tail)
  {
  }

  lemma TokeniseEnd(s: string, p: nat)
    requires p <= |s| && NextTag(s, p).None?
    ensures Tokenise(s, p) == Markup([], s[p..])
  {
  }

  lemma {:induction false} TagEndAt(s: string, start: nat, q: nat, end: nat)
    requires start + 2 <= q <= end < |s|
    requires '}' !in s[q..end] && ClosesAt(s, start, end)
    ensures TagEnd(s, start, q) == Some(end)
    decreases end - q
  {
    if q < end {
      assert s[q] == s[q..end][0];
      assert s[q + 1..end] == s[q..end][1..];
      TagEndAt(s, start, q + 1, end);
    }
  }

  lemma {:induction false} FindTagAt(s: string, p: nat, start: nat)
    requires p <= start && MatchesAt(s, start) && '%' !in s[p..start]
    ensures FindTag(s, p) == Some(start)
    decreases start - p
  {
    if p < start {
      assert s[p] == s[p..start][0];
      assert s[p + 1..start] == s[p..start][1..];
      FindTagAt(s, p + 1, start);
    }
  }

  /** With no `%` from `p` on there is no further match. */
  lemma {:induction false} NoTagFrom(s: string, p: nat)
    requires p <= |s| && '%' !in s[p..]
    ensures FindTag(s, p).None? && NextTag(s, p).None?
    decreases |s| - p
  {
    if p < |s| {
      assert s[p] == s[p..][0];
      assert s[p + 1..] == s[p..][1..];
      NoTagFrom(s, p + 1);
    }
  }

  /** The line a markup was read from: each span, its tag in `%{`..`}`, and the tail. */
  function Source(cs: seq<Chunk>, tail: string): string
    requires WellFormedChunks(cs)
  {
    if cs == [] then tail
    else Piece(cs[0]) + Source(cs[1..], tail)
  }

  /** Splitting loses nothing: the spans and tags put back together are the line. */
  lemma {:induction false} TokeniseSource(s: string, from: nat)
    requires from <= |s|
    ensures Source(Tokenise(s, from).chunks, Tokenise(s, from).tail) == s[from..]
    decreases |s| - from
  {
    match NextTag(s, from)
    case None =>
      assert Tokenise(s, from) == Markup([], s[from..]);
    case Some((c, next)) =>
      var rest := Tokenise(s, next);
      var cs := [c] + rest.chunks;
      assert Tokenise(s, from) == Markup(cs, rest.tail);
      TokeniseSource(s, next);
      NextTagPiece(s, from);
      assert cs[1..] == rest.chunks;
      assert Source(cs, rest.tail) == Piece(c) + Source(rest.chunks, rest.tail);
      assert s[from..] == s[from..next] + s[next..];
  }
}
