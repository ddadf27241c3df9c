# lemonade markup front end, in Dafny

This project models the markup front end of lemonade, a lemonbar-style status bar written in Rust. It has three parts.

- **`LemonParser`** (src/bin/lemon.rs) reads one line of markup. A line is plain text with tags between `%{` and `}`: zones `l`/`c`/`r`, the swap `R`, colours `F`/`B`/`U`/`u`, line attributes `!`/`+`/`-` with `o` or `u`, fonts `T`, click bindings `A`, and images `I`.
  - The parser turns the line into a flat list of segments: `Text` items and `Filler` items.
  - Each segment carries a snapshot of the style in force when it was read: background, over- and underline, and the click-binding stack.
  - Segments are filed into three zone buckets, which are concatenated left, centre, right.
- **`Colour::from_hex`** (src/format.rs) decodes `#rgb`, `#argb`, `#rrggbb` and `#aarrggbb` into four channels. Each group is divided by the largest value that many digits can hold.
- **`is_colo`** (src/bin/main.rs) validates the colour arguments of the command-line front end.

The files are:

- `wrappers.dfy`: the `Option` type.
- `format.dfy` (module `Format`):
  - the data types `Colour`, `BG`, `Text` and `FormatItem`. `Colour::new` is the datatype constructor `Colour(r, g, b, a)`;
  - the decoder as a specification function, `DecodeHex`;
  - the decoder as the source's imperative loop over a four-slot array, `FromHex`. It is proved to compute the specification function;
  - a reference colour (`HexDigitsColour`) that each valid string of hex digits decodes to.
- `markup.dfy` (module `Markup`):
  - the tags the parser's regex can produce;
  - a recogniser for tag bodies, and a renderer that is its inverse;
  - `Tokenise`, the split of a line into (span, tag) chunks and a tail that `find_iter` produces: leftmost tag first, each tag closed at the first `}` that ends a recognised body. `Source` puts a split back together, and `TokeniseSource` proves that doing so gives back the line.
- `lemon.dfy` (module `Lemon`):
  - the parse as a fold of `Step` over the chunks (`Run`, `Interpret`, `ParseSpec`);
  - the class `LemonParser`, holding the settings as fields. Its constructor gives the defaults of `new`. Its method `Parse` keeps the source's loop and is proved equal to `ParseSpec`;
  - the tag `match` as the method `ReadTag`, proved equal to `ApplyTag`.
- `lemon_props.dfy` (module `LemonProperties`):
  - tag by tag, what each tag does;
  - where fillers can stand;
  - which text lands in which zone;
  - exactly when a line panics;
  - several lines worked through.
- `cli.dfy` (module `Cli`): `is_colo` as written, its corrected form, and their properties.

Where the repository's design documentation and the code disagree, the model follows the code:

- **Text flush drops a filler.** `pusht` pops a trailing `Filler` before appending non-empty text (src/bin/lemon.rs:100-103). The documentation says the filler is kept in front of the text.
- **A zone switch can fill an empty zone.** Switching zones pushes a filler into the zone being left even when that zone is empty. So `%{c}hello` gives `[Filler, hello]` (`CentreOnly`).
- **`left%{c}mid%{r}right` gets two fillers.** The line yields left, filler, mid, filler, right (`ThreeZones`). The documentation first says it yields no filler.
- **Fillers can meet where two buckets join.** No bucket holds two adjacent fillers (`RunNoAdjacentFillers`), but the flat output can. `%{c}%{r}` gives two side by side, one closing the left bucket and one the centre (`SeamFillers`).
- **A bad colour panics.** The documentation says an invalid colour is recovered locally and parsing never aborts. In the code, a 7-digit colour, which the regex admits, reaches `from_hex(..).unwrap()`, and that panics (src/bin/lemon.rs:190). The model makes this the outcome `Panicked`, and `PanicsIff` states exactly when it happens.

## Model

| member | source | states |
|---|---|---|
| Format.Utf8Len | src/format.rs:35 | `str::len` is at least the character count, and equals it exactly when the string is ASCII |
| Format.CharWidth | src/format.rs:35 | a character takes one to four bytes, and one exactly when it is ASCII |
| Format.GroupShape | src/format.rs:35-41 | a layout exists exactly for byte lengths 3, 4, 6 and 8: one or two digits per group, alpha given or not |
| Format.DigitValue | src/format.rs:47 | a hex digit reads as a value below 16 |
| Format.HexValue | src/format.rs:47 | `d` hex digits read as a value below 16 to the power `d` |
| Format.GroupValueDigits | src/format.rs:47 | `from_str_radix` reads a group of hex digits as its base-16 value |
| Format.HexValue2 | src/format.rs:47 | a two-digit group is sixteen times its first digit plus its second |
| Format.DecodeHex | src/format.rs:22-58 | the decoder returns `Err("Provided string as invalid length")` exactly when the length after stripping the `#` is not 3, 4, 6 or 8 |
| Format.StripHash | src/format.rs:26-29 | removes at most one leading `#`; HashOptional states this for the whole decoder |
| Format.Chunks | src/format.rs:43-46 | the groups `take(m)` yields, the last possibly short; ChunksCount counts them and ChunksAt1/ChunksAt2 give each one |
| Format.GroupValue | src/format.rs:47 | `i32::from_str_radix(.., 16)`, sign included; GroupValueDigits, GroupValueUnsigned and SignedGroupValues state what it reads |
| Format.Normalise | src/format.rs:48 | a value divided by 15 or by 255; DecodeDigits states the resulting channels |
| Format.HexColour | src/format.rs:22-58 | `from_hex` as written; FromHex computes it, HexColourUnsigned ties it to the corrected decoder, SignedGroupDecodes shows where they part |
| Format.StrictHexColour | src/format.rs:22-58 | `from_hex` with digits only; StrictHexColourCases gives every case |
| Format.ParseGroups | src/format.rs:45-47 | when all groups parse, there is one value per group |
| Format.Fill | src/format.rs:24-48 | the array `[a, r, g, b]` keeps four slots as groups are written |
| Format.ChunksCount | src/format.rs:43-46 | the loop runs once per character for one-digit groups, and once per pair (rounded up) for two-digit groups |
| Format.ChunksFit | src/format.rs:48 | `b + n` stays below 4, so every write lands inside the array |
| Format.ParseGroupsSnoc | src/format.rs:45-49 | reading one more group appends its value, or the decode panics there |
| Format.ParseGroupsFailurePersists | src/format.rs:47 | once a group fails to parse, the decode panics whatever follows |
| Format.ParseGroupsElementwise | src/format.rs:45-47 | all groups parse exactly when each one does, and the values are the groups' own values |
| Format.GroupValueUnsigned | src/format.rs:47 | a group without a leading sign reads the same whether or not signs are accepted |
| Format.HexDigitsColour | src/format.rs:24-57 | the reference colour of a valid digit string has every channel in [0, 1] |
| Format.DecodeDigits | src/format.rs:43-57 | hex digits of a valid length decode to the reference colour: alpha 1 for 3 and 6 digits, groups filling r, g, b (a, r, g, b for 4 and 8 digits), each divided by 15 or 255 |
| Format.DecodedChars | src/format.rs:47 | a decoded string consists of characters `from_str_radix` accepts |
| Format.StrictHexColourCases | src/format.rs:22-58 | the corrected decoder, entirely: a bad length is an `Err`; hex digits give the reference colour; any other character panics rather than returning `Err` |
| Format.StrictHexColourInUnitRange | src/format.rs:48 | every colour the corrected decoder yields lies in the unit range |
| Format.HexColourUnsigned | src/format.rs:47 | on strings without `+` or `-` the decoder as written agrees with the corrected one |
| Format.SignedGroupsParse | src/format.rs:46-47 | `-f0000` splits into `-f`, `00`, `00`, which read as −15, 0, 0 |
| Format.SignedGroupValues | src/format.rs:47 | `from_str_radix` reads `-f` as −15 and `00` as 0 |
| Format.SignedGroupDecodes | src/format.rs:47-48 | the decoder as written decodes `#-f0000` to a red channel of −15/255 |
| Format.SignedGroupRefused | src/format.rs:47 | the corrected decoder refuses `#-f0000` |
| Format.HashOptional | src/format.rs:26-29 | `from_hex("#" + s) == from_hex(s)` when `s` does not start with `#` |
| Format.DoubleHashPanics | src/format.rs:26-47 | only one `#` is stripped: `##f00` panics on the second |
| Format.FromHex | src/format.rs:22-58 | the in-place loop over the four-slot array computes the decoder's result |
| Markup.ZoneIndex | src/bin/lemon.rs:148-153 | `l`, `c`, `r` select buckets 0, 1, 2 |
| Markup.ColourTagOf | src/bin/lemon.rs:23 | a colour body is `#-` or 3, 4, 6, 7 or 8 hex digits |
| Markup.AttrTagOf | src/bin/lemon.rs:24 | an attribute body is an operator from `[!-+\-]` and then `o` or `u` |
| Markup.FontTagOf | src/bin/lemon.rs:25 | a font body is `-` or one of the digits 1 to 9 |
| Markup.ClickOf | src/bin/lemon.rs:26 | a click body is `A` alone, or `A`, an optional button 1-9, and `:cmd:` where every `:` in cmd is escaped |
| Markup.ImageOf | src/bin/lemon.rs:27 | an image body is `I:` and at least one character, with no line break |
| Markup.Recognise | src/bin/lemon.rs:20-31 | every tag read from a body is one the regex can produce |
| Markup.RenderRecognise | src/bin/lemon.rs:20-31 | a recognised body is exactly the rendering of its tag |
| Markup.RecogniseRender | src/bin/lemon.rs:20-31 | every tag the regex can produce is read back from its rendering |
| Markup.RecogniseColour | src/bin/lemon.rs:23 | colour tags round-trip through rendering |
| Markup.RecogniseClick | src/bin/lemon.rs:26 | click tags round-trip through rendering |
| Markup.ClickRendersBack | src/bin/lemon.rs:26 | a click body is the rendering of the click tag read from it |
| Markup.RecogniseImage | src/bin/lemon.rs:27 | image tags round-trip through rendering |
| Markup.TagEnd | src/bin/lemon.rs:29 | the closing position found is a `}` ending a recognised body |
| Markup.TagEndFirst | src/bin/lemon.rs:29 | no earlier `}` closes the tag |
| Markup.FindTag | src/bin/lemon.rs:139 | the position found starts a match |
| Markup.FindTagLeftmost | src/bin/lemon.rs:139 | no match starts earlier, and when none is found none exists |
| Markup.NextTag | src/bin/lemon.rs:139-143 | the next match moves reading forward and yields a tag the regex can produce |
| Markup.NextTagPiece | src/bin/lemon.rs:139-143 | the span and tag are the line's own text, and the tag matches right after the span |
| Markup.NextTagLeftmost | src/bin/lemon.rs:139-143 | the span before the next tag holds no match |
| Markup.Tokenise | src/bin/lemon.rs:139-143 | every chunk carries a tag the regex can produce |
| Markup.NextTagAt | src/bin/lemon.rs:139-141 | a tag opened at `start` and closed at `end`, with no `%` before it after the last match and no `}` inside, is the next match |
| Markup.TagEndAt | src/bin/lemon.rs:29 | with no `}` between `q` and a closing `}`, the tag closes there |
| Markup.FindTagAt | src/bin/lemon.rs:139 | with no `%` between `p` and a match, that match is the leftmost |
| Markup.NoTagFrom | src/bin/lemon.rs:139 | with no `%` after `p`, no further match is found |
| Markup.NextTagIn | src/bin/lemon.rs:139-141 | where the line reads `span%{body}rest` from the last match on, with no `%` in the span and no `}` in a recognised body, the next match is that tag with that span |
| Markup.TokeniseCons | src/bin/lemon.rs:139-143 | the split from a position is the next match followed by the split from where that match ends |
| Markup.TokeniseAt | src/bin/lemon.rs:139-143 | after a match, reading resumes inside the line, and the split is that match followed by the rest of the split |
| Markup.TokeniseEnd | src/bin/lemon.rs:139-143 | with no further match, the split has no chunks and the rest of the line is the tail |
| Markup.TokeniseRest | src/bin/lemon.rs:139-143 | a remainder without `%` is the whole tail |
| Markup.TokeniseStep | src/bin/lemon.rs:139-143 | text reading `span%{body}rest` splits into the chunk (span, tag) followed by the split of `rest` |
| Markup.TokeniseOneTag | src/bin/lemon.rs:139-143 | `a%{x}c`, with `x` a recognised body and no `%` in `a` or `c`, splits into one chunk and the tail `c` |
| Markup.TokeniseTwoTags | src/bin/lemon.rs:139-143 | `a%{x}b%{y}c` splits into the chunks (a, x) and (b, y) and the tail `c` |
| Markup.Render | src/bin/lemon.rs:20-31 | the body that stands for a tag; RenderRecognise and RecogniseRender state that it inverts Recognise |
| Markup.TokeniseSource | src/bin/lemon.rs:263-270 | putting the chunks and the tail back together gives back the line |
| Lemon.Flush | src/bin/lemon.rs:99-117 | pushing a span keeps three buckets and a valid zone |
| Lemon.SwitchZone | src/bin/lemon.rs:156-170 | a zone switch keeps three buckets and a valid zone |
| Lemon.ApplyTag | src/bin/lemon.rs:146-261 | a tag that does not panic keeps three buckets and a valid zone |
| Lemon.Run | src/bin/lemon.rs:139-264 | the state after any prefix of the chunks keeps three buckets and a valid zone |
| Lemon.RunSnoc | src/bin/lemon.rs:139-264 | one more chunk is one more step |
| Lemon.Join | src/bin/lemon.rs:75 | `[..].join(", ")`; DefaultFontEmpty and FontTagCases state its uses |
| Lemon.GetBg | src/bin/lemon.rs:85-96 | `get_bg`; GetBgSnapshot states its fields |
| Lemon.PushText | src/bin/lemon.rs:99-117 | `pusht`; FlushSpan and PushTextTexts state what it adds and drops |
| Lemon.PushFiller | src/bin/lemon.rs:120-128 | `pushf`; OtherZoneSwitches states the filler it adds |
| Lemon.SelectFont | src/bin/lemon.rs:194-212 | the `T<n>` arm; FontTagCases states every case |
| Lemon.Step | src/bin/lemon.rs:141-262 | one match: the span flushed, then the tag applied; RunSnoc and RunTexts state its use |
| Lemon.Interpret | src/bin/lemon.rs:266-276 | the tail flushed and the buckets concatenated; ParseTextsByZone, AtMostTwoFillers and PanicsIff state what comes out |
| Lemon.ParseSpec | src/bin/lemon.rs:53-277 | `parse` on a line; LemonParser.Parse computes it, and the worked lines state it on concrete input |
| Lemon.AbortedPersists | src/bin/lemon.rs:190 | a panic ends the parse: the whole line panics |
| Lemon.TagDigitsUnsigned | src/bin/lemon.rs:190 | on the digits a colour tag carries, `from_hex` as written agrees with the corrected decoder |
| Lemon.ReadTag | src/bin/lemon.rs:146-261 | the tag match, over the local colours, flags, font, stack, buckets and zone, computes the tag's step |
| Lemon.LemonParser.constructor | src/bin/lemon.rs:33-39 | the defaults: transparent black background and lines, opaque white text, line sizes 1, one empty font |
| Lemon.LemonParser.Parse | src/bin/lemon.rs:53-277 | the parse computes the fold over the tokenised line, flushes the tail and concatenates the buckets left, centre, right |
| LemonProperties.SetChannelOnly | src/bin/lemon.rs:177-192 | a colour tag changes its own channel and nothing else |
| LemonProperties.ResetRestoresSetting | src/bin/lemon.rs:187-188 | `#-` gives exactly the old state with that channel set to the parser's configured colour; with SetChannelOnly, nothing else changes |
| LemonProperties.HexColourTag | src/bin/lemon.rs:189-191 | 7 digits panic; 3, 4, 6 or 8 digits set the channel to the reference colour, which lies in the unit range |
| LemonProperties.SwapTwiceRestores | src/bin/lemon.rs:130-136 | `R` exchanges foreground and background and leaves the line colours, flags, font, stack, buckets, zone and warnings as they were; doing it twice restores the state |
| LemonProperties.AttrTagFlags | src/bin/lemon.rs:241-254 | `!` negates the named flag, `+` sets it, `-` clears it, the inert operators leave it; the other flag, the colours, the font, the stack, the buckets, the zone and the warnings are untouched |
| LemonProperties.ToggleTwiceRestores | src/bin/lemon.rs:248-249 | toggling twice restores the state |
| LemonProperties.ImageTagInert | src/bin/lemon.rs:256-258 | `I:<path>` is accepted and leaves the whole state as it was |
| LemonProperties.FontTagCases | src/bin/lemon.rs:194-212 | `T-` gives the joined list; with `k = n-1`, `Tn` gives `font_list[k]` below the length, `""` at it, and beyond it the joined list plus a warning |
| LemonProperties.OpenThenCloseRestores | src/bin/lemon.rs:218-237 | `A[b]:cmd:` pushes `(b, cmd)`, with b defaulting to 1, and `A` pops it again |
| LemonProperties.CloseWithoutOpenWarns | src/bin/lemon.rs:233-236 | `A` on an empty stack keeps it empty and only adds a warning |
| LemonProperties.SameZoneUnchanged | src/bin/lemon.rs:156 | a tag for the current zone changes nothing |
| LemonProperties.OtherZoneSwitches | src/bin/lemon.rs:156-170 | a tag for another zone adds one filler to the zone being left, unless that zone ends in one or is the right zone, and then switches |
| LemonProperties.TagKeepsBuckets | src/bin/lemon.rs:173-258 | only zone tags touch the buckets and the zone index |
| LemonProperties.GetBgSnapshot | src/bin/lemon.rs:85-96 | a snapshot's `ol`/`ul` is present exactly when its flag is set and holds the current colour; `cmd` is the current stack |
| LemonProperties.FlushSpan | src/bin/lemon.rs:99-117 | an empty span changes nothing; otherwise the bucket drops a trailing filler and gains one text carrying the current fg, font and snapshot |
| LemonProperties.InitialWellShaped | src/bin/lemon.rs:78-82 | the starting state of three empty buckets already has fillers only at bucket ends and none on the right |
| LemonProperties.PushTextFillersLast | src/bin/lemon.rs:99-117 | pushing text keeps fillers at the end of a bucket |
| LemonProperties.FlushWellShaped | src/bin/lemon.rs:143 | flushing a span keeps fillers only at bucket ends, with none in the right bucket |
| LemonProperties.ApplyTagWellShaped | src/bin/lemon.rs:146-261 | every tag keeps fillers only at bucket ends, with none in the right bucket |
| LemonProperties.RunWellShaped | src/bin/lemon.rs:139-264 | after any chunks, fillers stand only last in the left and centre buckets and never in the right one |
| LemonProperties.NoAdjacentFillers | src/bin/lemon.rs:158-167 | a bucket whose fillers stand last holds no two fillers side by side |
| LemonProperties.RunNoAdjacentFillers | src/bin/lemon.rs:139-264 | after any chunks, no bucket holds two fillers side by side |
| LemonProperties.FillersLastCount | src/bin/lemon.rs:158-167 | a bucket with fillers only at its end holds at most one |
| LemonProperties.AtMostTwoFillers | src/bin/lemon.rs:272-276 | a parsed line holds at most two fillers |
| LemonProperties.PushTextTexts | src/bin/lemon.rs:99-117 | pushing a span adds its text if non-empty, and only that text |
| LemonProperties.ApplyTagTexts | src/bin/lemon.rs:146-261 | no tag moves text; only a zone tag changes the zone |
| LemonProperties.RunTexts | src/bin/lemon.rs:139-264 | each bucket's texts are exactly the non-empty spans read while its zone was current |
| LemonProperties.ParseTextsByZone | src/bin/lemon.rs:272-276 | output texts are the left zone's, then the centre's, then the right's, whatever order the zone tags came in |
| LemonProperties.ApplyTagAborts | src/bin/lemon.rs:190 | a tag panics exactly when it is a 7-digit colour |
| LemonProperties.RunAborts | src/bin/lemon.rs:139-264 | a prefix panics exactly when it holds a 7-digit colour |
| LemonProperties.PanicsIff | src/bin/lemon.rs:190 | a line panics exactly when it holds a 7-digit colour tag; otherwise it parses |
| LemonProperties.SpanThenSwitch | src/bin/lemon.rs:143-170 | text, then a switch away: the bucket gains the text and a filler |
| LemonProperties.ThreeZonesRun | src/bin/lemon.rs:143-170 | after the chunks of `left%{c}mid%{r}` the left and centre buckets hold their text and a filler each |
| LemonProperties.ThreeZones | src/bin/lemon.rs:139-276 | `left%{c}mid%{r}right` gives left, filler, mid, filler, right |
| LemonProperties.ThreeZonesInterpreted | src/bin/lemon.rs:143-276 | the chunks `left`/`%{c}` and `mid`/`%{r}` with the tail `right` give left, filler, mid, filler, right |
| LemonProperties.SeamFillers | src/bin/lemon.rs:139-276 | `%{c}%{r}` gives two fillers side by side: one closes the left bucket, one the centre bucket |
| LemonProperties.SeamInterpreted | src/bin/lemon.rs:143-276 | the chunks `%{c}` and `%{r}` with empty spans and an empty tail give one filler in each of the left and centre buckets |
| LemonProperties.RightThenLeft | src/bin/lemon.rs:139-276 | `%{r}R%{l}L` gives L then R; the left zone's filler is taken back by its text |
| LemonProperties.RightThenLeftInterpreted | src/bin/lemon.rs:143-276 | the chunks `%{r}` and `R`/`%{l}` with the tail `L` give L then R |
| LemonProperties.CentreOnly | src/bin/lemon.rs:139-276 | `%{c}hello` gives a filler, then hello |
| LemonProperties.CentreOnlyInterpreted | src/bin/lemon.rs:143-276 | the chunk `%{c}` with an empty span and the tail `hello` give a filler, then hello |
| LemonProperties.ClickBody | src/bin/lemon.rs:26 | the body `A:run:` opens a binding of `run` with no button given |
| LemonProperties.ClickBindingRun | src/bin/lemon.rs:214-239 | after the chunks of `%{A:run:}go%{A}` the left bucket holds `go` with the binding, and the stack is empty again |
| LemonProperties.ClickBinding | src/bin/lemon.rs:214-239 | `%{A:run:}go%{A}` gives one text, `go`, carrying the binding `(1, "run")` |
| LemonProperties.ClickBindingInterpreted | src/bin/lemon.rs:214-276 | the open tag, `go` before the close tag, and an empty tail give one text carrying the binding |
| LemonProperties.StrayClose | src/bin/lemon.rs:233-236 | `%{A}x` warns once and reads x as usual |
| LemonProperties.StrayCloseInterpreted | src/bin/lemon.rs:233-276 | the chunk `%{A}` and the tail `x` give x, with one warning |
| LemonProperties.PlainLine | src/bin/lemon.rs:266-276 | a line without tags gives one text segment in the default style, or nothing when empty |
| LemonProperties.DefaultFontEmpty | src/bin/lemon.rs:39 | with the default font list the joined font is empty |
| Cli.FindNonHex | src/bin/main.rs:112-117 | the position found holds the first non-hex character; none is found exactly when all are hex |
| Cli.IsColo | src/bin/main.rs:97-120 | `is_colo` as written; IsColoNeverOk states that it refuses everything |
| Cli.IsColoIntended | src/bin/main.rs:97-120 | `is_colo` with the scan after the `#`; IsColoIntendedErrors and IsColoIntendedAccepts state every case |
| Cli.IsColoNeverOk | src/bin/main.rs:97-120 | `is_colo` as written never returns `Ok`, and refuses every well-formed colour with "Digits must be hex" |
| Cli.ShortWhiteRefused | src/bin/main.rs:112-117 | `#fff` is refused as written and accepted when corrected |
| Cli.IsColoIntendedErrors | src/bin/main.rs:97-111 | each refusal names the first failing check: empty, no `#`, digit count |
| Cli.IsColoIntendedAccepts | src/bin/main.rs:97-120 | the corrected validator accepts exactly `#` followed by 3, 4, 6 or 8 hex digits |
| Cli.AcceptedDecodes | src/bin/main.rs:97-120 | every accepted string decodes to a colour in the unit range |

## Left out

- The X11/XCB window code (src/window/), the pango/cairo drawing in src/bar.rs, the demo in src/main.rs and src/lib.rs: all are foreign calls and I/O.
- The layout engine and click regions that the design documentation describes: no source file implements them.
- Everything in src/bin/main.rs except `is_colo`: clap parsing, the stdin loop, `process::exit` and newline trimming are I/O.
- The `image` feature: the `I` tag is recognised and, as in the code, does nothing. Loading gdk pixbufs is a foreign call.
- The regex engine is not modelled as such. `Recognise` and `Tokenise` state the language of the tag regex and `find_iter`'s choice of match: the leftmost start, closed at the first `}` after a recognised body. For this pattern, Rust's leftmost-first semantics pick the same match.
- Positions in the line are characters, not bytes. Every tag delimiter is ASCII, so the source's byte offsets fall at the same places.
- `eprintln!` output is a log of `Warning` values returned with the segments.
- `f64` arithmetic is exact real arithmetic. Rounding of `v / 15.0` and `v / 255.0` is not modelled.
- `ol_size` and `ul_size` are copied through as reals; nothing depends on their values.
- The `u8` button and the `usize` font index hold only the values 1 to 9 the regex admits, so their widths never matter.
- The `RefCell` locals and the `unsafe` pointer swap are modelled as plain values. The locals of one tag arm are gathered into a `State` value that `Parse` passes to `ReadTag`.
- Lemon.Flush: its contract states only the bucket shape. What a flush does to the buckets is stated by LemonProperties.FlushSpan.
- Lemon.ApplyTag: its contract states only the bucket shape. What each tag does is stated by the LemonProperties lemmas for that tag.

## Findings

| source | as written | input that shows it | evidently intended | confidence | as-written member | corrected member |
|---|---|---|---|---|---|---|
| src/format.rs:47 | each group goes through `i32::from_str_radix`, which accepts a leading `+` or `-` | `from_hex("#-f0000")` decodes with red = −15/255, outside [0, 1] | a group holds hex digits only; any other character panics like a bad digit | medium, not executed | Format.SignedGroupDecodes | Format.StrictHexColourCases |
| src/bin/main.rs:112-117 | the hex scan runs over the whole string, including the leading `#` | `is_colo("#fff")` returns `Err("Digits must be hex")`, and no input returns `Ok` | scan only the digits after the `#` | high, not executed | Cli.IsColoNeverOk | Cli.IsColoIntendedAccepts |
