/** The pure helpers of the caption renderer: hex colour parsing, style
    preset lookup with colour overrides, the time-window word filter, the
    greedy line wrap (with the text-width measure as a parameter) and the
    flattening of a word-level transcript. */
module CaptionRenderer {
  import opened Models
  import opened Text

  // ------------------------------------------------------------- colours

  /** A colour tuple in OpenCV's channel order (blue, green, red). */
  datatype Bgr = Bgr(blue: int, green: int, red: int)

  /** A colour with an alpha channel, as the boxed background uses. */
  datatype Bgra = Bgra(blue: int, green: int, red: int, alpha: int)

  predicate IsHexDigit(c: char) {
    ('0' <= c <= '9') || ('a' <= c <= 'f') || ('A' <= c <= 'F')
  }

  function HexDigitValue(c: char): (v: nat)
    requires IsHexDigit(c)
    ensures v < 16
  {
    if '0' <= c <= '9' then c as int - '0' as int
    else if 'a' <= c <= 'f' then c as int - 'a' as int + 10
    else c as int - 'A' as int + 10
  }

  /** The two-digit hex number `hi lo`. */
  function HexByte(hi: char, lo: char): (v: int)
    requires IsHexDigit(hi) && IsHexDigit(lo)
    ensures 0 <= v <= 255
  {
    16 * HexDigitValue(hi) + HexDigitValue(lo)
  }

  predicate AllHex(d: string) {
    forall i :: 0 <= i < |d| ==> IsHexDigit(d[i])
  }

  /** The number a string of hex digits denotes, most significant first. */
  function HexValue(d: string): nat
    requires AllHex(d)
    decreases |d|
  {
    if d == [] then 0 else 16 * HexValue(d[..|d| - 1]) + HexDigitValue(d[|d| - 1])
  }

  lemma HexValueShort(d: string)
    requires AllHex(d) && 1 <= |d| <= 2
    ensures HexValue(d) == if |d| == 1 then HexDigitValue(d[0]) else HexByte(d[0], d[1])
  {
    assert d[..|d| - 1][..0] == [];
    if |d| == 2 {
      assert d[..1] == [d[0]];
    }
  }

  /** The padding `int()` skips, removed from the front. */
  function IntTrimLeft(s: string): string
    decreases |s|
  {
    if s != [] && IntSpace(s[0]) then IntTrimLeft(s[1..]) else s
  }

  /** The padding `int()` skips, removed from the back. */
  function IntTrimRight(s: string): string
    decreases |s|
  {
    if s != [] && IntSpace(s[|s| - 1]) then IntTrimRight(s[..|s| - 1]) else s
  }

  /** `int(p, 16)` on a literal without underscores or a `0x` prefix: the
      padding `int()` skips, an optional sign, one or more hex digits, the
      padding again; None where Python raises ValueError. */
  function ParseHexField(p: string): (r: Option<int>)
    ensures p == [] ==> r.None?
  {
    var t := IntTrimRight(IntTrimLeft(p));
    var d := if t != [] && (t[0] == '+' || t[0] == '-') then t[1..] else t;
    if d != [] && AllHex(d) then
      var v: int := HexValue(d);
      Some(if t[0] == '-' then -v else v)
    else None
  }

  lemma IntTrimOne(c: char)
    ensures IntTrimLeft([c]) == IntTrimRight([c]) == if IntSpace(c) then [] else [c]
  {
    assert [c][1..] == [] && [c][..0] == [];
  }

  /** What the padding trims leave of two characters. */
  lemma IntTrimTwo(p: string)
    requires |p| == 2
    ensures IntTrimRight(IntTrimLeft(p)) ==
      if IntSpace(p[0]) then (if IntSpace(p[1]) then [] else [p[1]])
      else if IntSpace(p[1]) then [p[0]]
      else p
  {
    assert p[1..] == [p[1]] && p[..1] == [p[0]];
    IntTrimOne(p[0]);
    IntTrimOne(p[1]);
  }

  /** On the slices of at most two characters `hex_to_bgr` reads, `int(p, 16)`
      accepts exactly one digit, two digits, a sign or padding before a digit,
      or a digit before padding, and yields a value from -15 to 255. */
  lemma ParseHexFieldShort(p: string)
    requires |p| <= 2
    ensures ParseHexField(p).Some? <==>
      (|p| == 1 && IsHexDigit(p[0]))
      || (|p| == 2 && IsHexDigit(p[0]) && IsHexDigit(p[1]))
      || (|p| == 2 && (IntSpace(p[0]) || p[0] == '+' || p[0] == '-') && IsHexDigit(p[1]))
      || (|p| == 2 && IsHexDigit(p[0]) && IntSpace(p[1]))
    ensures ParseHexField(p).Some? ==> -15 <= ParseHexField(p).value <= 255
    ensures |p| == 2 && IsHexDigit(p[0]) && IsHexDigit(p[1]) ==> ParseHexField(p) == Some(HexByte(p[0], p[1]))
  {
    if |p| == 1 {
      IntTrimOne(p[0]);
      assert [p[0]] == p;
      if IsHexDigit(p[0]) {
        HexValueShort(p);
      }
    } else if |p| == 2 {
      IntTrimTwo(p);
      var t := IntTrimRight(IntTrimLeft(p));
      var d := if t != [] && (t[0] == '+' || t[0] == '-') then t[1..] else t;
      if |t| == 1 && (t[0] == '+' || t[0] == '-') {
        assert d == [];
      } else if |t| == 1 {
        assert d == t;
      } else if t == p && (p[0] == '+' || p[0] == '-') {
        assert d == [p[1]];
      } else if t == p {
        assert d == p;
      }
      if d != [] && AllHex(d) {
        HexValueShort(d);
      }
    }
  }

  /** `int()` skips a no-break space but not the ASCII separator controls, so
      `int('\xa0f', 16) == 15` while `int('\x1cF', 16)` raises. */
  lemma ParseHexFieldPadding()
    ensures ParseHexField("\U{A0}f") == Some(15)
    ensures ParseHexField("\U{1C}F") == None
  {
    ParseHexFieldShort("\U{A0}f");
    ParseHexFieldShort("\U{1C}F");
  }

  /** Python's slice `h[i:i+2]`, clipped to the string. */
  function Slice2(h: string, i: nat): (r: string)
    ensures |r| <= 2
  {
    if i >= |h| then [] else h[i..if i + 2 <= |h| then i + 2 else |h|]
  }

  /** The ValueError message of `int(p, 16)`: the literal as `repr` writes it. */
  function IntError(p: string): string {
    "invalid literal for int() with base 16: " + Repr(p)
  }

  /** `hex_to_bgr`: None for a missing or empty string; otherwise the leading
      '#' characters are dropped, the pairs at offsets 0, 2 and 4 are read as
      red, green and blue, and the triple is returned reversed. */
  function HexToBgr(hex: Option<string>): (r: Result<Option<Bgr>>)
    ensures !Truthy(hex) ==> r == Ok(None)
    ensures Truthy(hex) ==> r.Err? || r.value.Some?
    ensures Truthy(hex) && |StripLeading(hex.value, '#')| < 5 ==> r.Err?
    ensures Truthy(hex) && r.Ok? ==>
      var c := r.value.value;
      -15 <= c.blue <= 255 && -15 <= c.green <= 255 && -15 <= c.red <= 255
    ensures Truthy(hex) ==>
      var h := StripLeading(hex.value, '#');
      |h| >= 6 && (forall i :: 0 <= i < 6 ==> IsHexDigit(h[i])) ==>
      r == Ok(Some(Bgr(HexByte(h[4], h[5]), HexByte(h[2], h[3]), HexByte(h[0], h[1]))))
  {
    if !Truthy(hex) then Ok(None)
    else
      var h := StripLeading(hex.value, '#');
      var f0, f2, f4 := Slice2(h, 0), Slice2(h, 2), Slice2(h, 4);
      ParseHexFieldShort(f0);
      ParseHexFieldShort(f2);
      ParseHexFieldShort(f4);
      var v0, v2, v4 := ParseHexField(f0), ParseHexField(f2), ParseHexField(f4);
      if v0.None? then Err(IntError(f0))
      else if v2.None? then Err(IntError(f2))
      else if v4.None? then Err(IntError(f4))
      else Ok(Some(Bgr(v4.value, v2.value, v0.value)))
  }

  /** The pairs are read in order, and the first one `int()` rejects names the error. */
  lemma HexToBgrFirstError(h: string)
    requires h == [] || h[0] != '#'
    ensures ParseHexField(Slice2(h, 0)).None? ==> HexToBgr(Some("#" + h)) == Err(IntError(Slice2(h, 0)))
    ensures ParseHexField(Slice2(h, 0)).Some? && ParseHexField(Slice2(h, 2)).None? ==>
      HexToBgr(Some("#" + h)) == Err(IntError(Slice2(h, 2)))
    ensures ParseHexField(Slice2(h, 0)).Some? && ParseHexField(Slice2(h, 2)).Some? && ParseHexField(Slice2(h, 4)).None? ==>
      HexToBgr(Some("#" + h)) == Err(IntError(Slice2(h, 4)))
  {
    if h == [] {
      assert "#" + h == "#";
      assert StripLeading("#", '#') == [] by {
        assert "#"[1..] == [];
      }
    } else {
      StripOneHash(h);
    }
  }

  /** A separator control after the '#' is not padding: the first pair is
      rejected, and the message shows it as `repr` escapes it. */
  lemma IntErrorControl()
    ensures IntError("\U{1C}F") == "invalid literal for int() with base 16: '\\x1cF'"
  {
    ReprControl();
  }

  lemma HexToBgrRejectsControl(h: string)
    requires |h| >= 2 && h[0] == '\U{1C}' && h[1] == 'F'
    ensures HexToBgr(Some("#" + h)) == Err("invalid literal for int() with base 16: '\\x1cF'")
  {
    var f := Slice2(h, 0);
    assert f == "\U{1C}F";
    ParseHexFieldPadding();
    assert ParseHexField(f).None?;
    HexToBgrFirstError(h);
    assert HexToBgr(Some("#" + h)) == Err(IntError(f));
    IntErrorControl();
  }

  function HexChar(d: nat): (c: char)
    requires d < 16
    ensures IsHexDigit(c) && HexDigitValue(c) == d
  {
    if d < 10 then ('0' as int + d) as char else ('A' as int + d - 10) as char
  }

  /** A byte as two upper-case hex digits, as in "#FF8800". */
  function Hex2(n: nat): (s: string)
    requires n < 256
    ensures |s| == 2 && IsHexDigit(s[0]) && IsHexDigit(s[1]) && HexByte(s[0], s[1]) == n
  {
    [HexChar(n / 16), HexChar(n % 16)]
  }

  lemma StripOneHash(body: string)
    requires body != [] && body[0] != '#'
    ensures StripLeading("#" + body, '#') == body
  {
    assert ("#" + body)[1..] == body;
  }

  /** Six hex digits after a single '#' are read as three pairs. */
  lemma HexToBgrOfDigits(body: string)
    requires |body| >= 6 && body[0] != '#' && forall i :: 0 <= i < 6 ==> IsHexDigit(body[i])
    ensures HexToBgr(Some("#" + body))
            == Ok(Some(Bgr(HexByte(body[4], body[5]), HexByte(body[2], body[3]), HexByte(body[0], body[1]))))
  {
    StripOneHash(body);
  }

  /** Writing a colour as "#RRGGBB" and parsing it gives back its channels, reversed. */
  lemma HexColorRoundTrip(red: nat, green: nat, blue: nat)
    requires red < 256 && green < 256 && blue < 256
    ensures HexToBgr(Some("#" + Hex2(red) + Hex2(green) + Hex2(blue))) == Ok(Some(Bgr(blue, green, red)))
  {
    var r, g, b := Hex2(red), Hex2(green), Hex2(blue);
    var body := r + g + b;
    assert "#" + r + g + b == "#" + body;
    assert body[0] == r[0] && body[1] == r[1];
    assert body[2] == g[0] && body[3] == g[1];
    assert body[4] == b[0] && body[5] == b[1];
    HexToBgrOfDigits(body);
  }

  // -------------------------------------------------------- style presets

  /** One entry of the preset table. Keys a preset does not have are None. */
  datatype StyleConfig = StyleConfig(
    fontScale: real,
    color: Bgr,
    outlineColor: Option<Bgr>,
    outlineThickness: int,
    background: Option<Bgra>,
    fontWeight: string,
    uppercase: bool,
    lowercase: Option<bool>,
    highlightColor: Option<Bgr>,
    glow: Option<bool>,
    gradientColors: Option<seq<Bgr>>)

  const White: Bgr := Bgr(255, 255, 255)
  const Black: Bgr := Bgr(0, 0, 0)

  /** The preset table, keyed by style name. */
  const CaptionStyles: map<string, StyleConfig> := map[
    "classic" := StyleConfig(1.2, White, Some(Black), 3, None, "normal", false, None, None, None, None),
    "boxed" := StyleConfig(1.0, White, None, 0, Some(Bgra(0, 0, 0, 180)), "normal", false, None, None, None, None),
    "yellow" := StyleConfig(1.2, Bgr(0, 255, 255), Some(Black), 3, None, "normal", false, None, None, None, None),
    "minimal" := StyleConfig(0.9, White, None, 0, None, "light", false, Some(true), None, None, None),
    "bold" := StyleConfig(1.5, White, Some(Black), 5, None, "bold", true, None, None, None, None),
    "karaoke" := StyleConfig(1.2, White, Some(Black), 2, None, "normal", false, None, Some(Bgr(0, 255, 255)), None, None),
    "neon" := StyleConfig(1.2, Bgr(255, 0, 255), Some(Bgr(255, 100, 255)), 4, None, "normal", false, None, None, Some(true), None),
    "gradient" := StyleConfig(1.3, White, Some(Black), 2, None, "normal", false, None, None, None,
                              Some([Bgr(255, 100, 100), Bgr(100, 100, 255)]))
  ]

  /** Every caption style the job API accepts, except "none", has a preset. */
  lemma PresetsCoverStyles()
    ensures forall s: CaptionStyle :: s != NoCaptions <==> StyleValue(s) in CaptionStyles
    ensures |CaptionStyles| == 8
  {
    assert CaptionStyles.Keys == {"classic", "boxed", "yellow", "minimal", "bold", "karaoke", "neon", "gradient"};
  }

  /** `get_style_config`: a copy of the named preset, or of "classic" for an
      unknown name, with `color` replaced when a custom colour is given and
      `outlineColor` replaced when a custom outline colour is given; every
      other key is the preset's, and the table itself is a constant. A custom
      colour that does not parse raises, the text colour being parsed first. */
  function GetStyleConfig(styleName: string, customColor: Option<string>, customOutlineColor: Option<string>): (r: Result<StyleConfig>)
    ensures var p := CaptionStyles[if styleName in CaptionStyles then styleName else "classic"];
      r.Ok? ==>
        && r.value.(color := p.color, outlineColor := p.outlineColor) == p
        && (if Truthy(customColor) then HexToBgr(customColor) == Ok(Some(r.value.color)) else r.value.color == p.color)
        && (if Truthy(customOutlineColor) then HexToBgr(customOutlineColor) == Ok(r.value.outlineColor)
            else r.value.outlineColor == p.outlineColor)
    ensures r.Err? <==> (Truthy(customColor) && HexToBgr(customColor).Err?)
                        || (Truthy(customOutlineColor) && HexToBgr(customOutlineColor).Err?)
    ensures r.Err? && Truthy(customColor) && HexToBgr(customColor).Err? ==> r.message == HexToBgr(customColor).message
    ensures r.Err? && !(Truthy(customColor) && HexToBgr(customColor).Err?) ==> r.message == HexToBgr(customOutlineColor).message
  {
    var name := if styleName in CaptionStyles then styleName else "classic";
    var config := CaptionStyles[name];
    var color := HexToBgr(customColor);
    var outline := HexToBgr(customOutlineColor);
    if Truthy(customColor) && color.Err? then Err(color.message)
    else
      var c1 := if Truthy(customColor) then config.(color := color.value.value) else config;
      if Truthy(customOutlineColor) && outline.Err? then Err(outline.message)
      else if Truthy(customOutlineColor) then Ok(c1.(outlineColor := outline.value))
      else Ok(c1)
  }

  /** An unknown style name behaves exactly as "classic". */
  lemma UnknownStyleIsClassic(styleName: string, customColor: Option<string>, customOutlineColor: Option<string>)
    requires styleName !in CaptionStyles
    ensures GetStyleConfig(styleName, customColor, customOutlineColor)
         == GetStyleConfig("classic", customColor, customOutlineColor)
  {
  }

  // ------------------------------------------------------ transcript words

  /** A word record as the transcript carries it; each key may be absent. */
  datatype WordEntry = WordEntry(
    word: Option<string>, w: Option<string>,
    start: Option<real>, s: Option<real>,
    end: Option<real>, e: Option<real>)

  /** `word.get('start', word.get('s', 0))` */
  function WordStart(x: WordEntry): real { x.start.GetOr(x.s.GetOr(0.0)) }
  /** `word.get('end', word.get('e', 0))` */
  function WordEnd(x: WordEntry): real { x.end.GetOr(x.e.GetOr(0.0)) }
  /** `word.get('word', word.get('w', ''))` */
  function WordText(x: WordEntry): string { x.word.GetOr(x.w.GetOr("")) }

  /** One entry of the list `get_active_caption_text` returns. */
  datatype ActiveWord = ActiveWord(word: string, start: real, end: real, isCurrent: bool)

  /** A word is shown from its start until `window` seconds after its end. */
  predicate InWindow(x: WordEntry, t: real, window: real) {
    WordStart(x) <= t <= WordEnd(x) + window
  }

  /** The entry for a shown word; it is current while it is being spoken. */
  function Activate(x: WordEntry, t: real): (a: ActiveWord)
    ensures a.word == WordText(x) && a.start == WordStart(x) && a.end == WordEnd(x)
    ensures a.isCurrent <==> WordStart(x) <= t <= WordEnd(x)
  {
    ActiveWord(WordText(x), WordStart(x), WordEnd(x), WordStart(x) <= t <= WordEnd(x))
  }

  /** For every word, whether it is in the display window. */
  function WindowMask(words: seq<WordEntry>, t: real, window: real): (m: seq<bool>)
    ensures |m| == |words|
    ensures forall i :: 0 <= i < |words| ==> m[i] == InWindow(words[i], t, window)
    decreases |words|
  {
    if words == [] then []
    else WindowMask(words[..|words| - 1], t, window) + [InWindow(words[|words| - 1], t, window)]
  }

  /** The entries of the shown words, in input order. */
  function ActiveWords(words: seq<WordEntry>, t: real, window: real): seq<ActiveWord>
    decreases |words|
  {
    if words == [] then []
    else
      var n := |words| - 1;
      ActiveWords(words[..n], t, window) + (if InWindow(words[n], t, window) then [Activate(words[n], t)] else [])
  }

  /** The shown indices of one more word: those of the shorter list, then
      the new index if that word is shown. */
  lemma WindowIndicesStep(words: seq<WordEntry>, n: nat, t: real, window: real)
    requires n < |words|
    ensures TrueIndices(WindowMask(words[..n + 1], t, window))
         == TrueIndices(WindowMask(words[..n], t, window)) + (if InWindow(words[n], t, window) then [n] else [])
  {
    assert words[..n + 1][..n] == words[..n];
    var m := WindowMask(words[..n + 1], t, window);
    assert m[..n] == WindowMask(words[..n], t, window);
  }

  /** The k-th shown entry is the entry of the k-th index in the window. */
  predicate Aligned(active: seq<ActiveWord>, words: seq<WordEntry>, idx: seq<nat>, t: real) {
    |active| == |idx| && forall k :: 0 <= k < |idx| ==> idx[k] < |words| && active[k] == Activate(words[idx[k]], t)
  }

  /** Aligned entries stay aligned when one more word is appended, shown or not. */
  lemma AlignedSnoc(a: seq<ActiveWord>, words: seq<WordEntry>, idx: seq<nat>, t: real, w: WordEntry, shown: bool)
    requires Aligned(a, words, idx, t)
    ensures Aligned(a + (if shown then [Activate(w, t)] else []), words + [w], idx + (if shown then [|words|] else []), t)
  {
    var a' := a + (if shown then [Activate(w, t)] else []);
    var idx' := idx + (if shown then [|words|] else []);
    var words' := words + [w];
    forall k | 0 <= k < |idx'| ensures idx'[k] < |words'| && a'[k] == Activate(words'[idx'[k]], t) {
      if k < |idx| {
        assert words'[idx[k]] == words[idx[k]];
      }
    }
  }

  lemma {:induction false} ActiveWordsAligned(words: seq<WordEntry>, t: real, window: real)
    ensures Aligned(ActiveWords(words, t, window), words, TrueIndices(WindowMask(words, t, window)), t)
    decreases |words|
  {
    if words != [] {
      var n := |words| - 1;
      var prefix := words[..n];
      ActiveWordsAligned(prefix, t, window);
      WindowIndicesStep(words, n, t, window);
      assert words[..n + 1] == words;
      assert prefix + [words[n]] == words;
      AlignedSnoc(ActiveWords(prefix, t, window), prefix, TrueIndices(WindowMask(prefix, t, window)), t, words[n], InWindow(words[n], t, window));
    }
  }

  /** The shown entries are those of exactly the words in the window, in
      input order: the k-th is the entry of the k-th index in the window. */
  lemma ActiveWordsExact(words: seq<WordEntry>, t: real, window: real)
    ensures var idx := TrueIndices(WindowMask(words, t, window));
      var active := ActiveWords(words, t, window);
      && |active| == |idx|
      && (forall k :: 0 <= k < |idx| ==> active[k] == Activate(words[idx[k]], t))
      && (forall i :: 0 <= i < |words| ==> (i in idx <==> InWindow(words[i], t, window)))
  {
    ActiveWordsAligned(words, t, window);
  }

  /** `get_active_caption_text`: the words in the display window, in input
      order, each marked current or not (ActiveWordsExact states which). */
  method GetActiveCaptionText(words: seq<WordEntry>, t: real, window: real) returns (active: seq<ActiveWord>)
    ensures words == [] ==> active == []
    ensures active == ActiveWords(words, t, window)
  {
    if words == [] {
      return [];
    }
    active := [];
    for i := 0 to |words|
      invariant active == ActiveWords(words[..i], t, window)
    {
      assert words[..i + 1][..i] == words[..i];
      if InWindow(words[i], t, window) {
        active := active + [Activate(words[i], t)];
      }
    }
    assert words[..|words|] == words;
  }

  /** One segment of a transcript: its word list may be absent. */
  datatype Segment = Segment(words: Option<seq<WordEntry>>)

  /** A transcript: its segment list may be absent. */
  datatype Transcript = Transcript(segments: Option<seq<Segment>>)

  /** The record `extract_words_from_transcript` emits for a word: exactly the
      keys word, start and end, with '' and 0 for absent ones. */
  function Normalize(x: WordEntry): (y: WordEntry)
    ensures WordText(y) == x.word.GetOr("")
    ensures WordStart(y) == x.start.GetOr(0.0) && WordEnd(y) == x.end.GetOr(0.0)
    ensures y.w.None? && y.s.None? && y.e.None?
  {
    WordEntry(Some(x.word.GetOr("")), None, Some(x.start.GetOr(0.0)), None, Some(x.end.GetOr(0.0)), None)
  }

  function NormalizeAll(ws: seq<WordEntry>): (r: seq<WordEntry>)
    ensures |r| == |ws| && forall i :: 0 <= i < |ws| ==> r[i] == Normalize(ws[i])
  {
    seq(|ws|, i requires 0 <= i < |ws| => Normalize(ws[i]))
  }

  function SegmentWords(seg: Segment): seq<WordEntry> {
    seg.words.GetOr([])
  }

  /** The words of the segments, segment after segment. */
  function FlattenSegments(segs: seq<Segment>): seq<WordEntry>
    decreases |segs|
  {
    if segs == [] then []
    else FlattenSegments(segs[..|segs| - 1]) + NormalizeAll(SegmentWords(segs[|segs| - 1]))
  }

  lemma {:induction false} FlattenAppend(a: seq<Segment>, b: seq<Segment>)
    ensures FlattenSegments(a + b) == FlattenSegments(a) + FlattenSegments(b)
    decreases |b|
  {
    if b == [] {
      assert a + b == a;
    } else {
      var n := |b|;
      var ab := a + b;
      var last := NormalizeAll(SegmentWords(b[n - 1]));
      assert ab[..|ab| - 1] == a + b[..n - 1];
      assert ab[|ab| - 1] == b[n - 1];
      calc {
        FlattenSegments(ab);
        FlattenSegments(a + b[..n - 1]) + last;
        { FlattenAppend(a, b[..n - 1]); }
        FlattenSegments(a) + FlattenSegments(b[..n - 1]) + last;
        FlattenSegments(a) + (FlattenSegments(b[..n - 1]) + last);
        FlattenSegments(a) + FlattenSegments(b);
      }
    }
  }

  /** The position at which the words of segment `i` begin. */
  function Offset(segs: seq<Segment>, i: nat): nat
    requires i <= |segs|
  {
    |FlattenSegments(segs[..i])|
  }

  /** Word `j` of segment `i` lands at `Offset(segs, i) + j`, normalized. */
  lemma FlattenAt(segs: seq<Segment>, i: nat, j: nat)
    requires i < |segs| && j < |SegmentWords(segs[i])|
    ensures Offset(segs, i) + j < |FlattenSegments(segs)|
    ensures FlattenSegments(segs)[Offset(segs, i) + j] == Normalize(SegmentWords(segs[i])[j])
  {
    assert segs == segs[..i + 1] + segs[i + 1..];
    FlattenAppend(segs[..i + 1], segs[i + 1..]);
    assert segs[..i + 1][..i] == segs[..i];
  }

  /** `extract_words_from_transcript`: every word of every segment, in order;
      nothing for a missing transcript. */
  method ExtractWordsFromTranscript(transcript: Option<Transcript>) returns (words: seq<WordEntry>)
    ensures transcript.None? ==> words == []
    ensures transcript.Some? ==> words == FlattenSegments(transcript.value.segments.GetOr([]))
  {
    words := [];
    if transcript.None? {
      return;
    }
    var segments := transcript.value.segments.GetOr([]);
    for i := 0 to |segments|
      invariant words == FlattenSegments(segments[..i])
    {
      var segmentWords := SegmentWords(segments[i]);
      for j := 0 to |segmentWords|
        invariant words == FlattenSegments(segments[..i]) + NormalizeAll(segmentWords[..j])
      {
        assert NormalizeAll(segmentWords[..j + 1]) == NormalizeAll(segmentWords[..j]) + [Normalize(segmentWords[j])];
        words := words + [Normalize(segmentWords[j])];
      }
      assert segments[..i + 1][..i] == segments[..i];
      assert segmentWords[..|segmentWords|] == segmentWords;
    }
    assert segments[..|segments|] == segments;
  }

  // ----------------------------------------------------------------- wrap

  /** The state of the wrap loop: the closed lines (as word groups) and the line being filled. */
  datatype WrapState = WrapState(done: seq<seq<string>>, current: seq<string>)

  /** One iteration of the wrap loop: the word joins the current line if the
      joined line fits; otherwise the current line (if any) is closed and the
      word starts a new one. */
  function WrapStep(st: WrapState, word: string, width: string -> int, maxWidth: int): WrapState {
    if width(Join(st.current + [word])) <= maxWidth then WrapState(st.done, st.current + [word])
    else WrapState(if st.current != [] then st.done + [st.current] else st.done, [word])
  }

  /** The loop state after the given words. */
  function WrapFold(words: seq<string>, width: string -> int, maxWidth: int): WrapState
    decreases |words|
  {
    if words == [] then WrapState([], [])
    else WrapStep(WrapFold(words[..|words| - 1], width, maxWidth), words[|words| - 1], width, maxWidth)
  }

  /** The lines, as word groups, that `wrap_text` produces. */
  function WrapGroups(words: seq<string>, width: string -> int, maxWidth: int): seq<seq<string>> {
    var st := WrapFold(words, width, maxWidth);
    st.done + (if st.current != [] then [st.current] else [])
  }

  /** The concatenation of word groups. */
  function Concat(groups: seq<seq<string>>): seq<string>
    decreases |groups|
  {
    if groups == [] then [] else Concat(groups[..|groups| - 1]) + groups[|groups| - 1]
  }

  function JoinEach(groups: seq<seq<string>>): (r: seq<string>)
    ensures |r| == |groups| && forall k :: 0 <= k < |groups| ==> r[k] == Join(groups[k])
  {
    seq(|groups|, k requires 0 <= k < |groups| => Join(groups[k]))
  }

  predicate Fits(g: seq<string>, width: string -> int, maxWidth: int) {
    width(Join(g)) <= maxWidth
  }

  predicate GroupsNonEmpty(groups: seq<seq<string>>) {
    forall k :: 0 <= k < |groups| ==> groups[k] != []
  }

  predicate GroupsFit(groups: seq<seq<string>>, width: string -> int, maxWidth: int) {
    forall k :: 0 <= k < |groups| ==> |groups[k]| >= 2 ==> Fits(groups[k], width, maxWidth)
  }

  /** Group `k` could not take the first word of group `k + 1`. */
  predicate ClosedBefore(groups: seq<seq<string>>, k: int, width: string -> int, maxWidth: int)
    requires 0 <= k < |groups| - 1 && groups[k + 1] != []
  {
    !Fits(groups[k] + [groups[k + 1][0]], width, maxWidth)
  }

  /** Each group was closed because the first word of the next did not fit on it. */
  predicate Greedy(groups: seq<seq<string>>, width: string -> int, maxWidth: int)
    requires GroupsNonEmpty(groups)
  {
    forall k :: 0 <= k < |groups| - 1 ==> ClosedBefore(groups, k, width, maxWidth)
  }

  /** The word groups of a wrap: non-empty, fitting when of two or more
      words, and greedy. */
  predicate WellWrapped(groups: seq<seq<string>>, width: string -> int, maxWidth: int) {
    GroupsNonEmpty(groups) && GroupsFit(groups, width, maxWidth) && Greedy(groups, width, maxWidth)
  }

  /** The shape of the loop state: closed lines well wrapped, the current
      line fitting when of two or more words, and closed only after the
      last closed line could not take its first word. */
  predicate WrapShape(st: WrapState, width: string -> int, maxWidth: int) {
    && (st.current == [] ==> st.done == [])
    && WellWrapped(st.done, width, maxWidth)
    && (|st.current| >= 2 ==> Fits(st.current, width, maxWidth))
    && (st.done != [] ==> !Fits(st.done[|st.done| - 1] + [st.current[0]], width, maxWidth))
  }

  /** What holds of the loop state after any prefix of the words. */
  predicate WrapInvariant(st: WrapState, words: seq<string>, width: string -> int, maxWidth: int) {
    && Concat(st.done) + st.current == words
    && (st.current == [] ==> words == [])
    && WrapShape(st, width, maxWidth)
  }

  lemma ConcatSnoc(done: seq<seq<string>>, cur: seq<string>)
    ensures Concat(done + [cur]) == Concat(done) + cur
  {
    assert (done + [cur])[..|done|] == done;
  }

  lemma GreedySnoc(done: seq<seq<string>>, cur: seq<string>, width: string -> int, maxWidth: int)
    requires GroupsNonEmpty(done) && Greedy(done, width, maxWidth) && cur != []
    requires done != [] ==> !Fits(done[|done| - 1] + [cur[0]], width, maxWidth)
    ensures GroupsNonEmpty(done + [cur]) && Greedy(done + [cur], width, maxWidth)
  {
    var done' := done + [cur];
    forall k | 0 <= k < |done'| - 1
      ensures ClosedBefore(done', k, width, maxWidth)
    {
      if k < |done| - 1 {
        assert ClosedBefore(done, k, width, maxWidth);
        assert done'[k] == done[k] && done'[k + 1] == done[k + 1];
      } else {
        assert done'[k] == done[|done| - 1] && done'[k + 1] == cur;
      }
    }
  }

  /** Closing the current line keeps the closed lines well wrapped. */
  lemma CloseLine(done: seq<seq<string>>, cur: seq<string>, width: string -> int, maxWidth: int)
    requires WellWrapped(done, width, maxWidth)
    requires cur != [] && (|cur| >= 2 ==> Fits(cur, width, maxWidth))
    requires done != [] ==> !Fits(done[|done| - 1] + [cur[0]], width, maxWidth)
    ensures WellWrapped(done + [cur], width, maxWidth)
    ensures Concat(done + [cur]) == Concat(done) + cur
  {
    GreedySnoc(done, cur, width, maxWidth);
    ConcatSnoc(done, cur);
    var done' := done + [cur];
    assert forall k :: 0 <= k < |done| ==> done'[k] == done[k];
  }

  /** One iteration of the loop keeps the shape. */
  lemma WrapStepShape(st: WrapState, w: string, width: string -> int, maxWidth: int)
    requires WrapShape(st, width, maxWidth)
    ensures WrapShape(WrapStep(st, w, width, maxWidth), width, maxWidth)
  {
    if width(Join(st.current + [w])) <= maxWidth {
      if st.current != [] {
        assert (st.current + [w])[0] == st.current[0];
      }
    } else if st.current != [] {
      CloseLine(st.done, st.current, width, maxWidth);
      var done' := st.done + [st.current];
      assert done'[|done'| - 1] == st.current;
    }
  }

  /** One iteration of the loop keeps the invariant. */
  lemma WrapExtend(words: seq<string>, st: WrapState, width: string -> int, maxWidth: int)
    requires words != []
    requires WrapInvariant(st, words[..|words| - 1], width, maxWidth)
    ensures WrapInvariant(WrapStep(st, words[|words| - 1], width, maxWidth), words, width, maxWidth)
  {
    var w := words[|words| - 1];
    var st' := WrapStep(st, w, width, maxWidth);
    WrapStepShape(st, w, width, maxWidth);
    assert words == words[..|words| - 1] + [w];
    if width(Join(st.current + [w])) <= maxWidth {
      assert Concat(st'.done) + st'.current == (Concat(st.done) + st.current) + [w];
    } else if st.current != [] {
      CloseLine(st.done, st.current, width, maxWidth);
      assert Concat(st'.done) + st'.current == (Concat(st.done) + st.current) + [w];
    } else {
      assert st.done == [];
      assert Concat(st'.done) + st'.current == [w];
    }
  }

  lemma WrapFoldLast(words: seq<string>, width: string -> int, maxWidth: int)
    requires words != []
    ensures WrapFold(words, width, maxWidth)
         == WrapStep(WrapFold(words[..|words| - 1], width, maxWidth), words[|words| - 1], width, maxWidth)
  {
  }

  lemma {:induction false} WrapFoldInvariant(words: seq<string>, width: string -> int, maxWidth: int)
    ensures WrapInvariant(WrapFold(words, width, maxWidth), words, width, maxWidth)
    decreases |words|
  {
    if words != [] {
      WrapFoldInvariant(words[..|words| - 1], width, maxWidth);
      WrapFoldLast(words, width, maxWidth);
      WrapExtend(words, WrapFold(words[..|words| - 1], width, maxWidth), width, maxWidth);
    }
  }

  /** The lines `wrap_text` produces hold all the words, in order; no line is
      empty of words; a line of two or more words fits; and each line is
      closed only because the first word of the next one did not fit on it. */
  lemma WrapGroupsSound(words: seq<string>, width: string -> int, maxWidth: int)
    ensures Concat(WrapGroups(words, width, maxWidth)) == words
    ensures WellWrapped(WrapGroups(words, width, maxWidth), width, maxWidth)
  {
    WrapFoldInvariant(words, width, maxWidth);
    var st := WrapFold(words, width, maxWidth);
    if st.current != [] {
      CloseLine(st.done, st.current, width, maxWidth);
    }
  }

  /** Joining the lines with spaces gives the words joined with spaces. */
  lemma {:induction false} JoinLines(groups: seq<seq<string>>)
    requires forall k :: 0 <= k < |groups| ==> groups[k] != []
    ensures Join(JoinEach(groups)) == Join(Concat(groups))
    decreases |groups|
  {
    if |groups| >= 2 {
      var n := |groups|;
      var prefix := groups[..n - 1];
      JoinLines(prefix);
      assert JoinEach(groups) == JoinEach(prefix) + [Join(groups[n - 1])];
      JoinAppend(JoinEach(prefix), [Join(groups[n - 1])]);
      assert Concat(prefix) != [] by {
        assert prefix[..n - 2] + [prefix[n - 2]] == prefix;
        assert Concat(prefix) == Concat(prefix[..n - 2]) + prefix[n - 2];
      }
      JoinAppend(Concat(prefix), groups[n - 1]);
    } else if |groups| == 1 {
      assert groups[..0] == [];
      assert Concat(groups) == groups[0];
    }
  }

  /** A line made of words is not empty. */
  lemma JoinWordsNonEmpty(g: seq<string>)
    requires g != [] && IsWord(g[0])
    ensures Join(g) != ""
  {
    JoinNonEmpty(g);
  }

  /** The words of a sub-group of the split are words. */
  lemma {:induction false} ConcatMembers(groups: seq<seq<string>>, k: nat, i: nat)
    requires k < |groups| && i < |groups[k]|
    ensures groups[k][i] in Concat(groups)
    decreases |groups|
  {
    if k < |groups| - 1 {
      ConcatMembers(groups[..|groups| - 1], k, i);
    }
  }

  /** The lines of the wrap, joined, are the words of the text joined, and none is empty. */
  lemma WrapLines(text: string, width: string -> int, maxWidth: int)
    ensures var g := WrapGroups(SplitWords(text), width, maxWidth);
      var lines := JoinEach(g);
      && Join(lines) == Join(SplitWords(text))
      && (forall k :: 0 <= k < |lines| ==> lines[k] != "")
      && (forall k :: 0 <= k < |lines| ==> |g[k]| >= 2 ==> width(lines[k]) <= maxWidth)
  {
    var words := SplitWords(text);
    var g := WrapGroups(words, width, maxWidth);
    WrapGroupsSound(words, width, maxWidth);
    JoinLines(g);
    SplitWordsAreWords(text);
    forall k | 0 <= k < |g| ensures Join(g[k]) != "" {
      ConcatMembers(g, k, 0);
      JoinWordsNonEmpty(g[k]);
    }
  }

  /** `wrap_text` with `width` standing for the rendered width of a line:
      the greedy wrap of the text's words into lines. */
  method WrapText(text: string, maxWidth: int, width: string -> int) returns (lines: seq<string>)
    ensures lines == JoinEach(WrapGroups(SplitWords(text), width, maxWidth))
    ensures forall k :: 0 <= k < |lines| ==> lines[k] != ""
    ensures forall k :: 0 <= k < |lines| ==>
      |WrapGroups(SplitWords(text), width, maxWidth)[k]| >= 2 ==> width(lines[k]) <= maxWidth
    ensures Join(lines) == Join(SplitWords(text))
  {
    var words := SplitWords(text);
    lines := [];
    var current: seq<string> := [];
    ghost var done: seq<seq<string>> := [];
    for i := 0 to |words|
      invariant WrapFold(words[..i], width, maxWidth) == WrapState(done, current)
      invariant lines == JoinEach(done)
    {
      assert words[..i + 1][..i] == words[..i];
      var testLine := Join(current + [words[i]]);
      if width(testLine) <= maxWidth {
        current := current + [words[i]];
      } else {
        if current != [] {
          lines := lines + [Join(current)];
          done := done + [current];
        }
        current := [words[i]];
      }
    }
    if current != [] {
      lines := lines + [Join(current)];
      done := done + [current];
    }
    assert words[..|words|] == words;
    WrapLines(text, width, maxWidth);
  }
}
