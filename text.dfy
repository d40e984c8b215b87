/** The few Python string and list built-ins the job pipeline relies on,
    written out so that their behaviour is explicit: `str.lower` (ASCII),
    the substring test `in`, `str(n)` for integers, `str.replace(p, '')`,
    `str.lstrip(c)`, `str.strip()` and `str.split()` over Python's white
    space, `' '.join(...)`, `repr` of a string, and the list of indices an
    index-filtering loop keeps. */
module Text {

  // ---------------------------------------------------------------- lower

  function LowerChar(c: char): char {
    if 'A' <= c <= 'Z' then (c as int + 32) as char else c
  }

  /** `s.lower()` on the ASCII letters; other characters are kept. */
  function Lower(s: string): (r: string)
    ensures |r| == |s|
    ensures forall i :: 0 <= i < |s| ==> r[i] == LowerChar(s[i])
    ensures forall i :: 0 <= i < |r| ==> !('A' <= r[i] <= 'Z')
  {
    seq(|s|, i requires 0 <= i < |s| => LowerChar(s[i]))
  }

  lemma LowerIdempotent(s: string)
    ensures Lower(Lower(s)) == Lower(s)
  {
  }

  // ------------------------------------------------------------ substring

  /** `p` occurs in `s` starting at position `i`. */
  predicate OccursAt(s: string, p: string, i: int) {
    0 <= i <= |s| - |p| && s[i..i + |p|] == p
  }

  /** Python's `p in s` for strings. */
  predicate Contains(s: string, p: string) {
    exists i | 0 <= i <= |s| - |p| :: OccursAt(s, p, i)
  }

  // ---------------------------------------------------------- whitespace

  /** The characters Python's `str.isspace`, `str.split()` and `str.strip()`
      treat as white space: the ASCII controls 9-13 and 28-31, the space, and
      the Unicode separators. */
  predicate IsSpace(c: char) {
    ('\t' <= c <= '\r') || ('\U{1C}' <= c <= ' ')
    || c == '\U{85}' || c == '\U{A0}' || c == '\U{1680}'
    || ('\U{2000}' <= c <= '\U{200A}') || c == '\U{2028}' || c == '\U{2029}'
    || c == '\U{202F}' || c == '\U{205F}' || c == '\U{3000}'
  }

  /** The padding `int()` skips around a number: among ASCII characters only
      the space and the controls 9-13; beyond ASCII, every white-space character. */
  predicate IntSpace(c: char) {
    c == ' ' || ('\t' <= c <= '\r') || (c as int >= 127 && IsSpace(c))
  }

  /** Every character of `s` in `[lo, hi)` is white space. */
  predicate AllSpace(s: string, lo: int, hi: int)
    requires 0 <= lo && hi <= |s|
  {
    forall i :: lo <= i < hi ==> IsSpace(s[i])
  }

  /** `s.lstrip()`: the leading white space removed. */
  function StripLeft(s: string): (r: string)
    ensures |r| <= |s| && r == s[|s| - |r|..]
    ensures r == [] || !IsSpace(r[0])
    ensures AllSpace(s, 0, |s| - |r|)
    decreases |s|
  {
    if s != [] && IsSpace(s[0]) then StripLeft(s[1..]) else s
  }

  /** `s.rstrip()`: the trailing white space removed. */
  function StripRight(s: string): (r: string)
    ensures |r| <= |s| && r == s[..|r|]
    ensures r == [] || !IsSpace(r[|r| - 1])
    ensures AllSpace(s, |r|, |s|)
    decreases |s|
  {
    if s != [] && IsSpace(s[|s| - 1]) then StripRight(s[..|s| - 1]) else s
  }

  lemma AllSpaceShift(s: string, k: nat, lo: int, hi: int)
    requires k <= |s| && 0 <= lo && hi <= |s| - k
    requires AllSpace(s[k..], lo, hi)
    ensures AllSpace(s, k + lo, k + hi)
  {
    forall i | k + lo <= i < k + hi ensures IsSpace(s[i]) {
      assert s[i] == s[k..][i - k];
    }
  }

  /** Right-stripping the left-stripped suffix `l` of `s` leaves a slice of
      `s` with no white space at either end. */
  lemma StripParts(s: string, l: string, r: string)
    requires |l| <= |s| && l == s[|s| - |l|..] && (l == [] || !IsSpace(l[0]))
    requires |r| <= |l| && r == l[..|r|] && (r == [] || !IsSpace(r[|r| - 1])) && AllSpace(l, |r|, |l|)
    ensures |s| - |l| + |r| <= |s| && s[|s| - |l|..|s| - |l| + |r|] == r
    ensures AllSpace(s, |s| - |l| + |r|, |s|)
    ensures r == [] || (!IsSpace(r[0]) && !IsSpace(r[|r| - 1]))
  {
    var k := |s| - |l|;
    assert s[k..k + |r|] == l[..|r|];
    assert r != [] ==> r[0] == l[0];
    AllSpaceShift(s, k, |r|, |l|);
  }

  /** The length of the leading white space of `s`. */
  function Lead(s: string): (k: nat)
    ensures k <= |s| && AllSpace(s, 0, k)
  {
    |s| - |StripLeft(s)|
  }

  /** `s.strip()`: the leading and the trailing white space removed. */
  function Strip(s: string): string {
    StripRight(StripLeft(s))
  }

  /** The stripped text is the part of `s` after its leading white space that
      neither starts nor ends with white space, with only white space after it. */
  lemma StripShape(s: string)
    ensures Lead(s) + |Strip(s)| <= |s| && s[Lead(s)..Lead(s) + |Strip(s)|] == Strip(s)
    ensures AllSpace(s, Lead(s) + |Strip(s)|, |s|)
    ensures Strip(s) == [] || (!IsSpace(Strip(s)[0]) && !IsSpace(Strip(s)[|Strip(s)| - 1]))
  {
    StripParts(s, StripLeft(s), StripRight(StripLeft(s)));
  }

  /** A stripped line is empty exactly when the line is all white space. */
  lemma StripEmpty(s: string)
    ensures Strip(s) == [] <==> AllSpace(s, 0, |s|)
  {
    StripShape(s);
    var k := Lead(s);
    if Strip(s) == [] {
      forall i | 0 <= i < |s| ensures IsSpace(s[i]) {
        if i >= k {
          assert k + |Strip(s)| <= i;
        }
      }
    }
  }

  // ----------------------------------------------------------------- repr

  function LowHexDigit(d: nat): char
    requires d < 16
  {
    if d < 10 then ('0' as int + d) as char else ('a' as int + d - 10) as char
  }

  /** The quote `repr` puts around a string: a double quote when the string
      holds a single quote and no double quote, a single quote otherwise. */
  function ReprQuote(s: string): char {
    if '\'' in s && '"' !in s then '"' else '\''
  }

  /** A character `repr` writes as itself inside quotes `q`. */
  predicate ReprPlain(c: char, q: char) {
    c != q && c != '\\' && ' ' <= c && c != '\U{7F}'
  }

  /** How `repr` writes one character inside quotes `q`. Characters beyond
      ASCII are written as themselves. */
  function ReprChar(c: char, q: char): string {
    if c == q || c == '\\' then ['\\', c]
    else if c == '\t' then "\\t"
    else if c == '\n' then "\\n"
    else if c == '\r' then "\\r"
    else if c < ' ' || c == '\U{7F}' then ['\\', 'x', LowHexDigit(c as int / 16), LowHexDigit(c as int % 16)]
    else [c]
  }

  function ReprBody(s: string, q: char): (r: string)
    ensures (forall i :: 0 <= i < |s| ==> ReprPlain(s[i], q)) ==> r == s
    decreases |s|
  {
    if s == [] then [] else ReprChar(s[0], q) + ReprBody(s[1..], q)
  }

  /** `repr(s)`: the string in quotes, with backslash escapes for the quote,
      the backslash and the ASCII control characters; a string with none of
      those is written as itself. */
  function Repr(s: string): (r: string)
    ensures |r| >= 2 && r[0] == ReprQuote(s) && r[|r| - 1] == ReprQuote(s)
    ensures (forall i :: 0 <= i < |s| ==> ReprPlain(s[i], ReprQuote(s))) ==> r == [ReprQuote(s)] + s + [ReprQuote(s)]
  {
    [ReprQuote(s)] + ReprBody(s, ReprQuote(s)) + [ReprQuote(s)]
  }

  /** A control character is written as a `\x` escape with lower-case digits. */
  lemma ReprControl()
    ensures Repr("\U{1C}F") == "'\\x1cF'"
  {
    var s := "\U{1C}F";
    assert '\'' !in s;
    assert ReprBody(s[1..], '\'') == "F" by {
      assert s[1..][1..] == [];
    }
    assert LowHexDigit(1) == '1' && LowHexDigit(12) == 'c';
  }

  // ------------------------------------------------------- decimal digits

  function DigitChar(d: nat): char
    requires d < 10
  {
    ('0' as int + d) as char
  }

  function DigitValue(c: char): int {
    c as int - '0' as int
  }

  predicate IsDecimal(s: string) {
    |s| > 0 && forall i :: 0 <= i < |s| ==> '0' <= s[i] <= '9'
  }

  /** `str(n)` for a natural number: decimal digits, most significant first, no leading zero. */
  function NatToDecimal(n: nat): (r: string)
    ensures IsDecimal(r)
    ensures |r| > 1 ==> r[0] != '0'
    decreases n
  {
    if n < 10 then [DigitChar(n)] else NatToDecimal(n / 10) + [DigitChar(n % 10)]
  }

  /** The number a string of decimal digits denotes (the inverse of NatToDecimal). */
  function DecimalToNat(s: string): int
    decreases |s|
  {
    if s == [] then 0 else DecimalToNat(s[..|s| - 1]) * 10 + DigitValue(s[|s| - 1])
  }

  lemma {:induction false} DecimalRoundTrip(n: nat)
    ensures DecimalToNat(NatToDecimal(n)) == n
    decreases n
  {
    if n >= 10 {
      var s := NatToDecimal(n);
      assert s[..|s| - 1] == NatToDecimal(n / 10);
      DecimalRoundTrip(n / 10);
    }
  }

  lemma NatToDecimalInjective(m: nat, n: nat)
    ensures NatToDecimal(m) == NatToDecimal(n) ==> m == n
  {
    DecimalRoundTrip(m);
    DecimalRoundTrip(n);
  }

  /** `str(i)` for an integer: a minus sign before the digits of a negative number. */
  function IntToDecimal(i: int): (r: string)
    ensures i >= 0 ==> r == NatToDecimal(i)
    ensures i < 0 ==> r == "-" + NatToDecimal(-i)
  {
    if i < 0 then "-" + NatToDecimal(-i) else NatToDecimal(i)
  }

  lemma IntToDecimalInjective(i: int, j: int)
    ensures IntToDecimal(i) == IntToDecimal(j) ==> i == j
  {
    if IntToDecimal(i) == IntToDecimal(j) {
      if i < 0 && j < 0 {
        assert IntToDecimal(i)[1..] == NatToDecimal(-i);
        assert IntToDecimal(j)[1..] == NatToDecimal(-j);
        NatToDecimalInjective(-i, -j);
      } else if i >= 0 && j >= 0 {
        NatToDecimalInjective(i, j);
      }
    }
  }

  // --------------------------------------------------- replace and lstrip

  /** `s.replace(p, '')`: every non-overlapping occurrence of `p`, found left to right, removed. */
  function RemoveAll(s: string, p: string): (r: string)
    requires |p| > 0
    ensures |r| <= |s|
    decreases |s|
  {
    if |s| < |p| then s
    else if s[..|p|] == p then RemoveAll(s[|p|..], p)
    else [s[0]] + RemoveAll(s[1..], p)
  }

  /** A name in which `p` occurs only at the very end loses exactly that
      trailing `p`. */
  lemma {:induction false} RemoveTrailing(stem: string, p: string)
    requires |p| > 0
    requires forall i :: 0 <= i < |stem| ==> !OccursAt(stem + p, p, i)
    ensures RemoveAll(stem + p, p) == stem
    decreases |stem|
  {
    var s := stem + p;
    if stem == [] {
      assert s[|p|..] == [];
      assert s[..|p|] == p;
    } else {
      assert !OccursAt(s, p, 0);
      assert s[..|p|] != p;
      var t := s[1..];
      assert t == stem[1..] + p;
      forall i | 0 <= i < |stem| - 1 ensures !OccursAt(t, p, i) {
        assert !OccursAt(s, p, i + 1);
        var u, v := t[i..i + |p|], s[i + 1..i + 1 + |p|];
        assert forall k :: 0 <= k < |u| ==> u[k] == v[k];
        assert u == v;
      }
      RemoveTrailing(stem[1..], p);
    }
  }

  /** `s.lstrip(c)`: the leading run of `c` removed. */
  function StripLeading(s: string, c: char): (r: string)
    ensures |r| <= |s| && r == s[|s| - |r|..]
    ensures r == [] || r[0] != c
    ensures forall i :: 0 <= i < |s| - |r| ==> s[i] == c
    decreases |s|
  {
    if s != [] && s[0] == c then StripLeading(s[1..], c) else s
  }

  // -------------------------------------------------------- split and join

  /** `s.split()` continued from a partly read word `cur`. */
  function SplitFrom(s: string, cur: string): (r: seq<string>)
    decreases |s|
  {
    if s == [] then (if cur == [] then [] else [cur])
    else if IsSpace(s[0]) then (if cur == [] then SplitFrom(s[1..], []) else [cur] + SplitFrom(s[1..], []))
    else SplitFrom(s[1..], cur + [s[0]])
  }

  /** `s.split()`: the maximal runs of non-space characters. */
  function SplitWords(s: string): seq<string> {
    SplitFrom(s, [])
  }

  /** The ideographic space separates words like any other white space. */
  lemma SplitWordsUnicodeSpace()
    ensures SplitWords("a\U{3000}b") == ["a", "b"]
  {
    var s := "a\U{3000}b";
    assert [] + ['a'] == "a" && [] + ['b'] == "b";
    assert SplitFrom(s, []) == SplitFrom(s[1..], "a");
    assert SplitFrom(s[1..], "a") == ["a"] + SplitFrom("b", []);
    assert SplitFrom("b", []) == SplitFrom("b"[1..], "b") && "b"[1..] == [];
  }

  predicate IsWord(w: string) {
    w != [] && forall i :: 0 <= i < |w| ==> !IsSpace(w[i])
  }

  lemma {:induction false} SplitFromWords(s: string, cur: string)
    requires forall i :: 0 <= i < |cur| ==> !IsSpace(cur[i])
    ensures forall k :: 0 <= k < |SplitFrom(s, cur)| ==> IsWord(SplitFrom(s, cur)[k])
    decreases |s|
  {
    if s == [] {
    } else if IsSpace(s[0]) {
      SplitFromWords(s[1..], []);
    } else {
      SplitFromWords(s[1..], cur + [s[0]]);
    }
  }

  lemma SplitWordsAreWords(s: string)
    ensures forall k :: 0 <= k < |SplitWords(s)| ==> IsWord(SplitWords(s)[k])
  {
    SplitFromWords(s, []);
  }

  /** The characters of `s` that are not white space, in order. */
  function NonSpace(s: string): string
    decreases |s|
  {
    if s == [] then [] else (if IsSpace(s[0]) then [] else [s[0]]) + NonSpace(s[1..])
  }

  /** The words concatenated. */
  function Chars(ws: seq<string>): string
    decreases |ws|
  {
    if ws == [] then [] else ws[0] + Chars(ws[1..])
  }

  lemma {:induction false} SplitFromContent(s: string, cur: string)
    ensures Chars(SplitFrom(s, cur)) == cur + NonSpace(s)
    decreases |s|
  {
    if s == [] {
      assert Chars([cur]) == cur + Chars([cur][1..]);
    } else if IsSpace(s[0]) {
      SplitFromContent(s[1..], []);
      if cur != [] {
        var rest := SplitFrom(s[1..], []);
        assert ([cur] + rest)[1..] == rest;
      }
    } else {
      SplitFromContent(s[1..], cur + [s[0]]);
    }
  }

  /** The words `split()` returns hold exactly the characters of the text
      that are not white space, in order. */
  lemma SplitWordsContent(s: string)
    ensures Chars(SplitWords(s)) == NonSpace(s)
  {
    SplitFromContent(s, []);
  }

  /** `' '.join(ws)`. */
  function Join(ws: seq<string>): (r: string)
    decreases |ws|
  {
    if ws == [] then "" else if |ws| == 1 then ws[0] else ws[0] + " " + Join(ws[1..])
  }

  lemma {:induction false} JoinAppend(a: seq<string>, b: seq<string>)
    requires a != [] && b != []
    ensures Join(a + b) == Join(a) + " " + Join(b)
    decreases |a|
  {
    if |a| == 1 {
      assert (a + b)[1..] == b;
    } else {
      assert (a + b)[1..] == a[1..] + b;
      JoinAppend(a[1..], b);
    }
  }

  lemma {:induction false} JoinNonEmpty(ws: seq<string>)
    requires ws != [] && ws[0] != []
    ensures Join(ws) != []
  {
  }

  // ------------------------------------------------------ filtered indices

  /** The positions `i`, in increasing order, at which `mask[i]` holds: the
      indices a loop `for i, x in enumerate(xs): if keep(i, x): out.append(...)`
      keeps. */
  function TrueIndices(mask: seq<bool>): (r: seq<nat>)
    ensures forall k :: 0 <= k < |r| ==> r[k] < |mask| && mask[r[k]]
    ensures forall j, k :: 0 <= j < k < |r| ==> r[j] < r[k]
    ensures forall i :: 0 <= i < |mask| && mask[i] ==> i in r
    ensures |r| <= |mask|
    decreases |mask|
  {
    if mask == [] then []
    else TrueIndices(mask[..|mask| - 1]) + (if mask[|mask| - 1] then [|mask| - 1] else [])
  }
}
