/**
 * String helpers the scanner applies to operator input and to values shown
 * or written out: Python's `str.strip()`, `str.split()`, the "nan" remark
 * cleanup, the short-text truncation, the decimal-comma replacement, and
 * Python's ordering of strings (comparison code point by code point).
 */
module Text {

  /**
   * The characters Python's `str.isspace()` accepts, which `str.strip()` and
   * `str.split()` remove: tab to carriage return, the four information
   * separators U+001C to U+001F, the blank, and the Unicode spaces.
   */
  predicate IsSpace(c: char) {
    || '\t' <= c <= '\r'
    || '\U{1C}' <= c <= ' '
    || c == '\U{85}' || c == '\U{A0}' || c == '\U{1680}'
    || '\U{2000}' <= c <= '\U{200A}'
    || c == '\U{2028}' || c == '\U{2029}' || c == '\U{202F}' || c == '\U{205F}' || c == '\U{3000}'
  }

  predicate IsBlank(s: string) {
    forall i :: 0 <= i < |s| ==> IsSpace(s[i])
  }

  /** `s.lstrip()`. */
  function TrimLeft(s: string): (r: string)
    ensures |r| <= |s|
    ensures r == [] || !IsSpace(r[0])
  {
    if s != [] && IsSpace(s[0]) then TrimLeft(s[1..]) else s
  }

  /** `s.rstrip()`. */
  function TrimRight(s: string): (r: string)
    ensures |r| <= |s|
    ensures r == [] || !IsSpace(r[|r| - 1])
  {
    if s != [] && IsSpace(s[|s| - 1]) then TrimRight(s[..|s| - 1]) else s
  }

  /** `lstrip` removes a prefix, and only whitespace. */
  lemma {:induction false} TrimLeftSpec(s: string)
    ensures var r := TrimLeft(s);
            r == s[|s| - |r|..] && forall i :: 0 <= i < |s| - |r| ==> IsSpace(s[i])
  {
    if s != [] && IsSpace(s[0]) {
      TrimLeftSpec(s[1..]);
    }
  }

  /** `rstrip` removes a suffix, and only whitespace. */
  lemma {:induction false} TrimRightSpec(s: string)
    ensures var r := TrimRight(s);
            r == s[..|r|] && forall i :: |r| <= i < |s| ==> IsSpace(s[i])
  {
    if s != [] && IsSpace(s[|s| - 1]) {
      TrimRightSpec(s[..|s| - 1]);
    }
  }

  /** `s.strip()`. */
  function Strip(s: string): (r: string)
    ensures r == [] || (!IsSpace(r[0]) && !IsSpace(r[|r| - 1]))
  {
    TrimRightSpec(TrimLeft(s));
    TrimRight(TrimLeft(s))
  }

  /** Stripping leaves nothing exactly when the text is all whitespace. */
  lemma StripBlank(s: string)
    ensures Strip(s) == [] <==> IsBlank(s)
  {
    TrimLeftSpec(s);
    TrimRightSpec(TrimLeft(s));
  }

  /** Stripping a string that neither starts nor ends with whitespace changes nothing. */
  lemma StripUnchanged(s: string)
    requires s == [] || (!IsSpace(s[0]) && !IsSpace(s[|s| - 1]))
    ensures Strip(s) == s
  {
  }

  /** Stripping twice is stripping once. */
  lemma StripIdempotent(s: string)
    ensures Strip(Strip(s)) == Strip(s)
  {
    StripUnchanged(Strip(s));
  }

  /**
   * A remark equal to "nan" in any letter case is the sheet reader's marker for
   * an empty cell and is shown and written as the empty string.
   */
  predicate IsNanText(s: string) {
    |s| == 3 && (s[0] == 'n' || s[0] == 'N') && (s[1] == 'a' || s[1] == 'A') && (s[2] == 'n' || s[2] == 'N')
  }

  function CleanRemark(b: string): (r: string)
    ensures !IsNanText(r)
    ensures r == b || r == ""
  {
    if IsNanText(b) then "" else b
  }

  /** The cleanup maps exactly the "nan" spellings to "", and leaves every other remark as it is. */
  lemma CleanRemarkSpec(b: string)
    ensures !IsNanText(CleanRemark(b))
    ensures CleanRemark(b) == "" <==> b == "" || IsNanText(b)
    ensures !IsNanText(b) ==> CleanRemark(b) == b
    ensures CleanRemark(CleanRemark(b)) == CleanRemark(b)
  {
  }

  const ShortTextLimit := 30

  /** Short text longer than 30 characters is cut to its first 27 characters followed by "...". */
  function ShortText(k: string): (r: string)
    ensures |r| <= ShortTextLimit
  {
    if |k| > ShortTextLimit then k[..27] + "..." else k
  }

  lemma ShortTextSpec(k: string)
    ensures |ShortText(k)| <= ShortTextLimit
    ensures |k| <= ShortTextLimit ==> ShortText(k) == k
    ensures |k| > ShortTextLimit ==> |ShortText(k)| == ShortTextLimit && ShortText(k)[..27] == k[..27]
                                     && ShortText(k)[27..] == "..."
  {
  }

  /** `s.replace(',', '.')`. */
  function ReplaceCommas(s: string): (r: string)
    ensures |r| == |s|
    ensures forall i :: 0 <= i < |s| ==> r[i] == (if s[i] == ',' then '.' else s[i])
  {
    if s == [] then [] else [if s[0] == ',' then '.' else s[0]] + ReplaceCommas(s[1..])
  }

  /** Replacing commas touches no whitespace, so texts equal after it are blank alike. */
  lemma ReplaceCommasBlank(a: string, b: string)
    requires ReplaceCommas(a) == ReplaceCommas(b)
    ensures Strip(a) == "" <==> Strip(b) == ""
  {
    StripBlank(a);
    StripBlank(b);
    var ra := ReplaceCommas(a);
    assert forall i :: 0 <= i < |a| ==> (IsSpace(a[i]) <==> IsSpace(ra[i]));
    assert forall i :: 0 <= i < |b| ==> (IsSpace(b[i]) <==> IsSpace(ra[i]));
  }

  /** Python's `a < b` on strings: lexicographic by code point, a proper prefix is smaller. */
  predicate Less(a: string, b: string) {
    if a == [] then b != []
    else if b == [] then false
    else if a[0] != b[0] then a[0] < b[0]
    else Less(a[1..], b[1..])
  }

  lemma {:induction false} LessIrreflexive(a: string)
    ensures !Less(a, a)
  {
    if a != [] {
      LessIrreflexive(a[1..]);
    }
  }

  lemma {:induction false} LessTransitive(a: string, b: string, c: string)
    requires Less(a, b) && Less(b, c)
    ensures Less(a, c)
  {
    if a != [] && b != [] && c != [] && a[0] == b[0] && b[0] == c[0] {
      LessTransitive(a[1..], b[1..], c[1..]);
    }
  }

  lemma {:induction false} LessTotal(a: string, b: string)
    ensures a == b || Less(a, b) || Less(b, a)
  {
    if a != [] && b != [] && a[0] == b[0] {
      LessTotal(a[1..], b[1..]);
      if a[1..] == b[1..] {
        assert a == [a[0]] + a[1..] && b == [b[0]] + b[1..];
      }
    }
  }

  /** The maximal run of non-whitespace characters at the start of `t`. */
  function TakeWord(t: string): (w: string)
    ensures |w| <= |t| && w == t[..|w|]
    ensures forall i :: 0 <= i < |w| ==> !IsSpace(w[i])
    ensures |w| < |t| ==> IsSpace(t[|w|])
  {
    if t == [] || IsSpace(t[0]) then [] else [t[0]] + TakeWord(t[1..])
  }

  /** `s.split()`: the maximal runs of non-whitespace characters, in order. */
  function Words(s: string): (r: seq<string>)
    ensures forall i :: 0 <= i < |r| ==> r[i] != [] && forall j :: 0 <= j < |r[i]| ==> !IsSpace(r[i][j])
    decreases |s|
  {
    var t := TrimLeft(s);
    if t == [] then [] else
      var w := TakeWord(t);
      [w] + Words(t[|w|..])
  }

  /** A date and a time, each free of whitespace and joined by one blank, split into those two words. */
  lemma WordsOfTwo(d: string, t: string)
    requires d != [] && t != []
    requires forall i :: 0 <= i < |d| ==> !IsSpace(d[i])
    requires forall i :: 0 <= i < |t| ==> !IsSpace(t[i])
    ensures Words(d + " " + t) == [d, t]
  {
    assert d + " " + t == d + [' '] + t;
    WordsAfterBlank(d, t);
    WordsSingle(t);
  }

  lemma WordsSingle(t: string)
    requires t != []
    requires forall i :: 0 <= i < |t| ==> !IsSpace(t[i])
    ensures Words(t) == [t]
  {
    WordsLeading(t, []);
    assert t + [] == t;
  }

  lemma WordsAfterBlank(d: string, t: string)
    requires d != []
    requires forall i :: 0 <= i < |d| ==> !IsSpace(d[i])
    ensures Words(d + [' '] + t) == [d] + Words(t)
  {
    var rest := [' '] + t;
    assert d + [' '] + t == d + rest;
    WordsLeading(d, rest);
    WordsSkipSpace(' ', t);
  }

  lemma WordsSkipSpace(c: char, t: string)
    requires IsSpace(c)
    ensures Words([c] + t) == Words(t)
  {
    assert ([c] + t)[1..] == t;
    assert TrimLeft([c] + t) == TrimLeft(t);
  }

  /** A first word followed by whitespace or the end of the string is split off unchanged. */
  lemma WordsLeading(w: string, rest: string)
    requires w != []
    requires forall i :: 0 <= i < |w| ==> !IsSpace(w[i])
    requires rest == [] || IsSpace(rest[0])
    ensures Words(w + rest) == [w] + Words(rest)
  {
    var s := w + rest;
    assert s[0] == w[0];
    assert TrimLeft(s) == s;
    TakeWordAll(w, rest);
    assert s[|w|..] == rest;
  }

  lemma {:induction false} TakeWordAll(w: string, rest: string)
    requires forall i :: 0 <= i < |w| ==> !IsSpace(w[i])
    requires rest == [] || IsSpace(rest[0])
    ensures TakeWord(w + rest) == w
  {
    if w != [] {
      assert (w + rest)[1..] == w[1..] + rest;
      TakeWordAll(w[1..], rest);
    } else {
      assert w + rest == rest;
    }
  }
}
