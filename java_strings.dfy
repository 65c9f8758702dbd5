/**
 * The behaviour of the three java.lang.String operations that the
 * authentication core relies on, restricted to the way the core uses them:
 *  - `s.split(",")` (regex split with limit 0, so trailing empty fields are dropped),
 *  - `s.matches(".*C.*")` for a one-character class C (an anchored match in which
 *    `.` does not match a line terminator),
 *  - `String.format("%06d", n)` for 0 <= n < 10^6.
 * A Java `String` is modelled as `seq<char>`, one `char` per UTF-16 code unit.
 */
module JavaStrings {

  // ---------------------------------------------------------------------------
  // String.split(",")
  // ---------------------------------------------------------------------------

  /** Every comma-separated field of `s`, empty ones included (one more field than commas). */
  function Fields(s: string): (r: seq<string>)
    ensures |r| >= 1
    // the first field is the longest comma-free prefix of s
    ensures ',' !in r[0] && r[0] <= s && (|r[0]| < |s| ==> s[|r[0]|] == ',')
    decreases |s|
  {
    if |s| == 0 then [""]
    else if s[0] == ',' then [""] + Fields(s[1..])
    else
      var rest := Fields(s[1..]);
      [[s[0]] + rest[0]] + rest[1..]
  }

  /** `fs` without its trailing empty strings. */
  function DropTrailingEmpty(fs: seq<string>): (r: seq<string>)
    ensures r <= fs
    ensures r == [] || r[|r| - 1] != ""
    ensures forall k :: |r| <= k < |fs| ==> fs[k] == ""
    decreases |fs|
  {
    if |fs| == 0 then []
    else if fs[|fs| - 1] == "" then DropTrailingEmpty(fs[..|fs| - 1])
    else fs
  }

  /**
   * Java's `s.split(",")`: the fields, with trailing empty strings removed, except that
   * an input in which the separator never occurs comes back as the one-element array [s].
   */
  function SplitOnComma(s: string): (r: seq<string>)
    ensures ',' !in s ==> r == [s]
    ensures ',' in s ==> r <= Fields(s) && (r == [] || r[|r| - 1] != "")
    ensures ',' in s ==> forall k :: |r| <= k < |Fields(s)| ==> Fields(s)[k] == ""
  {
    if ',' !in s then [s] else DropTrailingEmpty(Fields(s))
  }

  predicate AllEmpty(fs: seq<string>)
  {
    forall k :: 0 <= k < |fs| ==> fs[k] == ""
  }

  predicate AllCommas(s: string)
  {
    forall i :: 0 <= i < |s| ==> s[i] == ','
  }

  /** Every field of `s` is empty exactly when `s` consists of commas only. */
  lemma {:induction false} FieldsAllEmptyIff(s: string)
    ensures AllEmpty(Fields(s)) <==> AllCommas(s)
    decreases |s|
  {
    if |s| > 0 {
      FieldsAllEmptyIff(s[1..]);
      var rest := Fields(s[1..]);
      if s[0] == ',' {
        assert Fields(s) == [""] + rest;
        if AllCommas(s[1..]) {
          forall k | 0 <= k < |Fields(s)| ensures Fields(s)[k] == "" {
            if k > 0 { assert Fields(s)[k] == rest[k - 1]; }
          }
        } else {
          var k :| 0 <= k < |rest| && rest[k] != "";
          assert Fields(s)[k + 1] == rest[k];
          var i :| 0 <= i < |s[1..]| && s[1..][i] != ',';
          assert s[i + 1] != ',';
        }
      } else {
        assert Fields(s)[0] == [s[0]] + rest[0];
        assert !AllCommas(s) by { assert s[0] != ','; }
      }
    }
  }

  /**
   * What `s.split(",")[0]` does for a non-empty `s`: when `s` is made of commas only
   * the array is empty and indexing it throws; otherwise element 0 is the first field.
   */
  lemma SplitOnCommaFirst(s: string)
    requires s != ""
    ensures |SplitOnComma(s)| == 0 <==> AllCommas(s)
    ensures |SplitOnComma(s)| > 0 ==> SplitOnComma(s)[0] == Fields(s)[0]
  {
    var fs := Fields(s);
    FieldsAllEmptyIff(s);
    if ',' !in s {
      assert s[0] != ',';
      assert !AllCommas(s);
      assert forall i :: 0 <= i < |s| ==> s[i] != ',';
      assert fs[0] == s;
    } else {
      var r := DropTrailingEmpty(fs);
      assert |r| > 0 ==> r[|r| - 1] == fs[|r| - 1];
      assert SplitOnComma(s) == r;
      if AllCommas(s) {
        assert AllEmpty(fs);
      } else {
        // a non-empty field cannot be among the dropped trailing ones
        var k :| 0 <= k < |fs| && fs[k] != "";
        assert k < |r|;
      }
    }
  }

  // ---------------------------------------------------------------------------
  // String.matches(".*C.*")
  // ---------------------------------------------------------------------------

  /** A one-character regex class: `\d`, a range such as `[A-Z]`, or an explicit set `[...]`. */
  datatype CharClass = AsciiDigit | Range(lo: char, hi: char) | OneOf(members: set<char>)

  predicate InClass(k: CharClass, c: char)
  {
    match k
    case AsciiDigit => '0' <= c <= '9'
    case Range(lo, hi) => lo <= c <= hi
    case OneOf(members) => c in members
  }

  /** What `.` in a java.util.regex pattern refuses to match when no flag is set. */
  predicate IsLineTerminator(c: char)
  {
    c == '\n' || c == '\r' || c == '\U{85}' || c == '\U{2028}' || c == '\U{2029}'
  }

  predicate ExcludesLineTerminators(k: CharClass)
  {
    forall c :: InClass(k, c) ==> !IsLineTerminator(c)
  }

  /** `s.matches(".*")`, as the regex engine would try it, one character at a time. */
  predicate MatchesDotStar(s: string)
    decreases |s|
  {
    s == [] || (!IsLineTerminator(s[0]) && MatchesDotStar(s[1..]))
  }

  /**
   * `s.matches(".*C.*")`: either the leading `.*` is empty and s[0] is the class
   * character, or `.` consumes s[0] and the rest matches the same pattern.
   */
  predicate MatchesSomewhere(s: string, k: CharClass)
    decreases |s|
  {
    && |s| > 0
    && ((InClass(k, s[0]) && MatchesDotStar(s[1..]))
        || (!IsLineTerminator(s[0]) && MatchesSomewhere(s[1..], k)))
  }

  predicate NoLineTerminator(s: string)
  {
    forall i :: 0 <= i < |s| ==> !IsLineTerminator(s[i])
  }

  predicate ContainsClass(s: string, k: CharClass)
  {
    exists i :: 0 <= i < |s| && InClass(k, s[i])
  }

  lemma {:induction false} MatchesDotStarIff(s: string)
    ensures MatchesDotStar(s) <==> NoLineTerminator(s)
    decreases |s|
  {
    if |s| > 0 {
      MatchesDotStarIff(s[1..]);
      assert forall i :: 0 < i < |s| ==> s[i] == s[1..][i - 1];
    }
  }

  /** For a class without line terminators, `.*C.*` matches exactly the terminator-free strings holding a C. */
  lemma {:induction false} MatchesSomewhereIff(s: string, k: CharClass)
    requires ExcludesLineTerminators(k)
    ensures MatchesSomewhere(s, k) <==> NoLineTerminator(s) && ContainsClass(s, k)
    decreases |s|
  {
    if |s| > 0 {
      MatchesSomewhereIff(s[1..], k);
      MatchesDotStarIff(s[1..]);
      assert forall i :: 0 < i < |s| ==> s[i] == s[1..][i - 1];
      if ContainsClass(s, k) && !InClass(k, s[0]) {
        var i :| 0 <= i < |s| && InClass(k, s[i]);
        assert InClass(k, s[1..][i - 1]);
      }
      if ContainsClass(s[1..], k) {
        var i :| 0 <= i < |s[1..]| && InClass(k, s[1..][i]);
        assert InClass(k, s[i + 1]);
      }
    }
  }

  // ---------------------------------------------------------------------------
  // String.format("%0<width>d", n)
  // ---------------------------------------------------------------------------

  predicate IsAsciiDigit(c: char)
  {
    '0' <= c <= '9'
  }

  function Pow10(width: nat): (p: nat)
    ensures p >= 1
  {
    if width == 0 then 1 else 10 * Pow10(width - 1)
  }

  function DigitChar(d: nat): (c: char)
    requires d < 10
    ensures IsAsciiDigit(c) && c as int - '0' as int == d
  {
    ('0' as int + d) as char
  }

  /**
   * `String.format("%0<width>d", n)` when n has at most `width` digits:
   * n in decimal, left-padded with '0' to exactly `width` characters.
   */
  function FormatZeroPadded(n: nat, width: nat): (s: string)
    requires n < Pow10(width)
    ensures |s| == width
    ensures forall i :: 0 <= i < |s| ==> IsAsciiDigit(s[i])
    decreases width
  {
    if width == 0 then ""
    else FormatZeroPadded(n / 10, width - 1) + [DigitChar(n % 10)]
  }

  /** The number a string of decimal digits denotes (the inverse of the formatter). */
  function DecimalValue(s: string): nat
    requires forall i :: 0 <= i < |s| ==> IsAsciiDigit(s[i])
  {
    if s == "" then 0
    else
      assert IsAsciiDigit(s[|s| - 1]);
      10 * DecimalValue(s[..|s| - 1]) + (s[|s| - 1] as int - '0' as int)
  }

  lemma {:induction false} FormatZeroPaddedRoundTrip(n: nat, width: nat)
    requires n < Pow10(width)
    ensures DecimalValue(FormatZeroPadded(n, width)) == n
    decreases width
  {
    if width > 0 {
      FormatZeroPaddedRoundTrip(n / 10, width - 1);
      var s := FormatZeroPadded(n, width);
      assert s[..|s| - 1] == FormatZeroPadded(n / 10, width - 1);
    }
  }

  /** A string of w digits denotes a number below 10^w. */
  lemma {:induction false} DecimalValueBound(s: string)
    requires forall i :: 0 <= i < |s| ==> IsAsciiDigit(s[i])
    ensures DecimalValue(s) < Pow10(|s|)
    decreases |s|
  {
    if s != "" {
      DecimalValueBound(s[..|s| - 1]);
    }
  }

  /** The other round trip: formatting the number a digit string denotes gives that string back. */
  lemma {:induction false} DecimalValueRoundTrip(s: string)
    requires forall i :: 0 <= i < |s| ==> IsAsciiDigit(s[i])
    ensures DecimalValue(s) < Pow10(|s|)
    ensures FormatZeroPadded(DecimalValue(s), |s|) == s
    decreases |s|
  {
    DecimalValueBound(s);
    if s != "" {
      var init, d := s[..|s| - 1], s[|s| - 1] as int - '0' as int;
      DecimalValueRoundTrip(init);
      var n := DecimalValue(s);
      assert n == 10 * DecimalValue(init) + d;
      assert n / 10 == DecimalValue(init) && n % 10 == d;
      assert DigitChar(d) == s[|s| - 1];
      assert s == init + [s[|s| - 1]];
    }
  }
}
