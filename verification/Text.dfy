/** Strings: decimal numbers, and the two searches that the parsers in src/fuzz use on them. */
module Text {
  import opened Options

  predicate IsDigit(c: char) { '0' <= c <= '9' }

  /** `\s` on text, with the spaces outside ASCII. */
  predicate IsSpace(c: char) {
    || '\U{9}' <= c <= '\U{D}' || '\U{1C}' <= c <= '\U{20}' || c in "\U{85}\U{A0}\U{1680}"
    || '\U{2000}' <= c <= '\U{200A}' || c in "\U{2028}\U{2029}\U{202F}\U{205F}\U{3000}"
  }

  predicate AllDigits(s: string) {
    forall i :: 0 <= i < |s| ==> IsDigit(s[i])
  }

  function DigitValue(c: char): nat
    requires IsDigit(c)
  {
    c as int - '0' as int
  }

  function DigitChar(d: nat): (c: char)
    requires d < 10
    ensures IsDigit(c) && DigitValue(c) == d
  {
    (d + '0' as int) as char
  }

  /** %d of a nonnegative number. */
  function Decimal(n: nat): (s: string)
    ensures |s| > 0 && AllDigits(s)
  {
    if n < 10 then [DigitChar(n)] else Decimal(n / 10) + [DigitChar(n % 10)]
  }

  /** int(s) of a string of digits. */
  function Number(s: string): nat
    requires AllDigits(s)
  {
    if s == "" then 0 else 10 * Number(s[..|s| - 1]) + DigitValue(s[|s| - 1])
  }

  lemma {:induction false} NumberOfDecimal(n: nat)
    ensures Number(Decimal(n)) == n
  {
    var s := Decimal(n);
    if n < 10 {
      assert s[..0] == "";
    } else {
      NumberOfDecimal(n / 10);
      assert s[..|s| - 1] == Decimal(n / 10);
    }
  }

  /** The greedy \d+ at the start of s: how many digits it takes. */
  function DigitRun(s: string): (k: nat)
    ensures k <= |s| && AllDigits(s[..k])
    ensures k < |s| ==> !IsDigit(s[k])
  {
    if s != "" && IsDigit(s[0]) then
      var k := DigitRun(s[1..]);
      assert s[..k + 1] == [s[0]] + s[1..][..k];
      k + 1
    else 0
  }

  /** A run of digits followed by something that is not a digit. */
  lemma {:induction false} DigitRunOf(d: string, t: string)
    requires AllDigits(d) && (t == "" || !IsDigit(t[0]))
    ensures DigitRun(d + t) == |d|
  {
    if d == "" {
      assert d + t == t;
    } else {
      assert (d + t)[1..] == d[1..] + t;
      DigitRunOf(d[1..], t);
    }
  }

  /** re.match of `pat\d+` at the start of s. */
  predicate MatchesHere(pat: string, s: string) {
    |pat| < |s| && pat <= s && IsDigit(s[|pat|])
  }

  /** re.compile(pat + r'(\d+)').search(s): the number in the leftmost match. */
  function NumberAfter(pat: string, s: string): Option<nat>
  {
    if s == "" then None
    else if MatchesHere(pat, s) then
      var rest := s[|pat|..];
      Some(Number(rest[..DigitRun(rest)]))
    else NumberAfter(pat, s[1..])
  }

  /** s.find(pat) != -1 */
  predicate Contains(s: string, pat: string) {
    pat <= s || (s != "" && Contains(s[1..], pat))
  }

  /** No match can begin in s and end in t, and no run of digits of s goes on in t. */
  predicate Apart(pat: string, s: string, t: string)
    requires pat != ""
  {
    || t == ""
    || s == ""
    || (t[0] !in pat[1..] && !IsDigit(t[0]))
    || (s[|s| - 1] !in pat && !IsDigit(s[|s| - 1]))
  }

  /** A prefix of a concatenation that would have to cross the boundary is none. */
  lemma PrefixAcross(pat: string, s: string, t: string)
    requires pat != "" && s != ""
    requires t == "" || t[0] !in pat[1..] || s[|s| - 1] !in pat
    ensures pat <= s + t <==> pat <= s
  {
    var u := s + t;
    if t != "" && |pat| > |s| {
      assert u[|s|] == t[0] && u[|s| - 1] == s[|s| - 1];
      assert pat[|s|] == pat[1..][|s| - 1] && pat[|s|] in pat[1..] && pat[|s| - 1] in pat;
    }
    if |pat| <= |s| { assert u[..|pat|] == s[..|pat|]; }
  }

  lemma MatchAcross(pat: string, s: string, t: string)
    requires pat != "" && s != "" && Apart(pat, s, t)
    ensures MatchesHere(pat, s + t) <==> MatchesHere(pat, s)
    ensures MatchesHere(pat, s) ==> DigitRun((s + t)[|pat|..]) == DigitRun(s[|pat|..])
  {
    var u := s + t;
    PrefixAcross(pat, s, t);
    if t != "" && |pat| == |s| {
      assert u[|pat|] == t[0];
      assert pat[|pat| - 1] in pat;
    }
    if MatchesHere(pat, s) {
      var r := s[|pat|..];
      assert u[|pat|..] == r + t;
      RunAcross(r, t);
    } else if t == "" {
      assert u == s;
    }
  }

  /** A run of digits does not grow across a boundary with a non-digit on either side. */
  lemma {:induction false} RunAcross(r: string, t: string)
    requires r != "" && (t == "" || !IsDigit(t[0]) || !IsDigit(r[|r| - 1]))
    ensures DigitRun(r + t) == DigitRun(r)
  {
    var u := r + t;
    if t == "" {
      assert u == r;
    } else if IsDigit(r[0]) {
      assert u[1..] == r[1..] + t;
      if |r| == 1 {
        assert u[1..] == t;
      } else {
        RunAcross(r[1..], t);
      }
    }
  }

  /** The search over a concatenation is the search over the first part, else over the second. */
  lemma {:induction false} NumberAfterConcat(pat: string, s: string, t: string)
    requires pat != "" && Apart(pat, s, t)
    ensures NumberAfter(pat, s + t) == if NumberAfter(pat, s).Some? then NumberAfter(pat, s) else NumberAfter(pat, t)
  {
    var u := s + t;
    if s == "" {
      assert u == t;
    } else {
      MatchAcross(pat, s, t);
      assert u[1..] == s[1..] + t;
      if MatchesHere(pat, s) {
        var k := DigitRun(s[|pat|..]);
        assert u[|pat|..][..k] == s[|pat|..][..k];
      } else {
        NumberAfterConcat(pat, s[1..], t);
      }
    }
  }

  /** Nothing is found in a text that lacks a character of the pattern. */
  lemma {:induction false} NumberAfterMissing(pat: string, s: string, c: char)
    requires c in pat && c !in s
    ensures NumberAfter(pat, s) == None
  {
    if s != "" {
      NumberAfterMissing(pat, s[1..], c);
    }
  }

  /** A match cannot begin inside a text that lacks the pattern's first character. */
  lemma {:induction false} NumberAfterSkip(pat: string, s: string, t: string)
    requires pat != "" && pat[0] !in s
    ensures NumberAfter(pat, s + t) == NumberAfter(pat, t)
  {
    if s == "" {
      assert s + t == t;
    } else {
      assert (s + t)[0] == s[0] && (s + t)[1..] == s[1..] + t;
      NumberAfterSkip(pat, s[1..], t);
    }
  }

  /** A match at the very start. */
  lemma NumberAfterHere(pat: string, n: nat, t: string)
    requires t == "" || !IsDigit(t[0])
    ensures NumberAfter(pat, pat + Decimal(n) + t) == Some(n)
  {
    var d := Decimal(n);
    var s := pat + d + t;
    assert s[|pat|..] == d + t;
    assert s[|pat|] == d[0];
    DigitRunOf(d, t);
    assert (d + t)[..|d|] == d;
    NumberOfDecimal(n);
    assert pat <= s;
  }

  lemma {:induction false} ContainsConcat(s: string, t: string, pat: string)
    requires pat != ""
    requires t == "" || s == "" || t[0] !in pat || s[|s| - 1] !in pat
    ensures Contains(s + t, pat) <==> Contains(s, pat) || Contains(t, pat)
  {
    var u := s + t;
    if s == "" {
      assert u == t;
    } else {
      assert u[1..] == s[1..] + t;
      ContainsConcat(s[1..], t, pat);
      PrefixAcross(pat, s, t);
    }
  }

  lemma {:induction false} ContainsShort(s: string, pat: string)
    requires |s| < |pat|
    ensures !Contains(s, pat)
  {
    if s != "" { ContainsShort(s[1..], pat); }
  }

  lemma {:induction false} ContainsMissing(s: string, pat: string, c: char)
    requires c in pat && c !in s
    ensures !Contains(s, pat)
  {
    if s != "" { ContainsMissing(s[1..], pat, c); }
  }

  predicate NoLineBreak(s: string) {
    '\n' !in s && '\r' !in s
  }

  /** Printing each line with a line feed. */
  function Unlines(lines: seq<string>): string {
    if lines == [] then "" else lines[0] + "\n" + Unlines(lines[1..])
  }

  /** bytes.splitlines(), for output without carriage returns; an unterminated rest is a line too. */
  function SplitLines(s: string): seq<string>
    decreases |s|
  {
    if s == "" then []
    else
      var k := LineLength(s);
      if k == |s| then [s] else [s[..k]] + SplitLines(s[k + 1..])
  }

  function LineLength(s: string): (k: nat)
    ensures k <= |s|
  {
    if s == "" || s[0] == '\n' then 0 else 1 + LineLength(s[1..])
  }

  lemma {:induction false} LineLengthOf(line: string, t: string)
    requires '\n' !in line
    ensures LineLength(line + "\n" + t) == |line|
  {
    var s := line + "\n" + t;
    if line != "" {
      assert s[1..] == line[1..] + "\n" + t;
      LineLengthOf(line[1..], t);
    }
  }

  /** Splitting undoes printing. */
  lemma {:induction false} SplitLinesOfUnlines(lines: seq<string>)
    requires forall i :: 0 <= i < |lines| ==> NoLineBreak(lines[i])
    ensures SplitLines(Unlines(lines)) == lines
  {
    if lines != [] {
      var t := Unlines(lines[1..]);
      var s := lines[0] + "\n" + t;
      LineLengthOf(lines[0], t);
      assert s[..|lines[0]|] == lines[0] && s[|lines[0]| + 1..] == t;
      SplitLinesOfUnlines(lines[1..]);
    }
  }

  // ----- the searches, by positions

  /** A decimal number ends with the last digit, and has no leading zero. */
  lemma {:induction false} DecimalDigits(n: nat)
    ensures var s := Decimal(n);
      DigitValue(s[|s| - 1]) == n % 10 && (n >= 10 ==> s[..|s| - 1] == Decimal(n / 10) && s[0] != '0')
  {
    var s := Decimal(n);
    if n >= 10 {
      DecimalDigits(n / 10);
      assert s[..|s| - 1] == Decimal(n / 10);
      assert s[0] == Decimal(n / 10)[0];
      if n < 100 { assert DigitValue(s[0]) == n / 10; }
    }
  }

  ghost predicate OccursAt(s: string, pat: string, i: int) {
    0 <= i && i + |pat| <= |s| && s[i..i + |pat|] == pat
  }

  lemma {:induction false} OccursShift(s: string, pat: string, i: int)
    requires s != "" && i > 0
    ensures OccursAt(s[1..], pat, i - 1) <==> OccursAt(s, pat, i)
  {
    if i + |pat| <= |s| { assert s[1..][i - 1..i - 1 + |pat|] == s[i..i + |pat|]; }
  }

  lemma {:induction false} OccursHere(s: string, pat: string)
    ensures OccursAt(s, pat, 0) <==> pat <= s
  {
    if |pat| <= |s| { assert s[0..|pat|] == s[..|pat|]; }
  }

  lemma {:induction false} ContainsIff(s: string, pat: string)
    ensures Contains(s, pat) <==> exists i :: OccursAt(s, pat, i)
  {
    OccursHere(s, pat);
    if s != "" {
      ContainsIff(s[1..], pat);
      if i :| OccursAt(s[1..], pat, i) { OccursShift(s, pat, i + 1); }
      if i :| OccursAt(s, pat, i) && i > 0 { OccursShift(s, pat, i); }
    }
  }

  /** The pattern stands at i, and then digits up to j, and no further. */
  ghost predicate NumberAt(s: string, pat: string, i: int, j: int) {
    && OccursAt(s, pat, i) && i + |pat| < j <= |s| && AllDigits(s[i + |pat|..j]) && (j < |s| ==> !IsDigit(s[j]))
  }

  ghost predicate SomeNumberAt(s: string, pat: string, i: int) {
    exists j :: NumberAt(s, pat, i, j)
  }

  lemma {:induction false} MatchesHereIff(pat: string, s: string)
    ensures MatchesHere(pat, s) <==> SomeNumberAt(s, pat, 0)
    ensures MatchesHere(pat, s) ==> NumberAt(s, pat, 0, |pat| + DigitRun(s[|pat|..]))
  {
    if MatchesHere(pat, s) {
      var rest := s[|pat|..];
      var k := DigitRun(rest);
      assert rest[0] == s[|pat|];
      assert s[|pat|..|pat| + k] == rest[..k];
      if k < |rest| { assert s[|pat| + k] == rest[k]; }
      assert NumberAt(s, pat, 0, |pat| + k);
    }
    if j :| NumberAt(s, pat, 0, j) {
      assert s[0..|pat|] == s[..|pat|] == pat;
      assert s[|pat|..j][0] == s[|pat|];
    }
  }

  lemma {:induction false} NumberAtShift(s: string, pat: string, i: int, j: int)
    requires s != "" && i > 0
    ensures NumberAt(s[1..], pat, i - 1, j - 1) <==> NumberAt(s, pat, i, j)
  {
    var t := s[1..];
    OccursShift(s, pat, i);
    if i + |pat| < j <= |s| { assert t[i - 1 + |pat|..j - 1] == s[i + |pat|..j]; }
    if 0 < j < |s| { assert t[j - 1] == s[j]; }
  }

  lemma {:induction false} SomeNumberAtShift(s: string, pat: string, i: int)
    requires s != "" && i > 0
    ensures SomeNumberAt(s[1..], pat, i - 1) <==> SomeNumberAt(s, pat, i)
  {
    if j :| NumberAt(s, pat, i, j) { NumberAtShift(s, pat, i, j); }
    var t, k := s[1..], i - 1;
    if j :| NumberAt(t, pat, k, j) { NumberAtShift(s, pat, i, j + 1); }
  }

  /** i is the leftmost place where the pattern stands in front of a digit, and n the number behind it. */
  ghost predicate IsLeftmost(s: string, pat: string, i: int, j: int, n: nat) {
    NumberAt(s, pat, i, j) && n == Number(s[i + |pat|..j]) && forall k :: k < i ==> !SomeNumberAt(s, pat, k)
  }

  lemma {:induction false} LeftmostShift(s: string, pat: string, i: int, j: int, n: nat)
    requires s != "" && !SomeNumberAt(s, pat, 0) && IsLeftmost(s[1..], pat, i, j, n)
    ensures IsLeftmost(s, pat, i + 1, j + 1, n)
  {
    NumberAtShift(s, pat, i + 1, j + 1);
    assert s[1..][i + |pat|..j] == s[i + 1 + |pat|..j + 1];
    forall k | k < i + 1 ensures !SomeNumberAt(s, pat, k) { if k > 0 { SomeNumberAtShift(s, pat, k); } }
  }

  /** The search finds the number at the leftmost place where the pattern stands in front of a digit, with all its
      digits; and nothing if there is no such place. */
  lemma {:induction false} NumberAfterIs(pat: string, s: string) returns (i: int, j: int)
    ensures NumberAfter(pat, s).None? ==> forall k :: !SomeNumberAt(s, pat, k)
    ensures NumberAfter(pat, s).Some? ==> IsLeftmost(s, pat, i, j, NumberAfter(pat, s).value)
  {
    MatchesHereIff(pat, s);
    i, j := 0, 0;
    if s != "" && MatchesHere(pat, s) {
      j := |pat| + DigitRun(s[|pat|..]);
      assert s[|pat|..j] == s[|pat|..][..DigitRun(s[|pat|..])];
    } else if s != "" {
      i, j := NumberAfterIs(pat, s[1..]);
      if NumberAfter(pat, s).Some? {
        LeftmostShift(s, pat, i, j, NumberAfter(pat, s).value);
      } else {
        forall k ensures !SomeNumberAt(s, pat, k) { if k > 0 { SomeNumberAtShift(s, pat, k); } }
      }
      i, j := i + 1, j + 1;
    }
  }

  /** A text without a line break is one line. */
  lemma {:induction false} OneLine(s: string)
    requires s != "" && NoLineBreak(s)
    ensures SplitLines(s) == [s]
  {
    NoBreakLength(s);
  }

  lemma {:induction false} NoBreakLength(s: string)
    requires NoLineBreak(s)
    ensures LineLength(s) == |s|
  {
    if s != "" { NoBreakLength(s[1..]); }
  }

  /** White space, by code points. */
  lemma SpaceCodes(c: char)
    ensures IsSpace(c) <==>
      var n := c as int;
      || 9 <= n <= 13 || 28 <= n <= 32 || n == 133 || n == 160 || n == 5760
      || 8192 <= n <= 8202 || n == 8232 || n == 8233 || n == 8239 || n == 8287 || n == 12288
  {
  }

  lemma TextExamples()
    ensures Decimal(120) == "120"
    ensures Unlines(["a", ""]) == "a\n\n"
  {
    assert Decimal(1) == "1" && Decimal(12) == "12";
    assert ["a", ""][1..] == [""] && [""][1..] == [] && Unlines([""]) == "\n";
  }
}
