/** The string operations the crawler borrows from Python's `str` and `re`:
    `strip()`, `lower()`, `in`, `replace(c, '')`, `replace(' ', '+')`,
    `startswith`, `str(int)` and the two captures `(\d+\.?\d*)` and `(\d+)`. */
module Text {
  import opened Wrappers
  import opened Seqs

  predicate IsDigit(c: char) {
    '0' <= c <= '9'
  }

  /** The ASCII characters `str.strip()` removes: tab, line feed, vertical
      tab, form feed, carriage return, the separators 0x1C-0x1F and space. */
  predicate IsSpace(c: char) {
    c == ' ' || '\t' <= c <= '\r' || '\U{001C}' <= c <= '\U{001F}'
  }

  predicate AllDigits(t: string) {
    forall k :: 0 <= k < |t| ==> IsDigit(t[k])
  }

  predicate NoDigit(t: string) {
    forall k :: 0 <= k < |t| ==> !IsDigit(t[k])
  }

  // ---------------------------------------------------------------- strip

  /** Number of whitespace characters at the front of `s`. */
  function LeadingSpaces(s: string): (n: nat)
    ensures n <= |s|
    ensures forall k :: 0 <= k < n ==> IsSpace(s[k])
    ensures n == |s| || !IsSpace(s[n])
  {
    if s != [] && IsSpace(s[0]) then 1 + LeadingSpaces(s[1..]) else 0
  }

  /** Number of whitespace characters at the back of `s`. */
  function TrailingSpaces(s: string): (n: nat)
    ensures n <= |s|
    ensures forall k :: |s| - n <= k < |s| ==> IsSpace(s[k])
    ensures n == |s| || !IsSpace(s[|s| - 1 - n])
  {
    if s != [] && IsSpace(s[|s| - 1]) then 1 + TrailingSpaces(s[..|s| - 1]) else 0
  }

  /** Python's `s.strip()`: the middle of `s` with the whitespace on both
      ends removed and nothing else touched. */
  function Strip(s: string): (r: string)
    ensures IsStripOf(s, r)
  {
    var i := LeadingSpaces(s);
    var t := s[i..];
    var n := TrailingSpaces(t);
    var r := t[..|t| - n];
    assert r == s[i..i + |r|];
    assert forall k :: i + |r| <= k < |s| ==> s[k] == t[k - i];
    assert StrippedAt(s, i, r);
    r
  }

  /** `r` is `s[i..]` cut short, with only whitespace cut away on either side. */
  ghost predicate StrippedAt(s: string, i: nat, r: string) {
    && i + |r| <= |s| && r == s[i..i + |r|]
    && (forall k :: 0 <= k < i ==> IsSpace(s[k]))
    && (forall k :: i + |r| <= k < |s| ==> IsSpace(s[k]))
  }

  /** `r` is `s` with its surrounding whitespace, and nothing else, removed. */
  ghost predicate IsStripOf(s: string, r: string) {
    && (r == [] || (!IsSpace(r[0]) && !IsSpace(r[|r| - 1])))
    && exists i: nat :: StrippedAt(s, i, r)
  }

  /** There is only one way to strip a string, so `IsStripOf` characterises `Strip`. */
  lemma StripUnique(s: string, r: string)
    requires IsStripOf(s, r)
    ensures r == Strip(s)
  {
    var q := Strip(s);
    var i: nat :| StrippedAt(s, i, r);
    var j: nat :| StrippedAt(s, j, q);
    assert r != [] ==> s[i] == r[0] && s[i + |r| - 1] == r[|r| - 1];
    assert q != [] ==> s[j] == q[0] && s[j + |q| - 1] == q[|q| - 1];
  }

  /** Stripping never removes a digit, so a digit survives `strip()`. */
  lemma StripKeepsDigits(s: string)
    ensures NoDigit(Strip(s)) <==> NoDigit(s)
  {
    var r := Strip(s);
    var i: nat :| StrippedAt(s, i, r);
    if !NoDigit(s) {
      var k :| 0 <= k < |s| && IsDigit(s[k]);
      assert r[k - i] == s[k];
    }
  }

  // ---------------------------------------------------------------- lower, in

  function LowerChar(c: char): char {
    if 'A' <= c <= 'Z' then (c as int + 32) as char else c
  }

  /** Python's `s.lower()` on ASCII letters. */
  function Lower(s: string): (r: string)
    ensures |r| == |s|
    ensures forall i :: 0 <= i < |s| ==> r[i] == LowerChar(s[i])
  {
    seq(|s|, i requires 0 <= i < |s| => LowerChar(s[i]))
  }

  /** Lowering twice is lowering once, so an already lower-case needle
      or haystack is left as it is. */
  lemma LowerIdempotent(s: string)
    ensures Lower(Lower(s)) == Lower(s)
  {
  }

  /** Python's `needle in hay` for strings. */
  predicate Contains(hay: string, needle: string)
    decreases |hay|
  {
    |needle| <= |hay| && (hay[..|needle|] == needle || Contains(hay[1..], needle))
  }

  /** `needle` occurs in `hay` starting at position `i`. */
  ghost predicate OccursAt(hay: string, needle: string, i: nat) {
    i + |needle| <= |hay| && hay[i..i + |needle|] == needle
  }

  /** `Contains` holds exactly when `needle` occurs at some position of `hay`. */
  lemma {:induction false} ContainsIff(hay: string, needle: string)
    ensures Contains(hay, needle) <==> exists i: nat :: OccursAt(hay, needle, i)
    decreases |hay|
  {
    if |needle| <= |hay| && hay[..|needle|] != needle {
      ContainsIff(hay[1..], needle);
      if exists i: nat :: OccursAt(hay, needle, i) {
        var i: nat :| OccursAt(hay, needle, i);
        assert i != 0;
        assert OccursAt(hay[1..], needle, i - 1);
      }
      if Contains(hay[1..], needle) {
        var j: nat :| OccursAt(hay[1..], needle, j);
        assert OccursAt(hay, needle, j + 1);
      }
    } else if |needle| <= |hay| {
      assert OccursAt(hay, needle, 0);
    } else {
      forall i: nat ensures !OccursAt(hay, needle, i) { }
    }
  }

  // ---------------------------------------------------------------- replace

  /** The test "is not `c`", as a function value. */
  function NotChar(c: char): char -> bool {
    (x: char) => x != c
  }

  /** Python's `s.replace(c, '')`: every `c` removed, everything else kept in order. */
  function DeleteChar(s: string, c: char): (r: string)
    ensures c !in r
    ensures forall x :: x != c ==> multiset(r)[x] == multiset(s)[x]
    ensures c !in s ==> r == s
  {
    if s == [] then []
    else
      var init := s[..|s| - 1];
      assert s == init + [s[|s| - 1]];
      DeleteChar(init, c) + (if s[|s| - 1] == c then [] else [s[|s| - 1]])
  }

  /** `replace(c, '')` keeps the other characters in their order: it is the
      selection of the characters that are not `c`. */
  lemma {:induction false} DeleteCharKeepsOrder(s: string, c: char)
    ensures DeleteChar(s, c) == Select(s, NotChar(c))
    decreases |s|
  {
    if s != [] {
      DeleteCharKeepsOrder(s[..|s| - 1], c);
    }
  }

  /** Deleting `c` from `c` followed by a text without `c` gives that text. */
  lemma DeleteLeading(c: char, t: string)
    requires c !in t
    ensures DeleteChar([c] + t, c) == t
  {
    DeleteCharKeepsOrder([c] + t, c);
    SelectAppend([c], t, NotChar(c));
    SelectAll(t, NotChar(c));
    assert [c][..0] == [];
  }

  /** Deleting a non-digit character keeps every digit. */
  lemma DeleteCharKeepsDigits(s: string, c: char)
    requires !IsDigit(c)
    ensures NoDigit(DeleteChar(s, c)) <==> NoDigit(s)
  {
    var r := DeleteChar(s, c);
    if !NoDigit(s) {
      var k :| 0 <= k < |s| && IsDigit(s[k]);
      assert s[k] in multiset(s);
      assert s[k] in multiset(r);
    }
    if !NoDigit(r) {
      var k :| 0 <= k < |r| && IsDigit(r[k]);
      assert r[k] in multiset(r);
      assert r[k] in multiset(s);
    }
  }

  /** Python's `s.replace(a, b)` for single characters. */
  function ReplaceChar(s: string, a: char, b: char): (r: string)
    ensures |r| == |s|
    ensures forall i :: 0 <= i < |s| ==> r[i] == if s[i] == a then b else s[i]
  {
    seq(|s|, i requires 0 <= i < |s| => if s[i] == a then b else s[i])
  }

  predicate StartsWith(s: string, prefix: string) {
    |prefix| <= |s| && s[..|prefix|] == prefix
  }

  // ---------------------------------------------------------------- str(int)

  function DigitChar(d: nat): (c: char)
    requires d < 10
    ensures IsDigit(c) && c as int - '0' as int == d
  {
    ('0' as int + d) as char
  }

  /** Python's `str(n)` for a natural number: decimal digits, no leading zero. */
  function NatToString(n: nat): (r: string)
    ensures |r| >= 1 && AllDigits(r)
    ensures r[0] == '0' ==> n == 0
    decreases n
  {
    if n < 10 then [DigitChar(n)] else NatToString(n / 10) + [DigitChar(n % 10)]
  }

  /** The number a string of decimal digits denotes (Python's `int(t)`). */
  function DigitsValue(t: string): nat
    requires AllDigits(t)
  {
    if t == [] then 0 else DigitsValue(t[..|t| - 1]) * 10 + (t[|t| - 1] as int - '0' as int)
  }

  /** `int(str(n)) == n`. */
  lemma {:induction false} NatToStringRoundTrip(n: nat)
    ensures DigitsValue(NatToString(n)) == n
    decreases n
  {
    if n >= 10 {
      NatToStringRoundTrip(n / 10);
      var r := NatToString(n);
      assert r[..|r| - 1] == NatToString(n / 10);
    }
  }

  /** Distinct numbers print differently. */
  lemma NatToStringInjective(m: nat, n: nat)
    requires NatToString(m) == NatToString(n)
    ensures m == n
  {
    NatToStringRoundTrip(m);
    NatToStringRoundTrip(n);
  }

  // ---------------------------------------------------------------- regex captures

  /** End of the maximal run of digits that starts at `i`. */
  function SkipDigits(s: string, i: nat): (j: nat)
    requires i <= |s|
    ensures i <= j <= |s|
    ensures forall k :: i <= k < j ==> IsDigit(s[k])
    ensures j == |s| || !IsDigit(s[j])
    decreases |s| - i
  {
    if i < |s| && IsDigit(s[i]) then SkipDigits(s, i + 1) else i
  }

  /** A stretch of digits of `s` is a digit string. */
  lemma DigitsSlice(s: string, i: nat, j: nat)
    requires i <= j <= |s|
    requires forall k :: i <= k < j ==> IsDigit(s[k])
    ensures AllDigits(s[i..j])
  {
    assert forall k :: 0 <= k < j - i ==> s[i..j][k] == s[i + k];
  }

  /** Position of the first digit at or after `i` (`|s|` when there is none). */
  function SkipNonDigits(s: string, i: nat): (j: nat)
    requires i <= |s|
    ensures i <= j <= |s|
    ensures forall k :: i <= k < j ==> !IsDigit(s[k])
    ensures j == |s| || IsDigit(s[j])
    decreases |s| - i
  {
    if i < |s| && !IsDigit(s[i]) then SkipNonDigits(s, i + 1) else i
  }

  /** A string the pattern `\d+\.?\d*` matches in full: digits, then
      optionally a dot followed by digits. */
  ghost predicate DecimalToken(m: string) {
    exists d :: 1 <= d <= |m| && AllDigits(m[..d])
                && (d == |m| || (m[d] == '.' && AllDigits(m[d + 1..])))
  }

  /** `m` is what `re.search(r'(\d+\.?\d*)', s).group(1)` returns when the
      search starts at position `i`: the token found there, extended greedily. */
  ghost predicate DecimalMatchAt(s: string, i: nat, m: string) {
    && i + |m| <= |s|
    && s[i..i + |m|] == m
    && DecimalToken(m)
    && (i + |m| < |s| ==> !IsDigit(s[i + |m|]) && ('.' in m || s[i + |m|] != '.'))
  }

  /** End of the `\d+\.?\d*` match that starts at `start`: the digit run,
      and when a dot follows it, the dot and the digit run after that. */
  function DecimalEnd(s: string, start: nat): (end: nat)
    requires start <= |s|
    ensures SkipDigits(s, start) <= end <= |s|
  {
    var intEnd := SkipDigits(s, start);
    if intEnd < |s| && s[intEnd] == '.' then SkipDigits(s, intEnd + 1) else intEnd
  }

  /** The greedy scan from a digit yields a full match of the pattern. */
  lemma DecimalEndMatches(s: string, start: nat)
    requires start < |s| && IsDigit(s[start])
    ensures DecimalMatchAt(s, start, s[start..DecimalEnd(s, start)])
  {
    var intEnd := SkipDigits(s, start);
    var end := DecimalEnd(s, start);
    var m := s[start..end];
    var d := intEnd - start;
    DigitsSlice(s, start, intEnd);
    assert m[..d] == s[start..intEnd];
    if end != intEnd {
      DigitsSlice(s, intEnd + 1, end);
      assert m[d + 1..] == s[intEnd + 1..end];
      assert m[d] == '.';
    }
    assert 1 <= d <= |m| && AllDigits(m[..d]) && (d == |m| || (m[d] == '.' && AllDigits(m[d + 1..])));
  }

  /** `re.search(r'(\d+\.?\d*)', s)`: the leftmost, greedy match, or None
      when `s` holds no digit. */
  function FirstDecimal(s: string): (r: Option<string>)
    ensures r.None? <==> NoDigit(s)
    ensures r.Some? ==> DecimalMatchAt(s, SkipNonDigits(s, 0), r.value)
  {
    var start := SkipNonDigits(s, 0);
    if start == |s| then None
    else
      DecimalEndMatches(s, start);
      Some(s[start..DecimalEnd(s, start)])
  }

  /** `re.search(r'(\d+)', s)`: the leftmost maximal run of digits, or None
      when `s` holds no digit. */
  function FirstDigitRun(s: string): (r: Option<string>)
    ensures r.None? <==> NoDigit(s)
    ensures r.Some? ==> var i := SkipNonDigits(s, 0);
              && |r.value| >= 1 && AllDigits(r.value)
              && i + |r.value| <= |s| && s[i..i + |r.value|] == r.value
              && (i + |r.value| == |s| || !IsDigit(s[i + |r.value|]))
  {
    var start := SkipNonDigits(s, 0);
    if start == |s| then None else Some(s[start..SkipDigits(s, start)])
  }
}
