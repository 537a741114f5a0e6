/** Decimal numerals, as `str(n)` prints and `int(s)` reads them. */
module Decimal {

  predicate IsDigit(c: char) { '0' <= c <= '9' }

  predicate AllDigits(s: string) { forall i :: 0 <= i < |s| ==> IsDigit(s[i]) }

  function Digit(d: nat): char
    requires d < 10
  {
    '0' + d as char
  }

  function Value(c: char): (d: nat)
    requires IsDigit(c)
    ensures d < 10
  {
    (c - '0') as nat
  }

  function Print(n: nat): (s: string)
    ensures s != "" && AllDigits(s)
  {
    if n < 10 then [Digit(n)] else Print(n / 10) + [Digit(n % 10)]
  }

  function Parse(s: string): nat
    requires AllDigits(s)
  {
    if s == "" then 0 else 10 * Parse(s[..|s| - 1]) + Value(s[|s| - 1])
  }

  lemma {:induction false} ParsePrint(n: nat)
    ensures Parse(Print(n)) == n
  {
    if n >= 10 {
      ParsePrint(n / 10);
      assert Print(n)[..|Print(n)| - 1] == Print(n / 10);
    }
  }

  lemma DigitText(d: nat)
    requires d < 10
    ensures Digit(d) == "0123456789"[d]
  {
    assert d == 0 || d == 1 || d == 2 || d == 3 || d == 4 || d == 5 || d == 6 || d == 7 || d == 8 || d == 9;
  }

  /** The last digit is the remainder by ten, and what stands before it is the numeral of the tenth part. */
  lemma PrintedDigits(n: nat, tenth: nat, d: nat)
    requires n == 10 * tenth + d && d < 10
    ensures var s := Print(n);
            s[|s| - 1] == "0123456789"[d] && s[..|s| - 1] == if n < 10 then "" else Print(tenth)
  {
    assert n / 10 == tenth && n % 10 == d;
    DigitText(d);
    if n >= 10 {
      assert Print(n) == Print(tenth) + [Digit(d)];
    } else {
      assert Print(n) == [Digit(d)];
    }
  }
}

/** Python string operations on ASCII text, and the byte order SQLite sorts ids by. */
module Text {

  predicate IsSpace(c: char) {
    c == ' ' || '\t' <= c <= '\r' || '\U{1C}' <= c <= '\U{1F}'
  }

  predicate IsUpper(c: char) { 'A' <= c <= 'Z' }

  function LowerChar(c: char): char {
    if IsUpper(c) then c - 'A' + 'a' else c
  }

  function Lower(s: string): (r: string)
    ensures |r| == |s|
    ensures forall i :: 0 <= i < |s| ==> r[i] == LowerChar(s[i])
  {
    seq(|s|, i requires 0 <= i < |s| => LowerChar(s[i]))
  }

  function LStrip(s: string): string {
    if s != "" && IsSpace(s[0]) then LStrip(s[1..]) else s
  }

  function RStrip(s: string): string {
    if s != "" && IsSpace(s[|s| - 1]) then RStrip(s[..|s| - 1]) else s
  }

  function Strip(s: string): string { RStrip(LStrip(s)) }

  /** The substring test `needle in hay`. */
  predicate Contains(hay: string, needle: string) {
    needle <= hay || (hay != "" && Contains(hay[1..], needle))
  }

  /** It finds a needle exactly where the hay has it. */
  lemma {:induction false} ContainsIsSubstring(hay: string, needle: string)
    ensures Contains(hay, needle) <==> exists i :: 0 <= i <= |hay| - |needle| && hay[i..][..|needle|] == needle
  {
    if hay != "" {
      ContainsIsSubstring(hay[1..], needle);
      assert needle <= hay ==> hay[0..][..|needle|] == needle;
      forall i | 0 <= i <= |hay[1..]| - |needle| ensures hay[1..][i..] == hay[i + 1..] {}
      if i :| 0 <= i <= |hay| - |needle| && hay[i..][..|needle|] == needle {
        if i > 0 {
          assert hay[1..][i - 1..] == hay[i..];
        } else {
          assert hay[0..] == hay;
        }
      }
    } else if needle <= hay {
      assert hay[0..][..|needle|] == needle;
    }
  }

  predicate OccursAt(hay: string, needle: string, i: int) {
    0 <= i <= |hay| - |needle| && hay[i..i + |needle|] == needle
  }

  lemma ContainsOccurs(hay: string, needle: string)
    ensures Contains(hay, needle) <==> exists i :: OccursAt(hay, needle, i)
  {
    ContainsIsSubstring(hay, needle);
    forall i | 0 <= i <= |hay| - |needle| ensures hay[i..][..|needle|] == needle <==> OccursAt(hay, needle, i) {
      assert hay[i..][..|needle|] == hay[i..i + |needle|];
    }
  }

  /** The same letter in either case, or the same character. */
  predicate SameLetter(c: char, d: char) {
    c == d || ('a' <= c <= 'z' && c as int == d as int + 32) || ('a' <= d <= 'z' && d as int == c as int + 32)
  }

  /** The needle stands at a position of the hay, in whatever case. */
  predicate StandsAt(hay: string, needle: string, i: int) {
    0 <= i <= |hay| - |needle| && forall k :: 0 <= k < |needle| ==> SameLetter(hay[i + k], needle[k])
  }

  lemma LowerIsSameLetter(c: char, d: char)
    ensures LowerChar(c) == LowerChar(d) <==> SameLetter(c, d)
  {}

  /** The lower-cased hay contains the lower-cased needle exactly when the needle stands somewhere in it, in
      whatever case. */
  lemma {:induction false} ContainsInAnyCase(hay: string, needle: string)
    ensures Contains(Lower(hay), Lower(needle)) <==> exists i :: StandsAt(hay, needle, i)
  {
    ContainsIsSubstring(Lower(hay), Lower(needle));
    forall i | 0 <= i <= |hay| - |needle|
      ensures Lower(hay)[i..][..|needle|] == Lower(needle) <==> StandsAt(hay, needle, i)
    {
      WindowIsSame(hay, needle, i);
    }
    if i :| StandsAt(hay, needle, i) {
      assert Lower(hay)[i..][..|Lower(needle)|] == Lower(needle);
    }
  }

  lemma WindowIsSame(hay: string, needle: string, i: nat)
    requires i <= |hay| - |needle|
    ensures Lower(hay)[i..][..|needle|] == Lower(needle) <==> StandsAt(hay, needle, i)
  {
    var window := Lower(hay)[i..][..|needle|];
    forall k | 0 <= k < |needle| ensures window[k] == Lower(needle)[k] <==> SameLetter(hay[i + k], needle[k]) {
      LowerIsSameLetter(hay[i + k], needle[k]);
    }
  }

  /** What `str.strip` drops of ASCII text. */
  const SPACES := {9, 10, 11, 12, 13, 28, 29, 30, 31, 32}

  /** Stripping drops spaces from both ends, all of them and nothing else. */
  lemma {:induction false} StripDropsSpaces(s: string) returns (i: nat, j: nat)
    ensures i <= j <= |s| && Strip(s) == s[i..j]
    ensures forall k :: 0 <= k < i || j <= k < |s| ==> s[k] as int in SPACES
    ensures i < j ==> s[i] as int !in SPACES && s[j - 1] as int !in SPACES
  {
    i := LeftEnd(s);
    var n := RightEnd(s[i..]);
    j := i + n;
    assert s[i..][..n] == s[i..j];
    forall k | j <= k < |s| ensures s[k] as int in SPACES {
      assert s[k] == s[i..][k - i];
    }
  }

  lemma {:induction false} LeftEnd(s: string) returns (i: nat)
    ensures i <= |s| && LStrip(s) == s[i..]
    ensures forall k :: 0 <= k < i ==> s[k] as int in SPACES
    ensures i < |s| ==> s[i] as int !in SPACES
  {
    if s != "" && IsSpace(s[0]) {
      i := LeftEnd(s[1..]);
      i := i + 1;
    } else {
      i := 0;
    }
  }

  lemma {:induction false} RightEnd(s: string) returns (j: nat)
    ensures j <= |s| && RStrip(s) == s[..j]
    ensures forall k :: j <= k < |s| ==> s[k] as int in SPACES
    ensures 0 < j ==> s[j - 1] as int !in SPACES
  {
    if s != "" && IsSpace(s[|s| - 1]) {
      j := RightEnd(s[..|s| - 1]);
    } else {
      j := |s|;
    }
  }

  /** Strict lexicographic order. */
  predicate Less(a: string, b: string) {
    if b == "" then false
    else if a == "" then true
    else a[0] < b[0] || (a[0] == b[0] && Less(a[1..], b[1..]))
  }

  lemma {:induction false} LessIsStrict(a: string, b: string)
    ensures !(Less(a, b) && Less(b, a))
    ensures !Less(a, a)
  {
    if a != "" {
      LessIsStrict(a[1..], if b == "" then "" else b[1..]);
    }
  }

  /** Up to position `k` both are the same, and there the first ends or has the smaller character. */
  predicate SmallerAt(a: string, b: string, k: int) {
    0 <= k <= |a| && k < |b| && a[..k] == b[..k] && (k == |a| || a[k] < b[k])
  }

  lemma SmallerBehind(a: string, b: string, k: nat)
    requires a != "" && b != "" && a[0] == b[0]
    ensures SmallerAt(a, b, k + 1) <==> SmallerAt(a[1..], b[1..], k)
  {
    if k < |a| && k < |b| {
      assert a[..k + 1] == [a[0]] + a[1..][..k] && b[..k + 1] == [b[0]] + b[1..][..k];
      assert a[..k + 1][1..] == a[1..][..k] && b[..k + 1][1..] == b[1..][..k];
    }
  }

  lemma SmallerAtStart(a: string, b: string)
    ensures SmallerAt(a, b, 0) <==> b != "" && (a == "" || a[0] < b[0])
    ensures a != "" && b != "" && a[0] != b[0] ==> forall k :: SmallerAt(a, b, k) ==> k == 0
  {
    forall k | SmallerAt(a, b, k) && k > 0 ensures a[0] == b[0] {
      assert a[..k][0] == b[..k][0];
    }
  }

  /** The smaller text is a proper prefix of the other, or has the smaller character where they first differ. */
  lemma {:induction false} LessIsLexicographic(a: string, b: string)
    ensures Less(a, b) <==> exists k :: SmallerAt(a, b, k)
  {
    SmallerAtStart(a, b);
    if a != "" && b != "" && a[0] == b[0] {
      LessIsLexicographic(a[1..], b[1..]);
      if k :| SmallerAt(a[1..], b[1..], k) {
        SmallerBehind(a, b, k);
      }
      if k :| SmallerAt(a, b, k) {
        SmallerBehind(a, b, k - 1);
      }
    }
  }

  lemma {:induction false} LessIsTransitive(a: string, b: string, c: string)
    requires Less(a, b) && Less(b, c)
    ensures Less(a, c)
  {
    if a != "" && b[0] == a[0] && c[0] == b[0] {
      LessIsTransitive(a[1..], b[1..], c[1..]);
    }
  }

  lemma {:induction false} LessIsTotal(a: string, b: string)
    ensures a == b || Less(a, b) || Less(b, a)
  {
    if a != "" && b != "" && a[0] == b[0] {
      LessIsTotal(a[1..], b[1..]);
      assert a == [a[0]] + a[1..] && b == [b[0]] + b[1..];
    }
  }
}
