/** UTF-8, as Python encodes text and decodes bytes with errors="replace". */
module Utf8 {

  type Byte = n: nat | n < 256

  const REPLACEMENT := '\U{FFFD}'

  function EncodeChar(c: char): (bs: seq<Byte>)
    ensures 1 <= |bs| <= 4
  {
    var n := c as nat;
    if n < 0x80 then [n]
    else if n < 0x800 then [0xC0 + n / 0x40, 0x80 + n % 0x40]
    else if n < 0x10000 then [0xE0 + n / 0x1000, 0x80 + n / 0x40 % 0x40, 0x80 + n % 0x40]
    else [0xF0 + n / 0x40000, 0x80 + n / 0x1000 % 0x40, 0x80 + n / 0x40 % 0x40, 0x80 + n % 0x40]
  }

  function Encode(s: string): seq<Byte> {
    if s == "" then [] else EncodeChar(s[0]) + Encode(s[1..])
  }

  predicate Continues(b: Byte) { 0x80 <= b < 0xC0 }

  /** The second bytes a lead byte admits: no overlong forms, no surrogates, nothing above U+10FFFF. */
  predicate SecondOk(lead: Byte, b: Byte) {
    && Continues(b)
    && (lead == 0xE0 ==> b >= 0xA0)
    && (lead == 0xED ==> b < 0xA0)
    && (lead == 0xF0 ==> b >= 0x90)
    && (lead == 0xF4 ==> b < 0x90)
  }

  function Two(lead: int, b: int): int { (lead - 0xC0) * 0x40 + (b - 0x80) }

  function Three(lead: int, b: int, c: int): int { (lead - 0xE0) * 0x1000 + (b - 0x80) * 0x40 + (c - 0x80) }

  function Four(lead: int, b: int, c: int, d: int): int {
    (lead - 0xF0) * 0x40000 + (b - 0x80) * 0x1000 + (c - 0x80) * 0x40 + (d - 0x80)
  }

  /** One character and the number of bytes it takes; a maximal ill-formed part becomes one U+FFFD. */
  function DecodeChar(bs: seq<Byte>): (r: (char, nat))
    requires bs != []
    ensures 1 <= r.1 <= |bs|
  {
    var lead := bs[0];
    if lead < 0x80 then (lead as char, 1)
    else if lead < 0xC2 || lead > 0xF4 || |bs| < 2 || !SecondOk(lead, bs[1]) then (REPLACEMENT, 1)
    else if lead < 0xE0 then (Two(lead, bs[1]) as char, 2)
    else if |bs| < 3 || !Continues(bs[2]) then (REPLACEMENT, 2)
    else if lead < 0xF0 then (Three(lead, bs[1], bs[2]) as char, 3)
    else if |bs| < 4 || !Continues(bs[3]) then (REPLACEMENT, 3)
    else (Four(lead, bs[1], bs[2], bs[3]) as char, 4)
  }

  function Decode(bs: seq<Byte>): string {
    if bs == [] then ""
    else
      var (c, n) := DecodeChar(bs);
      [c] + Decode(bs[n..])
  }

  lemma TwoBytes(n: nat)
    requires 0x80 <= n < 0x800
    ensures Two(0xC0 + n / 0x40, 0x80 + n % 0x40) == n && 0xC2 <= 0xC0 + n / 0x40 < 0xE0
  {}

  lemma ThreeBytes(n: nat)
    requires 0x800 <= n < 0x10000 && !(0xD800 <= n < 0xE000)
    ensures var lead, b, c := 0xE0 + n / 0x1000, 0x80 + n / 0x40 % 0x40, 0x80 + n % 0x40;
            && Three(lead, b, c) == n
            && 0xE0 <= lead < 0xF0 && (lead == 0xE0 ==> b >= 0xA0) && (lead == 0xED ==> b < 0xA0)
  {
    var m := n / 0x40;
    assert n == m * 0x40 + n % 0x40 && n / 0x1000 == m / 0x40;
    assert m == m / 0x40 * 0x40 + m % 0x40;
  }

  lemma FourBytes(n: nat)
    requires 0x10000 <= n < 0x110000
    ensures var lead, b, c, d := 0xF0 + n / 0x40000, 0x80 + n / 0x1000 % 0x40, 0x80 + n / 0x40 % 0x40, 0x80 + n % 0x40;
            && Four(lead, b, c, d) == n
            && 0xF0 <= lead <= 0xF4 && (lead == 0xF0 ==> b >= 0x90) && (lead == 0xF4 ==> b < 0x90)
  {
    var m := n / 0x40;
    var l := n / 0x1000;
    assert n == m * 0x40 + n % 0x40 && l == m / 0x40 && n / 0x40000 == l / 0x40;
    assert m == l * 0x40 + m % 0x40;
    assert l == l / 0x40 * 0x40 + l % 0x40;
  }

  lemma DecodeEncodedChar(c: char, rest: seq<Byte>)
    ensures DecodeChar(EncodeChar(c) + rest) == (c, |EncodeChar(c)|)
  {
    var n := c as nat;
    if 0x80 <= n < 0x800 {
      TwoBytes(n);
    } else if 0x800 <= n < 0x10000 {
      ThreeBytes(n);
    } else if n >= 0x10000 {
      FourBytes(n);
    }
    Prefixed(EncodeChar(c), rest);
  }

  /** Decoding a whole character looks at no byte behind it. */
  lemma Prefixed(bs: seq<Byte>, rest: seq<Byte>)
    requires bs != []
    requires |bs| == if bs[0] < 0x80 then 1 else if bs[0] < 0xE0 then 2 else if bs[0] < 0xF0 then 3 else 4
    ensures DecodeChar(bs + rest) == DecodeChar(bs)
  {}

  lemma TwoEncoded(lead: nat, b: nat)
    requires 0xC2 <= lead < 0xE0 && 0x80 <= b < 0xC0
    ensures var n := Two(lead, b); 0x80 <= n < 0x800 && 0xC0 + n / 0x40 == lead && 0x80 + n % 0x40 == b
  {}

  lemma ThreeEncoded(lead: nat, b: nat, c: nat)
    requires 0xE0 <= lead < 0xF0 && 0x80 <= b < 0xC0 && 0x80 <= c < 0xC0
    requires (lead == 0xE0 ==> b >= 0xA0) && (lead == 0xED ==> b < 0xA0)
    ensures var n := Three(lead, b, c);
            && 0x800 <= n < 0x10000 && !(0xD800 <= n < 0xE000)
            && 0xE0 + n / 0x1000 == lead && 0x80 + n / 0x40 % 0x40 == b && 0x80 + n % 0x40 == c
  {
    var n := Three(lead, b, c);
    assert n / 0x40 == (lead - 0xE0) * 0x40 + (b - 0x80);
  }

  lemma FourEncoded(lead: nat, b: nat, c: nat, d: nat)
    requires 0xF0 <= lead <= 0xF4 && 0x80 <= b < 0xC0 && 0x80 <= c < 0xC0 && 0x80 <= d < 0xC0
    requires (lead == 0xF0 ==> b >= 0x90) && (lead == 0xF4 ==> b < 0x90)
    ensures var n := Four(lead, b, c, d);
            && 0x10000 <= n < 0x110000
            && 0xF0 + n / 0x40000 == lead && 0x80 + n / 0x1000 % 0x40 == b
            && 0x80 + n / 0x40 % 0x40 == c && 0x80 + n % 0x40 == d
  {
    var n := Four(lead, b, c, d);
    assert n / 0x40 == (lead - 0xF0) * 0x1000 + (b - 0x80) * 0x40 + (c - 0x80);
    assert n / 0x1000 == (lead - 0xF0) * 0x40 + (b - 0x80);
  }

  /** Decoding accepts nothing but the encoding of a character: bytes that are none become U+FFFD, at most
      three of them at once. */
  lemma DecodeIsStrict(bs: seq<Byte>)
    requires bs != []
    ensures var (c, n) := DecodeChar(bs); EncodeChar(c) == bs[..n] || (c == '\U{FFFD}' && n <= 3)
  {
    var lead := bs[0];
    if lead < 0x80 {
    } else if lead < 0xC2 || lead > 0xF4 || |bs| < 2 || !SecondOk(lead, bs[1]) {
    } else if lead < 0xE0 {
      TwoEncoded(lead, bs[1]);
    } else if |bs| < 3 || !Continues(bs[2]) {
    } else if lead < 0xF0 {
      ThreeEncoded(lead, bs[1], bs[2]);
    } else if |bs| < 4 || !Continues(bs[3]) {
    } else {
      FourEncoded(lead, bs[1], bs[2], bs[3]);
    }
  }

  /** Decoding what was encoded gives the text back. */
  lemma {:induction false} DecodeEncode(s: string)
    ensures Decode(Encode(s)) == s
  {
    if s != "" {
      DecodeEncodedChar(s[0], Encode(s[1..]));
      assert (EncodeChar(s[0]) + Encode(s[1..]))[|EncodeChar(s[0])|..] == Encode(s[1..]);
      DecodeEncode(s[1..]);
    }
  }
}

/** Percent-encoding (section 2.1 of RFC 3986), as urllib's quote and unquote do it. */
module Percent {
  import Text
  import opened Utf8

  predicate Ascii(c: char) { c as nat < 0x80 }

  predicate IsLetter(c: char) { 'a' <= c <= 'z' || 'A' <= c <= 'Z' }

  /** The bytes quote(safe="") leaves alone. */
  predicate Unreserved(b: Byte) {
    b < 0x80
    && var c := b as char;
       IsLetter(c) || '0' <= c <= '9' || c == '_' || c == '.' || c == '-' || c == '~'
  }

  function HexDigit(n: nat): char
    requires n < 16
  {
    if n < 10 then '0' + n as char else 'A' + (n - 10) as char
  }

  predicate IsHex(c: char) { '0' <= c <= '9' || 'A' <= c <= 'F' || 'a' <= c <= 'f' }

  function HexValue(c: char): (n: nat)
    requires IsHex(c)
    ensures n < 16
  {
    if c <= '9' then (c - '0') as nat
    else if c <= 'F' then (c - 'A') as nat + 10
    else (c - 'a') as nat + 10
  }

  function QuoteByte(b: Byte): string {
    if Unreserved(b) then [b as char] else ['%', HexDigit(b / 16), HexDigit(b % 16)]
  }

  function QuoteBytes(bs: seq<Byte>): string {
    if bs == [] then "" else QuoteByte(bs[0]) + QuoteBytes(bs[1..])
  }

  function Quote(s: string): string { QuoteBytes(Encode(s)) }

  /** A percent sign without two hex digits behind it stands for itself. */
  function UnquoteBytes(s: string): seq<Byte>
    requires forall i :: 0 <= i < |s| ==> Ascii(s[i])
  {
    if s == "" then []
    else if s[0] == '%' && |s| >= 3 && IsHex(s[1]) && IsHex(s[2]) then
      [16 * HexValue(s[1]) + HexValue(s[2])] + UnquoteBytes(s[3..])
    else
      assert Ascii(s[0]);
      var b: Byte := s[0] as nat;
      [b] + UnquoteBytes(s[1..])
  }

  function AsciiRun(s: string): (n: nat)
    ensures n <= |s|
    ensures forall i :: 0 <= i < n ==> Ascii(s[i])
    ensures n < |s| ==> !Ascii(s[n])
  {
    if s == "" || !Ascii(s[0]) then 0 else 1 + AsciiRun(s[1..])
  }

  /** Runs of ASCII text are unquoted to bytes and decoded; other characters are kept. */
  function Unquote(s: string): string {
    if s == "" then ""
    else
      var n := AsciiRun(s);
      if n == 0 then [s[0]] + Unquote(s[1..]) else Decode(UnquoteBytes(s[..n])) + Unquote(s[n..])
  }

  /** The characters of quoted text: unreserved ones and percent signs. */
  predicate QuotedChar(c: char) {
    IsLetter(c) || '0' <= c <= '9' || c == '_' || c == '.' || c == '-' || c == '~' || c == '%'
  }

  predicate QuotedText(s: string) { forall i :: 0 <= i < |s| ==> QuotedChar(s[i]) }

  lemma QuotedHead(b: Byte, tail: string)
    requires QuotedText(tail)
    ensures QuotedText(QuoteByte(b) + tail) && UnquoteBytes(QuoteByte(b) + tail) == [b] + UnquoteBytes(tail)
  {
    var head := QuoteByte(b);
    var all := head + tail;
    forall i | 0 <= i < |all| ensures QuotedChar(all[i]) {
      assert i >= |head| ==> all[i] == tail[i - |head|];
    }
    assert all[|head|..] == tail;
    if !Unreserved(b) {
      HexBack(b / 16);
      HexBack(b % 16);
      assert all[0] == '%' && all[1] == HexDigit(b / 16) && all[2] == HexDigit(b % 16);
    }
  }

  lemma HexBack(n: nat)
    requires n < 16
    ensures IsHex(HexDigit(n)) && HexValue(HexDigit(n)) == n
  {}

  lemma {:induction false} UnquoteQuotedBytes(bs: seq<Byte>)
    ensures QuotedText(QuoteBytes(bs)) && UnquoteBytes(QuoteBytes(bs)) == bs
  {
    if bs != [] {
      UnquoteQuotedBytes(bs[1..]);
      QuotedHead(bs[0], QuoteBytes(bs[1..]));
    }
  }

  // ---------------------------------------------------------------- what quoting does to a byte

  lemma HexDigitText(n: nat)
    requires n < 16
    ensures HexDigit(n) == "0123456789ABCDEF"[n]
  {
    assert n in {0, 1, 2, 3, 4, 5, 6, 7, 8, 9, 10, 11, 12, 13, 14, 15};
  }

  /** Letters, digits and the four marks stay; any other byte becomes a percent sign and two upper-case hex
      digits, the high one first. */
  lemma QuotedByte(b: Byte, high: nat, low: nat)
    requires b == 16 * high + low && low < 16 && high < 16
    ensures var kept := 'a' as int <= b <= 'z' as int || 'A' as int <= b <= 'Z' as int || '0' as int <= b <= '9' as int
                        || b in {'_' as int, '.' as int, '-' as int, '~' as int};
            QuoteByte(b) == if kept then [b as char] else ['%', "0123456789ABCDEF"[high], "0123456789ABCDEF"[low]]
  {
    assert b / 16 == high && b % 16 == low;
    HexDigitText(high);
    HexDigitText(low);
  }

  /** Unquoting reads hex digits in either case. */
  lemma HexInAnyCase(c: char, n: nat)
    requires n < 16
    ensures IsHex(c) && HexValue(c) == n <==> Text.SameLetter(c, "0123456789ABCDEF"[n])
  {
    HexDigitText(n);
  }

  /** A percent sign with two hex digits behind it. */
  predicate EscapeAt(s: string, i: int) { 0 <= i < |s| - 2 && s[i] == '%' && IsHex(s[i + 1]) && IsHex(s[i + 2]) }

  ghost predicate NoEscape(s: string) { forall i :: !EscapeAt(s, i) }

  lemma {:induction false} NoEscapeBytes(s: string)
    requires (forall i :: 0 <= i < |s| ==> Ascii(s[i])) && NoEscape(s)
    ensures UnquoteBytes(s) == Encode(s)
  {
    if s != "" {
      assert !EscapeAt(s, 0);
      NoEscapeIn(s, 1);
      NoEscapeBytes(s[1..]);
    }
  }

  /** Text without an escape is left alone, stray percent signs and characters beyond ASCII included. */
  lemma {:induction false} UnquoteLeavesRest(s: string)
    requires NoEscape(s)
    ensures Unquote(s) == s
    decreases |s|
  {
    if s != "" {
      var n := AsciiRun(s);
      UnquoteUnfolds(s);
      if n == 0 {
        NoEscapeIn(s, 1);
        UnquoteLeavesRest(s[1..]);
        assert s == [s[0]] + s[1..];
      } else {
        NoEscapeIn(s, n);
        RunStays(s[..n]);
        UnquoteLeavesRest(s[n..]);
        assert s == s[..n] + s[n..];
      }
    }
  }

  lemma UnquoteUnfolds(s: string)
    requires s != ""
    ensures var n := AsciiRun(s);
            Unquote(s) == if n == 0 then [s[0]] + Unquote(s[1..]) else Decode(UnquoteBytes(s[..n])) + Unquote(s[n..])
  {}

  lemma NoEscapeIn(s: string, m: nat)
    requires m <= |s| && NoEscape(s)
    ensures NoEscape(s[..m]) && NoEscape(s[m..])
  {
    forall i ensures !EscapeAt(s[..m], i) && !EscapeAt(s[m..], i) {
      assert !EscapeAt(s, i) && !EscapeAt(s, m + i);
    }
  }

  lemma RunStays(run: string)
    requires (forall i :: 0 <= i < |run| ==> Ascii(run[i])) && NoEscape(run)
    ensures Decode(UnquoteBytes(run)) == run
  {
    NoEscapeBytes(run);
    DecodeEncode(run);
  }

  /** Unquoting what was quoted gives the text back, whatever characters it holds. */
  lemma UnquoteQuote(s: string)
    ensures QuotedText(Quote(s)) && Unquote(Quote(s)) == s
  {
    var q := Quote(s);
    UnquoteQuotedBytes(Encode(s));
    DecodeEncode(s);
    if q != "" {
      assert AsciiRun(q) == |q|;
      assert q[..|q|] == q && q[|q|..] == "";
    }
  }
}
