/** Percent-encoding over UTF-8 bytes: `quote`, `quote_plus` and `unquote` of `urllib.parse`. */
module Percent {
  import opened Text

  type Byte = b: int | 0 <= b < 256

  // ----- UTF-8 -------------------------------------------------------------

  /** The UTF-8 encoding of one character (section 3 of RFC 3629). */
  function Utf8(c: char): (bs: seq<Byte>)
    ensures |bs| > 0
  {
    var n := c as int;
    if n < 0x80 then [n]
    else if n < 0x800 then [0xC0 + n / 64, 0x80 + n % 64]
    else if n < 0x10000 then [0xE0 + n / 4096, 0x80 + n / 64 % 64, 0x80 + n % 64]
    else [0xF0 + n / 262144, 0x80 + n / 4096 % 64, 0x80 + n / 64 % 64, 0x80 + n % 64]
  }

  function Utf8All(s: string): seq<Byte> {
    if s == "" then [] else Utf8(s[0]) + Utf8All(s[1..])
  }

  const REPLACEMENT: char := '\U{FFFD}'

  predicate Continuation(b: Byte) { 0x80 <= b < 0xC0 }

  /** Which second bytes may follow a lead byte (table 3-7 of the Unicode Standard, chapter 3). */
  predicate SecondByte(lead: Byte, b: Byte) {
    Continuation(b)
    && (lead == 0xE0 ==> b >= 0xA0) && (lead == 0xED ==> b < 0xA0)
    && (lead == 0xF0 ==> b >= 0x90) && (lead == 0xF4 ==> b < 0x90)
  }

  /**
   * One step of `bytes.decode("utf-8", "replace")`: the character read and how many bytes it took.
   * An ill-formed sequence gives one replacement character for its longest well-formed start.
   */
  function DecodeStep(bs: seq<Byte>): (r: (char, nat))
    requires bs != []
    ensures 1 <= r.1 <= |bs|
  {
    var b := bs[0] as int;
    if b < 0x80 then (b as char, 1)
    else if b < 0xC2 || b > 0xF4 || |bs| < 2 || !SecondByte(b, bs[1]) then (REPLACEMENT, 1)
    else if b < 0xE0 then (Join2(b, bs[1]) as char, 2)
    else if |bs| < 3 || !Continuation(bs[2]) then (REPLACEMENT, 2)
    else if b < 0xF0 then (Join3(b, bs[1], bs[2]) as char, 3)
    else if |bs| < 4 || !Continuation(bs[3]) then (REPLACEMENT, 3)
    else (Join4(b, bs[1], bs[2], bs[3]) as char, 4)
  }

  function Join2(a: int, b: int): int { a % 32 * 64 + b % 64 }

  function Join3(a: int, b: int, c: int): int { a % 16 * 4096 + b % 64 * 64 + c % 64 }

  function Join4(a: int, b: int, c: int, d: int): int {
    a % 8 * 262144 + b % 64 * 4096 + c % 64 * 64 + d % 64
  }

  function DecodeUtf8(bs: seq<Byte>): string {
    if bs == [] then "" else
      var (c, n) := DecodeStep(bs);
      [c] + DecodeUtf8(bs[n..])
  }

  /** Base-64 digits put a number back together. */
  lemma Digits64(n: nat)
    ensures n == n / 64 * 64 + n % 64
    ensures n / 64 == n / 4096 * 64 + n / 64 % 64
    ensures n / 4096 == n / 262144 * 64 + n / 4096 % 64
  {
  }

  lemma MarksDrop(a: int, b: int, c: int, d: int)
    requires 0 <= b < 64 && 0 <= c < 64 && 0 <= d < 64
    ensures 0 <= a < 32 ==> Join2(0xC0 + a, 0x80 + b) == a * 64 + b
    ensures 0 <= a < 16 ==> Join3(0xE0 + a, 0x80 + b, 0x80 + c) == a * 4096 + b * 64 + c
    ensures 0 <= a < 8 ==> Join4(0xF0 + a, 0x80 + b, 0x80 + c, 0x80 + d) == a * 262144 + b * 4096 + c * 64 + d
  {
  }

  lemma Reads2(a: int, b: int, rest: seq<Byte>)
    requires 2 <= a < 32 && 0 <= b < 64
    ensures DecodeStep([0xC0 + a, 0x80 + b] + rest) == ((a * 64 + b) as char, 2)
  {
    MarksDrop(a, b, 0, 0);
  }

  lemma Reads3(a: int, b: int, c: int, rest: seq<Byte>)
    requires 0 <= a < 16 && 0 <= b < 64 && 0 <= c < 64
    requires (a == 0 ==> b >= 32) && (a == 13 ==> b < 32)
    ensures DecodeStep([0xE0 + a, 0x80 + b, 0x80 + c] + rest) == ((a * 4096 + b * 64 + c) as char, 3)
  {
    MarksDrop(a, b, c, 0);
  }

  lemma Reads4(a: int, b: int, c: int, d: int, rest: seq<Byte>)
    requires 0 <= a <= 4 && 0 <= b < 64 && 0 <= c < 64 && 0 <= d < 64
    requires (a == 0 ==> b >= 16) && (a == 4 ==> b < 16)
    ensures DecodeStep([0xF0 + a, 0x80 + b, 0x80 + c, 0x80 + d] + rest)
      == ((a * 262144 + b * 4096 + c * 64 + d) as char, 4)
  {
    MarksDrop(a, b, c, d);
  }

  /** Decoding reads back the first encoded character, whatever follows it. */
  lemma DecodeStepReads(c: char, rest: seq<Byte>)
    ensures DecodeStep(Utf8(c) + rest) == (c, |Utf8(c)|)
  {
    var n := c as int;
    Digits64(n);
    if n < 0x80 {
      assert (Utf8(c) + rest)[0] == n;
    } else {
      hide DecodeStep;
      if n < 0x800 {
        Reads2(n / 64, n % 64, rest);
      } else if n < 0x10000 {
        Reads3(n / 4096, n / 64 % 64, n % 64, rest);
      } else {
        Reads4(n / 262144, n / 4096 % 64, n / 64 % 64, n % 64, rest);
      }
    }
  }

  lemma {:induction false} DecodeEncode(s: string)
    ensures DecodeUtf8(Utf8All(s)) == s
  {
    if s == "" {
    } else {
      var rest := Utf8All(s[1..]);
      DecodeStepReads(s[0], rest);
      assert (Utf8(s[0]) + rest)[|Utf8(s[0])|..] == rest;
      DecodeEncode(s[1..]);
    }
  }

  // ----- Quoting -----------------------------------------------------------

  predicate Unreserved(c: char) {
    'A' <= c <= 'Z' || 'a' <= c <= 'z' || IsDigit(c) || c == '_' || c == '.' || c == '-' || c == '~'
  }

  predicate AllUnreserved(s: string) {
    forall i :: 0 <= i < |s| ==> Unreserved(s[i])
  }

  function HexDigit(n: int): char
    requires 0 <= n < 16
  {
    if n < 10 then (n + 48) as char else (n + 55) as char
  }

  function HexValue(c: char): Option<int> {
    if IsDigit(c) then Some(c as int - 48)
    else if 'A' <= c <= 'F' then Some(c as int - 55)
    else if 'a' <= c <= 'f' then Some(c as int - 87)
    else None
  }

  function PercentBytes(bs: seq<Byte>): string {
    if bs == [] then ""
    else ['%', HexDigit(bs[0] / 16), HexDigit(bs[0] % 16)] + PercentBytes(bs[1..])
  }

  function QuoteChar(c: char): string {
    if Unreserved(c) then [c] else PercentBytes(Utf8(c))
  }

  /** `quote(s, safe="")`. */
  function Quote(s: string): string {
    if s == "" then "" else QuoteChar(s[0]) + Quote(s[1..])
  }

  /** `quote_plus(s)`: as `quote`, with a space written `+`. */
  function QuotePlus(s: string): string {
    if s == "" then ""
    else (if s[0] == ' ' then "+" else QuoteChar(s[0])) + QuotePlus(s[1..])
  }

  /** `unquote_to_bytes(s)`. */
  function UnquoteBytes(s: string): seq<Byte> {
    if s == "" then []
    else if s[0] == '%' && |s| >= 3 && HexValue(s[1]).Some? && HexValue(s[2]).Some? then
      HexByte(s[1], s[2]) + UnquoteBytes(s[3..])
    else Utf8(s[0]) + UnquoteBytes(s[1..])
  }

  function HexByte(hi: char, lo: char): seq<Byte>
    requires HexValue(hi).Some? && HexValue(lo).Some?
  {
    [HexValue(hi).value * 16 + HexValue(lo).value]
  }

  /** `unquote(s)`, with invalid UTF-8 replaced. */
  function Unquote(s: string): string {
    DecodeUtf8(UnquoteBytes(s))
  }

  /** `s.replace("+", " ")`. */
  function PlusToSpace(s: string): string {
    if s == "" then "" else [if s[0] == '+' then ' ' else s[0]] + PlusToSpace(s[1..])
  }

  /** `unquote_plus(s)`. */
  function UnquotePlus(s: string): string {
    Unquote(PlusToSpace(s))
  }

  // ----- Single characters -------------------------------------------------

  /** The characters that are not encoded. */
  lemma UnreservedIs(c: char)
    ensures Unreserved(c) <==>
      c in CAPITALS || c in SMALL || c in "0123456789" || c in "_.-~"
  {
    LetterRanges(c);
    hide CAPITALS, SMALL;
    if IsDigit(c) {
      assert "0123456789"[c as int - '0' as int] == c;
    }
    assert "_.-~" == ['_', '.', '-', '~'];
  }

  /** Capital digits are written; digits in either letter case are read. */
  lemma HexIs(c: char, n: nat)
    requires n < 16
    ensures HexDigit(n) == "0123456789ABCDEF"[n]
    ensures HexValue(c) == Some(n) <==> c == "0123456789ABCDEF"[n] || c == "0123456789abcdef"[n]
    ensures HexValue(c).Some? ==> 0 <= HexValue(c).value < 16
  {
  }

  lemma {:induction false} BytesCons(b: Byte, bs: seq<Byte>)
    ensures PercentBytes([b] + bs) == ['%', HexDigit(b / 16), HexDigit(b % 16)] + PercentBytes(bs)
  {
    assert ([b] + bs)[1..] == bs;
  }

  /** Encoded characters of one to four bytes, as section 3 of RFC 3629 writes them. */
  lemma QuoteExamples()
    ensures QuoteChar('/') == "%2F" && QuoteChar('\U{E9}') == "%C3" + "%A9"
    ensures QuoteChar('\U{20AC}') == "%E2" + "%82" + "%AC"
    ensures QuoteChar('\U{1F600}') == "%F0" + "%9F" + "%98" + "%80"
  {
    BytesWritten(0x2F, 0, 0, 0);
    BytesWritten(0xC3, 0xA9, 0, 0);
    BytesWritten(0xE2, 0x82, 0xAC, 0);
    BytesWritten(0xF0, 0x9F, 0x98, 0x80);
    ExampleBytes();
    ExampleTriples();
    hide PercentBytes, Utf8, Triple, Unreserved;
  }

  lemma ExampleBytes()
    ensures Utf8('/') == [0x2F] && Utf8('\U{E9}') == [0xC3, 0xA9]
    ensures Utf8('\U{20AC}') == [0xE2, 0x82, 0xAC] && Utf8('\U{1F600}') == [0xF0, 0x9F, 0x98, 0x80]
    ensures forall c :: c == '/' || c as int >= 0x80 ==> !Unreserved(c)
  {
  }

  lemma ExampleTriples()
    ensures Triple(0x2F) == "%2F" && Triple(0xC3) == "%C3" && Triple(0xA9) == "%A9" && Triple(0xE2) == "%E2"
    ensures Triple(0x82) == "%82" && Triple(0xAC) == "%AC" && Triple(0xF0) == "%F0" && Triple(0x9F) == "%9F"
    ensures Triple(0x98) == "%98" && Triple(0x80) == "%80"
  {
  }

  function Triple(b: Byte): string {
    ['%', HexDigit(b / 16), HexDigit(b % 16)]
  }

  lemma BytesWritten(a: Byte, b: Byte, c: Byte, d: Byte)
    ensures PercentBytes([a]) == Triple(a) && PercentBytes([a, b]) == Triple(a) + Triple(b)
    ensures PercentBytes([a, b, c]) == Triple(a) + Triple(b) + Triple(c)
    ensures PercentBytes([a, b, c, d]) == Triple(a) + Triple(b) + Triple(c) + Triple(d)
  {
    BytesCons(d, []);
    BytesCons(c, []);
    BytesCons(b, []);
    BytesCons(a, []);
    hide HexDigit;
    assert PercentBytes([]) == "";
    BytesCons(c, [d]);
    BytesCons(b, [c]);
    BytesCons(b, [c, d]);
    BytesCons(a, [b]);
    BytesCons(a, [b, c]);
    BytesCons(a, [b, c, d]);
    hide PercentBytes;
    assert [a] + [b] == [a, b] && [b] + [c] == [b, c] && [c] + [d] == [c, d];
    assert [a] + [b, c] == [a, b, c] && [b] + [c, d] == [b, c, d] && [a] + [b, c, d] == [a, b, c, d];
    assert [a] + [] == [a] && [b] + [] == [b] && [c] + [] == [c] && [d] + [] == [d];
  }

  lemma HexInverse(b: Byte)
    ensures HexValue(HexDigit(b / 16)) == Some(b / 16) && HexValue(HexDigit(b % 16)) == Some(b % 16)
    ensures HexByte(HexDigit(b / 16), HexDigit(b % 16)) == [b]
  {
  }

  lemma {:induction false} UnquotePercent(bs: seq<Byte>, t: string)
    ensures UnquoteBytes(PercentBytes(bs) + t) == bs + UnquoteBytes(t)
  {
    if bs == [] {
      assert PercentBytes(bs) + t == t;
    } else {
      hide UnquoteBytes, HexDigit;
      var head, rest := ['%', HexDigit(bs[0] / 16), HexDigit(bs[0] % 16)], PercentBytes(bs[1..]);
      assert PercentBytes(bs) == head + rest;
      Concat3(head, rest, t);
      UnquoteTriple(bs[0], rest + t);
      UnquotePercent(bs[1..], t);
      Concat3([bs[0]], bs[1..], UnquoteBytes(t));
      assert [bs[0]] + bs[1..] == bs;
    }
  }

  lemma {:induction false} UnquoteTriple(b: Byte, t: string)
    ensures UnquoteBytes(['%', HexDigit(b / 16), HexDigit(b % 16)] + t) == [b] + UnquoteBytes(t)
  {
    HexInverse(b);
    var s := ['%', HexDigit(b / 16), HexDigit(b % 16)] + t;
    assert s[3..] == t;
  }

  lemma {:induction false} UnquoteQuoteChar(c: char, t: string)
    ensures UnquoteBytes(QuoteChar(c) + t) == Utf8(c) + UnquoteBytes(t)
  {
    if Unreserved(c) {
      assert ([c] + t)[1..] == t;
    } else {
      UnquotePercent(Utf8(c), t);
    }
  }

  lemma {:induction false} UnquoteQuoteBytes(s: string)
    ensures UnquoteBytes(Quote(s)) == Utf8All(s)
  {
    if s == "" {
    } else {
      UnquoteQuoteChar(s[0], Quote(s[1..]));
      UnquoteQuoteBytes(s[1..]);
    }
  }

  /** Decoding undoes encoding, for every string. */
  lemma {:induction false} UnquoteQuote(s: string)
    ensures Unquote(Quote(s)) == s
  {
    UnquoteQuoteBytes(s);
    DecodeEncode(s);
  }

  // ----- Decoding what need not be encoded ---------------------------------

  /** Any other character is itself. */
  lemma UnquoteOther(c: char, t: string)
    requires c != '%'
    ensures Unquote([c] + t) == [c] + Unquote(t)
  {
    assert ([c] + t)[1..] == t;
    DecodeStepReads(c, UnquoteBytes(t));
    assert (Utf8(c) + UnquoteBytes(t))[|Utf8(c)|..] == UnquoteBytes(t);
  }

  /** A percent sign that is not followed by two hexadecimal digits is itself. */
  lemma UnquoteStray(t: string)
    requires |t| < 2 || HexValue(t[0]).None? || HexValue(t[1]).None?
    ensures Unquote("%" + t) == "%" + Unquote(t)
  {
    assert ("%" + t)[1..] == t;
    DecodeStepReads('%', UnquoteBytes(t));
    assert (Utf8('%') + UnquoteBytes(t))[1..] == UnquoteBytes(t);
  }

  /** Two digits in either letter case are one byte: an ASCII character, or a replacement where it can start none. */
  lemma UnquoteByte(hi: char, lo: char, t: string)
    requires HexValue(hi).Some? && HexValue(lo).Some?
    ensures var b := 16 * HexValue(hi).value + HexValue(lo).value;
      && (b < 0x80 ==> Unquote(['%', hi, lo] + t) == [b as char] + Unquote(t))
      && (0x80 <= b < 0xC2 || b > 0xF4 ==> Unquote(['%', hi, lo] + t) == [REPLACEMENT] + Unquote(t))
  {
    var b := 16 * HexValue(hi).value + HexValue(lo).value;
    var s := ['%', hi, lo] + t;
    assert s[3..] == t && s[1] == hi && s[2] == lo;
    assert HexByte(hi, lo) == [b];
    assert UnquoteBytes(s) == [b] + UnquoteBytes(t);
    assert ([b] + UnquoteBytes(t))[1..] == UnquoteBytes(t);
  }

  lemma UnquoteEmpty()
    ensures Unquote("") == "" && UnquotePlus("") == "" && QuotePlus("") == "" && Quote("") == ""
  {
  }

  /** Form decoding is decoding with a plus sign read as a space. */
  lemma UnquotePlusCons(c: char, t: string)
    ensures c == '+' ==> UnquotePlus([c] + t) == " " + UnquotePlus(t)
    ensures c != '+' && c != '%' ==> UnquotePlus([c] + t) == [c] + UnquotePlus(t)
  {
    hide Unquote;
    assert ([c] + t)[1..] == t;
    UnquoteOther(if c == '+' || c == '%' then ' ' else c, PlusToSpace(t));
  }

  /** Form encoding is encoding with a space written as a plus sign. */
  lemma {:induction false} QuotePlusCons(c: char, t: string)
    ensures QuotePlus([c] + t) == (if c == ' ' then "+" else Quote([c])) + QuotePlus(t)
    ensures Quote([c] + t) == Quote([c]) + Quote(t)
  {
    hide QuoteChar;
    assert ([c] + t)[1..] == t && [c][1..] == "";
    assert Quote([c]) == QuoteChar(c) + Quote("") == QuoteChar(c);
  }

  lemma {:induction false} QuoteInjective(s: string, t: string)
    requires Quote(s) == Quote(t)
    ensures s == t
  {
    UnquoteQuote(s);
    UnquoteQuote(t);
  }

  // ----- What encoded text is made of --------------------------------------

  /** The characters `quote` can produce. */
  predicate Encoded(c: char) {
    Unreserved(c) || c == '%'
  }

  predicate AllEncoded(s: string) {
    forall i :: 0 <= i < |s| ==> Encoded(s[i])
  }

  lemma {:induction false} PercentBytesEncoded(bs: seq<Byte>)
    ensures AllEncoded(PercentBytes(bs))
    ensures bs != [] ==> PercentBytes(bs) != "" && PercentBytes(bs)[0] == '%'
  {
    if bs == [] {
    } else {
      PercentBytesEncoded(bs[1..]);
    }
  }

  lemma {:induction false} QuoteEncoded(s: string)
    ensures AllEncoded(Quote(s))
    ensures s != "" ==> Quote(s) != ""
  {
    if s == "" {
    } else {
      PercentBytesEncoded(Utf8(s[0]));
      QuoteEncoded(s[1..]);
    }
  }

  lemma {:induction false} QuotePlusEncoded(s: string)
    ensures forall i :: 0 <= i < |QuotePlus(s)| ==> Encoded(QuotePlus(s)[i]) || QuotePlus(s)[i] == '+'
  {
    if s == "" {
    } else {
      PercentBytesEncoded(Utf8(s[0]));
      QuotePlusEncoded(s[1..]);
    }
  }

  /** Encoding leaves a string alone exactly when it has only unreserved characters. */
  lemma {:induction false} QuoteFixed(s: string)
    ensures Quote(s) == s <==> AllUnreserved(s)
    ensures |Quote(s)| >= |s|
  {
    if s == "" {
    } else {
      QuoteFixed(s[1..]);
      PercentBytesEncoded(Utf8(s[0]));
      assert s == [s[0]] + s[1..];
      if Unreserved(s[0]) {
        assert Quote(s)[1..] == Quote(s[1..]);
      } else {
        assert PercentBytes(Utf8(s[0]))
          == ['%', PercentBytes(Utf8(s[0]))[1], PercentBytes(Utf8(s[0]))[2]] + PercentBytes(Utf8(s[0])[1..]);
        assert |Quote(s)| > |s|;
      }
    }
  }

  lemma {:induction false} ReservedShows(s: string)
    requires !AllUnreserved(s)
    ensures '%' in Quote(s)
  {
    PercentBytesEncoded(Utf8(s[0]));
    if Unreserved(s[0]) {
      assert s == [s[0]] + s[1..];
      ReservedShows(s[1..]);
    } else {
      assert Quote(s)[0] == '%';
    }
  }

  // ----- The form encoding -------------------------------------------------

  lemma {:induction false} PlusAppend(s: string, t: string)
    ensures PlusToSpace(s + t) == PlusToSpace(s) + PlusToSpace(t)
  {
    if s == "" {
      assert s + t == t;
    } else {
      assert (s + t)[1..] == s[1..] + t;
      PlusAppend(s[1..], t);
    }
  }

  lemma {:induction false} PlusKeeps(s: string)
    requires '+' !in s
    ensures PlusToSpace(s) == s
  {
    if s == "" {
    } else {
      assert s[0] in s && s == [s[0]] + s[1..];
      PlusKeeps(s[1..]);
    }
  }

  lemma {:induction false} UnquotePlusBytes(s: string)
    ensures UnquoteBytes(PlusToSpace(QuotePlus(s))) == Utf8All(s)
  {
    if s == "" {
    } else {
      var rest := QuotePlus(s[1..]);
      UnquotePlusBytes(s[1..]);
      if s[0] == ' ' {
        PlusAppend("+", rest);
        assert PlusToSpace("+") == " ";
        assert (" " + PlusToSpace(rest))[1..] == PlusToSpace(rest);
      } else {
        PlusAppend(QuoteChar(s[0]), rest);
        PercentBytesEncoded(Utf8(s[0]));
        PlusKeeps(QuoteChar(s[0]));
        UnquoteQuoteChar(s[0], PlusToSpace(rest));
      }
    }
  }

  /** Form decoding undoes form encoding, for every string. */
  lemma {:induction false} UnquotePlusQuotePlus(s: string)
    ensures UnquotePlus(QuotePlus(s)) == s
  {
    UnquotePlusBytes(s);
    DecodeEncode(s);
  }
}
