/** UTF-8 and percent-encoding (section 2.1 of RFC 3986), with their inverses. */
module PercentEncoding {
  import opened Wrappers

  newtype Byte = b: int | 0 <= b < 256

  // ---------- UTF-8 ----------

  function Utf8Char(c: char): seq<Byte> {
    var n := c as int;
    if n < 0x80 then [n as Byte]
    else if n < 0x800 then [(0xC0 + n / 0x40) as Byte, (0x80 + n % 0x40) as Byte]
    else if n < 0x10000 then
      [(0xE0 + n / 0x1000) as Byte, (0x80 + n / 0x40 % 0x40) as Byte, (0x80 + n % 0x40) as Byte]
    else
      [(0xF0 + n / 0x40000) as Byte, (0x80 + n / 0x1000 % 0x40) as Byte, (0x80 + n / 0x40 % 0x40) as Byte,
       (0x80 + n % 0x40) as Byte]
  }

  function Utf8(s: string): seq<Byte> { if s == "" then [] else Utf8Char(s[0]) + Utf8(s[1..]) }

  /** The length of the sequence that a first byte announces; 0 for bytes that start none. */
  function SequenceLength(b: Byte): nat {
    if b < 0x80 then 1 else if b < 0xC0 then 0 else if b < 0xE0 then 2 else if b < 0xF0 then 3 else 4
  }

  function Tail(b: Byte): int { b as int - 0x80 }

  function CodePoint(bs: seq<Byte>): int
    requires bs != [] && 0 < SequenceLength(bs[0]) <= |bs|
  {
    match SequenceLength(bs[0])
    case 1 => bs[0] as int
    case 2 => (bs[0] as int - 0xC0) * 0x40 + Tail(bs[1])
    case 3 => (bs[0] as int - 0xE0) * 0x1000 + Tail(bs[1]) * 0x40 + Tail(bs[2])
    case _ => (bs[0] as int - 0xF0) * 0x40000 + Tail(bs[1]) * 0x1000 + Tail(bs[2]) * 0x40 + Tail(bs[3])
  }

  predicate IsScalar(n: int) { 0 <= n < 0xD800 || 0xE000 <= n < 0x110000 }

  function FromUtf8(bs: seq<Byte>): Option<string> {
    if bs == [] then Some("")
    else
      var n := SequenceLength(bs[0]);
      if n == 0 || n > |bs| || !IsScalar(CodePoint(bs)) then None
      else
        var rest := FromUtf8(bs[n..]);
        if rest == None then None else Some([CodePoint(bs) as char] + rest.value)
  }

  lemma SixBitGroups(n: nat)
    ensures n / 0x1000 == n / 0x40 / 0x40 && n / 0x40000 == n / 0x1000 / 0x40
    ensures n == n / 0x40 * 0x40 + n % 0x40
    ensures n == n / 0x1000 * 0x1000 + n / 0x40 % 0x40 * 0x40 + n % 0x40
  {
  }

  ghost predicate ReadsBack(c: char, bs: seq<Byte>) {
    |bs| > 0 && SequenceLength(bs[0]) == |bs| && CodePoint(bs) == c as int
  }

  lemma ShortReadsBack(c: char)
    requires c as int < 0x800
    ensures ReadsBack(c, Utf8Char(c))
  {
  }

  lemma LongReadsBack(c: char)
    requires 0x800 <= c as int < 0x10000
    ensures ReadsBack(c, Utf8Char(c))
  {
    var n, bs := c as int, Utf8Char(c);
    SixBitGroups(n);
    assert |bs| == 3 && bs[0] as int == 0xE0 + n / 0x1000 && Tail(bs[1]) == n / 0x40 % 0x40 && Tail(bs[2]) == n % 0x40;
  }

  lemma LongestReadsBack(c: char)
    requires 0x10000 <= c as int
    ensures ReadsBack(c, Utf8Char(c))
  {
    var n, bs := c as int, Utf8Char(c);
    SixBitGroups(n);
    SixBitGroups(n / 0x40);
    assert |bs| == 4 && bs[0] as int == 0xF0 + n / 0x40000 && Tail(bs[1]) == n / 0x1000 % 0x40;
    assert Tail(bs[2]) == n / 0x40 % 0x40 && Tail(bs[3]) == n % 0x40;
  }

  lemma MoreBytesChangeNothing(bs: seq<Byte>, rest: seq<Byte>)
    requires bs != [] && SequenceLength(bs[0]) == |bs|
    ensures (bs + rest)[0] == bs[0] && CodePoint(bs + rest) == CodePoint(bs) && (bs + rest)[|bs|..] == rest
  {
  }

  lemma CharReadsBack(c: char, rest: seq<Byte>)
    ensures var bs := Utf8Char(c) + rest;
      && bs != [] && SequenceLength(bs[0]) == |Utf8Char(c)| <= |bs| && CodePoint(bs) == c as int
      && bs[|Utf8Char(c)|..] == rest
  {
    if c as int < 0x800 { ShortReadsBack(c); } else if c as int < 0x10000 { LongReadsBack(c); } else { LongestReadsBack(c); }
    MoreBytesChangeNothing(Utf8Char(c), rest);
  }

  lemma {:induction false} Utf8ReadsBack(s: string)
    ensures FromUtf8(Utf8(s)) == Some(s)
  {
    if s != "" {
      Utf8ReadsBack(s[1..]);
      CharReadsBack(s[0], Utf8(s[1..]));
      assert [s[0]] + s[1..] == s;
    }
  }

  // ---------- percent-encoding ----------

  predicate Unreserved(b: Byte) {
    || 0x30 <= b <= 0x39 || 0x41 <= b <= 0x5A || 0x61 <= b <= 0x7A
    || b == 0x2D || b == 0x2E || b == 0x5F || b == 0x7E
  }

  function HexDigit(n: int): char
    requires 0 <= n < 16
  {
    if n < 10 then (0x30 + n) as char else (0x41 + n - 10) as char
  }

  function HexValue(c: char): int {
    if '0' <= c <= '9' then c as int - 0x30
    else if 'A' <= c <= 'F' then c as int - 0x41 + 10
    else if 'a' <= c <= 'f' then c as int - 0x61 + 10
    else -1
  }

  function QuoteByte(b: Byte): string {
    if Unreserved(b) then [b as char] else ['%', HexDigit(b as int / 16), HexDigit(b as int % 16)]
  }

  function QuoteBytes(bs: seq<Byte>): string {
    if bs == [] then "" else QuoteByte(bs[0]) + QuoteBytes(bs[1..])
  }

  function Quote(s: string): string { QuoteBytes(Utf8(s)) }

  /** Read percent-encoded text: a percent sign must be followed by two hex digits, and other characters stand for themselves. */
  function Unquote(s: string): Option<seq<Byte>> {
    if s == "" then Some([])
    else if s[0] == '%' then
      if |s| < 3 || HexValue(s[1]) < 0 || HexValue(s[2]) < 0 then None
      else
        var rest := Unquote(s[3..]);
        if rest == None then None else Some([(HexValue(s[1]) * 16 + HexValue(s[2])) as Byte] + rest.value)
    else if s[0] as int >= 0x80 then None
    else
      var rest := Unquote(s[1..]);
      if rest == None then None else Some([s[0] as int as Byte] + rest.value)
  }

  function Read(s: string): Option<string> {
    var bs := Unquote(s);
    if bs == None then None else FromUtf8(bs.value)
  }

  lemma {:induction false} BytesReadBack(bs: seq<Byte>)
    ensures Unquote(QuoteBytes(bs)) == Some(bs)
  {
    if bs != [] {
      var b, rest := bs[0], QuoteBytes(bs[1..]);
      BytesReadBack(bs[1..]);
      var s := QuoteByte(b) + rest;
      assert s[|QuoteByte(b)|..] == rest;
      assert [b] + bs[1..] == bs;
    }
  }

  /** Reading what was quoted gives the text back, whatever the text. */
  lemma QuoteReadsBack(s: string)
    ensures Read(Quote(s)) == Some(s)
  {
    Utf8ReadsBack(s);
    BytesReadBack(Utf8(s));
  }

  // ---------- text that reads as itself ----------

  lemma {:induction false} UnquoteShortens(s: string)
    requires Unquote(s).Some?
    ensures |Unquote(s).value| <= |s| && ('%' in s ==> |Unquote(s).value| < |s|)
    ensures forall i :: 0 <= i < |s| ==> s[i] as int < 0x80
  {
    if s != "" && s[0] == '%' {
      UnquoteShortens(s[3..]);
      assert s == s[..3] + s[3..];
    } else if s != "" {
      UnquoteShortens(s[1..]);
      assert s == [s[0]] + s[1..];
    }
  }

  lemma {:induction false} FromUtf8Shortens(bs: seq<Byte>)
    ensures FromUtf8(bs).Some? ==> |FromUtf8(bs).value| <= |bs|
  {
    if bs != [] && FromUtf8(bs).Some? { FromUtf8Shortens(bs[SequenceLength(bs[0])..]); }
  }

  predicate Literal(c: char) { c as int < 0x80 && c != '%' }

  lemma {:induction false} LiteralReadsItself(s: string)
    requires forall i :: 0 <= i < |s| ==> Literal(s[i])
    ensures Read(s) == Some(s)
  {
    if s != "" {
      LiteralReadsItself(s[1..]);
      var bs := Unquote(s[1..]).value;
      var all := [s[0] as int as Byte] + bs;
      assert all[1..] == bs && [s[0]] + s[1..] == s;
    }
  }

  /** Text reads as itself, unquoted, exactly when it is ASCII without a percent sign. */
  lemma ReadsItselfIff(s: string)
    ensures Read(s) == Some(s) <==> forall i :: 0 <= i < |s| ==> Literal(s[i])
  {
    if forall i :: 0 <= i < |s| ==> Literal(s[i]) {
      LiteralReadsItself(s);
    } else if Read(s) == Some(s) {
      UnquoteShortens(s);
      FromUtf8Shortens(Unquote(s).value);
      assert false;
    }
  }

  /** Letters, digits, `-._~` and `%`: what quoted text is made of. */
  predicate Plain(c: char) {
    'a' <= c <= 'z' || 'A' <= c <= 'Z' || '0' <= c <= '9' || c == '-' || c == '.' || c == '_' || c == '~' || c == '%'
  }

  lemma {:induction false} QuotedIsPlain(bs: seq<Byte>)
    ensures forall c :: c in QuoteBytes(bs) ==> Plain(c)
  {
    if bs != [] { QuotedIsPlain(bs[1..]); }
  }

  // ---------- decimal numbers ----------

  function Decimal(n: nat): string {
    if n < 10 then [(0x30 + n) as char] else Decimal(n / 10) + [(0x30 + n % 10) as char]
  }

  predicate IsDigits(s: string) { s != "" && forall i :: 0 <= i < |s| ==> '0' <= s[i] <= '9' }

  function Number(s: string): int {
    if s == "" then 0 else Number(s[..|s| - 1]) * 10 + (s[|s| - 1] as int - 0x30)
  }

  lemma {:induction false} DecimalReadsBack(n: nat)
    ensures IsDigits(Decimal(n)) && Number(Decimal(n)) == n
  {
    if n < 10 {
      assert Decimal(n)[..0] == "";
    } else {
      DecimalReadsBack(n / 10);
      assert Decimal(n)[..|Decimal(n)| - 1] == Decimal(n / 10);
    }
  }
}
