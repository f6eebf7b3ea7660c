/** How a lenient reader sees JSON text: the escapes of section 7 of RFC 8259 are decoded, and a
    character that section 7 forbids inside a string stands for itself. */
module JsonText {

  datatype Item =
    | Mark(c: char)         // a character outside strings
    | Open                  // a quotation mark that opens a string
    | Close                 // the quotation mark that ends it
    | Code(point: int)      // one decoded character of a string
    | Odd(c: char)          // an escape that section 7 does not define
    | Dangling              // a backslash at the very end

  predicate IsHex(c: char) {
    '0' <= c <= '9' || 'a' <= c <= 'f' || 'A' <= c <= 'F'
  }

  function HexDigit(c: char): int {
    if '0' <= c <= '9' then c as int - '0' as int
    else if 'a' <= c <= 'f' then c as int - 'a' as int + 10
    else if 'A' <= c <= 'F' then c as int - 'A' as int + 10
    else 0
  }

  function HexValue(t: string): int
    requires |t| == 4
  {
    4096 * HexDigit(t[0]) + 256 * HexDigit(t[1]) + 16 * HexDigit(t[2]) + HexDigit(t[3])
  }

  /** The text starts with n hexadecimal digits. */
  predicate HexAhead(t: string, n: nat) {
    n == 0 || (t != "" && IsHex(t[0]) && HexAhead(t[1..], n - 1))
  }

  lemma FirstTwo(t: string, rest: string)
    requires |t| >= 2
    ensures t[..2] + rest == [t[0]] + ([t[1]] + rest)
  {
  }

  lemma HexAheadOneMore(t: string, n: nat)
    requires n > 0 && t != ""
    ensures HexAhead(t, n) <==> IsHex(t[0]) && HexAhead(t[1..], n - 1)
    ensures n <= |t| ==> t[..n] == [t[0]] + t[1..][..n - 1] && t[n..] == t[1..][n - 1..]
  {
  }

  predicate ShortEscape(c: char) {
    c in "\"\\/bfnrt"
  }

  function Unescape(c: char): int {
    match c
    case 'b' => 8
    case 'f' => 12
    case 'n' => 10
    case 'r' => 13
    case 't' => 9
    case _ => c as int
  }

  /** One escape of a string, and how many characters it takes; `t` starts at the backslash. */
  function ReadEscape(t: string): (r: (Item, nat))
    requires t != ""
    ensures 0 < r.1 <= |t|
  {
    if |t| == 1 then (Dangling, 1)
    else if t[1] == 'u' && |t| >= 6 && HexAhead(t[2..], 4) then (Code(HexValue(t[2..6])), 6)
    else if ShortEscape(t[1]) then (Code(Unescape(t[1])), 2)
    else (Odd(t[1]), 2)
  }

  /** The items of a whole text, starting inside or outside a string. */
  function Read(t: string, inside: bool): seq<Item>
    decreases |t|
  {
    if t == "" then []
    else if !inside then
      if t[0] == '"' then [Open] + Read(t[1..], true) else [Mark(t[0])] + Read(t[1..], false)
    else if t[0] == '"' then [Close] + Read(t[1..], false)
    else if t[0] == '\\' then
      var (item, n) := ReadEscape(t);
      [item] + Read(t[n..], true)
    else [Code(t[0] as int)] + Read(t[1..], true)
  }

  /** The items of a string body whose extent is known, so that a bare quotation mark in it is
      content. */
  function ReadBody(t: string): seq<Item>
    decreases |t|
  {
    if t == "" then []
    else if t[0] == '\\' then
      var (item, n) := ReadEscape(t);
      [item] + ReadBody(t[n..])
    else [Code(t[0] as int)] + ReadBody(t[1..])
  }

  /** An escape reads the same whatever follows it, as long as the four characters that might be
      its digits are digits in both or in neither. */
  predicate CodeAhead(t: string)
    requires |t| >= 2
  {
    t[1] == 'u' && |t| >= 6 && HexAhead(t[2..], 4)
  }

  lemma ReadsCode(t: string)
    requires |t| >= 2 && CodeAhead(t)
    ensures ReadEscape(t) == (Code(HexValue(t[2..6])), 6)
  {
  }

  lemma ReadsNoCode(t: string)
    requires |t| >= 2 && !CodeAhead(t)
    ensures ReadEscape(t) == if ShortEscape(t[1]) then (Code(Unescape(t[1])), 2) else (Odd(t[1]), 2)
  {
  }

  lemma SameEscape(s: string, t: string)
    requires |s| >= 2 && |t| >= 2 && s[1] == t[1] && CodeAhead(s) == CodeAhead(t)
    requires CodeAhead(s) ==> s[2..6] == t[2..6]
    ensures ReadEscape(s) == ReadEscape(t)
  {
    if CodeAhead(t) {
      ReadsCode(s);
      ReadsCode(t);
    } else {
      ReadsNoCode(s);
      ReadsNoCode(t);
    }
  }

  lemma FourDigits(t: string, ahead: string)
    requires |t| >= 6 && t[2..] == ahead
    ensures t[2..6] == ahead[..4]
  {
  }

  lemma ReadEscapeWithTail(t: string, tail: string)
    requires |t| >= 2 && HexAhead(tail, 4) == HexAhead(t[2..], 4)
    requires HexAhead(tail, 4) ==> |tail| >= 4 && |t| >= 6 && tail[..4] == t[2..][..4]
    ensures ReadEscape(t[..2] + tail) == ReadEscape(t)
  {
    var s := t[..2] + tail;
    assert s[2..] == tail && s[1] == t[1];
    if CodeAhead(t) {
      FourDigits(s, tail);
      FourDigits(t, t[2..]);
    }
    SameEscape(s, t);
  }
}
