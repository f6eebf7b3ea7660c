/** `_sanitize_json_control_chars` in claude_remediator.py: raw control characters inside JSON
    strings become escapes. */
module JsonControlChars {
  import opened JsonText
  import opened Lists

  /** Where a scan of JSON text stands. */
  datatype Mode = Outside | Inside | Escaped

  function Next(m: Mode, c: char): Mode {
    match m
    case Outside => if c == '"' then Inside else Outside
    case Inside => if c == '"' then Outside else if c == '\\' then Escaped else Inside
    case Escaped => Inside
  }

  function After(m: Mode, t: string): Mode
    decreases |t|
  {
    if t == "" then m else After(Next(m, t[0]), t[1..])
  }

  predicate IsControl(c: char) {
    c as int < 0x20
  }

  function HexChar(d: nat): char
    requires d < 16
  {
    "0123456789abcdef"[d]
  }

  function EscapeOf(c: char): string
    requires IsControl(c)
  {
    if c == '\n' then "\\n" else if c == '\r' then "\\r" else if c == '\t' then "\\t"
    else "\\u00" + [HexChar(c as int / 16), HexChar(c as int % 16)]
  }

  function Fix(m: Mode, c: char): string {
    if m == Inside && IsControl(c) then EscapeOf(c) else [c]
  }

  function Sanitize(t: string, m: Mode): string {
    if t == "" then "" else Fix(m, t[0]) + Sanitize(t[1..], Next(m, t[0]))
  }

  /** No raw control character stands inside a string, except directly after a backslash. */
  ghost predicate Clean(t: string, m: Mode) {
    forall k :: 0 <= k < |t| && After(m, t[..k]) == Inside ==> t[k] >= ' '
  }

  lemma {:induction false} AfterConcat(m: Mode, a: string, b: string)
    ensures After(m, a + b) == After(After(m, a), b)
    decreases |a|
  {
    if a == "" { assert a + b == b; }
    else {
      assert (a + b)[1..] == a[1..] + b;
      AfterConcat(Next(m, a[0]), a[1..], b);
    }
  }

  lemma {:induction false} SanitizeConcat(m: Mode, a: string, b: string)
    ensures Sanitize(a + b, m) == Sanitize(a, m) + Sanitize(b, After(m, a))
    decreases |a|
  {
    if a == "" { assert a + b == b; }
    else {
      assert (a + b)[1..] == a[1..] + b;
      SanitizeConcat(Next(m, a[0]), a[1..], b);
    }
  }

  /** An escape is two or six plain characters that end inside the string. */
  lemma EscapeShape(c: char)
    requires IsControl(c)
    ensures var e := EscapeOf(c);
            && (|e| == 2 || |e| == 6) && e[0] == '\\'
            && (forall k :: 0 <= k < |e| ==> !IsControl(e[k]))
            && (forall k :: 1 < k < |e| ==> e[k] != '"' && e[k] != '\\')
  {
  }

  lemma FixAfter(m: Mode, c: char)
    ensures After(m, Fix(m, c)) == Next(m, c)
    ensures Sanitize(Fix(m, c), m) == Fix(m, c)
  {
    if m == Inside && IsControl(c) {
      EscapeShape(c);
      var e := EscapeOf(c);
      assert e == [e[0]] + e[1..] && e[1..] == [e[1]] + e[2..];
      assert e[1..][1..] == e[2..];
      PlainTail(e[2..]);
    } else {
      assert [c][1..] == "";
    }
  }

  lemma {:induction false} PlainTail(t: string)
    requires forall k :: 0 <= k < |t| ==> !IsControl(t[k]) && t[k] != '"' && t[k] != '\\'
    ensures After(Inside, t) == Inside && Sanitize(t, Inside) == t
  {
    if t != "" { PlainTail(t[1..]); }
  }

  /** Sanitizing twice is sanitizing once. */
  lemma {:induction false} SanitizeIdempotent(t: string, m: Mode)
    ensures Sanitize(Sanitize(t, m), m) == Sanitize(t, m)
  {
    if t != "" {
      var head := Fix(m, t[0]);
      var tail := Sanitize(t[1..], Next(m, t[0]));
      SanitizeConcat(m, head, tail);
      FixAfter(m, t[0]);
      SanitizeIdempotent(t[1..], Next(m, t[0]));
    }
  }

  lemma CleanTail(t: string, m: Mode)
    requires t != ""
    ensures Clean(t, m) <==> (m == Inside ==> !IsControl(t[0])) && Clean(t[1..], Next(m, t[0]))
  {
    assert t[..0] == "";
    forall k | 0 <= k < |t| - 1
      ensures After(m, t[..k + 1]) == After(Next(m, t[0]), t[1..][..k]) && t[k + 1] == t[1..][k]
    {
      assert t[..k + 1][1..] == t[1..][..k];
    }
    if (m == Inside ==> !IsControl(t[0])) && Clean(t[1..], Next(m, t[0])) {
      forall k | 0 <= k < |t| && After(m, t[..k]) == Inside ensures !IsControl(t[k]) {
        if k > 0 { assert t[k] == t[1..][k - 1] && t[..(k - 1) + 1] == t[..k]; }
      }
    }
    if Clean(t, m) {
      forall k | 0 <= k < |t| - 1 && After(Next(m, t[0]), t[1..][..k]) == Inside ensures !IsControl(t[1..][k]) {
        assert t[1..][k] == t[k + 1];
      }
    }
  }

  lemma {:induction false} SanitizeLength(t: string, m: Mode)
    ensures |Sanitize(t, m)| >= |t|
  {
    if t != "" { SanitizeLength(t[1..], Next(m, t[0])); }
  }

  /** The pass is the identity exactly on clean text. */
  lemma {:induction false} IdentityIffClean(t: string, m: Mode)
    ensures Sanitize(t, m) == t <==> Clean(t, m)
  {
    if t != "" {
      CleanTail(t, m);
      IdentityIffClean(t[1..], Next(m, t[0]));
      IdentityStep(t, m);
    }
  }

  lemma IdentityStep(t: string, m: Mode)
    requires t != ""
    ensures Sanitize(t, m) == t
       <==> (m == Inside ==> !IsControl(t[0])) && Sanitize(t[1..], Next(m, t[0])) == t[1..]
  {
    SanitizeLength(t[1..], Next(m, t[0]));
    SameHeadAndTail(Fix(m, t[0]), Sanitize(t[1..], Next(m, t[0])), t[0], t[1..]);
    assert t == [t[0]] + t[1..];
  }

  lemma SameHeadAndTail(head: string, tail: string, c: char, rest: string)
    requires |tail| >= |rest| && head != "" && (|head| == 1 ==> head[0] == c)
    ensures head + tail == [c] + rest <==> |head| == 1 && tail == rest
  {
    if head + tail == [c] + rest { assert tail == (head + tail)[|head|..] && rest == ([c] + rest)[1..]; }
  }

  lemma SanitizeIsClean(t: string, m: Mode)
    ensures Clean(Sanitize(t, m), m)
  {
    SanitizeIdempotent(t, m);
    IdentityIffClean(Sanitize(t, m), m);
  }

  // ---------- the decoded text is preserved ----------

  lemma {:induction false} HexKept(t: string, n: nat)
    ensures HexAhead(Sanitize(t, Inside), n) == HexAhead(t, n)
    ensures HexAhead(t, n) ==>
              |t| >= n && Sanitize(t, Inside) == t[..n] + Sanitize(t[n..], Inside)
    decreases n
  {
    if n > 0 && t != "" {
      HexAheadOneMore(t, n);
      HexAheadOneMore(Sanitize(t, Inside), n);
      if IsHex(t[0]) {
        HexKept(t[1..], n - 1);
        assert Sanitize(t, Inside) == [t[0]] + Sanitize(t[1..], Inside);
        if HexAhead(t, n) { Associative([t[0]], t[1..][..n - 1], Sanitize(t[n..], Inside)); }
      } else if IsControl(t[0]) {
        EscapeShape(t[0]);
      }
    }
  }

  lemma HexCharDecodes(d: nat)
    requires d < 16
    ensures IsHex(HexChar(d)) && HexDigit(HexChar(d)) == d
  {
  }

  /** Reading the escape of a control character gives the character back. */
  lemma EscapeDecodes(c: char, rest: string)
    requires IsControl(c)
    ensures ReadEscape(EscapeOf(c) + rest) == (Code(c as int), |EscapeOf(c)|)
  {
    var e := EscapeOf(c);
    var t := e + rest;
    if c != '\n' && c != '\r' && c != '\t' {
      HexCharDecodes(c as int / 16);
      HexCharDecodes(c as int % 16);
      assert t[2..6] == ['0', '0', HexChar(c as int / 16), HexChar(c as int % 16)];
      assert HexValue(t[2..6]) == c as int;
      FourHex(t[2..]);
    }
  }

  lemma FourHex(t: string)
    requires |t| >= 4 && IsHex(t[0]) && IsHex(t[1]) && IsHex(t[2]) && IsHex(t[3])
    ensures HexAhead(t, 4)
  {
    assert HexAhead(t[1..][1..][1..][1..], 0);
    assert HexAhead(t[1..][1..][1..], 1);
    assert HexAhead(t[1..][1..], 2);
  }

  lemma SkipEscape(t: string)
    requires |t| >= 2 && t[0] == '\\'
    ensures Sanitize(t, Inside) == t[..2] + Sanitize(t[2..], Inside)
  {
    assert t[1..][1..] == t[2..];
    assert Sanitize(t[1..], Escaped) == [t[1]] + Sanitize(t[2..], Inside);
    FirstTwo(t, Sanitize(t[2..], Inside));
  }

  lemma SkipHexEscape(t: string)
    requires |t| >= 6 && t[0] == '\\' && HexAhead(t[2..], 4)
    ensures Sanitize(t, Inside) == t[..6] + Sanitize(t[6..], Inside)
  {
    SkipEscape(t);
    HexKept(t[2..], 4);
    var head, digits := t[..2], t[2..][..4];
    assert t[2..][4..] == t[6..] && t[..6] == head + digits;
    Associative(head, digits, Sanitize(t[6..], Inside));
  }

  lemma ReadEscapeKept(t: string)
    requires |t| >= 2 && t[0] == '\\'
    ensures var s, n := Sanitize(t, Inside), ReadEscape(t).1;
            && s != "" && ReadEscape(s) == ReadEscape(t)
            && s == t[..n] + Sanitize(t[n..], Inside)
  {
    assert ReadEscape(Sanitize(t, Inside)) == ReadEscape(t) by {
      SkipEscape(t);
      HexKept(t[2..], 4);
      ReadEscapeWithTail(t, Sanitize(t[2..], Inside));
    }
    if t[1] == 'u' && |t| >= 6 && HexAhead(t[2..], 4) { SkipHexEscape(t); } else { SkipEscape(t); }
  }

  /** A lenient reader finds the same structure and the same decoded characters before and after
      the pass. */
  lemma {:induction false} SanitizePreservesText(t: string, inside: bool)
    ensures Read(Sanitize(t, if inside then Inside else Outside), inside) == Read(t, inside)
    decreases |t|
  {
    if t == "" {
    } else if !inside {
      SanitizePreservesText(t[1..], t[0] == '"');
      assert Sanitize(t, Outside)[1..] == Sanitize(t[1..], Next(Outside, t[0]));
    } else if t[0] == '\\' {
      if |t| == 1 {
        assert Sanitize(t, Inside) == t;
      } else {
        ReadEscapeKept(t);
        var n := ReadEscape(t).1;
        var s := Sanitize(t, Inside);
        SanitizePreservesText(t[n..], true);
        assert s[n..] == Sanitize(t[n..], Inside);
        assert s[0] == t[0];
      }
    } else if IsControl(t[0]) {
      var e := EscapeOf(t[0]);
      var rest := Sanitize(t[1..], Inside);
      EscapeDecodes(t[0], rest);
      EscapeShape(t[0]);
      assert (e + rest)[|e|..] == rest;
      SanitizePreservesText(t[1..], true);
    } else {
      SanitizePreservesText(t[1..], t[0] != '"');
      assert Sanitize(t, Inside)[1..] == Sanitize(t[1..], Next(Inside, t[0]));
    }
  }

  // ---------- the scanner ----------

  lemma OneChar(result: string, text: string, i: nat, m: Mode)
    requires i < |text|
    ensures result + Sanitize(text[i..], m)
         == result + Fix(m, text[i]) + Sanitize(text[i + 1..], Next(m, text[i]))
  {
    assert text[i..][1..] == text[i + 1..];
  }

  /** The scanner of the source: it walks the text with an index and a flag, taking a backslash
      together with the character after it. */
  method Scan(text: string) returns (result: string)
    ensures result == Sanitize(text, Outside)
  {
    ghost var whole := Sanitize(text, Outside);
    result := "";
    var inString := false;
    var i := 0;
    while i < |text|
      invariant 0 <= i <= |text| + 1
      invariant i <= |text| ==> whole == result + Sanitize(text[i..], if inString then Inside else Outside)
      invariant i > |text| ==> whole == result
    {
      var ch := text[i];
      OneChar(result, text, i, if inString then Inside else Outside);
      if inString {
        if ch == '\\' {
          result := result + [ch];
          i := i + 1;
          if i < |text| {
            OneChar(result, text, i, Escaped);
            result := result + [text[i]];
          }
        } else if ch == '"' {
          inString := false;
          result := result + [ch];
        } else if IsControl(ch) {
          result := result + EscapeOf(ch);
        } else {
          result := result + [ch];
        }
      } else {
        if ch == '"' { inString := true; }
        result := result + [ch];
      }
      i := i + 1;
    }
  }

  /** What the caller gets: a clean text that reads as before, and the text itself when it was
      clean already. */
  method SanitizeJsonControlChars(text: string) returns (result: string)
    ensures Clean(result, Outside)
    ensures Read(result, false) == Read(text, false)
    ensures Clean(text, Outside) <==> result == text
  {
    result := Scan(text);
    SanitizeIsClean(text, Outside);
    SanitizePreservesText(text, false);
    IdentityIffClean(text, Outside);
  }
}
