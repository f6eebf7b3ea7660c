/** The string operations of Python that the models share. */
module Text {

  /** The characters `str.strip` removes. */
  predicate IsSpace(c: char) {
    || '\U{9}' <= c <= '\U{D}' || '\U{1C}' <= c <= ' ' || c == '\U{85}' || c == '\U{A0}' || c == '\U{1680}'
    || '\U{2000}' <= c <= '\U{200A}' || c == '\U{2028}' || c == '\U{2029}' || c == '\U{202F}'
    || c == '\U{205F}' || c == '\U{3000}'
  }

  function LStrip(s: string): string {
    if s != "" && IsSpace(s[0]) then LStrip(s[1..]) else s
  }

  function RStrip(s: string): string {
    if s != "" && IsSpace(s[|s| - 1]) then RStrip(s[..|s| - 1]) else s
  }

  function Strip(s: string): string { RStrip(LStrip(s)) }

  predicate StartsWith(s: string, prefix: string) { prefix <= s }

  predicate EndsWith(s: string, suffix: string) {
    |suffix| <= |s| && s[|s| - |suffix|..] == suffix
  }

  /** Where `part` first occurs in `s`, or the length of `s` when it does not. */
  function FirstAt(s: string, part: string): (i: nat)
    ensures i <= |s| && (i < |s| ==> StartsWith(s[i..], part))
  {
    if s == "" || StartsWith(s, part) then 0 else 1 + FirstAt(s[1..], part)
  }

  predicate Contains(s: string, part: string) { exists i :: 0 <= i <= |s| && StartsWith(s[i..], part) }

  /** `part` stands somewhere in `s`. */
  ghost predicate Occurs(part: string, s: string) { exists front: string, back: string :: s == front + part + back }

  lemma ContainsIffOccurs(s: string, part: string)
    ensures Contains(s, part) <==> Occurs(part, s)
  {
    if i :| 0 <= i <= |s| && StartsWith(s[i..], part) {
      assert s == s[..i] + part + s[i + |part|..];
    }
    if Occurs(part, s) {
      var front, back :| s == front + part + back;
      assert s[|front|..] == part + back && StartsWith(s[|front|..], part);
    }
  }

  function Replace(s: string, from: char, to: char): string {
    if s == "" then "" else [if s[0] == from then to else s[0]] + Replace(s[1..], from, to)
  }

  function Split(s: string, sep: char): (parts: seq<string>)
    ensures |parts| > 0
  {
    if s == "" then [""] else
      var rest := Split(s[1..], sep);
      if s[0] == sep then [""] + rest else [[s[0]] + rest[0]] + rest[1..]
  }

  function Join(parts: seq<string>, sep: char): string {
    if parts == [] then "" else if |parts| == 1 then parts[0] else parts[0] + [sep] + Join(parts[1..], sep)
  }

  lemma {:induction false} SplitPartsHaveNoSeparator(s: string, sep: char)
    ensures forall p :: p in Split(s, sep) ==> sep !in p
  {
    if s != "" { SplitPartsHaveNoSeparator(s[1..], sep); }
  }

  lemma {:induction false} SplitSeparatorFree(p: string, sep: char)
    requires sep !in p
    ensures Split(p, sep) == [p]
  {
    if p != "" {
      SplitSeparatorFree(p[1..], sep);
      assert [p[0]] + p[1..] == p;
    }
  }

  lemma {:induction false} SplitAtSeparator(p: string, rest: string, sep: char)
    requires sep !in p
    ensures Split(p + [sep] + rest, sep) == [p] + Split(rest, sep)
  {
    var whole := p + [sep] + rest;
    if p == "" {
      assert whole[1..] == rest;
    } else {
      SplitAtSeparator(p[1..], rest, sep);
      assert whole[1..] == p[1..] + [sep] + rest;
      assert [p[0]] + p[1..] == p;
    }
  }

  /** Splitting undoes joining. */
  lemma {:induction false} SplitOfJoin(parts: seq<string>, sep: char)
    requires parts != [] && forall p :: p in parts ==> sep !in p
    ensures Split(Join(parts, sep), sep) == parts
  {
    if |parts| == 1 {
      SplitSeparatorFree(parts[0], sep);
    } else {
      SplitOfJoin(parts[1..], sep);
      SplitAtSeparator(parts[0], Join(parts[1..], sep), sep);
    }
  }

  /** The first part, and the parts of what follows it. */
  lemma {:induction false} FirstPart(s: string, sep: char)
    ensures var p := Split(s, sep);
      && (|p| == 1 ==> s == p[0])
      && (|p| > 1 ==> |p[0]| < |s| && s[..|p[0]|] == p[0] && s[|p[0]|] == sep && Split(s[|p[0]| + 1..], sep) == p[1..])
  {
    if s != "" {
      FirstPart(s[1..], sep);
      var p, q := Split(s, sep), Split(s[1..], sep);
      if s[0] != sep {
        assert p[0] == [s[0]] + q[0] && p[1..] == q[1..];
        if |q| > 1 { assert s[1..][|q[0]| + 1..] == s[|p[0]| + 1..]; }
      } else {
        assert p[0] == "" && p[1..] == q && s[1..] == s[|p[0]| + 1..];
      }
    }
  }

  lemma {:induction false} LStripFirst(s: string)
    ensures LStrip(s) == "" || !IsSpace(LStrip(s)[0])
  {
    if s != "" { LStripFirst(s[1..]); }
  }

  lemma {:induction false} RStripEnds(s: string)
    ensures RStrip(s) == "" || (RStrip(s)[0] == s[0] && !IsSpace(RStrip(s)[|RStrip(s)| - 1]))
  {
    if s != "" { RStripEnds(s[..|s| - 1]); }
  }

  lemma StripNothing(s: string)
    requires s == "" || (!IsSpace(s[0]) && !IsSpace(s[|s| - 1]))
    ensures Strip(s) == s
  {
  }

  lemma StripIsIdempotent(s: string)
    ensures Strip(Strip(s)) == Strip(s)
  {
    LStripFirst(s);
    RStripEnds(LStrip(s));
    StripNothing(Strip(s));
  }

  /** Lower case, for the letters of ASCII. */
  function LowerAscii(s: string): string {
    if s == "" then "" else
      [if 'A' <= s[0] <= 'Z' then ((s[0] as int) + 32) as char else s[0]] + LowerAscii(s[1..])
  }

  function OrElse(s: string, default_: string): string { if s == "" then default_ else s }

  lemma {:induction false} ReplaceNothing(s: string, from: char, to: char)
    requires from !in s
    ensures Replace(s, from, to) == s
  {
    if s != "" { ReplaceNothing(s[1..], from, to); }
  }
}
