/** `_escape_unescaped_quotes_in_content_fields` in claude_remediator.py: bare quotation marks
    inside the string bodies of "content" fields become escapes, and nothing else changes. */
module JsonQuotes {
  import opened JsonText
  import opened Lists
  import opened Text

  const MARKER: string := "\"content\""

  /** A quotation mark followed by `rest` ends the body: a comma or a closing brace comes next. */
  predicate Closes(rest: string)
    decreases |rest|
  {
    rest != "" && (if IsSpace(rest[0]) then Closes(rest[1..]) else rest[0] == ',' || rest[0] == '}')
  }

  /** The head of a non-empty body text is its terminator. */
  predicate EndsHere(t: string, escaped: bool)
    requires t != ""
  {
    !escaped && t[0] == '"' && Closes(t[1..])
  }

  /** Whether the character after `c` is the second half of an escape. */
  predicate EscapesNext(c: char, escaped: bool) {
    !escaped && c == '\\'
  }

  /** The length of the body that starts at the head of `t`; it is |t| when nothing ends it. */
  function BodyLength(t: string, escaped: bool): (k: nat)
    ensures k <= |t|
    ensures k < |t| ==> t[k] == '"'
    decreases |t|
  {
    if t == "" || EndsHere(t, escaped) then 0
    else 1 + BodyLength(t[1..], EscapesNext(t[0], escaped))
  }

  function EscapeQuote(c: char, escaped: bool): string {
    if !escaped && c == '"' then "\\\"" else [c]
  }

  /** What the pass does to a body. */
  function EscapeQuotes(t: string, escaped: bool): string
    decreases |t|
  {
    if t == "" then "" else EscapeQuote(t[0], escaped) + EscapeQuotes(t[1..], EscapesNext(t[0], escaped))
  }

  // ---------- the fields of a text ----------

  /** A text is a sequence of single characters outside the bodies, and bodies. */
  datatype Piece = Frame(c: char) | Field(body: string)

  /** Where the search stands: looking for the marker, for the colon after it, or past the colon. */
  datatype Phase = Seek | Colon | Gap

  function Outline(t: string, p: Phase): seq<Piece>
    decreases |t|, if p == Gap then 1 else 0
  {
    if t == "" then []
    else match p
      case Seek =>
        if MARKER <= t then Frames(MARKER) + Outline(t[|MARKER|..], Colon)
        else [Frame(t[0])] + Outline(t[1..], Seek)
      case Colon => [Frame(t[0])] + Outline(t[1..], if t[0] == ':' then Gap else Colon)
      case Gap =>
        if IsSpace(t[0]) then [Frame(t[0])] + Outline(t[1..], Gap)
        else if t[0] != '"' then Outline(t, Seek)
        else [Frame('"')] + OutlineField(t[1..])
  }

  /** The outline of a text that starts inside a body. */
  function OutlineField(t: string): seq<Piece>
    decreases |t|, 2
  {
    var k := BodyLength(t, false);
    [Field(t[..k])] + if k < |t| then [Frame('"')] + Outline(t[k + 1..], Seek) else []
  }

  function Frames(t: string): seq<Piece> {
    seq(|t|, i requires 0 <= i < |t| => Frame(t[i]))
  }

  function Render(pieces: seq<Piece>): string {
    if pieces == [] then ""
    else (match pieces[0] case Frame(c) => [c] case Field(body) => body) + Render(pieces[1..])
  }

  function Repaired(piece: Piece): Piece {
    match piece
    case Frame(c) => Frame(c)
    case Field(body) => Field(EscapeQuotes(body, false))
  }

  function RepairAll(pieces: seq<Piece>): seq<Piece> {
    seq(|pieces|, i requires 0 <= i < |pieces| => Repaired(pieces[i]))
  }

  // ---------- the pass, from any point of its scan ----------

  function Repair(t: string, p: Phase): string
    decreases |t|, if p == Gap then 1 else 0
  {
    if t == "" then ""
    else match p
      case Seek =>
        if MARKER <= t then MARKER + Repair(t[|MARKER|..], Colon) else [t[0]] + Repair(t[1..], Seek)
      case Colon => [t[0]] + Repair(t[1..], if t[0] == ':' then Gap else Colon)
      case Gap =>
        if IsSpace(t[0]) then [t[0]] + Repair(t[1..], Gap)
        else if t[0] != '"' then Repair(t, Seek)
        else "\"" + RepairBody(t[1..], false)
  }

  function RepairBody(t: string, escaped: bool): string
    decreases |t|, 2
  {
    if t == "" then ""
    else if EndsHere(t, escaped) then "\"" + Repair(t[1..], Seek)
    else EscapeQuote(t[0], escaped) + RepairBody(t[1..], EscapesNext(t[0], escaped))
  }

  // ---------- rendering ----------

  lemma {:induction false} RenderConcat(a: seq<Piece>, b: seq<Piece>)
    ensures Render(a + b) == Render(a) + Render(b)
    decreases |a|
  {
    if a == [] { assert a + b == b; }
    else {
      assert (a + b)[1..] == a[1..] + b;
      RenderConcat(a[1..], b);
    }
  }

  lemma {:induction false} RenderFrames(t: string)
    ensures Render(Frames(t)) == t && RepairAll(Frames(t)) == Frames(t)
  {
    if t != "" {
      assert Frames(t)[1..] == Frames(t[1..]);
      RenderFrames(t[1..]);
    }
  }

  lemma RepairAllConcat(a: seq<Piece>, b: seq<Piece>)
    ensures RepairAll(a + b) == RepairAll(a) + RepairAll(b)
  {
  }

  /** The pieces of a text put together are the text. */
  lemma {:induction false} OutlineRenders(t: string, p: Phase)
    ensures Render(Outline(t, p)) == t
    decreases |t|, if p == Gap then 1 else 0
  {
    if t != "" {
      match p
      case Seek =>
        if MARKER <= t {
          OutlineRenders(t[|MARKER|..], Colon);
          RenderConcat(Frames(MARKER), Outline(t[|MARKER|..], Colon));
          RenderFrames(MARKER);
        } else {
          OutlineRenders(t[1..], Seek);
          FrameRenders(t, Outline(t[1..], Seek));
        }
      case Colon =>
        var q := if t[0] == ':' then Gap else Colon;
        OutlineRenders(t[1..], q);
        FrameRenders(t, Outline(t[1..], q));
      case Gap =>
        if IsSpace(t[0]) {
          OutlineRenders(t[1..], Gap);
          FrameRenders(t, Outline(t[1..], Gap));
        } else if t[0] != '"' {
          OutlineRenders(t, Seek);
        } else {
          FieldRenders(t[1..]);
          FrameRenders(t, OutlineField(t[1..]));
        }
    }
  }

  lemma FrameRenders(t: string, rest: seq<Piece>)
    requires t != "" && Render(rest) == t[1..]
    ensures Render([Frame(t[0])] + rest) == t
  {
    var all := [Frame(t[0])] + rest;
    assert all[1..] == rest && [t[0]] + t[1..] == t;
  }

  lemma {:induction false} FieldRenders(t: string)
    ensures Render(OutlineField(t)) == t
    decreases |t|, 2
  {
    var k := BodyLength(t, false);
    if k < |t| {
      OutlineRenders(t[k + 1..], Seek);
      SplitsAtQuote(t, k);
      FieldOutline(t, k);
      ClosedFieldRenders(t, t[..k], t[k + 1..], Outline(t[k + 1..], Seek));
    } else {
      BodyRenders(t[..k], []);
      assert OutlineField(t) == [Field(t[..k])] + [];
    }
  }

  lemma SplitsAtQuote(t: string, k: nat)
    requires k < |t| && t[k] == '"'
    ensures t == t[..k] + ("\"" + t[k + 1..])
  {
  }

  lemma ClosedFieldRenders(t: string, body: string, behind: string, rest: seq<Piece>)
    requires t == body + ("\"" + behind) && Render(rest) == behind
    requires OutlineField(t) == [Field(body)] + ([Frame('"')] + rest)
    ensures Render(OutlineField(t)) == t
  {
    QuotedPiecesRender(body, rest);
  }

  lemma QuotedPiecesRender(body: string, rest: seq<Piece>)
    ensures Render([Field(body)] + ([Frame('"')] + rest)) == body + ("\"" + Render(rest))
  {
    BodyRenders(body, [Frame('"')] + rest);
    assert ([Frame('"')] + rest)[1..] == rest;
  }

  lemma BodyRenders(body: string, rest: seq<Piece>)
    ensures Render([Field(body)] + rest) == body + Render(rest)
  {
    assert ([Field(body)] + rest)[1..] == rest;
  }

  /** The repaired text from the terminator at k on. */
  function Behind(t: string, k: nat): string
    requires k <= |t|
  {
    if k < |t| then "\"" + Repair(t[k + 1..], Seek) else ""
  }

  lemma BehindOneLess(t: string, k: nat)
    requires 0 < k <= |t|
    ensures Behind(t, k) == Behind(t[1..], k - 1)
  {
    if k < |t| { assert t[k + 1..] == t[1..][k..]; }
  }

  lemma EscapeOneMore(t: string, k: nat, escaped: bool)
    requires 0 < k <= |t|
    ensures EscapeQuotes(t[..k], escaped)
         == EscapeQuote(t[0], escaped) + EscapeQuotes(t[1..][..k - 1], EscapesNext(t[0], escaped))
  {
    assert t[..k][1..] == t[1..][..k - 1];
  }

  lemma BodyUnfolds(t: string, escaped: bool)
    requires t != "" && !EndsHere(t, escaped)
    ensures var next := EscapesNext(t[0], escaped);
      && BodyLength(t, escaped) == 1 + BodyLength(t[1..], next)
      && RepairBody(t, escaped) == EscapeQuote(t[0], escaped) + RepairBody(t[1..], next)
  {
  }

  /** Repairing a body up to its end is escaping its quotes and going on behind it. */
  lemma {:induction false} RepairBodySplits(t: string, escaped: bool)
    ensures var k := BodyLength(t, escaped);
            RepairBody(t, escaped) == EscapeQuotes(t[..k], escaped) + Behind(t, k)
    decreases |t|
  {
    if t == "" || EndsHere(t, escaped) {
      assert EscapeQuotes(t[..0], escaped) == "";
    } else {
      var k, next := BodyLength(t, escaped), EscapesNext(t[0], escaped);
      RepairBodySplits(t[1..], next);
      BehindOneLess(t, k);
      EscapeOneMore(t, k, escaped);
      BodyUnfolds(t, escaped);
      Associative(EscapeQuote(t[0], escaped), EscapeQuotes(t[1..][..k - 1], next), Behind(t, k));
    }
  }

  lemma ClosedBodySplits(t: string, k: nat)
    requires k == BodyLength(t, false) < |t|
    ensures RepairBody(t, false) == EscapeQuotes(t[..k], false) + ("\"" + Repair(t[k + 1..], Seek))
  {
    RepairBodySplits(t, false);
    BehindTerminator(t, k);
  }

  lemma BehindTerminator(t: string, k: nat)
    requires k < |t|
    ensures Behind(t, k) == "\"" + Repair(t[k + 1..], Seek)
  {
  }

  /** The pass changes the bodies of the content fields and nothing else. */
  lemma {:induction false} RepairTouchesBodiesOnly(t: string, p: Phase)
    ensures Repair(t, p) == Render(RepairAll(Outline(t, p)))
    decreases |t|, if p == Gap then 1 else 0
  {
    if t != "" {
      match p
      case Seek =>
        if MARKER <= t {
          RepairTouchesBodiesOnly(t[|MARKER|..], Colon);
          RenderFrames(MARKER);
          RepairAllConcat(Frames(MARKER), Outline(t[|MARKER|..], Colon));
          RenderConcat(Frames(MARKER), RepairAll(Outline(t[|MARKER|..], Colon)));
        } else {
          RepairTouchesBodiesOnly(t[1..], Seek);
          RepairAllConcat([Frame(t[0])], Outline(t[1..], Seek));
        }
      case Colon =>
        var q := if t[0] == ':' then Gap else Colon;
        RepairTouchesBodiesOnly(t[1..], q);
        RepairAllConcat([Frame(t[0])], Outline(t[1..], q));
      case Gap =>
        if IsSpace(t[0]) {
          RepairTouchesBodiesOnly(t[1..], Gap);
          RepairAllConcat([Frame(t[0])], Outline(t[1..], Gap));
        } else if t[0] != '"' {
          RepairTouchesBodiesOnly(t, Seek);
        } else {
          RepairFieldTouchesBody(t[1..]);
          RepairAllConcat([Frame('"')], OutlineField(t[1..]));
        }
    }
  }

  lemma {:induction false} RepairFieldTouchesBody(t: string)
    ensures RepairBody(t, false) == Render(RepairAll(OutlineField(t)))
    decreases |t|, 2
  {
    var k := BodyLength(t, false);
    RepairBodySplits(t, false);
    if k < |t| {
      RepairTouchesBodiesOnly(t[k + 1..], Seek);
      RepairAllConcat([Frame('"')], Outline(t[k + 1..], Seek));
      RepairAllConcat([Field(t[..k])], [Frame('"')] + Outline(t[k + 1..], Seek));
    }
  }

  // ---------- bodies ----------

  /** Whether a backslash at the end of `t` still waits for its character. */
  function Pending(t: string, escaped: bool): bool
    decreases |t|
  {
    if t == "" then escaped else Pending(t[1..], EscapesNext(t[0], escaped))
  }

  /** No bare quotation mark stands in the body. */
  ghost predicate Quoted(t: string) {
    forall k :: 0 <= k < |t| && t[k] == '"' ==> Pending(t[..k], false)
  }

  predicate NoBareQuote(t: string, escaped: bool)
    decreases |t|
  {
    t == "" || ((escaped || t[0] != '"') && NoBareQuote(t[1..], EscapesNext(t[0], escaped)))
  }

  lemma {:induction false} QuotedAt(t: string, escaped: bool, k: nat)
    requires NoBareQuote(t, escaped) && k < |t| && t[k] == '"'
    ensures Pending(t[..k], escaped)
    decreases |t|
  {
    if k > 0 {
      assert t[..k][1..] == t[1..][..k - 1];
      QuotedAt(t[1..], EscapesNext(t[0], escaped), k - 1);
    }
  }

  /** The head of an escaped body. */
  lemma EscapeUnfolds(t: string, escaped: bool)
    requires t != ""
    ensures var e, rest := EscapeQuotes(t, escaped), EscapeQuotes(t[1..], EscapesNext(t[0], escaped));
            && (!escaped && t[0] == '"' ==> |e| > 1 && e[0] == '\\' && e[1] == '"' && e[1..][1..] == rest)
            && (escaped || t[0] != '"' ==> e != "" && e[0] == t[0] && e[1..] == rest)
  {
  }

  lemma {:induction false} EscapedIsQuoted(t: string, escaped: bool)
    ensures NoBareQuote(EscapeQuotes(t, escaped), escaped)
    decreases |t|
  {
    if t != "" {
      EscapeUnfolds(t, escaped);
      EscapedIsQuoted(t[1..], EscapesNext(t[0], escaped));
      if !escaped && t[0] == '"' { assert NoBareQuote(EscapeQuotes(t, escaped)[1..], true); }
    }
  }

  lemma {:induction false} EscapedEndsAlike(t: string, escaped: bool)
    ensures Pending(EscapeQuotes(t, escaped), escaped) == Pending(t, escaped)
    decreases |t|
  {
    if t != "" {
      EscapeUnfolds(t, escaped);
      EscapedEndsAlike(t[1..], EscapesNext(t[0], escaped));
      if !escaped && t[0] == '"' {
        assert Pending(EscapeQuotes(t, escaped)[1..], true) == Pending(EscapeQuotes(t[1..], false), false);
      }
    }
  }

  /** A body without bare quotation marks is its own escape. */
  lemma {:induction false} QuotedStays(t: string, escaped: bool)
    requires NoBareQuote(t, escaped)
    ensures EscapeQuotes(t, escaped) == t
    decreases |t|
  {
    if t != "" {
      QuotedStays(t[1..], EscapesNext(t[0], escaped));
      assert [t[0]] + t[1..] == t;
    }
  }

  lemma EscapedBody(t: string, escaped: bool)
    ensures var e := EscapeQuotes(t, escaped);
            && NoBareQuote(e, escaped) && Pending(e, escaped) == Pending(t, escaped)
            && EscapeQuotes(e, escaped) == e
  {
    EscapedIsQuoted(t, escaped);
    EscapedEndsAlike(t, escaped);
    QuotedStays(EscapeQuotes(t, escaped), escaped);
  }

  /** Before its terminator a body ends with no escape pending. */
  lemma {:induction false} TerminatorIsBare(t: string, escaped: bool)
    requires BodyLength(t, escaped) < |t|
    ensures !Pending(t[..BodyLength(t, escaped)], escaped) && Closes(t[BodyLength(t, escaped) + 1..])
    decreases |t|
  {
    var k := BodyLength(t, escaped);
    if k > 0 {
      assert t[..k][1..] == t[1..][..k - 1];
      TerminatorIsBare(t[1..], EscapesNext(t[0], escaped));
    }
  }

  /** A body without bare quotation marks reaches as far as its terminator. */
  lemma {:induction false} BodyLengthQuoted(body: string, escaped: bool, rest: string)
    requires NoBareQuote(body, escaped)
    requires rest == "" || (rest[0] == '"' && !Pending(body, escaped) && Closes(rest[1..]))
    ensures BodyLength(body + rest, escaped) == |body|
    decreases |body|
  {
    if body == "" { assert body + rest == rest; }
    else {
      assert (body + rest)[1..] == body[1..] + rest;
      BodyLengthQuoted(body[1..], EscapesNext(body[0], escaped), rest);
    }
  }

  // ---------- the pass finds its own output unchanged ----------

  /** Text in front of a marker is copied, so the search sees the same text again. */
  lemma {:induction false} SeekKeepsWord(t: string, word: string)
    requires word <= Repair(t, Seek)
    requires forall i :: 0 <= i < |word| - 1 ==> word[i] != '"'
    ensures word <= t
    decreases |word|
  {
    if word != "" {
      assert Repair(t, Seek)[0] == t[0];
      if |word| > 1 {
        assert word[0] == t[0] != '"';
        assert Repair(t, Seek)[1..] == Repair(t[1..], Seek);
        assert word[1..] <= Repair(t[1..], Seek);
        SeekKeepsWord(t[1..], word[1..]);
      }
    }
  }

  lemma SeekKeepsMarker(t: string)
    requires t != "" && !(MARKER <= t)
    ensures !(MARKER <= [t[0]] + Repair(t[1..], Seek))
  {
    var next := [t[0]] + Repair(t[1..], Seek);
    if MARKER <= next {
      assert MARKER[1..] <= next[1..] == Repair(t[1..], Seek);
      SeekKeepsWord(t[1..], MARKER[1..]);
    }
  }

  lemma {:induction false} SeekKeepsCloses(t: string)
    requires Closes(t)
    ensures Closes(Repair(t, Seek))
    decreases |t|
  {
    if IsSpace(t[0]) {
      SeekKeepsCloses(t[1..]);
      assert Repair(t, Seek)[1..] == Repair(t[1..], Seek);
    }
  }

  /** The outline of a text that starts with a body of known extent. */
  lemma ClosedFieldOutline(body: string, rest: string)
    requires NoBareQuote(body, false) && !Pending(body, false) && Closes(rest)
    ensures OutlineField(body + ("\"" + rest)) == [Field(body)] + ([Frame('"')] + Outline(rest, Seek))
  {
    var tail := "\"" + rest;
    assert tail[1..] == rest;
    BodyLengthQuoted(body, false, tail);
    assert (body + tail)[..|body|] == body && (body + tail)[|body| + 1..] == rest;
  }

  lemma OpenFieldOutline(body: string)
    requires NoBareQuote(body, false)
    ensures OutlineField(body) == [Field(body)] + []
  {
    BodyLengthQuoted(body, false, "");
    assert body + "" == body;
    assert body[..|body|] == body;
  }

  /** The repaired text has the same outline with every body escaped. */
  lemma {:induction false} OutlineOfRepair(t: string, p: Phase)
    ensures Outline(Repair(t, p), p) == RepairAll(Outline(t, p))
    decreases |t|, if p == Gap then 1 else 0
  {
    if t != "" {
      var out := Repair(t, p);
      match p
      case Seek =>
        if MARKER <= t {
          OutlineOfRepair(t[|MARKER|..], Colon);
          RenderFrames(MARKER);
          assert out[|MARKER|..] == Repair(t[|MARKER|..], Colon);
          RepairAllConcat(Frames(MARKER), Outline(t[|MARKER|..], Colon));
        } else {
          SeekKeepsMarker(t);
          OutlineOfRepair(t[1..], Seek);
          assert out[1..] == Repair(t[1..], Seek);
          RepairAllConcat([Frame(t[0])], Outline(t[1..], Seek));
        }
      case Colon =>
        var q := if t[0] == ':' then Gap else Colon;
        OutlineOfRepair(t[1..], q);
        assert out[1..] == Repair(t[1..], q);
        RepairAllConcat([Frame(t[0])], Outline(t[1..], q));
      case Gap =>
        if IsSpace(t[0]) {
          OutlineOfRepair(t[1..], Gap);
          assert out[1..] == Repair(t[1..], Gap);
          RepairAllConcat([Frame(t[0])], Outline(t[1..], Gap));
        } else if t[0] != '"' {
          OutlineOfRepair(t, Seek);
          assert out[0] == t[0];
        } else {
          OutlineOfField(t[1..]);
          assert out[1..] == RepairBody(t[1..], false);
          RepairAllConcat([Frame('"')], OutlineField(t[1..]));
        }
    }
  }

  lemma {:induction false} OutlineOfField(t: string)
    ensures OutlineField(RepairBody(t, false)) == RepairAll(OutlineField(t))
    decreases |t|, 2
  {
    var k := BodyLength(t, false);
    if k < |t| {
      OutlineOfRepair(t[k + 1..], Seek);
      OutlineOfClosedField(t, k);
    } else {
      OutlineOfOpenField(t);
    }
  }

  lemma OneField(body: string)
    ensures RepairAll([Field(body)]) == [Field(EscapeQuotes(body, false))]
    ensures RepairAll([Frame('"')]) == [Frame('"')]
  {
  }

  lemma RepairAllField(body: string, tail: seq<Piece>)
    ensures RepairAll([Field(body)] + ([Frame('"')] + tail))
         == [Field(EscapeQuotes(body, false))] + ([Frame('"')] + RepairAll(tail))
  {
    RepairAllConcat([Field(body)], [Frame('"')] + tail);
    RepairAllConcat([Frame('"')], tail);
    OneField(body);
  }

  lemma FixedFieldOutline(t: string, k: nat)
    requires k == BodyLength(t, false) < |t|
    ensures var fixed, rest := EscapeQuotes(t[..k], false), Repair(t[k + 1..], Seek);
            OutlineField(fixed + ("\"" + rest)) == [Field(fixed)] + ([Frame('"')] + Outline(rest, Seek))
  {
    EscapedBody(t[..k], false);
    TerminatorIsBare(t, false);
    SeekKeepsCloses(t[k + 1..]);
    ClosedFieldOutline(EscapeQuotes(t[..k], false), Repair(t[k + 1..], Seek));
  }

  lemma OutlineOfClosedField(t: string, k: nat)
    requires k == BodyLength(t, false) < |t|
    requires var behind := t[k + 1..]; Outline(Repair(behind, Seek), Seek) == RepairAll(Outline(behind, Seek))
    ensures OutlineField(RepairBody(t, false)) == RepairAll(OutlineField(t))
  {
    var head, behind := t[..k], t[k + 1..];
    var rest := Outline(behind, Seek);
    assert OutlineField(RepairBody(t, false)) == [Field(EscapeQuotes(head, false))] + ([Frame('"')] + RepairAll(rest)) by {
      FixedFieldOutline(t, k);
      ClosedBodySplits(t, k);
    }
    assert RepairAll(OutlineField(t)) == [Field(EscapeQuotes(head, false))] + ([Frame('"')] + RepairAll(rest)) by {
      FieldOutline(t, k);
      RepairAllField(head, rest);
    }
  }

  lemma FieldOutline(t: string, k: nat)
    requires k == BodyLength(t, false) < |t|
    ensures OutlineField(t) == [Field(t[..k])] + ([Frame('"')] + Outline(t[k + 1..], Seek))
  {
  }

  lemma OutlineOfOpenField(t: string)
    requires BodyLength(t, false) == |t|
    ensures OutlineField(RepairBody(t, false)) == RepairAll(OutlineField(t))
  {
    var fixed := EscapeQuotes(t, false);
    assert t[..|t|] == t;
    assert OutlineField(t) == [Field(t)];
    OneField(t);
    assert RepairBody(t, false) == fixed by { RepairBodySplits(t, false); }
    assert OutlineField(fixed) == [Field(fixed)] by {
      EscapedBody(t, false);
      OpenFieldOutline(fixed);
    }
  }

  /** Repairing twice is repairing once. */
  lemma RepairIdempotent(t: string)
    ensures Repair(Repair(t, Seek), Seek) == Repair(t, Seek)
  {
    var once := Repair(t, Seek);
    RepairTouchesBodiesOnly(once, Seek);
    OutlineOfRepair(t, Seek);
    var pieces := RepairAll(Outline(t, Seek));
    forall i | 0 <= i < |pieces| ensures Repaired(pieces[i]) == pieces[i] {
      match Outline(t, Seek)[i]
      case Frame(_) =>
      case Field(body) => EscapedBody(body, false);
    }
    assert RepairAll(pieces) == pieces;
    RepairTouchesBodiesOnly(t, Seek);
  }

  /** In the repaired text no content body has a bare quotation mark, every body is the escape of
      the one at the same place before, and the frame around the bodies is the same. */
  lemma RepairedBodiesAreQuoted(t: string, i: nat)
    requires i < |Outline(t, Seek)|
    ensures var before, after := Outline(t, Seek), Outline(Repair(t, Seek), Seek);
            && |after| == |before|
            && (before[i].Frame? ==> after[i] == before[i])
            && (before[i].Field? ==> after[i].Field? && Quoted(after[i].body)
                                     && ReadBody(after[i].body) == ReadBody(before[i].body))
  {
    OutlineOfRepair(t, Seek);
    var before := Outline(t, Seek);
    if before[i].Field? {
      var body := before[i].body;
      EscapedBody(body, false);
      var fixed := EscapeQuotes(body, false);
      forall k | 0 <= k < |fixed| && fixed[k] == '"' ensures Pending(fixed[..k], false) {
        QuotedAt(fixed, false, k);
      }
      EscapeReadsAlike(body);
    }
  }

  // ---------- a repaired body decodes to the same characters ----------

  lemma {:induction false} HexKeptByEscape(t: string, n: nat)
    ensures HexAhead(EscapeQuotes(t, false), n) == HexAhead(t, n)
    ensures HexAhead(t, n) ==>
              |t| >= n && EscapeQuotes(t, false) == t[..n] + EscapeQuotes(t[n..], false)
    decreases n
  {
    if n > 0 && t != "" {
      HexAheadOneMore(t, n);
      HexAheadOneMore(EscapeQuotes(t, false), n);
      if IsHex(t[0]) {
        HexKeptByEscape(t[1..], n - 1);
        assert EscapeQuotes(t, false) == [t[0]] + EscapeQuotes(t[1..], false);
        if HexAhead(t, n) { Associative([t[0]], t[1..][..n - 1], EscapeQuotes(t[n..], false)); }
      }
    }
  }

  lemma SkipEscape(t: string)
    requires |t| >= 2 && t[0] == '\\'
    ensures EscapeQuotes(t, false) == t[..2] + EscapeQuotes(t[2..], false)
  {
    assert t[1..][1..] == t[2..];
    assert EscapeQuotes(t[1..], true) == [t[1]] + EscapeQuotes(t[2..], false);
    FirstTwo(t, EscapeQuotes(t[2..], false));
  }

  lemma SkipHexEscape(t: string)
    requires |t| >= 6 && t[0] == '\\' && HexAhead(t[2..], 4)
    ensures EscapeQuotes(t, false) == t[..6] + EscapeQuotes(t[6..], false)
  {
    SkipEscape(t);
    HexKeptByEscape(t[2..], 4);
    var head, digits := t[..2], t[2..][..4];
    assert t[2..][4..] == t[6..] && t[..6] == head + digits;
    Associative(head, digits, EscapeQuotes(t[6..], false));
  }

  lemma EscapeKeptInBody(t: string)
    requires |t| >= 2 && t[0] == '\\'
    ensures var s, n := EscapeQuotes(t, false), ReadEscape(t).1;
            && s != "" && ReadEscape(s) == ReadEscape(t)
            && s == t[..n] + EscapeQuotes(t[n..], false)
  {
    assert ReadEscape(EscapeQuotes(t, false)) == ReadEscape(t) by {
      SkipEscape(t);
      HexKeptByEscape(t[2..], 4);
      ReadEscapeWithTail(t, EscapeQuotes(t[2..], false));
    }
    if t[1] == 'u' && |t| >= 6 && HexAhead(t[2..], 4) { SkipHexEscape(t); } else { SkipEscape(t); }
  }

  lemma {:induction false} EscapeReadsAlike(t: string)
    ensures ReadBody(EscapeQuotes(t, false)) == ReadBody(t)
    decreases |t|
  {
    if t == "" {
    } else if t[0] == '\\' {
      if |t| == 1 {
        assert EscapeQuotes(t, false) == t;
      } else {
        EscapeKeptInBody(t);
        var s, n := EscapeQuotes(t, false), ReadEscape(t).1;
        assert s[n..] == EscapeQuotes(t[n..], false);
        EscapeReadsAlike(t[n..]);
      }
    } else {
      EscapeReadsAlike(t[1..]);
      var s := EscapeQuotes(t, false);
      if t[0] == '"' {
        assert s[2..] == EscapeQuotes(t[1..], false);
        assert ReadEscape(s) == (Code('"' as int), 2);
      } else {
        assert s[1..] == EscapeQuotes(t[1..], false);
      }
    }
  }

  // ---------- the scanner ----------

  /** Python's str.find(MARKER, from). */
  method FindMarker(text: string, from: nat) returns (index: int)
    requires from <= |text|
    ensures index == -1 || from <= index <= |text| - |MARKER|
    ensures index == -1 ==> forall k :: from <= k <= |text| ==> !(MARKER <= text[k..])
    ensures index >= 0 ==> MARKER <= text[index..] && forall k :: from <= k < index ==> !(MARKER <= text[k..])
  {
    var i := from;
    while i < |text|
      invariant from <= i <= |text|
      invariant forall k :: from <= k < i ==> !(MARKER <= text[k..])
    {
      if MARKER <= text[i..] { return i; }
      i := i + 1;
    }
    return -1;
  }

  lemma {:induction false} SeekSkips(text: string, from: nat, to: nat)
    requires from <= to <= |text| && forall k :: from <= k < to ==> !(MARKER <= text[k..])
    ensures Repair(text[from..], Seek) == text[from..to] + Repair(text[to..], Seek)
    decreases |text| - from
  {
    if from < to {
      SeekSkips(text, from + 1, to);
      assert text[from..][1..] == text[from + 1..];
      assert text[from..to] == [text[from]] + text[from + 1..to];
      Associative([text[from]], text[from + 1..to], Repair(text[to..], Seek));
    } else {
      assert text[from..to] == "";
    }
  }

  lemma {:induction false} ClosesAfterSpaces(t: string, n: nat)
    requires n <= |t| && forall i :: 0 <= i < n ==> IsSpace(t[i])
    ensures Closes(t) == Closes(t[n..])
    decreases n
  {
    if n > 0 {
      ClosesAfterSpaces(t[1..], n - 1);
      assert t[1..][n - 1..] == t[n..];
    } else {
      assert t[0..] == t;
    }
  }

  /** Nothing but whitespace from one place up to another. */
  ghost predicate Blank(text: string, from: nat, to: int) {
    forall k :: from <= k < to && k < |text| ==> IsSpace(text[k])
  }

  lemma {:induction false} ClosesIff(text: string, at: nat)
    requires at <= |text|
    ensures Closes(text[at..])
       <==> exists j :: at <= j < |text| && (text[j] == ',' || text[j] == '}') && Blank(text, at, j)
    decreases |text| - at
  {
    if at < |text| {
      assert text[at..][1..] == text[at + 1..];
      if IsSpace(text[at]) {
        ClosesIff(text, at + 1);
        if j :| at + 1 <= j < |text| && (text[j] == ',' || text[j] == '}') && Blank(text, at + 1, j) {
          assert Blank(text, at, j);
        }
        if j :| at <= j < |text| && (text[j] == ',' || text[j] == '}') && Blank(text, at, j) {
          assert !IsSpace(text[j]) && j > at && Blank(text, at + 1, j);
        }
      } else {
        if text[at] == ',' || text[at] == '}' { assert Blank(text, at, at); }
        if j :| at <= j < |text| && (text[j] == ',' || text[j] == '}') && Blank(text, at, j) {
          assert j == at;
        }
      }
    }
  }

  /** A comma or closing brace follows position `at`, after any whitespace. */
  method LooksLikeEnd(text: string, at: nat) returns (ends: bool)
    requires at <= |text|
    ensures ends == Closes(text[at..])
    ensures ends <==> exists j :: at <= j < |text| && (text[j] == ',' || text[j] == '}') && Blank(text, at, j)
  {
    var j := at;
    while j < |text| && IsSpace(text[j])
      invariant at <= j <= |text|
      invariant forall k :: at <= k < j ==> IsSpace(text[k])
    {
      j := j + 1;
    }
    ClosesAfterSpaces(text[at..], j - at);
    assert text[at..][j - at..] == text[j..];
    ClosesIff(text, at);
    return j < |text| && (text[j] == ',' || text[j] == '}');
  }

  /** Copy up to and including the colon, and the whitespace after it. */
  method CopyToValue(text: string, from: nat, before: string) returns (out: string, i: nat)
    requires from <= |text|
    ensures from <= i <= |text|
    ensures before + Repair(text[from..], Colon) == out + Repair(text[i..], Gap)
    ensures i == |text| || !IsSpace(text[i])
  {
    out, i := before, from;
    while i < |text| && text[i] != ':'
      invariant from <= i <= |text|
      invariant before + Repair(text[from..], Colon) == out + Repair(text[i..], Colon)
    {
      assert text[i..][1..] == text[i + 1..];
      out := out + [text[i]];
      i := i + 1;
    }
    if i == |text| { return; }
    assert text[i..][1..] == text[i + 1..];
    out := out + ":";
    i := i + 1;
    while i < |text| && IsSpace(text[i])
      invariant from <= i <= |text|
      invariant before + Repair(text[from..], Colon) == out + Repair(text[i..], Gap)
    {
      assert text[i..][1..] == text[i + 1..];
      out := out + [text[i]];
      i := i + 1;
    }
  }

  /** One character of a body is copied or escaped, or ends it. */
  lemma BodyStep(out: string, text: string, i: nat, escaped: bool)
    requires i < |text|
    ensures out + RepairBody(text[i..], escaped)
         == if !escaped && text[i] == '"' && Closes(text[i + 1..]) then out + "\"" + Repair(text[i + 1..], Seek)
            else out + EscapeQuote(text[i], escaped) + RepairBody(text[i + 1..], EscapesNext(text[i], escaped))
  {
    var here, rest := text[i..], text[i + 1..];
    assert here[1..] == rest;
    if EndsHere(here, escaped) {
      Associative(out, "\"", Repair(rest, Seek));
    } else {
      Associative(out, EscapeQuote(text[i], escaped), RepairBody(rest, EscapesNext(text[i], escaped)));
    }
  }

  /** Copy a body, escaping its bare quotation marks, and its terminator. */
  method CopyBody(text: string, from: nat, before: string) returns (out: string, i: nat)
    requires from <= |text|
    ensures from <= i <= |text|
    ensures before + RepairBody(text[from..], false) == out + Repair(text[i..], Seek)
  {
    ghost var whole := before + RepairBody(text[from..], false);
    out, i := before, from;
    var escaped := false;
    while i < |text|
      invariant from <= i <= |text|
      invariant whole == out + RepairBody(text[i..], escaped)
    {
      var ch := text[i];
      BodyStep(out, text, i, escaped);
      var copied := [ch];
      if escaped {
        escaped := false;
      } else if ch == '\\' {
        escaped := true;
      } else if ch == '"' {
        var ends := LooksLikeEnd(text, i + 1);
        if ends {
          out := out + "\"";
          i := i + 1;
          return;
        }
        copied := "\\\"";
      }
      out := out + copied;
      i := i + 1;
    }
  }

  /** The marker found at `index` ends a stretch of copied text. */
  lemma AtMarker(text: string, from: nat, index: nat)
    requires from <= index <= |text| - |MARKER| && MARKER <= text[index..]
    requires forall k :: from <= k < index ==> !(MARKER <= text[k..])
    ensures Repair(text[from..], Seek)
         == text[from..index] + (MARKER + Repair(text[index + |MARKER|..], Colon))
  {
    SeekSkips(text, from, index);
    assert text[index..][|MARKER|..] == text[index + |MARKER|..];
  }

  /** At a value the pass enters a body, or goes on searching. */
  lemma AtValue(text: string, i: nat)
    requires i <= |text| && (i < |text| ==> !IsSpace(text[i]))
    ensures Repair(text[i..], Gap)
         == if i < |text| && text[i] == '"' then "\"" + RepairBody(text[i + 1..], false) else Repair(text[i..], Seek)
  {
    if i < |text| { assert text[i..][1..] == text[i + 1..]; }
  }

  lemma MovesLeft(a: string, b: string, c: string, d: string)
    ensures a + (b + (c + d)) == a + b + c + d
  {
  }

  /** One content field, from the point where the search for its marker started. */
  method ScanField(text: string, from: nat, index: nat, before: string) returns (out: string, i: nat)
    requires from <= index <= |text| - |MARKER| && MARKER <= text[index..]
    requires forall k :: from <= k < index ==> !(MARKER <= text[k..])
    ensures from < i <= |text|
    ensures before + Repair(text[from..], Seek) == out + Repair(text[i..], Seek)
  {
    PastMarker(before, text, from, index);
    out, i := CopyToValue(text, index + |MARKER|, before + text[from..index] + MARKER);
    PastGap(out, text, i);
    if i == |text| || text[i] != '"' { return; }
    out, i := CopyBody(text, i + 1, out + "\"");
  }

  lemma PastMarker(before: string, text: string, from: nat, index: nat)
    requires from <= index <= |text| - |MARKER| && MARKER <= text[index..]
    requires forall k :: from <= k < index ==> !(MARKER <= text[k..])
    ensures before + Repair(text[from..], Seek)
         == before + text[from..index] + MARKER + Repair(text[index + |MARKER|..], Colon)
  {
    AtMarker(text, from, index);
    MovesLeft(before, text[from..index], MARKER, Repair(text[index + |MARKER|..], Colon));
  }

  lemma PastGap(out: string, text: string, i: nat)
    requires i <= |text| && (i < |text| ==> !IsSpace(text[i]))
    ensures out + Repair(text[i..], Gap)
         == if i < |text| && text[i] == '"' then out + "\"" + RepairBody(text[i + 1..], false)
            else out + Repair(text[i..], Seek)
  {
    AtValue(text, i);
    if i < |text| && text[i] == '"' { Associative(out, "\"", RepairBody(text[i + 1..], false)); }
  }

  /** The scanner of the source. */
  method ScanContentFields(text: string) returns (out: string)
    ensures out == Repair(text, Seek)
  {
    out := "";
    var i := 0;
    while i < |text|
      invariant 0 <= i <= |text|
      invariant Repair(text, Seek) == out + Repair(text[i..], Seek)
      decreases |text| - i
    {
      var index := FindMarker(text, i);
      if index == -1 {
        SeekSkips(text, i, |text|);
        out := out + text[i..];
        return;
      }
      out, i := ScanField(text, i, index, out);
    }
  }

  /** What the caller relies on: the frame of the text is untouched, every content body is
      replaced by its escape, and a second pass would change nothing. */
  method EscapeUnescapedQuotes(text: string) returns (out: string)
    ensures out == Render(RepairAll(Outline(text, Seek)))
    ensures Outline(out, Seek) == RepairAll(Outline(text, Seek))
    ensures Repair(out, Seek) == out
  {
    out := ScanContentFields(text);
    RepairTouchesBodiesOnly(text, Seek);
    OutlineOfRepair(text, Seek);
    RepairIdempotent(text);
  }
}
