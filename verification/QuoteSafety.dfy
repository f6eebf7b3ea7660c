/** When escaping the quotation marks of "content" fields changes nothing, said with the characters alone. */
module QuoteSafety {
  import opened Text
  import opened Lists
  import opened JsonQuotes

  // ---------- what a reader sees ----------

  /** How many backslashes stand directly before a place. */
  function Backslashes(t: string, k: nat): nat
    requires k <= |t|
  {
    if k > 0 && t[k - 1] == '\\' then 1 + Backslashes(t, k - 1) else 0
  }

  /** An unescaped quotation mark: an even number of backslashes stands before it. */
  predicate Bare(t: string, k: nat) { k < |t| && t[k] == '"' && Backslashes(t, k) % 2 == 0 }

  /** After whitespace only, a comma or a closing brace follows. */
  ghost predicate CloserFollows(t: string, k: nat) {
    exists j :: k < j < |t| && (t[j] == ',' || t[j] == '}') && forall i :: k < i < j ==> IsSpace(t[i])
  }

  ghost predicate FirstBare(t: string, k: nat) { Bare(t, k) && forall i: nat :: i < k ==> !Bare(t, i) }

  /**
   * From any point of the scan: every string that is the value of a content field either never ends, or its first
   * unescaped quotation mark is followed by a comma or a closing brace.
   */
  ghost predicate WellQuoted(t: string, p: Phase)
    decreases |t|, if p == Gap then 1 else 0
  {
    t == "" || match p
      case Seek => if "\"content\"" <= t then WellQuoted(t[9..], Colon) else WellQuoted(t[1..], Seek)
      case Colon => WellQuoted(t[1..], if t[0] == ':' then Gap else Colon)
      case Gap =>
        if IsSpace(t[0]) then WellQuoted(t[1..], Gap)
        else if t[0] != '"' then WellQuoted(t, Seek)
        else WellQuotedBody(t[1..])
  }

  /** From just behind the quotation mark that opens the value. */
  ghost predicate WellQuotedBody(t: string)
    decreases |t|, 2
  {
    || (forall k: nat :: !Bare(t, k))
    || (exists k: nat :: k < |t| && FirstBare(t, k) && CloserFollows(t, k) && WellQuoted(t[k + 1..], Seek))
  }

  // ---------- the two views of an escape ----------

  lemma {:induction false} PendingOneMore(s: string, c: char, escaped: bool)
    ensures Pending(s + [c], escaped) == EscapesNext(c, Pending(s, escaped))
    decreases |s|
  {
    if s == "" {
      assert (s + [c])[1..] == "";
    } else {
      assert (s + [c])[1..] == s[1..] + [c];
      PendingOneMore(s[1..], c, EscapesNext(s[0], escaped));
    }
  }

  lemma {:induction false} PendingIsOdd(t: string, k: nat)
    requires k <= |t|
    ensures Pending(t[..k], false) <==> Backslashes(t, k) % 2 == 1
  {
    if k > 0 {
      PendingIsOdd(t, k - 1);
      assert t[..k] == t[..k - 1] + [t[k - 1]];
      PendingOneMore(t[..k - 1], t[k - 1], false);
    } else {
      assert t[..0] == "";
    }
  }

  lemma BareIff(t: string, k: nat)
    requires k < |t|
    ensures Bare(t, k) <==> t[k] == '"' && !Pending(t[..k], false)
  {
    PendingIsOdd(t, k);
  }

  lemma CloserFollowsIff(t: string, k: nat)
    requires k < |t|
    ensures CloserFollows(t, k) <==> Closes(t[k + 1..])
  {
    ClosesIff(t, k + 1);
    if CloserFollows(t, k) {
      var j :| k < j < |t| && (t[j] == ',' || t[j] == '}') && forall i :: k < i < j ==> IsSpace(t[i]);
      assert Blank(t, k + 1, j);
    }
    if j :| k + 1 <= j < |t| && (t[j] == ',' || t[j] == '}') && Blank(t, k + 1, j) {
      assert forall i :: k < i < j ==> IsSpace(t[i]);
    }
  }

  ghost predicate AllPending(t: string, escaped: bool) {
    forall k :: 0 <= k < |t| && t[k] == '"' ==> Pending(t[..k], escaped)
  }

  lemma AllPendingTail(t: string, escaped: bool)
    requires t != ""
    ensures AllPending(t, escaped) <==> (escaped || t[0] != '"') && AllPending(t[1..], EscapesNext(t[0], escaped))
  {
    var tail, next := t[1..], EscapesNext(t[0], escaped);
    assert t[..0] == "";
    forall k | 0 <= k < |tail| ensures Pending(tail[..k], next) == Pending(t[..k + 1], escaped) && tail[k] == t[k + 1] {
      assert t[..k + 1][1..] == tail[..k];
    }
    if AllPending(tail, next) && (escaped || t[0] != '"') {
      forall k | 0 <= k < |t| && t[k] == '"' ensures Pending(t[..k], escaped) {
        if k > 0 { assert tail[k - 1] == '"' && t[..k - 1 + 1] == t[..k]; }
      }
    }
    if AllPending(t, escaped) {
      forall k | 0 <= k < |tail| && tail[k] == '"' ensures Pending(tail[..k], next) { assert t[k + 1] == '"'; }
    }
  }

  lemma {:induction false} NoBareQuoteIff(t: string, escaped: bool)
    ensures NoBareQuote(t, escaped) <==> AllPending(t, escaped)
    decreases |t|
  {
    if t != "" {
      NoBareQuoteIff(t[1..], EscapesNext(t[0], escaped));
      AllPendingTail(t, escaped);
    }
  }

  lemma NoneBareIff(t: string, k: nat)
    requires k <= |t|
    ensures NoBareQuote(t[..k], false) <==> forall i: nat :: i < k ==> !Bare(t, i)
  {
    NoBareQuoteIff(t[..k], false);
    forall i: nat | i < k ensures Bare(t, i) <==> t[..k][i] == '"' && !Pending(t[..k][..i], false) {
      BareIff(t, i);
      assert t[..k][..i] == t[..i];
    }
    if forall i: nat :: i < k ==> !Bare(t, i) {
      forall i | 0 <= i < k && t[..k][i] == '"' ensures Pending(t[..k][..i], false) { assert !Bare(t, i); }
    }
  }

  // ---------- what escaping does to length ----------

  lemma {:induction false} EscapeLength(t: string, escaped: bool)
    ensures |EscapeQuotes(t, escaped)| >= |t|
    ensures |EscapeQuotes(t, escaped)| == |t| <==> NoBareQuote(t, escaped)
    ensures NoBareQuote(t, escaped) ==> EscapeQuotes(t, escaped) == t
    decreases |t|
  {
    if t != "" {
      EscapeLength(t[1..], EscapesNext(t[0], escaped));
      assert t == [t[0]] + t[1..];
    }
  }

  lemma {:induction false} RepairLength(t: string, p: Phase)
    ensures |Repair(t, p)| >= |t|
    decreases |t|, if p == Gap then 1 else 0
  {
    if t != "" {
      match p
      case Seek => if MARKER <= t { RepairLength(t[|MARKER|..], Colon); } else { RepairLength(t[1..], Seek); }
      case Colon => RepairLength(t[1..], if t[0] == ':' then Gap else Colon);
      case Gap =>
        if IsSpace(t[0]) { RepairLength(t[1..], Gap); }
        else if t[0] != '"' { RepairLength(t, Seek); }
        else { RepairBodyLength(t[1..]); }
    }
  }

  lemma {:induction false} RepairBodyLength(t: string)
    ensures |RepairBody(t, false)| >= |t|
    decreases |t|, 2
  {
    var k := BodyLength(t, false);
    RepairBodySplits(t, false);
    EscapeLength(t[..k], false);
    if k < |t| {
      RepairLength(t[k + 1..], Seek);
      BehindTerminator(t, k);
    }
  }

  lemma SamePieces(a: string, b: string, c: string, d: string)
    requires |a| >= |c| && |b| >= |d|
    ensures a + b == c + d <==> a == c && b == d
  {
    if a + b == c + d {
      assert |a| == |c|;
      assert a == (a + b)[..|a|] && c == (c + d)[..|c|] && b == (a + b)[|a|..] && d == (c + d)[|c|..];
    }
  }

  // ---------- when a body is left as it is ----------

  lemma {:induction false} BodyLengthIs(t: string, k: nat, escaped: bool)
    requires k < |t| && t[k] == '"' && !Pending(t[..k], escaped) && Closes(t[k + 1..])
    requires NoBareQuote(t[..k], escaped)
    ensures BodyLength(t, escaped) == k
    decreases |t|
  {
    if k == 0 {
      assert t[..0] == "";
    } else {
      assert t[..k][1..] == t[1..][..k - 1] && t[k + 1..] == t[1..][k..];
      BodyLengthIs(t[1..], k - 1, EscapesNext(t[0], escaped));
    }
  }

  lemma FirstBareEndsTheBody(t: string, k: nat)
    requires k < |t| && FirstBare(t, k) && CloserFollows(t, k)
    ensures BodyLength(t, false) == k
  {
    BareIff(t, k);
    CloserFollowsIff(t, k);
    NoneBareIff(t, k);
    BodyLengthIs(t, k, false);
  }

  lemma {:induction false} NothingBareNeverEnds(t: string, escaped: bool)
    requires NoBareQuote(t, escaped)
    ensures BodyLength(t, escaped) == |t|
    decreases |t|
  {
    if t != "" { NothingBareNeverEnds(t[1..], EscapesNext(t[0], escaped)); }
  }

  /** A body is left as it is exactly when nothing bare stands before its end and what follows is left as it is. */
  lemma BodyKeptIff(t: string)
    ensures var k := BodyLength(t, false);
      RepairBody(t, false) == t <==> NoBareQuote(t[..k], false) && (k < |t| ==> Repair(t[k + 1..], Seek) == t[k + 1..])
  {
    var k := BodyLength(t, false);
    EscapeLength(t[..k], false);
    if k < |t| {
      ClosedBodySplits(t, k);
      RepairLength(t[k + 1..], Seek);
      SplitsAtQuote(t, k);
      SameAroundAQuote(EscapeQuotes(t[..k], false), Repair(t[k + 1..], Seek), t[..k], t[k + 1..]);
    } else {
      OpenBodyKept(t);
    }
  }

  lemma OpenBodyKept(t: string)
    requires BodyLength(t, false) == |t|
    ensures RepairBody(t, false) == EscapeQuotes(t, false) && t[..|t|] == t
  {
    var e := EscapeQuotes(t, false);
    assert t[..|t|] == t;
    assert RepairBody(t, false) == e + Behind(t, |t|) by { RepairBodySplits(t, false); }
    assert Behind(t, |t|) == "" && e + "" == e;
  }

  lemma SameAroundAQuote(a: string, b: string, c: string, d: string)
    requires |a| >= |c| && |b| >= |d|
    ensures a + ("\"" + b) == c + ("\"" + d) <==> a == c && b == d
  {
    SamePieces(a, "\"" + b, c, "\"" + d);
    SamePieces("\"", b, "\"", d);
  }

  lemma {:induction false} WellQuotedBodyIff(t: string)
    ensures RepairBody(t, false) == t <==> WellQuotedBody(t)
    decreases |t|, 2
  {
    var k := BodyLength(t, false);
    BodyKeptIff(t);
    NoneBareIff(t, k);
    ClosedAtTheFirst(t, k);
    if k < |t| {
      WellQuotedIff(t[k + 1..], Seek);
      EndIsClosed(t, k);
    } else {
      NothingBareBeyond(t);
    }
  }

  lemma EndIsClosed(t: string, k: nat)
    requires k == BodyLength(t, false) < |t|
    ensures Bare(t, k) && CloserFollows(t, k)
  {
    TerminatorIsBare(t, false);
    BareIff(t, k);
    CloserFollowsIff(t, k);
  }

  lemma NothingBareBeyond(t: string)
    ensures (forall k: nat :: !Bare(t, k)) <==> forall k: nat :: k < |t| ==> !Bare(t, k)
  {
  }

  /** The two ways in which a body can be well quoted, seen from where the scan ends it. */
  lemma ClosedAtTheFirst(t: string, k: nat)
    requires k == BodyLength(t, false)
    ensures (forall i: nat :: !Bare(t, i)) ==> k == |t|
    ensures forall i: nat :: i < |t| && FirstBare(t, i) && CloserFollows(t, i) ==> i == k
  {
    if forall i: nat :: !Bare(t, i) {
      NoneBareIff(t, |t|);
      assert t[..|t|] == t;
      NothingBareNeverEnds(t, false);
    }
    forall i: nat | i < |t| && FirstBare(t, i) && CloserFollows(t, i) ensures i == k { FirstBareEndsTheBody(t, i); }
  }

  /** The pass leaves a text as it is exactly when it is well quoted. */
  lemma {:induction false} WellQuotedIff(t: string, p: Phase)
    ensures Repair(t, p) == t <==> WellQuoted(t, p)
    decreases |t|, if p == Gap then 1 else 0
  {
    if t != "" {
      match p
      case Seek =>
        if MARKER <= t {
          WellQuotedIff(t[|MARKER|..], Colon);
          assert t == MARKER + t[|MARKER|..];
          RepairLength(t[|MARKER|..], Colon);
          SamePieces(MARKER, Repair(t[|MARKER|..], Colon), MARKER, t[|MARKER|..]);
        } else {
          WellQuotedIff(t[1..], Seek);
          OneMoreKept(t, Repair(t[1..], Seek));
        }
      case Colon =>
        var q := if t[0] == ':' then Gap else Colon;
        WellQuotedIff(t[1..], q);
        OneMoreKept(t, Repair(t[1..], q));
      case Gap =>
        if IsSpace(t[0]) {
          WellQuotedIff(t[1..], Gap);
          OneMoreKept(t, Repair(t[1..], Gap));
        } else if t[0] != '"' {
          WellQuotedIff(t, Seek);
        } else {
          WellQuotedBodyIff(t[1..]);
          OneMoreKept(t, RepairBody(t[1..], false));
        }
    }
  }

  lemma OneMoreKept(t: string, rest: string)
    requires t != ""
    ensures [t[0]] + rest == t <==> rest == t[1..]
  {
    assert t == [t[0]] + t[1..];
    assert ([t[0]] + rest)[1..] == rest;
  }

  /** What the scanner returns is the text itself exactly when the text is well quoted. */
  lemma WellQuotedTextIsKept(text: string)
    ensures Render(RepairAll(Outline(text, Seek))) == text <==> WellQuoted(text, Seek)
  {
    RepairTouchesBodiesOnly(text, Seek);
    WellQuotedIff(text, Seek);
  }
}
