/** Journal comments: JavaScript's trim, and the two kinds of comment the resync looks for. */
module Comments {

  /** White space and line terminators, as String.prototype.trim counts them. */
  predicate IsSpace(c: char) {
    '\t' <= c <= '\r' || c == ' ' || c == '\U{A0}' || c == '\U{1680}' || '\U{2000}' <= c <= '\U{200A}' ||
    c == '\U{2028}' || c == '\U{2029}' || c == '\U{202F}' || c == '\U{205F}' || c == '\U{3000}' || c == '\U{FEFF}'
  }

  function TrimStart(s: string): string {
    if s != "" && IsSpace(s[0]) then TrimStart(s[1..]) else s
  }

  function TrimEnd(s: string): string {
    if s != "" && IsSpace(s[|s| - 1]) then TrimEnd(s[..|s| - 1]) else s
  }

  function Trim(s: string): string {
    TrimEnd(TrimStart(s))
  }

  const TRUST_PREFIX := "Trust JE "
  const REVERSAL_PREFIX := "Reversal entry"
  const CORRECTION_PREFIX := TRUST_PREFIX + "balance-correction:"
  const CORRECTION := CORRECTION_PREFIX + " restore opening balance for active bonds"

  /** Posted to the ledger directly, neither by the trust nor by a reversal. */
  predicate IsStale(comment: string) {
    Trim(comment) != "" && !(TRUST_PREFIX <= Trim(comment)) && !(REVERSAL_PREFIX <= Trim(comment))
  }

  predicate IsCorrection(comment: string) {
    CORRECTION_PREFIX <= Trim(comment)
  }

  /** The same white space, character by character. */
  predicate Blank(c: char) {
    c in "\t\n\U{0B}\U{0C}\r \U{A0}\U{1680}\U{2028}\U{2029}\U{202F}\U{205F}\U{3000}\U{FEFF}" ||
    c in "\U{2000}\U{2001}\U{2002}\U{2003}\U{2004}\U{2005}\U{2006}\U{2007}\U{2008}\U{2009}\U{200A}"
  }

  lemma BlankIsSpace(c: char)
    ensures IsSpace(c) <==> Blank(c)
  {
  }

  lemma {:induction false} TrimStartIs(before: string, text: string)
    requires (forall c :: c in before ==> Blank(c)) && (text != "" ==> !Blank(text[0]))
    ensures TrimStart(before + text) == text
  {
    if before == "" {
      assert before + text == text;
      if text != "" { BlankIsSpace(text[0]); }
    } else {
      assert before[0] in before && forall c :: c in before[1..] ==> c in before;
      assert (before + text)[1..] == before[1..] + text;
      BlankIsSpace(before[0]);
      TrimStartIs(before[1..], text);
    }
  }

  lemma {:induction false} TrimEndIs(text: string, after: string)
    requires (forall c :: c in after ==> Blank(c)) && (text != "" ==> !Blank(text[|text| - 1]))
    ensures TrimEnd(text + after) == text
  {
    if after == "" {
      assert text + after == text;
      if text != "" { BlankIsSpace(text[|text| - 1]); }
    } else {
      var init, last := after[..|after| - 1], after[|after| - 1];
      assert last in after && forall c :: c in init ==> c in after;
      assert (text + after)[..|text + after| - 1] == text + init;
      BlankIsSpace(last);
      TrimEndIs(text, init);
    }
  }

  /** Trimming takes off exactly the white space around a text. */
  lemma TrimIs(before: string, text: string, after: string)
    requires (forall c :: c in before ==> Blank(c)) && (forall c :: c in after ==> Blank(c))
    requires text != "" ==> !Blank(text[0]) && !Blank(text[|text| - 1])
    ensures Trim(before + text + after) == text
  {
    if text == "" {
      TrimStartIs(before + after, "");
      assert before + text + after == (before + after) + "";
    } else {
      TrimStartIs(before, text + after);
      assert before + text + after == before + (text + after);
      TrimEndIs(text, after);
    }
  }

  lemma TrimmedByEnds(s: string)
    requires s != "" && !IsSpace(s[0]) && !IsSpace(s[|s| - 1])
    ensures Trim(s) == s
  {
  }

  lemma PrefixText()
    ensures CORRECTION_PREFIX == "Trust JE balance-correction:"
  {
    var text := "Trust JE balance-correction:";
    assert TRUST_PREFIX <= text && text[9..] == "balance-correction:";
  }

  lemma CorrectionText()
    ensures CORRECTION == "Trust JE balance-correction:" + " restore opening balance for active bonds"
  {
    PrefixText();
  }

  lemma CorrectionTrimmed()
    ensures Trim(CORRECTION) == CORRECTION
  {
    var tail := " restore opening balance for active bonds";
    assert CORRECTION[0] == TRUST_PREFIX[0] == 'T';
    assert CORRECTION[|CORRECTION| - 1] == tail[|tail| - 1] == 's';
    TrimmedByEnds(CORRECTION);
  }

  /** The comment of a correction is kept by the stale sweep and found again by the next correction. */
  lemma CorrectionIsKept()
    ensures IsCorrection(CORRECTION) && !IsStale(CORRECTION) && !("Reversal entry" <= Trim(CORRECTION))
  {
    CorrectionTrimmed();
    assert TRUST_PREFIX <= CORRECTION_PREFIX <= CORRECTION;
    assert CORRECTION[0] == TRUST_PREFIX[0] == 'T' && "Reversal entry"[0] == 'R';
  }

  /** A trimmed comment that announces a reversal is neither stale nor a correction. */
  lemma ReversalIsKept(comment: string)
    requires "Reversal entry" <= comment && Trim(comment) == comment
    ensures !IsStale(comment) && !IsCorrection(comment)
  {
    assert comment[0] == REVERSAL_PREFIX[0] == 'R' && CORRECTION_PREFIX[0] == 'T';
  }
}
