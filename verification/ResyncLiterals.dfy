/** Steps 2 and 6 in the codes, texts and accounts the route itself names. */
module ResyncLiterals {
  import opened Comments
  import opened LedgerSweeps
  import opened RemoteGl
  import opened Resync
  import opened ResyncGuarantees
  import opened ResyncRuns
  import opened Reversals
  import opened Seqs
  import opened Wrappers

  // ---- Step 6: which account, which way -------------------------------------------------------

  /** Account `a` is behind code 1100, the bond investments, and `b` behind 3000, the corpus. */
  predicate Maps(glMap: map<string, int>, a: int, b: int) {
    && "1100" in glMap && glMap["1100"] == a && a != 0
    && "3000" in glMap && glMap["3000"] == b && b != 0
  }

  /** A posted correction debits the one and credits the other. */
  function CorrectionOf(before: seq<Line>, a: int, b: int, amount: real): seq<Line> {
    var comment := "Trust JE balance-correction:" + " restore opening balance for active bonds";
    [Line(FreshId(before), a, true, amount, comment, false), Line(FreshId(before), b, false, amount, comment, false)]
  }

  /** Whatever the replies and whatever is cached, that is all a corrected step 6 posts. */
  lemma CorrectionLines(env: Env, gl: Gl, glMap: map<string, int>, expected: real, a: int, b: int)
    requires Maps(glMap, a, b)
    ensures var (gl', outcome) := CorrectBalance(env, gl, glMap, expected);
      outcome.Corrected? ==>
        outcome.amount > 1.0 && exists before: seq<Line> :: gl'.lines == before + CorrectionOf(before, a, b, outcome.amount)
  {
    var mapped := LookupCall(env, gl).0;
    var (listed, entries) := ListCall(env, mapped);
    if CorrectBalance(env, gl, glMap, expected).1.Corrected? {
      var looked := LookupCall(env, listed).0;
      var looped := ReverseWhere(env, looked, IsCorrection, entries.value, 0).0;
      RecorrectShape(env, looped, a, b, expected);
      CorrectionText();
      assert AfterPost(looped.lines, a, b, CorrectBalance(env, gl, glMap, expected).1.amount, CORRECTION) ==
             looped.lines + CorrectionOf(looped.lines, a, b, CorrectBalance(env, gl, glMap, expected).1.amount);
    }
  }

  /** Debits count for an account, credits against it, reversed lines and other accounts not at all. */
  lemma NetOfMore(lines: seq<Line>, l: Line, a: int)
    ensures Net([], Account(a)) == 0.0
    ensures Net(lines + [l], Account(a)) == Net(lines, Account(a)) +
      if l.account != a || l.reversed then 0.0 else if l.debit then l.amount else -l.amount
  {
    assert (lines + [l])[..|lines|] == lines;
  }

  /**
   With every call that is sent answered: a correction is posted iff account `a` is out of tolerance
   and, without its old corrections, more than 1 short. Then it ends at its expected value, `b` loses
   what `a` lacked, and every other account is left as reversing the old corrections leaves it.
   */
  lemma CorrectionDebitsBonds(env: Env, gl: Gl, glMap: map<string, int>, expected: real, a: int, b: int)
    requires Reliable(env) && Coherent(gl) && Ready(gl) && Maps(glMap, a, b) && a != b
    ensures var (gl', outcome), n := CorrectBalance(env, gl, glMap, expected), Net(gl.lines, Account(a));
      && (outcome.Corrected? <==>
            && (n < expected - 1.0 || n > expected + 1.0)
            && expected - WithoutCorrections(env, gl.lines, a) > 1.0 && !CorrectionsTrip(gl.lines))
      && (outcome.Corrected? ==>
            && outcome.amount == expected - WithoutCorrections(env, gl.lines, a)
            && Net(gl'.lines, Account(a)) == expected
            && Net(gl'.lines, Account(b)) == WithoutCorrections(env, gl.lines, b) - outcome.amount
            && forall c :: c != a && c != b ==> Net(gl'.lines, Account(c)) == WithoutCorrections(env, gl.lines, c))
  {
    var mapped := LookupCall(env, gl).0;
    var missing, lines := Shortfall(env, gl.lines, a, expected), AfterLoop(env, mapped).lines;
    Step6Complete(env, mapped, a, b, expected);
    forall c ensures Net(lines, Account(c)) == WithoutCorrections(env, gl.lines, c)
      ensures Net(AfterPost(lines, a, b, missing, CORRECTION), Account(c)) ==
        Net(lines, Account(c)) + (if c == a then missing else 0.0) - (if c == b then missing else 0.0)
    {
      LoopNet(env, mapped, c);
      NetAfterPost(lines, a, b, missing, CORRECTION, Account(c));
    }
    Step6Amount(env, mapped, a, b, expected);
  }

  lemma Step6Amount(env: Env, gl: Gl, a: int, b: int, expected: real)
    requires Reliable(env) && Coherent(gl) && Ready(gl)
    ensures var outcome := CorrectAccount(env, gl, a, b, expected).1;
      outcome.Corrected? ==> outcome.amount == Shortfall(env, gl.lines, a, expected)
  {
    LoopComes(env, gl);
    LoopNet(env, gl, a);
    Step6Branches(env, gl, a, b, expected);
    var after := AfterLoop(env, gl);
    ListCoherent(env, after);
  }

  /** Without an account behind either code nothing is done. */
  lemma UnmappedIsReported(env: Env, gl: Gl, glMap: map<string, int>, expected: real)
    requires "1100" !in glMap || "3000" !in glMap || glMap["1100"] == 0 || glMap["3000"] == 0
    ensures var (gl', outcome) := CorrectBalance(env, gl, glMap, expected);
      && gl'.lines == gl.lines && gl'.cache == gl.cache
      && outcome == if env.reply(gl.calls) == Done then MissingMapping else Aborted
  {
  }

  // ---- Which comments the sweeps go for --------------------------------------------------------

  /** Posted neither by the trust nor by a reversal. */
  predicate Foreign(comment: string) {
    Trim(comment) != "" && !("Trust JE " <= Trim(comment)) && !("Reversal entry" <= Trim(comment))
  }

  lemma {:induction false} SameSweep(env: Env, gl: Gl, f: string -> bool, g: string -> bool, snapshot: seq<Line>, count: nat)
    requires forall c :: f(c) == g(c)
    ensures ReverseWhere(env, gl, f, snapshot, count) == ReverseWhere(env, gl, g, snapshot, count)
    decreases |snapshot|
  {
    if snapshot != [] {
      var line, rest := snapshot[0], snapshot[1..];
      var (gl', ok) := ReverseCall(env, gl, line.txn);
      SameSweep(env, gl, f, g, rest, count);
      SameSweep(env, gl', f, g, rest, if ok then count + 1 else count);
    }
  }

  /** The stale sweep calls for the transaction of every unreversed line with such a comment. */
  lemma StaleSweepIs(env: Env, gl: Gl)
    ensures var (listed, entries) := ListCall(env, gl);
      SweepStale(env, gl) ==
        if entries.None? then (listed, None)
        else
          var (swept, count) := ReverseWhere(env, listed, Foreign, entries.value, 0);
          (swept, Some(count))
  {
    var (listed, entries) := ListCall(env, gl);
    if entries.Some? { SameSweep(env, listed, IsStale, Foreign, entries.value, 0); }
  }

  /** The loop of step 6 calls for the transaction of every unreversed line announcing a correction. */
  lemma CorrectionLoopIs(env: Env, gl: Gl, snapshot: seq<Line>)
    ensures ReverseWhere(env, gl, IsCorrection, snapshot, 0) ==
      ReverseWhere(env, gl, (c: string) => "Trust JE balance-correction:" <= Trim(c), snapshot, 0)
  {
    PrefixText();
    SameSweep(env, gl, IsCorrection, (c: string) => "Trust JE balance-correction:" <= Trim(c), snapshot, 0);
  }

  /** What the sweep over a listing calls for. */
  lemma {:induction false} CalledForIff(snapshot: seq<Line>, t: nat)
    ensures t in Picks(snapshot, IsStale) <==> exists l :: l in snapshot && l.txn == t && !l.reversed && Foreign(l.comment)
  {
    PicksAreTargets(snapshot, IsStale);
    assert t in Picks(snapshot, IsStale) <==> t in Elements(Picks(snapshot, IsStale));
    if l :| l in snapshot && l.txn == t && !l.reversed && Foreign(l.comment) {
      assert Picked(l, IsStale);
    }
  }

  /**
   Whatever the replies, step 2 reverses only duplicates and transactions with an unreversed line
   of such a comment: never an entry of the trust or of a reversal, unless it is a duplicate.
   */
  lemma KeptKindsAreSpared(env: Env, gl: Gl, t: nat)
    requires GoodNotes(env) && Coherent(gl) && Active(gl.lines, t) && t !in Duplicates(gl.lines)
    requires forall l :: l in gl.lines && l.txn == t && !l.reversed ==>
      Trim(l.comment) == "" || "Trust JE " <= Trim(l.comment) || "Reversal entry" <= Trim(l.comment)
    ensures var lines := CleanUpStale(env, gl).0.lines;
      Active(lines, t) && CommentOf(lines, t) == CommentOf(gl.lines, t) &&
      (AlreadyReversed(lines, t) <==> AlreadyReversed(gl.lines, t))
  {
    var log := Step2Log(env, gl);
    Step2Undoes(env, gl);
    CalledForIff(gl.lines, t);
    PicksAreTargets(gl.lines, IsStale);
    assert t !in log by {
      assert t in log ==> t in Elements(log);
      assert t in Elements(Picks(gl.lines, IsStale)) ==> t in Picks(gl.lines, IsStale);
    }
    UndoStatus(env, gl.lines, log, t);
  }

  /** With every call that is sent answered, and the sweep not cut short, all the others are reversed. */
  lemma OthersAreReversed(env: Env, gl: Gl, t: nat)
    requires Reliable(env) && GoodNotes(env) && Sound(env, gl.lines) && Coherent(gl) && Ready(gl)
    requires Active(gl.lines, t) && !CutShort(gl.lines, StalePicks(gl.lines))
    ensures AlreadyReversed(CleanUpStale(env, gl).0.lines, t) <==>
      t in Duplicates(gl.lines) || exists l :: l in gl.lines && l.txn == t && !l.reversed && Foreign(l.comment)
  {
    var log := Step2Log(env, gl);
    Step2Undoes(env, gl);
    Step2Complete(env, gl);
    ExposedAre(env, gl.lines);
    CalledForIff(gl.lines, t);
    PicksAreTargets(gl.lines, IsStale);
    UndoStatus(env, gl.lines, log, t);
    assert t in log <==> t in Elements(log);
    assert t in Picks(gl.lines, IsStale) <==> t in Elements(Picks(gl.lines, IsStale));
    assert t in Duplicates(gl.lines) <==> t in Elements(Duplicates(gl.lines));
  }

  /** Grouping throws iff an unreversed transaction has one of these comments. */
  lemma ThrowsIff(lines: seq<Line>)
    ensures Throws(lines) <==> exists t :: Active(lines, t) && CommentOf(lines, t) in INHERITED
    ensures INHERITED == {
      "constructor", "hasOwnProperty", "isPrototypeOf", "propertyIsEnumerable", "toLocaleString", "toString", "valueOf",
      "__defineGetter__", "__defineSetter__", "__lookupGetter__", "__lookupSetter__", "__proto__"}
  {
    if t :| Active(lines, t) && CommentOf(lines, t) in INHERITED { assert t in Txns(lines); }
  }
}
