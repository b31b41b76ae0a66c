/** What steps 2 and 6 are worth: the measured balance and the double entry. */
module ResyncGuarantees {
  import opened Comments
  import opened Decimal
  import opened LedgerSweeps
  import opened RemoteGl
  import opened Resync
  import opened ResyncRuns
  import opened Reversals
  import opened Seqs
  import opened Wrappers

  predicate Completed(outcome: Outcome) {
    outcome.WithinTolerance? || outcome.AlreadyCorrect? || outcome.Corrected?
  }

  /** Both codes lead to an account of the remote ledger. */
  predicate Mapped(glMap: map<string, int>) {
    MappedId(glMap, BOND_ACCOUNT) != 0 && MappedId(glMap, CORPUS_ACCOUNT) != 0
  }

  // ---- The balance when every call that is sent is answered --------------------------------

  /** What an account shows after the loop over the old corrections, read off the ledger as it stands. */
  function WithoutCorrections(env: Env, lines: seq<Line>, account: int): real {
    Net(lines, Account(account)) - Loss(env, Net(lines, Of(CorrectionsReached(lines), Account(account))))
  }

  predicate OutOfTolerance(lines: seq<Line>, account: int, expected: real) {
    Abs(expected - Net(lines, Account(account))) > 1.0
  }

  /** What it then still lacks. */
  function Shortfall(env: Env, lines: seq<Line>, account: int, expected: real): real {
    expected - WithoutCorrections(env, lines, account)
  }

  /** The guard under which step 6 would post, read off the ledger as it stands. */
  predicate NeedsCorrection(env: Env, lines: seq<Line>, account: int, expected: real) {
    OutOfTolerance(lines, account, expected) && Shortfall(env, lines, account, expected) > 1.0
  }

  /** The loop over the old corrections is refused so often that the client stops sending. */
  ghost predicate CorrectionsTrip(lines: seq<Line>) {
    Trips(lines, Picks(lines, IsCorrection))
  }

  /** How far the loop over the old corrections comes. */
  lemma LoopComes(env: Env, gl: Gl)
    requires Reliable(env) && Coherent(gl) && Ready(gl)
    ensures var log, after := CorrectionLog(env, gl), AfterLoop(env, gl);
      && Legit(gl.lines, log) && Elements(log) == CorrectionsReached(gl.lines)
      && after.lines == Undo(env, gl.lines, log) && Coherent(after)
      && (after.failures >= 3 <==> CorrectionsTrip(gl.lines))
  {
    ListCoherent(env, gl);
    PicksBelow(gl.lines, IsCorrection);
    AnsweredLoop(env, BeforeLoop(env, gl), Picks(gl.lines, IsCorrection));
  }

  lemma LoopNet(env: Env, gl: Gl, account: int)
    requires Reliable(env) && Coherent(gl) && Ready(gl)
    ensures Net(AfterLoop(env, gl).lines, Account(account)) == WithoutCorrections(env, gl.lines, account)
  {
    LoopComes(env, gl);
    UndoNet(env, gl.lines, CorrectionLog(env, gl), Account(account));
  }

  /** What step 6 comes to, branch by branch. */
  lemma Step6Complete(env: Env, gl: Gl, bondInv: int, corpus: int, expected: real)
    requires Reliable(env) && Coherent(gl) && Ready(gl)
    ensures var (gl', outcome) := CorrectAccount(env, gl, bondInv, corpus, expected);
      var missing, lines := Shortfall(env, gl.lines, bondInv, expected), AfterLoop(env, gl).lines;
      && Coherent(gl')
      && (if !OutOfTolerance(gl.lines, bondInv, expected) then gl'.lines == gl.lines && outcome.WithinTolerance?
          else if CorrectionsTrip(gl.lines) then gl'.lines == lines && !outcome.Corrected?
          else if NeedsCorrection(env, gl.lines, bondInv, expected) then
            gl'.lines == AfterPost(lines, bondInv, corpus, missing, CORRECTION) && outcome.Corrected?
          else gl'.lines == lines && outcome.AlreadyCorrect?)
  {
    LoopComes(env, gl);
    LoopNet(env, gl, bondInv);
    Step6Branches(env, gl, bondInv, corpus, expected);
    if !OutOfTolerance(gl.lines, bondInv, expected) {
      WithinKeepsCache(env, gl, bondInv, corpus, expected);
    } else if CorrectionsTrip(gl.lines) {
      RecorrectRejected(env, AfterLoop(env, gl), bondInv, corpus, expected);
    } else {
      RecorrectComplete(env, AfterLoop(env, gl), bondInv, corpus, expected, Shortfall(env, gl.lines, bondInv, expected));
    }
  }

  lemma RecorrectComplete(env: Env, gl: Gl, bondInv: int, corpus: int, expected: real, missing: real)
    requires Reliable(env) && Coherent(gl) && gl.failures < 3
    requires missing == expected - Net(gl.lines, Account(bondInv))
    ensures var (gl', outcome) := Recorrect(env, gl, bondInv, corpus, expected);
      && Coherent(gl')
      && (if missing > 1.0 then gl'.lines == AfterPost(gl.lines, bondInv, corpus, missing, CORRECTION) && outcome.Corrected?
          else gl'.lines == gl.lines && outcome.AlreadyCorrect?)
  {
    ListCoherent(env, gl);
  }

  /** With the circuit breaker open nothing is posted. */
  lemma RecorrectRejected(env: Env, gl: Gl, bondInv: int, corpus: int, expected: real)
    requires Reliable(env) && Coherent(gl) && gl.failures >= 3
    ensures var (gl', outcome) := Recorrect(env, gl, bondInv, corpus, expected);
      Coherent(gl') && gl'.lines == gl.lines && !outcome.Corrected?
  {
  }

  lemma WithinKeepsCache(env: Env, gl: Gl, bondInv: int, corpus: int, expected: real)
    requires Reliable(env) && Coherent(gl) && !OutOfTolerance(gl.lines, bondInv, expected)
    ensures Coherent(CorrectAccount(env, gl, bondInv, corpus, expected).0)
  {
    ListCoherent(env, gl);
  }

  /**
   When every call that is sent is answered, step 6 posts iff the ledger it finds needs a correction
   and its old corrections do not open the circuit breaker. The bond account ends at most 1 below
   its expected value, and exact after a posting, unless a correction is needed and both codes lead
   to one account or the circuit breaker opens.
   */
  lemma CorrectionMeetsExpected(env: Env, gl: Gl, glMap: map<string, int>, expected: real)
    requires Reliable(env) && Coherent(gl) && Ready(gl) && Mapped(glMap)
    ensures var (gl', outcome) := CorrectBalance(env, gl, glMap, expected);
      var bondInv, corpus := MappedId(glMap, BOND_ACCOUNT), MappedId(glMap, CORPUS_ACCOUNT);
      var balance, needed := Net(gl'.lines, Account(bondInv)), NeedsCorrection(env, gl.lines, bondInv, expected);
      var trips := CorrectionsTrip(gl.lines);
      && (!trips ==> Completed(outcome))
      && (outcome.Corrected? <==> needed && !trips)
      && (balance >= expected - 1.0 <==> !(needed && (bondInv == corpus || trips)))
      && (needed ==> (balance == expected <==> bondInv != corpus && !trips))
  {
    var bondInv, corpus := MappedId(glMap, BOND_ACCOUNT), MappedId(glMap, CORPUS_ACCOUNT);
    var mapped := LookupCall(env, gl).0;
    LoopNet(env, mapped, bondInv);
    Step6Complete(env, mapped, bondInv, corpus, expected);
    NetAfterPost(AfterLoop(env, mapped).lines, bondInv, corpus, Shortfall(env, gl.lines, bondInv, expected), CORRECTION,
                 Account(bondInv));
  }

  /** An account ends more than 1 too high exactly when it was and stays so after the loop. */
  lemma OverstatementStays(env: Env, gl: Gl, glMap: map<string, int>, expected: real)
    requires Reliable(env) && Coherent(gl) && Ready(gl) && Mapped(glMap)
    ensures var (gl', outcome) := CorrectBalance(env, gl, glMap, expected);
      var bondInv := MappedId(glMap, BOND_ACCOUNT);
      var overstated := Net(gl'.lines, Account(bondInv)) > expected + 1.0;
      && (overstated <==> OutOfTolerance(gl.lines, bondInv, expected) &&
                          WithoutCorrections(env, gl.lines, bondInv) > expected + 1.0)
      && (overstated && !CorrectionsTrip(gl.lines) ==> outcome.AlreadyCorrect?)
  {
    var bondInv, corpus := MappedId(glMap, BOND_ACCOUNT), MappedId(glMap, CORPUS_ACCOUNT);
    var mapped := LookupCall(env, gl).0;
    LoopNet(env, mapped, bondInv);
    Step6Complete(env, mapped, bondInv, corpus, expected);
    NetAfterPost(AfterLoop(env, mapped).lines, bondInv, corpus, Shortfall(env, gl.lines, bondInv, expected), CORRECTION,
                 Account(bondInv));
  }

  /**
   Corrections do not pile up: past the tolerance only the one just posted stands, or none, or,
   with the circuit breaker open, those the loop did not get to.
   */
  lemma OneCorrectionStands(env: Env, gl: Gl, bondInv: int, corpus: int, expected: real)
    requires Reliable(env) && GoodNotes(env) && Sound(env, gl.lines) && Coherent(gl) && Ready(gl)
    requires OutOfTolerance(gl.lines, bondInv, expected)
    ensures |Targets(CorrectAccount(env, gl, bondInv, corpus, expected).0.lines, IsCorrection)| ==
      if CorrectionsTrip(gl.lines) then |Targets(gl.lines, IsCorrection) - CorrectionsReached(gl.lines)|
      else if NeedsCorrection(env, gl.lines, bondInv, expected) then 1 else 0
  {
    TargetsAfterStep6(env, gl, bondInv, corpus, expected);
  }

  lemma TargetsAfterStep6(env: Env, gl: Gl, bondInv: int, corpus: int, expected: real)
    requires Reliable(env) && GoodNotes(env) && Sound(env, gl.lines) && Coherent(gl) && Ready(gl)
    requires OutOfTolerance(gl.lines, bondInv, expected)
    ensures Targets(CorrectAccount(env, gl, bondInv, corpus, expected).0.lines, IsCorrection) ==
      if CorrectionsTrip(gl.lines) then Targets(gl.lines, IsCorrection) - CorrectionsReached(gl.lines)
      else if NeedsCorrection(env, gl.lines, bondInv, expected) then {FreshId(AfterLoop(env, gl).lines)} else {}
  {
    var lines, amount := AfterLoop(env, gl).lines, Shortfall(env, gl.lines, bondInv, expected);
    TargetsAfterLoop(env, gl);
    NoneAfterLoopIff(env, gl);
    CorrectionIsKept();
    PostedTargets(lines, bondInv, corpus, amount, CORRECTION, IsCorrection);
    Step6Complete(env, gl, bondInv, corpus, expected);
  }

  lemma TargetsAfterLoop(env: Env, gl: Gl)
    requires Reliable(env) && GoodNotes(env) && Coherent(gl) && Ready(gl)
    ensures Targets(AfterLoop(env, gl).lines, IsCorrection) ==
      Targets(gl.lines, IsCorrection) - CorrectionsReached(gl.lines)
  {
    LoopComes(env, gl);
    NotesAreKept(env);
    UndoTargets(env, gl.lines, CorrectionLog(env, gl), IsCorrection);
  }

  lemma NoneAfterLoopIff(env: Env, gl: Gl)
    requires Reliable(env) && GoodNotes(env) && Sound(env, gl.lines) && Coherent(gl) && Ready(gl)
    ensures Targets(AfterLoop(env, gl).lines, IsCorrection) == {} <==> !CutShort(gl.lines, Picks(gl.lines, IsCorrection))
    ensures !CorrectionsTrip(gl.lines) ==> Targets(AfterLoop(env, gl).lines, IsCorrection) == {}
  {
    TargetsAfterLoop(env, gl);
    SoundTargets(env, gl.lines, IsCorrection);
    CorrectionsReachedIff(gl.lines);
    NoneOver(Targets(gl.lines, IsCorrection), CorrectionsReached(gl.lines));
  }

  lemma PostedTargets(lines: seq<Line>, debit: int, credit: int, amount: real, comment: string, chosen: string -> bool)
    ensures Targets(AfterPost(lines, debit, credit, amount, comment), chosen) ==
      Targets(lines, chosen) + if chosen(comment) then {FreshId(lines)} else {}
  {
    var posted, id := AfterPost(lines, debit, credit, amount, comment), FreshId(lines);
    var d, c := Line(id, debit, true, amount, comment, false), Line(id, credit, false, amount, comment, false);
    assert posted == lines + [d, c];
    assert d in posted && forall l :: l in posted <==> l in lines || l == d || l == c;
    if chosen(comment) { assert Picked(d, chosen); }
  }

  /** The failure, on the smallest ledger: one account behind both codes, and the correction comes to nothing. */
  lemma OneAccountStaysShort(env: Env)
    requires Reliable(env)
    ensures var glMap := map[BOND_ACCOUNT := 1, CORPUS_ACCOUNT := 1];
      var (gl', outcome) := CorrectBalance(env, Gl([], None, 0, 0), glMap, 100.0);
      && outcome.Corrected? && Net(gl'.lines, Account(1)) == 0.0 && Targets(gl'.lines, IsCorrection) == {0}
  {
    var glMap := map[BOND_ACCOUNT := 1, CORPUS_ACCOUNT := 1];
    var gl := Gl([], None, 0, 0);
    assert MappedId(glMap, BOND_ACCOUNT) == 1 && MappedId(glMap, CORPUS_ACCOUNT) == 1;
    var mapped := LookupCall(env, gl).0;
    LoopOnNothing(env, mapped, 1);
    Step6Complete(env, mapped, 1, 1, 100.0);
    CorrectionIsKept();
    PostedTargets([], 1, 1, 100.0, CORRECTION, IsCorrection);
    NetAfterPost([], 1, 1, 100.0, CORRECTION, Account(1));
  }

  lemma LoopOnNothing(env: Env, gl: Gl, account: int)
    requires Reliable(env) && Coherent(gl) && Ready(gl) && gl.lines == []
    ensures AfterLoop(env, gl).lines == [] && !CorrectionsTrip([]) && WithoutCorrections(env, [], account) == 0.0
  {
    NoCorrections();
    LoopComes(env, gl);
    NoElements(CorrectionLog(env, gl));
    LoopNet(env, gl, account);
  }

  lemma NoCorrections()
    ensures Targets([], IsCorrection) == CorrectionsReached([]) == {} && !CorrectionsTrip([])
  {
    assert Picks([], IsCorrection) == [];
  }

  // ---- The balance when calls fail or get lost ---------------------------------------------

  /** Failures alone do no harm: a completed step 6 meets its target between distinct accounts. */
  lemma FailuresAreHarmless(env: Env, gl: Gl, glMap: map<string, int>, expected: real)
    requires LossFree(env) && Coherent(gl) && MappedId(glMap, BOND_ACCOUNT) != MappedId(glMap, CORPUS_ACCOUNT)
    ensures var (gl', outcome) := CorrectBalance(env, gl, glMap, expected);
      var balance := Net(gl'.lines, Account(MappedId(glMap, BOND_ACCOUNT)));
      && (Completed(outcome) ==> balance >= expected - 1.0)
      && (outcome.Corrected? ==> balance == expected)
  {
    var bondInv, corpus := MappedId(glMap, BOND_ACCOUNT), MappedId(glMap, CORPUS_ACCOUNT);
    var mapped := LookupCall(env, gl).0;
    var (gl', outcome) := CorrectBalance(env, gl, glMap, expected);
    Step6Branches(env, mapped, bondInv, corpus, expected);
    if outcome.Corrected? || outcome.AlreadyCorrect? {
      CorrectionsUndone(env, mapped);
      RecorrectMeets(env, AfterLoop(env, mapped), bondInv, corpus, expected);
    }
  }

  /** Measuring again sees the ledger as it is. */
  lemma RecorrectMeets(env: Env, gl: Gl, bondInv: int, corpus: int, expected: real)
    requires Coherent(gl) && bondInv != corpus
    ensures var (gl', outcome) := Recorrect(env, gl, bondInv, corpus, expected);
      var balance := Net(gl'.lines, Account(bondInv));
      && (Completed(outcome) ==> balance >= expected - 1.0)
      && (outcome.Corrected? ==> balance == expected)
  {
    var outcome := Recorrect(env, gl, bondInv, corpus, expected).1;
    RecorrectShape(env, gl, bondInv, corpus, expected);
    if outcome.Corrected? {
      NetAfterPost(gl.lines, bondInv, corpus, outcome.amount, CORRECTION, Account(bondInv));
    }
  }

  // ---- Replies under which step 6 reverses what one likes ---------------------------------------

  /** The listing, the expected value, and a loop in which only the calls for `some` corrections take effect. */
  function LoopReplies(picks: seq<nat>, some: set<nat>, reply: Reply): seq<Reply> {
    [Done, Done] + Only(picks, some, reply)
  }

  /** Any of the corrections in the listing can be the ones the loop reverses. */
  lemma LoopTakesOver(env: Env, gl: Gl, seen: seq<Line>, some: set<nat>, reply: Reply)
    requires Rested(env) && Scheduled(env, gl.calls, LoopReplies(Picks(seen, IsCorrection), some, reply))
    requires ListCall(env, gl).1 == Some(seen) && Below(gl.lines, Picks(seen, IsCorrection))
    requires some <= ExposedBy(gl.lines, seen) && reply != Down
    ensures Reads(env, gl)
    ensures var gl', log := LoopOver(env, gl, seen), LogOver(env, gl, seen);
      && gl'.lines == Undo(env, gl.lines, log) && Legit(gl.lines, log) && Elements(log) == some
      && gl'.calls == gl.calls + |LoopReplies(Picks(seen, IsCorrection), some, reply)|
      && gl'.cache == if reply == Lost || some == {} then Some(seen) else None
  {
    var picks, before := Picks(seen, IsCorrection), BeforeLoop(env, gl);
    LoopStarts(env, gl, picks, some, reply);
    ListShows(env, gl);
    PicksAreTargets(seen, IsCorrection);
    LoopSelects(env, before, picks, some, reply);
    assert ExposedBy(gl.lines, seen) * some == some;
  }

  lemma LoopStarts(env: Env, gl: Gl, picks: seq<nat>, some: set<nat>, reply: Reply)
    requires Rested(env) && Scheduled(env, gl.calls, LoopReplies(picks, some, reply))
    ensures var before := BeforeLoop(env, gl);
      && env.reply(gl.calls) == Done && before.calls == gl.calls + 2
      && LookupCall(env, ListCall(env, gl).0).1 && Scheduled(env, before.calls, Only(picks, some, reply))
  {
    var loop := Only(picks, some, reply);
    assert env.reply(gl.calls + 0) == ([Done, Done] + loop)[0] && env.reply(gl.calls + 1) == ([Done, Done] + loop)[1];
    ScheduledRest(env, gl.calls, [Done, Done], loop, BeforeLoop(env, gl).calls);
  }

  /** With an up-to-date cache, any of the corrections. */
  lemma LoopTakes(env: Env, gl: Gl, some: set<nat>, reply: Reply)
    requires Coherent(gl) && some <= CorrectionsExposed(gl.lines) && reply != Down
    requires Rested(env) && Scheduled(env, gl.calls, LoopReplies(Picks(gl.lines, IsCorrection), some, reply))
    ensures Reads(env, gl)
    ensures var gl', log := AfterLoop(env, gl), CorrectionLog(env, gl);
      && gl'.lines == Undo(env, gl.lines, log) && Legit(gl.lines, log) && Elements(log) == some
      && gl'.calls == gl.calls + |LoopReplies(Picks(gl.lines, IsCorrection), some, reply)|
      && gl'.cache == if reply == Lost || some == {} then Some(gl.lines) else None
  {
    LoopStarts(env, gl, Picks(gl.lines, IsCorrection), some, reply);
    PicksBelow(gl.lines, IsCorrection);
    LoopTakesOver(env, gl, gl.lines, some, reply);
  }

  /** Notes as assumed of the remote ledger exist, with compensating lines or without. */
  lemma GoodNotesExist(compensates: bool)
    ensures exists env :: Reliable(env) && GoodNotes(env) && env.compensates == compensates
  {
    var env := Env(compensates, (t: nat) => "Reversal entry" + Digits(t), (n: nat) => Done, (n: nat) => Expired,
                   (n: nat) => false);
    forall t ensures "Reversal entry" <= env.note(t) && Trim(env.note(t)) == env.note(t) {
      var digits := Digits(t);
      assert digits[|digits| - 1] in digits;
      TrimmedByEnds(env.note(t));
    }
    forall t, u | env.note(t) == env.note(u) ensures t == u {
      assert env.note(t)[|"Reversal entry"|..] == Digits(t) && env.note(u)[|"Reversal entry"|..] == Digits(u);
      ReadDigitsOfDigits(t);
      ReadDigitsOfDigits(u);
    }
  }
}
