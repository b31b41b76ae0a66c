/** What becomes of equal debits and credits in steps 2 and 6, whichever calls fail or get lost. */
module DoubleEntry {
  import opened CircuitBreaker
  import opened Comments
  import opened Extremes
  import opened LedgerSweeps
  import opened RemoteGl
  import opened Resync
  import opened ResyncGuarantees
  import opened ResyncRuns
  import opened Reversals
  import opened Seqs
  import opened Wrappers

  function Total(lines: seq<Line>): real {
    Net(lines, Everything)
  }

  ghost predicate AllBalance(lines: seq<Line>, txns: set<nat>) {
    forall t :: t in txns ==> Net(lines, Transaction(t)) == 0.0
  }

  lemma UndoKeepsTotal(env: Env, lines: seq<Line>, log: seq<nat>, txns: set<nat>)
    requires Legit(lines, log) && Elements(log) <= txns && AllBalance(lines, txns)
    ensures Total(Undo(env, lines, log)) == Total(lines)
  {
    assert forall t :: t in log ==> t in Elements(log);
    UndoZero(env, lines, log, Everything);
  }

  /** Reversing one unbalanced transaction alone changes the total. */
  lemma OneLosesTotal(env: Env, lines: seq<Line>, log: seq<nat>, t: nat)
    requires Legit(lines, log) && Elements(log) == {t} && Net(lines, Transaction(t)) != 0.0
    ensures Total(Undo(env, lines, log)) != Total(lines)
  {
    UndoNet(env, lines, log, Everything);
  }

  // ---- Step 2 --------------------------------------------------------------------------

  /** The duplicates among `some` that the clean-up reverses. */
  function CleanupPart(lines: seq<Line>, some: set<nat>): set<nat> {
    Reversible(lines, Elements(Duplicates(lines))) * some
  }

  /** What the stale sweep then picks. */
  function PicksLeft(lines: seq<Line>, some: set<nat>): seq<nat> {
    Spare(Picks(lines, IsStale), CleanupPart(lines, some))
  }

  /** Replies to step 2 by which exactly `some` are reversed: both listings succeed, and the calls for `some`. */
  function Step2Replies(lines: seq<Line>, some: set<nat>): seq<Reply> {
    ([Done] + Only(Duplicates(lines), some, Done)) + ([Done] + Only(PicksLeft(lines, some), some, Done))
  }

  /** A listing from the network, and the calls after it. */
  lemma ListedFirst(env: Env, gl: Gl, rest: seq<Reply>, listed: Gl)
    requires Rested(env) && env.age(gl.calls) == Expired && Scheduled(env, gl.calls, [Done] + rest)
    requires listed == Gl(gl.lines, Some(gl.lines), 0, gl.calls + 1)
    ensures ListCall(env, gl) == (listed, Some(gl.lines)) && Scheduled(env, listed.calls, rest)
  {
    ScheduledRest(env, gl.calls, [Done], rest, listed.calls);
    assert env.reply(gl.calls + 0) == ([Done] + rest)[0];
  }

  lemma LoopTakesPart(env: Env, gl: Gl, txns: seq<nat>, some: set<nat>)
    requires Rested(env) && gl.cache == Some(gl.lines) && Below(gl.lines, txns)
    requires Scheduled(env, gl.calls, Only(txns, some, Done))
    ensures var gl', log := ReverseAll(env, gl, txns), Log(env, gl, txns);
      && gl'.lines == Undo(env, gl.lines, log) && Legit(gl.lines, log) && Coherent(gl')
      && Elements(log) == Reversible(gl.lines, Elements(txns)) * some && gl'.calls == gl.calls + |txns|
  {
    LoopSelects(env, gl, txns, some, Done);
    NoElements(Log(env, gl, txns));
  }

  lemma CleanupTakes(env: Env, gl: Gl, some: set<nat>)
    requires Rested(env) && env.age(gl.calls) == Expired
    requires Scheduled(env, gl.calls, [Done] + Only(Duplicates(gl.lines), some, Done))
    ensures var gl', log := Cleanup(env, gl), CleanupLog(env, gl);
      && gl'.lines == Undo(env, gl.lines, log) && Legit(gl.lines, log) && Coherent(gl')
      && Elements(log) == CleanupPart(gl.lines, some) && gl'.calls == gl.calls + 1 + |Duplicates(gl.lines)|
  {
    var listed := Gl(gl.lines, Some(gl.lines), 0, gl.calls + 1);
    ListedFirst(env, gl, Only(Duplicates(gl.lines), some, Done), listed);
    DuplicatesBelow(gl.lines);
    LoopTakesPart(env, listed, Duplicates(gl.lines), some);
  }

  lemma SweepTakes(env: Env, gl: Gl, picks: seq<nat>, some: set<nat>)
    requires Rested(env) && env.age(gl.calls) == Expired && picks == Picks(gl.lines, IsStale)
    requires Scheduled(env, gl.calls, [Done] + Only(picks, some, Done))
    ensures var gl', log := SweepStale(env, gl).0, SweepLog(env, gl);
      && gl'.lines == Undo(env, gl.lines, log) && Legit(gl.lines, log) && Coherent(gl')
      && Elements(log) == Reversible(gl.lines, Elements(picks)) * some && gl'.calls == gl.calls + 1 + |picks|
  {
    var listed := Gl(gl.lines, Some(gl.lines), 0, gl.calls + 1);
    ListedFirst(env, gl, Only(picks, some, Done), listed);
    PicksBelow(gl.lines, IsStale);
    LoopTakesPart(env, listed, picks, some);
    WhereIsAll(env, listed, IsStale, gl.lines, 0);
  }

  /** What both loops reverse together. */
  lemma PartsMakeAll(env: Env, lines: seq<Line>, log: seq<nat>, some: set<nat>)
    requires GoodNotes(env) && Legit(lines, log) && Elements(log) == CleanupPart(lines, some) && some <= Step2Exposed(lines)
    ensures var after, picks := Undo(env, lines, log), PicksLeft(lines, some);
      && Picks(after, IsStale) == picks
      && Elements(log) + Reversible(after, Elements(picks)) * some == some
  {
    var picks := PicksLeft(lines, some);
    NotesAreKept(env);
    UndoPicks(env, lines, log, IsStale);
    SpareElements(Picks(lines, IsStale), Elements(log));
    PicksAreTargets(lines, IsStale);
    TargetsBelow(lines, IsStale);
    UndoReversible(env, lines, log, Elements(picks));
    forall t | t in some ensures t in Elements(log) || t in Reversible(lines, Elements(picks)) {
      assert t in Step2Exposed(lines);
    }
  }

  /** Any part of what step 2 goes for can be what it reverses. */
  lemma Step2Takes(env: Env, gl: Gl, some: set<nat>, replies: seq<Reply>)
    requires GoodNotes(env) && Coherent(gl) && some <= Step2Exposed(gl.lines) && replies == Step2Replies(gl.lines, some)
    requires Rested(env) && Scheduled(env, gl.calls, replies)
    requires forall c: nat :: c < gl.calls + |replies| ==> env.age(c) == Expired
    ensures var gl', log := CleanUpStale(env, gl).0, Step2Log(env, gl);
      && gl'.lines == Undo(env, gl.lines, log) && Legit(gl.lines, log) && Elements(log) == some
      && Coherent(gl') && gl'.calls == gl.calls + |replies|
  {
    var first := [Done] + Only(Duplicates(gl.lines), some, Done);
    var second := [Done] + Only(PicksLeft(gl.lines, some), some, Done);
    Step2TakesBoth(env, gl, some, first, second);
    Step2Undoes(env, gl);
  }

  lemma Step2TakesBoth(env: Env, gl: Gl, some: set<nat>, first: seq<Reply>, second: seq<Reply>)
    requires GoodNotes(env) && some <= Step2Exposed(gl.lines) && Rested(env)
    requires forall c: nat :: c < gl.calls + |first| + |second| ==> env.age(c) == Expired
    requires first == [Done] + Only(Duplicates(gl.lines), some, Done)
    requires second == [Done] + Only(PicksLeft(gl.lines, some), some, Done) && Scheduled(env, gl.calls, first + second)
    ensures Elements(Step2Log(env, gl)) == some
    ensures var gl' := CleanUpStale(env, gl).0; Coherent(gl') && gl'.calls == gl.calls + |first| + |second|
  {
    var log, cleaned := CleanupLog(env, gl), Cleanup(env, gl);
    ScheduledFirst(env, gl.calls, first, second);
    CleanupTakes(env, gl, some);
    ScheduledRest(env, gl.calls, first, second, cleaned.calls);
    SweepTakesRest(env, cleaned, gl.lines, log, PicksLeft(gl.lines, some), some);
    LogElementsConcat(log, SweepLog(env, cleaned));
  }

  lemma SweepTakesRest(env: Env, gl: Gl, lines: seq<Line>, log: seq<nat>, picks: seq<nat>, some: set<nat>)
    requires GoodNotes(env) && some <= Step2Exposed(lines) && Rested(env) && env.age(gl.calls) == Expired
    requires Legit(lines, log) && gl.lines == Undo(env, lines, log) && Elements(log) == CleanupPart(lines, some)
    requires picks == PicksLeft(lines, some) && Scheduled(env, gl.calls, [Done] + Only(picks, some, Done))
    ensures Elements(log) + Elements(SweepLog(env, gl)) == some
    ensures Coherent(SweepStale(env, gl).0) && SweepStale(env, gl).0.calls == gl.calls + 1 + |picks|
  {
    PartsMakeAll(env, lines, log, some);
    SweepTakes(env, gl, picks, some);
  }

  ghost predicate Step2KeepsTotal(env: Env, gl: Gl) {
    Total(CleanUpStale(env, gl).0.lines) == Total(gl.lines)
  }

  /** Step 2 keeps the total under every reply pattern iff everything it could reverse balances by itself. */
  lemma Step2KeepsTotalIff(env: Env, gl: Gl)
    requires GoodNotes(env) && Coherent(gl)
    ensures (forall e :: SameLedger(env, e) ==> Step2KeepsTotal(e, gl)) <==>
      AllBalance(gl.lines, Step2Exposed(gl.lines))
  {
    if AllBalance(gl.lines, Step2Exposed(gl.lines)) {
      forall e | SameLedger(env, e) ensures Step2KeepsTotal(e, gl) { Step2Safe(e, gl); }
    } else {
      var t :| t in Step2Exposed(gl.lines) && Net(gl.lines, Transaction(t)) != 0.0;
      var e := Step2Loses(env, gl, t);
      assert !Step2KeepsTotal(e, gl);
    }
  }

  lemma Step2Safe(env: Env, gl: Gl)
    requires GoodNotes(env) && Coherent(gl) && AllBalance(gl.lines, Step2Exposed(gl.lines))
    ensures Step2KeepsTotal(env, gl)
  {
    Step2Undoes(env, gl);
    UndoKeepsTotal(env, gl.lines, Step2Log(env, gl), Step2Exposed(gl.lines));
  }

  /** Only `t` is reversed, and the first call of step 6 fails. */
  lemma Step2Loses(env: Env, gl: Gl, t: nat) returns (e: Env)
    requires GoodNotes(env) && Coherent(gl) && t in Step2Exposed(gl.lines) && Net(gl.lines, Transaction(t)) != 0.0
    ensures SameLedger(env, e) && !Step2KeepsTotal(e, gl) && e.reply(CleanUpStale(e, gl).0.calls) == Down
  {
    var replies := Step2Replies(gl.lines, {t});
    e := Obedient(env, gl.calls, replies, Down, Expired, 0, Expired);
    Step2Takes(e, gl, {t}, replies);
    OneLosesTotal(e, gl.lines, Step2Log(e, gl), t);
  }

  // ---- Step 6 --------------------------------------------------------------------------

  ghost predicate Step6KeepsTotal(env: Env, gl: Gl, glMap: map<string, int>, expected: real) {
    Total(CorrectBalance(env, gl, glMap, expected).0.lines) == Total(gl.lines)
  }

  lemma PostKeepsTotal(lines: seq<Line>, debit: int, credit: int, amount: real)
    ensures Total(AfterPost(lines, debit, credit, amount, CORRECTION)) == Total(lines)
  {
    NetAfterPost(lines, debit, credit, amount, CORRECTION, Everything);
  }

  lemma RecorrectKeepsTotal(env: Env, gl: Gl, bondInv: int, corpus: int, expected: real)
    ensures Total(Recorrect(env, gl, bondInv, corpus, expected).0.lines) == Total(gl.lines)
  {
    RecorrectShape(env, gl, bondInv, corpus, expected);
    var lines := Recorrect(env, gl, bondInv, corpus, expected).0.lines;
    if lines != gl.lines {
      var amount :| lines == AfterPost(gl.lines, bondInv, corpus, amount, CORRECTION);
      PostKeepsTotal(gl.lines, bondInv, corpus, amount);
    }
  }

  /**
   Step 6 keeps the total under every reply pattern iff it has no accounts to look at, or finds
   the account within its tolerance, or all corrections it could reverse balance by themselves.
   */
  lemma Step6KeepsTotalIff(env: Env, gl: Gl, glMap: map<string, int>, expected: real)
    requires Coherent(gl)
    ensures (forall e :: SameLedger(env, e) ==> Step6KeepsTotal(e, gl, glMap, expected)) <==>
      !Mapped(glMap) || !OutOfTolerance(gl.lines, MappedId(glMap, BOND_ACCOUNT), expected)
        || AllBalance(gl.lines, CorrectionsExposed(gl.lines))
  {
    var bondInv := MappedId(glMap, BOND_ACCOUNT);
    if !Mapped(glMap) || !OutOfTolerance(gl.lines, bondInv, expected)
      || AllBalance(gl.lines, CorrectionsExposed(gl.lines)) {
      forall e ensures Step6KeepsTotal(e, gl, glMap, expected) { Step6Safe(e, gl, glMap, expected); }
    } else {
      var t :| t in CorrectionsExposed(gl.lines) && Net(gl.lines, Transaction(t)) != 0.0;
      var e := Step6LosesFor(env, gl, glMap, expected, t);
      assert !Step6KeepsTotal(e, gl, glMap, expected);
    }
  }

  lemma Step6LosesFor(env: Env, gl: Gl, glMap: map<string, int>, expected: real, t: nat) returns (e: Env)
    requires Coherent(gl) && Mapped(glMap) && OutOfTolerance(gl.lines, MappedId(glMap, BOND_ACCOUNT), expected)
    requires t in CorrectionsExposed(gl.lines) && Net(gl.lines, Transaction(t)) != 0.0
    ensures SameLedger(env, e) && !Step6KeepsTotal(e, gl, glMap, expected)
  {
    e := Obedient(env, gl.calls, Step6Replies(Picks(gl.lines, IsCorrection), t), Done, Expired, 0, Expired);
    Step6Loses(e, gl, glMap, expected, t);
  }

  /** Replies to step 6 by which only one correction is reversed. */
  function Step6Replies(picks: seq<nat>, t: nat): seq<Reply> {
    [Done] + LoopReplies(picks, {t}, Done)
  }

  lemma Step6Loses(env: Env, gl: Gl, glMap: map<string, int>, expected: real, t: nat)
    requires Coherent(gl) && Mapped(glMap) && OutOfTolerance(gl.lines, MappedId(glMap, BOND_ACCOUNT), expected)
    requires t in CorrectionsExposed(gl.lines) && Net(gl.lines, Transaction(t)) != 0.0
    requires Rested(env) && Scheduled(env, gl.calls, Step6Replies(Picks(gl.lines, IsCorrection), t))
    ensures !Step6KeepsTotal(env, gl, glMap, expected)
  {
    var mapped := gl.(calls := gl.calls + 1);
    var loop := LoopReplies(Picks(gl.lines, IsCorrection), {t}, Done);
    ScheduledRest(env, gl.calls, [Done], loop, mapped.calls);
    assert LookupCall(env, gl) == (mapped, true) by { assert env.reply(gl.calls + 0) == ([Done] + loop)[0]; }
    CorrectionLoses(env, mapped, MappedId(glMap, BOND_ACCOUNT), MappedId(glMap, CORPUS_ACCOUNT), expected, t);
  }

  lemma CorrectionLoses(env: Env, gl: Gl, bondInv: int, corpus: int, expected: real, t: nat)
    requires Coherent(gl) && OutOfTolerance(gl.lines, bondInv, expected)
    requires t in CorrectionsExposed(gl.lines) && Net(gl.lines, Transaction(t)) != 0.0
    requires Rested(env) && Scheduled(env, gl.calls, LoopReplies(Picks(gl.lines, IsCorrection), {t}, Done))
    ensures Total(CorrectAccount(env, gl, bondInv, corpus, expected).0.lines) != Total(gl.lines)
  {
    LoopTakes(env, gl, {t}, Done);
    OneLosesTotal(env, gl.lines, CorrectionLog(env, gl), t);
    KeepsAfterLoop(env, gl, bondInv, corpus, expected);
  }

  /** Past its loop step 6 keeps the total. */
  lemma KeepsAfterLoop(env: Env, gl: Gl, bondInv: int, corpus: int, expected: real)
    requires Coherent(gl) && OutOfTolerance(gl.lines, bondInv, expected) && Reads(env, gl)
    ensures Total(CorrectAccount(env, gl, bondInv, corpus, expected).0.lines) == Total(AfterLoop(env, gl).lines)
  {
    Step6Branches(env, gl, bondInv, corpus, expected);
    RecorrectKeepsTotal(env, AfterLoop(env, gl), bondInv, corpus, expected);
  }

  lemma Step6Safe(env: Env, gl: Gl, glMap: map<string, int>, expected: real)
    requires Coherent(gl)
    requires !Mapped(glMap) || !OutOfTolerance(gl.lines, MappedId(glMap, BOND_ACCOUNT), expected)
          || AllBalance(gl.lines, CorrectionsExposed(gl.lines))
    ensures Step6KeepsTotal(env, gl, glMap, expected)
  {
    var bondInv, corpus := MappedId(glMap, BOND_ACCOUNT), MappedId(glMap, CORPUS_ACCOUNT);
    var mapped := LookupCall(env, gl).0;
    Step6Branches(env, mapped, bondInv, corpus, expected);
    if Mapped(glMap) && Reads(env, mapped) && OutOfTolerance(gl.lines, bondInv, expected) {
      CorrectionsUndone(env, mapped);
      UndoKeepsTotal(env, gl.lines, CorrectionLog(env, mapped), CorrectionsExposed(gl.lines));
      KeepsAfterLoop(env, mapped, bondInv, corpus, expected);
    }
  }

  // ---- Both steps ------------------------------------------------------------------------

  /** One pass over the two steps. */
  function Run(env: Env, gl: Gl, glMap: map<string, int>, expected: real): (Gl, Outcome) {
    CorrectBalance(env, CleanUpStale(env, gl).0, glMap, expected)
  }

  function Exposed(lines: seq<Line>): set<nat> {
    Step2Exposed(lines) + CorrectionsExposed(lines)
  }

  /** After step 2 the cache holds nothing, or the ledger as it was at some point of step 2. */
  lemma Step2Cache(env: Env, gl: Gl)
    requires GoodNotes(env) && Coherent(gl)
    ensures var cache := CleanUpStale(env, gl).0.cache;
      cache == None || cache == Some(gl.lines) || cache == Some(Undo(env, gl.lines, CleanupLog(env, gl)))
    ensures Legit(gl.lines, CleanupLog(env, gl))
  {
    CleanupUndoes(env, gl);
    var cleaned := Cleanup(env, gl);
    var (listed, entries) := ListCall(env, cleaned);
    if entries.Some? {
      SweepUndoes(env, cleaned, gl.lines, CleanupLog(env, gl));
      SweepCache(env, cleaned, gl.lines, CleanupLog(env, gl));
    }
  }

  lemma SweepCache(env: Env, gl: Gl, lines: seq<Line>, log: seq<nat>)
    requires GoodNotes(env) && Legit(lines, log) && gl.lines == Undo(env, lines, log)
    requires gl.cache == None || gl.cache == Some(lines)
    ensures var cache := SweepStale(env, gl).0.cache; cache == None || cache == Some(lines) || cache == Some(gl.lines)
  {
    var (listed, entries) := ListCall(env, gl);
    if entries.Some? {
      var picks := Picks(entries.value, IsStale);
      SnapshotBelow(env, lines, log, entries.value, IsStale);
      WhereIsAll(env, listed, IsStale, entries.value, 0);
      LoopUndoes(env, listed, picks);
    }
  }

  /** A listing from earlier calls for nothing the ledger does not know. */
  lemma SnapshotBelow(env: Env, lines: seq<Line>, log: seq<nat>, snapshot: seq<Line>, chosen: string -> bool)
    requires Legit(lines, log) && (snapshot == lines || snapshot == Undo(env, lines, log))
    ensures Below(Undo(env, lines, log), Picks(snapshot, chosen))
  {
    PicksBelow(snapshot, chosen);
    forall t | t in Picks(snapshot, chosen) ensures t < FreshId(Undo(env, lines, log)) {
      if snapshot == lines { UndoStatus(env, lines, log, t); }
    }
  }

  /** Nothing a listing can show leads step 6 to an unbalanced transaction. */
  ghost predicate Harmless(gl: Gl, seen: seq<Line>) {
    Below(gl.lines, Picks(seen, IsCorrection)) && AllBalance(gl.lines, Reversible(gl.lines, Targets(seen, IsCorrection)))
  }

  lemma HarmlessKeepsTotal(env: Env, gl: Gl, bondInv: int, corpus: int, expected: real)
    requires Harmless(gl, gl.lines) && (gl.cache.Some? ==> Harmless(gl, gl.cache.value))
    ensures Total(CorrectAccount(env, gl, bondInv, corpus, expected).0.lines) == Total(gl.lines)
  {
    var (listed, entries) := ListCall(env, gl);
    var looked := LookupCall(env, listed).0;
    if Reads(env, gl) && Abs(expected - Net(entries.value, Account(bondInv))) > 1.0 {
      WhereIsAll(env, looked, IsCorrection, entries.value, 0);
      HarmlessLoop(env, looked, entries.value);
      RecorrectKeepsTotal(env, ReverseAll(env, looked, Picks(entries.value, IsCorrection)), bondInv, corpus, expected);
    }
  }

  lemma HarmlessLoop(env: Env, gl: Gl, seen: seq<Line>)
    requires Harmless(gl, seen)
    ensures Total(ReverseAll(env, gl, Picks(seen, IsCorrection)).lines) == Total(gl.lines)
  {
    var picks := Picks(seen, IsCorrection);
    PicksAreTargets(seen, IsCorrection);
    LoopUndoes(env, gl, picks);
    UndoKeepsTotal(env, gl.lines, Log(env, gl, picks), Reversible(gl.lines, Targets(seen, IsCorrection)));
  }

  /** What step 2 leaves to step 6 was there before, unreversed and with the same lines. */
  lemma LeftHarmless(env: Env, lines: seq<Line>, log: seq<nat>, gl: Gl, part: seq<nat>, seen: seq<Line>)
    requires GoodNotes(env) && Legit(lines, log) && gl.lines == Undo(env, lines, log)
    requires Legit(lines, part) && seen == Undo(env, lines, part)
    requires AllBalance(lines, CorrectionsExposed(lines))
    ensures Harmless(gl, seen)
  {
    var targets := Targets(seen, IsCorrection);
    NotesAreKept(env);
    UndoTargets(env, lines, part, IsCorrection);
    TargetsBelow(lines, IsCorrection);
    PicksAreTargets(seen, IsCorrection);
    UndoReversible(env, lines, log, targets);
    forall t | t in Reversible(gl.lines, targets) ensures Net(gl.lines, Transaction(t)) == 0.0 {
      UndoNetOf(env, lines, log, {t}, Everything);
    }
    forall t | t in Picks(seen, IsCorrection) ensures t < FreshId(gl.lines) {
      assert t in targets;
      UndoStatus(env, lines, log, t);
    }
  }

  lemma AllBalanceUnion(lines: seq<Line>)
    requires AllBalance(lines, Exposed(lines))
    ensures AllBalance(lines, Step2Exposed(lines)) && AllBalance(lines, CorrectionsExposed(lines))
  {
  }

  /**
   Whichever calls fail or get lost in either step, total debits minus total credits stay what
   they were if every duplicate, stale transaction and correction that could be reversed balances
   by itself; other transactions need not.
   */
  lemma DoubleEntryKept(env: Env, gl: Gl, glMap: map<string, int>, expected: real)
    requires GoodNotes(env) && Coherent(gl) && AllBalance(gl.lines, Exposed(gl.lines))
    ensures Total(Run(env, gl, glMap, expected).0.lines) == Total(gl.lines)
  {
    var log, swept := Step2Log(env, gl), CleanUpStale(env, gl).0;
    var mapped := LookupCall(env, swept).0;
    AllBalanceUnion(gl.lines);
    Step2Undoes(env, gl);
    UndoKeepsTotal(env, gl.lines, log, Step2Exposed(gl.lines));
    Step2Cache(env, gl);
    LeftHarmless(env, gl.lines, log, mapped, log, swept.lines);
    LeftHarmless(env, gl.lines, log, mapped, [], gl.lines);
    LeftHarmless(env, gl.lines, log, mapped, CleanupLog(env, gl), Undo(env, gl.lines, CleanupLog(env, gl)));
    HarmlessKeepsTotal(env, mapped, MappedId(glMap, BOND_ACCOUNT), MappedId(glMap, CORPUS_ACCOUNT), expected);
  }

  ghost predicate RunKeepsTotal(env: Env, gl: Gl, glMap: map<string, int>, expected: real) {
    Total(Run(env, gl, glMap, expected).0.lines) == Total(gl.lines)
  }

  /** What an account shows once some transactions are reversed. */
  function Without(env: Env, lines: seq<Line>, txns: set<nat>, account: int): real {
    Net(lines, Account(account)) - Loss(env, Net(lines, Of(txns, Account(account))))
  }

  /** Whichever of these transactions are reversed, the account ends within the tolerance of step 6. */
  predicate StaysWithin(env: Env, lines: seq<Line>, exposed: set<nat>, account: int, expected: real) {
    var scope := Account(account);
    && Abs(expected - Without(env, lines, Raising(lines, exposed, scope), account)) <= 1.0
    && Abs(expected - Without(env, lines, Lowering(lines, exposed, scope), account)) <= 1.0
  }

  lemma WithinBetween(env: Env, expected: real, n: real, low: real, part: real, high: real)
    requires low <= part <= high
    requires Abs(expected - (n - Loss(env, low))) <= 1.0 && Abs(expected - (n - Loss(env, high))) <= 1.0
    ensures Abs(expected - (n - Loss(env, part))) <= 1.0
  {
  }

  lemma StaysWithinEvery(env: Env, lines: seq<Line>, exposed: set<nat>, some: set<nat>, account: int, expected: real)
    requires StaysWithin(env, lines, exposed, account, expected) && some <= exposed
    ensures Abs(expected - Without(env, lines, some, account)) <= 1.0
  {
    var scope := Account(account);
    var raising, lowering := Raising(lines, exposed, scope), Lowering(lines, exposed, scope);
    Between(lines, exposed, some, scope);
    WithinBetween(env, expected, Net(lines, scope), Net(lines, Of(lowering, scope)), Net(lines, Of(some, scope)),
                  Net(lines, Of(raising, scope)));
  }

  /** The ledger after reversing some of these transactions. */
  ghost predicate PartlyReversed(env: Env, lines: seq<Line>, exposed: set<nat>, seen: seq<Line>) {
    exists log :: Legit(lines, log) && Elements(log) <= exposed && seen == Undo(env, lines, log)
  }

  lemma StaysWithinAfter(env: Env, lines: seq<Line>, exposed: set<nat>, seen: seq<Line>, account: int, expected: real)
    requires StaysWithin(env, lines, exposed, account, expected) && PartlyReversed(env, lines, exposed, seen)
    ensures Abs(expected - Net(seen, Account(account))) <= 1.0
  {
    var log :| Legit(lines, log) && Elements(log) <= exposed && seen == Undo(env, lines, log);
    StaysWithinEvery(env, lines, exposed, Elements(log), account, expected);
    UndoNet(env, lines, log, Account(account));
  }

  /** Such is the ledger step 2 leaves, and such is what it leaves in the cache. */
  lemma Step2Shows(env: Env, gl: Gl)
    requires GoodNotes(env) && Coherent(gl)
    ensures var swept, exposed := CleanUpStale(env, gl).0, Step2Exposed(gl.lines);
      && PartlyReversed(env, gl.lines, exposed, swept.lines)
      && (swept.cache.Some? ==> PartlyReversed(env, gl.lines, exposed, swept.cache.value))
  {
    Step2Undoes(env, gl);
    assert PartlyReversed(env, gl.lines, Step2Exposed(gl.lines), CleanUpStale(env, gl).0.lines);
    Step2Cache(env, gl);
    CleanupShows(env, gl);
  }

  lemma CleanupShows(env: Env, gl: Gl)
    requires Coherent(gl)
    ensures PartlyReversed(env, gl.lines, Step2Exposed(gl.lines), gl.lines)
    ensures PartlyReversed(env, gl.lines, Step2Exposed(gl.lines), Undo(env, gl.lines, CleanupLog(env, gl)))
  {
    CleanupUndoes(env, gl);
    assert Legit(gl.lines, []) && Elements<nat>([]) == {} && Undo(env, gl.lines, []) == gl.lines;
    assert Elements(CleanupLog(env, gl)) <= Step2Exposed(gl.lines);
  }

  /** Within its tolerance by every listing it can be shown, step 6 leaves the ledger alone. */
  lemma Step6Leaves(env: Env, gl: Gl, lines: seq<Line>, exposed: set<nat>, glMap: map<string, int>, expected: real)
    requires StaysWithin(env, lines, exposed, MappedId(glMap, BOND_ACCOUNT), expected)
    requires PartlyReversed(env, lines, exposed, gl.lines)
    requires gl.cache.Some? ==> PartlyReversed(env, lines, exposed, gl.cache.value)
    ensures CorrectBalance(env, gl, glMap, expected).0.lines == gl.lines
  {
    StaysWithinAfter(env, lines, exposed, gl.lines, MappedId(glMap, BOND_ACCOUNT), expected);
    if gl.cache.Some? {
      StaysWithinAfter(env, lines, exposed, gl.cache.value, MappedId(glMap, BOND_ACCOUNT), expected);
    }
    WithinLeaves(env, LookupCall(env, gl).0, MappedId(glMap, BOND_ACCOUNT), MappedId(glMap, CORPUS_ACCOUNT), expected);
  }

  lemma WithinLeaves(env: Env, gl: Gl, bondInv: int, corpus: int, expected: real)
    requires Abs(expected - Net(gl.lines, Account(bondInv))) <= 1.0
    requires gl.cache.Some? ==> Abs(expected - Net(gl.cache.value, Account(bondInv))) <= 1.0
    ensures CorrectAccount(env, gl, bondInv, corpus, expected).0.lines == gl.lines
  {
    var (listed, entries) := ListCall(env, gl);
    ListShows(env, gl);
    if entries.Some? { StopsWithin(env, gl, listed, entries.value, bondInv, corpus, expected); }
  }

  lemma StopsWithin(env: Env, gl: Gl, listed: Gl, seen: seq<Line>, bondInv: int, corpus: int, expected: real)
    requires ListCall(env, gl) == (listed, Some(seen)) && Abs(expected - Net(seen, Account(bondInv))) <= 1.0
    ensures CorrectAccount(env, gl, bondInv, corpus, expected).0.lines == listed.lines
  {
  }

  lemma WithinKeepsTotal(env: Env, gl: Gl, glMap: map<string, int>, expected: real)
    requires GoodNotes(env) && Coherent(gl) && AllBalance(gl.lines, Step2Exposed(gl.lines))
    requires StaysWithin(env, gl.lines, Step2Exposed(gl.lines), MappedId(glMap, BOND_ACCOUNT), expected)
    ensures RunKeepsTotal(env, gl, glMap, expected)
  {
    Step2Safe(env, gl);
    Step2Shows(env, gl);
    Step6Leaves(env, CleanUpStale(env, gl).0, gl.lines, Step2Exposed(gl.lines), glMap, expected);
  }

  /**
   Both steps keep the total under every reply pattern iff everything step 2 could reverse balances
   by itself and so does every correction, unless step 6 lacks a mapping or nothing step 2 can
   reverse brings the account out of tolerance.
   */
  lemma RunKeepsTotalIff(env: Env, gl: Gl, glMap: map<string, int>, expected: real)
    requires GoodNotes(env) && Coherent(gl)
    ensures (forall e :: SameLedger(env, e) ==> RunKeepsTotal(e, gl, glMap, expected)) <==>
      && AllBalance(gl.lines, Step2Exposed(gl.lines))
      && (!Mapped(glMap) || AllBalance(gl.lines, CorrectionsExposed(gl.lines))
            || StaysWithin(env, gl.lines, Step2Exposed(gl.lines), MappedId(glMap, BOND_ACCOUNT), expected))
  {
    var bondInv := MappedId(glMap, BOND_ACCOUNT);
    if t :| t in Step2Exposed(gl.lines) && Net(gl.lines, Transaction(t)) != 0.0 {
      var e := RunLosesInStep2(env, gl, glMap, expected, t);
      assert !RunKeepsTotal(e, gl, glMap, expected);
    } else if Mapped(glMap) && !AllBalance(gl.lines, CorrectionsExposed(gl.lines))
              && !StaysWithin(env, gl.lines, Step2Exposed(gl.lines), bondInv, expected) {
      var t :| t in CorrectionsExposed(gl.lines) && Net(gl.lines, Transaction(t)) != 0.0;
      var e := RunLosesInStep6(env, gl, glMap, expected, t);
      assert !RunKeepsTotal(e, gl, glMap, expected);
    } else {
      forall e | SameLedger(env, e) ensures RunKeepsTotal(e, gl, glMap, expected) {
        SameTolerance(env, e, gl.lines, Step2Exposed(gl.lines), bondInv, expected);
        RunIsSafe(e, gl, glMap, expected);
      }
    }
  }

  lemma SameTolerance(env: Env, other: Env, lines: seq<Line>, exposed: set<nat>, account: int, expected: real)
    requires SameLedger(env, other)
    ensures StaysWithin(env, lines, exposed, account, expected) <==> StaysWithin(other, lines, exposed, account, expected)
  {
  }

  lemma RunIsSafe(env: Env, gl: Gl, glMap: map<string, int>, expected: real)
    requires GoodNotes(env) && Coherent(gl) && AllBalance(gl.lines, Step2Exposed(gl.lines))
    requires !Mapped(glMap) || AllBalance(gl.lines, CorrectionsExposed(gl.lines))
          || StaysWithin(env, gl.lines, Step2Exposed(gl.lines), MappedId(glMap, BOND_ACCOUNT), expected)
    ensures RunKeepsTotal(env, gl, glMap, expected)
  {
    if !Mapped(glMap) {
      Step2Safe(env, gl);
    } else if AllBalance(gl.lines, CorrectionsExposed(gl.lines)) {
      DoubleEntryKept(env, gl, glMap, expected);
    } else {
      WithinKeepsTotal(env, gl, glMap, expected);
    }
  }

  lemma RunLosesInStep2(env: Env, gl: Gl, glMap: map<string, int>, expected: real, t: nat) returns (e: Env)
    requires GoodNotes(env) && Coherent(gl) && t in Step2Exposed(gl.lines) && Net(gl.lines, Transaction(t)) != 0.0
    ensures SameLedger(env, e) && !RunKeepsTotal(e, gl, glMap, expected)
  {
    e := Step2Loses(env, gl, t);
    Step6Stops(e, CleanUpStale(e, gl).0, glMap, expected);
  }

  lemma Step6Stops(env: Env, gl: Gl, glMap: map<string, int>, expected: real)
    requires env.reply(gl.calls) == Down
    ensures CorrectBalance(env, gl, glMap, expected).0.lines == gl.lines
  {
  }

  /** Step 2 reverses what brings the account out of tolerance, and step 6 then one unbalanced correction. */
  lemma RunLosesInStep6(env: Env, gl: Gl, glMap: map<string, int>, expected: real, t: nat) returns (e: Env)
    requires GoodNotes(env) && Coherent(gl) && Mapped(glMap) && AllBalance(gl.lines, Step2Exposed(gl.lines))
    requires !StaysWithin(env, gl.lines, Step2Exposed(gl.lines), MappedId(glMap, BOND_ACCOUNT), expected)
    requires t in CorrectionsExposed(gl.lines) && Net(gl.lines, Transaction(t)) != 0.0
    ensures SameLedger(env, e) && !RunKeepsTotal(e, gl, glMap, expected)
  {
    var some := OutsideChoice(env, gl.lines, Step2Exposed(gl.lines), MappedId(glMap, BOND_ACCOUNT), expected);
    e := PartReversed(env, gl, some, t);
    RunLosesAfter(e, gl, glMap, expected, some, t);
  }

  lemma OutsideChoice(env: Env, lines: seq<Line>, exposed: set<nat>, account: int, expected: real) returns (some: set<nat>)
    requires !StaysWithin(env, lines, exposed, account, expected)
    ensures some <= exposed
    ensures forall e :: SameLedger(env, e) ==> Abs(expected - Without(e, lines, some, account)) > 1.0
  {
    var raising, lowering := Raising(lines, exposed, Account(account)), Lowering(lines, exposed, Account(account));
    some := if Abs(expected - Without(env, lines, raising, account)) > 1.0 then raising else lowering;
  }

  lemma PartReversed(env: Env, gl: Gl, some: set<nat>, t: nat) returns (e: Env)
    requires GoodNotes(env) && Coherent(gl) && some <= Step2Exposed(gl.lines)
    ensures SameLedger(env, e) && Rested(e)
    ensures var swept, log := CleanUpStale(e, gl).0, Step2Log(e, gl);
      && swept.lines == Undo(e, gl.lines, log) && Legit(gl.lines, log) && Elements(log) == some && Coherent(swept)
      && Scheduled(e, swept.calls, Step6Replies(Spare(Picks(gl.lines, IsCorrection), some), t))
  {
    var second := Step6Replies(Spare(Picks(gl.lines, IsCorrection), some), t);
    e := Obedient(env, gl.calls, Step2Replies(gl.lines, some) + second, Done, Expired, 0, Expired);
    PartThenMore(e, gl, some, Step2Replies(gl.lines, some), second);
  }

  lemma PartThenMore(env: Env, gl: Gl, some: set<nat>, replies: seq<Reply>, more: seq<Reply>)
    requires GoodNotes(env) && Coherent(gl) && some <= Step2Exposed(gl.lines) && replies == Step2Replies(gl.lines, some)
    requires Rested(env) && Scheduled(env, gl.calls, replies + more) && forall c: nat :: env.age(c) == Expired
    ensures var swept, log := CleanUpStale(env, gl).0, Step2Log(env, gl);
      && swept.lines == Undo(env, gl.lines, log) && Legit(gl.lines, log) && Elements(log) == some && Coherent(swept)
      && Scheduled(env, swept.calls, more)
  {
    ScheduledFirst(env, gl.calls, replies, more);
    Step2Takes(env, gl, some, replies);
    ScheduledRest(env, gl.calls, replies, more, CleanUpStale(env, gl).0.calls);
  }

  lemma RunLosesAfter(env: Env, gl: Gl, glMap: map<string, int>, expected: real, some: set<nat>, t: nat)
    requires GoodNotes(env) && Mapped(glMap)
    requires AllBalance(gl.lines, Step2Exposed(gl.lines)) && some <= Step2Exposed(gl.lines)
    requires Abs(expected - Without(env, gl.lines, some, MappedId(glMap, BOND_ACCOUNT))) > 1.0
    requires t in CorrectionsExposed(gl.lines) && Net(gl.lines, Transaction(t)) != 0.0
    requires var swept, log := CleanUpStale(env, gl).0, Step2Log(env, gl);
      && swept.lines == Undo(env, gl.lines, log) && Legit(gl.lines, log) && Elements(log) == some && Coherent(swept)
      && Rested(env) && Scheduled(env, swept.calls, Step6Replies(Spare(Picks(gl.lines, IsCorrection), some), t))
    ensures !RunKeepsTotal(env, gl, glMap, expected)
  {
    assert t !in some;
    UndoKeepsTotal(env, gl.lines, Step2Log(env, gl), Step2Exposed(gl.lines));
    PartThenLoses(env, CleanUpStale(env, gl).0, gl.lines, Step2Log(env, gl), some, glMap, expected, t);
  }

  lemma PartThenLoses(env: Env, gl: Gl, lines: seq<Line>, log: seq<nat>, some: set<nat>,
                      glMap: map<string, int>, expected: real, t: nat)
    requires GoodNotes(env) && Mapped(glMap) && Coherent(gl)
    requires Legit(lines, log) && gl.lines == Undo(env, lines, log) && Elements(log) == some
    requires Abs(expected - Without(env, lines, some, MappedId(glMap, BOND_ACCOUNT))) > 1.0
    requires t in CorrectionsExposed(lines) && t !in some && Net(lines, Transaction(t)) != 0.0
    requires Rested(env) && Scheduled(env, gl.calls, Step6Replies(Spare(Picks(lines, IsCorrection), some), t))
    ensures !Step6KeepsTotal(env, gl, glMap, expected)
  {
    UndoNet(env, lines, log, Account(MappedId(glMap, BOND_ACCOUNT)));
    CorrectionLeft(env, lines, log, t);
    Step6Loses(env, gl, glMap, expected, t);
  }

  lemma CorrectionLeft(env: Env, lines: seq<Line>, log: seq<nat>, t: nat)
    requires GoodNotes(env) && Legit(lines, log) && t in CorrectionsExposed(lines) && t !in Elements(log)
    ensures var after := Undo(env, lines, log);
      && Picks(after, IsCorrection) == Spare(Picks(lines, IsCorrection), Elements(log))
      && t in CorrectionsExposed(after) && Net(after, Transaction(t)) == Net(lines, Transaction(t))
  {
    NotesAreKept(env);
    UndoPicks(env, lines, log, IsCorrection);
    UndoTargets(env, lines, log, IsCorrection);
    TargetsBelow(lines, IsCorrection);
    UndoStatus(env, lines, log, t);
    UndoReversible(env, lines, log, {t});
    assert t in Reversible(lines, {t}) - Elements(log);
    UndoNetOf(env, lines, log, {t}, Everything);
  }

  // ---- Equal totals alone ------------------------------------------------------------------

  /** Two one-sided transactions in balance only with each other: step 2 reverses one of them, though no call fails. */
  lemma TotalAloneIsLost(env: Env)
    requires Reliable(env) && GoodNotes(env)
    ensures var lines := [Line(0, 1, true, 1.0, "manual entry", false), Line(1, 1, false, 1.0, "Trust JE 1", false)];
      Total(lines) == 0.0 && Total(CleanUpStale(env, Gl(lines, None, 0, 0)).0.lines) != 0.0
  {
    var d, c := Line(0, 1, true, 1.0, "manual entry", false), Line(1, 1, false, 1.0, "Trust JE 1", false);
    var lines := [d, c];
    var gl := Gl(lines, None, 0, 0);
    KindsOfComment();
    OneTarget(env, d, c);
    Step2Undoes(env, gl);
    Step2Complete(env, gl);
    UndoNet(env, lines, Step2Log(env, gl), Everything);
    TwoLines(d, c);
    OneOfTwoLines(d, c);
  }

  lemma TwoLines(d: Line, c: Line)
    requires d.debit && !c.debit && !d.reversed && !c.reversed
    ensures Total([d, c]) == d.amount - c.amount
  {
    assert [d, c][..1] == [d] && [d][..0] == [];
    assert Net([d], Everything) == d.amount;
  }

  lemma OneOfTwoLines(d: Line, c: Line)
    requires d.txn != c.txn && d.debit && !d.reversed
    ensures Net([d, c], Transaction(d.txn)) == d.amount
  {
    assert [d, c][..1] == [d] && [d][..0] == [];
    assert In(d, Everything) && In(d, Transaction(d.txn)) && !In(c, Transaction(d.txn));
    assert Net([d], Transaction(d.txn)) == d.amount;
  }

  lemma OneTarget(env: Env, d: Line, c: Line)
    requires GoodNotes(env) && d.txn != c.txn && !d.reversed && !c.reversed && IsStale(d.comment) && !IsStale(c.comment)
    requires Trim(d.comment) != Trim(c.comment) && Trim(d.comment) !in INHERITED && Trim(c.comment) !in INHERITED
    requires !("Reversal entry" <= Trim(d.comment)) && !("Reversal entry" <= Trim(c.comment))
    ensures Sound(env, [d, c]) && Step2Reached([d, c]) == {d.txn}
  {
    var lines := [d, c];
    assert d in lines && forall l :: l in lines <==> l == d || l == c;
    UnreversedIsSound(env, lines);
    TwoComments(d, c);
    NoDuplicates(lines);
    assert Targets(lines, IsStale) == {d.txn};
    OneStaleReached(env, lines, d.txn);
  }

  lemma OneStaleReached(env: Env, lines: seq<Line>, t: nat)
    requires Sound(env, lines) && Duplicates(lines) == [] && Targets(lines, IsStale) == {t}
    ensures Step2Reached(lines) == {t}
  {
    var picks := StalePicks(lines);
    assert Elements(Duplicates(lines)) == {};
    StalePicksAre(lines);
    assert Elements(picks) == {t};
    FirstIsReached(env, lines);
    OneElement(picks, t);
    ReachedSome(Reversible(lines, Elements(picks)), picks);
  }

  lemma OneElement(picks: seq<nat>, t: nat)
    requires Elements(picks) == {t}
    ensures picks != [] && picks[0] == t
  {
    assert t in Elements(picks);
    assert picks[0] in Elements(picks);
  }

  lemma TwoComments(d: Line, c: Line)
    requires d.txn != c.txn && !d.reversed && !c.reversed && Trim(d.comment) != Trim(c.comment)
    ensures Covered([d, c], {})
  {
    var lines := [d, c];
    assert forall l :: l in lines <==> l == d || l == c;
    assert FirstActive(lines, d.txn)[0] == d && FirstActive(lines, c.txn)[0] == c;
    forall t, u ensures !Shares(lines, t, u) {
      assert Active(lines, t) ==> t == d.txn || t == c.txn;
      assert Active(lines, u) ==> u == d.txn || u == c.txn;
    }
  }

  // ---- Balance in every transaction ------------------------------------------------------------

  lemma BalancedKept(env: Env)
    ensures KeptByReversal(env, Balanced)
  {
    forall lines, txn | Balanced(lines) && CanReverse(lines, txn) ensures Balanced(AfterReverse(env, lines, txn)) {
      ReverseKeepsBalanced(env, lines, txn);
    }
  }

  /** Balance in every transaction survives both steps, whatever the replies and whatever the cache held. */
  lemma StaysBalanced(env: Env, gl: Gl, glMap: map<string, int>, expected: real)
    requires Balanced(gl.lines)
    ensures Balanced(Run(env, gl, glMap, expected).0.lines) && Total(Run(env, gl, glMap, expected).0.lines) == 0.0
  {
    Step2KeepsBalanced(env, gl);
    var mapped := LookupCall(env, CleanUpStale(env, gl).0).0;
    Step6KeepsBalanced(env, mapped, MappedId(glMap, BOND_ACCOUNT), MappedId(glMap, CORPUS_ACCOUNT), expected);
    BalancedTotal(Run(env, gl, glMap, expected).0.lines);
  }

  lemma Step2KeepsBalanced(env: Env, gl: Gl)
    requires Balanced(gl.lines)
    ensures Balanced(CleanUpStale(env, gl).0.lines)
  {
    CleanupKeepsBalanced(env, gl);
    SweepKeepsBalanced(env, Cleanup(env, gl));
  }

  lemma CleanupKeepsBalanced(env: Env, gl: Gl)
    requires Balanced(gl.lines)
    ensures Balanced(Cleanup(env, gl).lines)
  {
    BalancedKept(env);
    var (listed, entries) := ListCall(env, gl);
    if entries.Some? { AllKeeps(env, listed, Duplicates(entries.value), Balanced); }
  }

  lemma SweepKeepsBalanced(env: Env, gl: Gl)
    requires Balanced(gl.lines)
    ensures Balanced(SweepStale(env, gl).0.lines)
  {
    BalancedKept(env);
    var (listed, entries) := ListCall(env, gl);
    if entries.Some? { WhereKeeps(env, listed, IsStale, entries.value, 0, Balanced); }
  }

  lemma Step6KeepsBalanced(env: Env, gl: Gl, bondInv: int, corpus: int, expected: real)
    requires Balanced(gl.lines)
    ensures Balanced(CorrectAccount(env, gl, bondInv, corpus, expected).0.lines)
  {
    BalancedKept(env);
    var (listed, entries) := ListCall(env, gl);
    if Reads(env, gl) {
      var looked := LookupCall(env, listed).0;
      WhereKeeps(env, looked, IsCorrection, entries.value, 0, Balanced);
      var swept := ReverseWhere(env, looked, IsCorrection, entries.value, 0).0;
      RecorrectShape(env, swept, bondInv, corpus, expected);
      var lines := Recorrect(env, swept, bondInv, corpus, expected).0.lines;
      if lines != swept.lines {
        var amount :| lines == AfterPost(swept.lines, bondInv, corpus, amount, CORRECTION);
        PostKeepsBalanced(swept.lines, bondInv, corpus, amount, CORRECTION);
      }
    }
  }
}
