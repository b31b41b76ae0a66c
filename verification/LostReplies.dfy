/**
 What step 6 is worth when replies get lost: the ledger then no longer agrees with the listing the
 client has cached, whether the reply was lost in this step or in an earlier one.
 */
module LostReplies {
  import opened Comments
  import opened Extremes
  import opened LedgerSweeps
  import opened RemoteGl
  import opened Resync
  import opened ResyncGuarantees
  import opened ResyncRuns
  import opened Reversals
  import opened Seqs
  import opened Wrappers

  /** A cached listing is of an earlier ledger: it has no correction the ledger does not know. */
  ghost predicate KnownCache(gl: Gl) {
    gl.cache.Some? ==> Below(gl.lines, Picks(gl.cache.value, IsCorrection))
  }

  lemma KnownSeen(gl: Gl, seen: seq<Line>)
    requires KnownCache(gl) && SeenBy(gl, seen)
    ensures Below(gl.lines, Picks(seen, IsCorrection))
  {
    PicksBelow(gl.lines, IsCorrection);
  }

  ghost predicate TwoAccounts(glMap: map<string, int>) {
    Mapped(glMap) && MappedId(glMap, BOND_ACCOUNT) != MappedId(glMap, CORPUS_ACCOUNT)
  }

  // ---- The conditions ---------------------------------------------------------------------

  /** The most that reversals called for by a listing can take off the account. */
  function AtRisk(env: Env, lines: seq<Line>, seen: seq<Line>, account: int): real {
    Loss(env, Net(lines, Of(Raising(lines, ExposedBy(lines, seen), Account(account)), Account(account))))
  }

  /** What the account may lose in the loop and still be at most 1 too low after a step 6 that was shown `seen`. */
  function Slack(lines: seq<Line>, seen: seq<Line>, account: int, expected: real): real {
    var n, m := Net(lines, Account(account)), Net(seen, Account(account));
    if expected - m > 1.0 then n - m + 1.0 else n - expected + 1.0
  }

  /** Shown `seen`, step 6 leaves the account at most 1 too low, whatever it then reverses unnoticed. */
  predicate Bears(env: Env, lines: seq<Line>, seen: seq<Line>, account: int, expected: real) {
    if OutOfTolerance(seen, account, expected) then
      AtRisk(env, lines, seen, account) <= Slack(lines, seen, account, expected)
    else Net(lines, Account(account)) >= expected - 1.0
  }

  /** Shown `seen`, step 6 posts nothing, or what it posts is exact whatever it reverses unnoticed. */
  ghost predicate Agrees(lines: seq<Line>, seen: seq<Line>, account: int, expected: real) {
    || expected - Net(seen, Account(account)) <= 1.0
    || (Net(seen, Account(account)) == Net(lines, Account(account)) && Untouched(lines, ExposedBy(lines, seen), account))
  }

  ghost predicate Untouched(lines: seq<Line>, txns: set<nat>, account: int) {
    forall t :: t in txns ==> Net(lines, Of({t}, Account(account))) == 0.0
  }

  ghost predicate ExactIfCorrected(env: Env, gl: Gl, glMap: map<string, int>, expected: real) {
    var (gl', outcome) := CorrectBalance(env, gl, glMap, expected);
    outcome.Corrected? ==> Net(gl'.lines, Account(MappedId(glMap, BOND_ACCOUNT))) == expected
  }

  ghost predicate FloorIfCompleted(env: Env, gl: Gl, glMap: map<string, int>, expected: real) {
    var (gl', outcome) := CorrectBalance(env, gl, glMap, expected);
    Completed(outcome) ==> Net(gl'.lines, Account(MappedId(glMap, BOND_ACCOUNT))) >= expected - 1.0
  }

  // ---- They are enough ----------------------------------------------------------------------

  /** What measuring again after the loop comes to. */
  lemma PostedOver(env: Env, gl: Gl, seen: seq<Line>, bondInv: int, corpus: int, expected: real)
    requires bondInv != corpus && (gl.cache == None || gl.cache == Some(seen))
    ensures var (gl', outcome) := Recorrect(env, gl, bondInv, corpus, expected);
      var n, m, balance := Net(gl.lines, Account(bondInv)), Net(seen, Account(bondInv)), Net(gl'.lines, Account(bondInv));
      && (outcome.Corrected? ==> balance == expected || (expected - m > 1.0 && balance == n + (expected - m)))
      && (outcome.AlreadyCorrect? ==> balance == n && (n >= expected - 1.0 || expected - m <= 1.0))
      && !outcome.WithinTolerance?
  {
    var outcome := Recorrect(env, gl, bondInv, corpus, expected).1;
    RecorrectShape(env, gl, bondInv, corpus, expected);
    if outcome.Corrected? {
      NetAfterPost(gl.lines, bondInv, corpus, outcome.amount, CORRECTION, Account(bondInv));
    }
  }

  lemma LossIsBounded(env: Env, lines: seq<Line>, seen: seq<Line>, log: seq<nat>, account: int)
    requires Legit(lines, log) && Elements(log) <= ExposedBy(lines, seen)
    ensures Net(Undo(env, lines, log), Account(account)) >= Net(lines, Account(account)) - AtRisk(env, lines, seen, account)
  {
    UndoNet(env, lines, log, Account(account));
    Between(lines, ExposedBy(lines, seen), Elements(log), Account(account));
  }

  lemma FloorOver(env: Env, gl: Gl, seen: seq<Line>, bondInv: int, corpus: int, expected: real)
    requires KnownCache(gl) && SeenBy(gl, seen) && ListCall(env, gl).1 == Some(seen) && bondInv != corpus
    requires Bears(env, gl.lines, seen, bondInv, expected)
    ensures var (gl', outcome) := CorrectAccount(env, gl, bondInv, corpus, expected);
      Completed(outcome) ==> Net(gl'.lines, Account(bondInv)) >= expected - 1.0
  {
    BranchesOver(env, gl, seen, bondInv, corpus, expected);
    if Reads(env, gl) && OutOfTolerance(seen, bondInv, expected) {
      KnownSeen(gl, seen);
      UndoneOver(env, gl, seen);
      LossIsBounded(env, gl.lines, seen, LogOver(env, gl, seen), bondInv);
      PostedOver(env, LoopOver(env, gl, seen), seen, bondInv, corpus, expected);
    }
  }

  lemma ExactOver(env: Env, gl: Gl, seen: seq<Line>, bondInv: int, corpus: int, expected: real)
    requires KnownCache(gl) && SeenBy(gl, seen) && ListCall(env, gl).1 == Some(seen) && bondInv != corpus
    requires Agrees(gl.lines, seen, bondInv, expected)
    ensures var (gl', outcome) := CorrectAccount(env, gl, bondInv, corpus, expected);
      outcome.Corrected? ==> Net(gl'.lines, Account(bondInv)) == expected
  {
    BranchesOver(env, gl, seen, bondInv, corpus, expected);
    if Reads(env, gl) && OutOfTolerance(seen, bondInv, expected) {
      KnownSeen(gl, seen);
      UndoneOver(env, gl, seen);
      PostedOver(env, LoopOver(env, gl, seen), seen, bondInv, corpus, expected);
      if expected - Net(seen, Account(bondInv)) > 1.0 {
        UntouchedKeeps(env, gl.lines, LogOver(env, gl, seen), ExposedBy(gl.lines, seen), bondInv);
      }
    }
  }

  lemma UntouchedKeeps(env: Env, lines: seq<Line>, log: seq<nat>, txns: set<nat>, account: int)
    requires Legit(lines, log) && Elements(log) <= txns && Untouched(lines, txns, account)
    ensures Net(Undo(env, lines, log), Account(account)) == Net(lines, Account(account))
  {
    assert forall t :: t in log ==> t in Elements(log);
    UndoZero(env, lines, log, Account(account));
  }

  lemma FloorWhenBorne(env: Env, gl: Gl, glMap: map<string, int>, expected: real)
    requires KnownCache(gl) && TwoAccounts(glMap)
    requires forall seen :: SeenBy(gl, seen) ==> Bears(env, gl.lines, seen, MappedId(glMap, BOND_ACCOUNT), expected)
    ensures FloorIfCompleted(env, gl, glMap, expected)
  {
    var mapped := LookupCall(env, gl).0;
    var entries := ListCall(env, mapped).1;
    ListShows(env, mapped);
    if entries.Some? {
      assert SeenBy(gl, entries.value);
      FloorOver(env, mapped, entries.value, MappedId(glMap, BOND_ACCOUNT), MappedId(glMap, CORPUS_ACCOUNT), expected);
    }
  }

  lemma ExactWhenAgreed(env: Env, gl: Gl, glMap: map<string, int>, expected: real)
    requires KnownCache(gl) && TwoAccounts(glMap)
    requires forall seen :: SeenBy(gl, seen) ==> Agrees(gl.lines, seen, MappedId(glMap, BOND_ACCOUNT), expected)
    ensures ExactIfCorrected(env, gl, glMap, expected)
  {
    var mapped := LookupCall(env, gl).0;
    var entries := ListCall(env, mapped).1;
    ListShows(env, mapped);
    if entries.Some? {
      assert SeenBy(gl, entries.value);
      ExactOver(env, mapped, entries.value, MappedId(glMap, BOND_ACCOUNT), MappedId(glMap, CORPUS_ACCOUNT), expected);
    }
  }

  // ---- They are necessary -----------------------------------------------------------------------

  /** With a fresh cache, measuring again measures the cache. */
  lemma RecorrectCached(env: Env, gl: Gl, seen: seq<Line>, bondInv: int, corpus: int, expected: real, missing: real)
    requires Rested(env) && gl.cache == Some(seen) && env.age(gl.calls) == Fresh && env.reply(gl.calls + 1) == Done
    requires missing == expected - Net(seen, Account(bondInv))
    ensures var (gl', outcome) := Recorrect(env, gl, bondInv, corpus, expected);
      if missing > 1.0 then
        gl'.lines == AfterPost(gl.lines, bondInv, corpus, missing, CORRECTION) && outcome == Corrected(missing)
      else gl'.lines == gl.lines && outcome == AlreadyCorrect(expected - missing)
  {
  }

  /** What step 6 comes to when it is shown `seen` and the replies to reversing `some` are lost. */
  ghost predicate Misled(env: Env, lines: seq<Line>, seen: seq<Line>, some: set<nat>, account: int, expected: real,
                         after: seq<Line>, outcome: Outcome) {
    var n, m, balance := Net(lines, Account(account)), Net(seen, Account(account)), Net(after, Account(account));
    var lost := Loss(env, Net(lines, Of(some, Account(account))));
    if !OutOfTolerance(seen, account, expected) then outcome == WithinTolerance(m) && balance == n
    else if expected - m > 1.0 then outcome == Corrected(expected - m) && balance == n - lost + (expected - m)
    else outcome == AlreadyCorrect(m) && balance == n - lost
  }

  /**
   Reversals whose replies are lost leave the old listing in the cache, and step 6 measures what is
   no longer there: it posts too little, or nothing where something is missing now.
   */
  lemma LostReversalsMislead(env: Env, gl: Gl, seen: seq<Line>, bondInv: int, corpus: int, expected: real, some: set<nat>)
    requires ListCall(env, gl).1 == Some(seen) && Below(gl.lines, Picks(seen, IsCorrection)) && bondInv != corpus
    requires some <= ExposedBy(gl.lines, seen)
    requires Rested(env) && Scheduled(env, gl.calls, LoopReplies(Picks(seen, IsCorrection), some, Lost))
    requires forall c: nat :: c > gl.calls ==> env.age(c) == Fresh
    requires forall c: nat :: gl.calls + |LoopReplies(Picks(seen, IsCorrection), some, Lost)| <= c ==> env.reply(c) == Done
    ensures var (gl', outcome) := CorrectAccount(env, gl, bondInv, corpus, expected);
      Misled(env, gl.lines, seen, some, bondInv, expected, gl'.lines, outcome)
  {
    var after, missing := LoopOver(env, gl, seen), expected - Net(seen, Account(bondInv));
    LoopTakesOver(env, gl, seen, some, Lost);
    BranchesOver(env, gl, seen, bondInv, corpus, expected);
    RecorrectCached(env, after, seen, bondInv, corpus, expected, missing);
    NetAfterPost(after.lines, bondInv, corpus, missing, CORRECTION, Account(bondInv));
    UndoNet(env, gl.lines, LogOver(env, gl, seen), Account(bondInv));
  }

  /** The same, from the mapping query on: the listing shows `seen`, and what is cached stays fresh. */
  lemma BalanceMisled(env: Env, gl: Gl, glMap: map<string, int>, expected: real, seen: seq<Line>, some: set<nat>,
                      loop: seq<Reply>)
    requires TwoAccounts(glMap) && Below(gl.lines, Picks(seen, IsCorrection)) && some <= ExposedBy(gl.lines, seen)
    requires loop == LoopReplies(Picks(seen, IsCorrection), some, Lost)
    requires Rested(env) && Scheduled(env, gl.calls, [Done] + loop)
    requires forall c: nat :: gl.calls + |[Done] + loop| <= c ==> env.reply(c) == Done
    requires (gl.cache == Some(seen) && env.age(gl.calls + 1) == Fresh)
          || (seen == gl.lines && env.age(gl.calls + 1) == Expired)
    requires forall c: nat :: c > gl.calls + 1 ==> env.age(c) == Fresh
    ensures var (gl', outcome) := CorrectBalance(env, gl, glMap, expected);
      Misled(env, gl.lines, seen, some, MappedId(glMap, BOND_ACCOUNT), expected, gl'.lines, outcome)
  {
    var mapped := gl.(calls := gl.calls + 1);
    ScheduledRest(env, gl.calls, [Done], loop, mapped.calls);
    assert LookupCall(env, gl) == (mapped, true) by { assert env.reply(gl.calls + 0) == ([Done] + loop)[0]; }
    LoopStarts(env, mapped, Picks(seen, IsCorrection), some, Lost);
    LostReversalsMislead(env, mapped, seen, MappedId(glMap, BOND_ACCOUNT), MappedId(glMap, CORPUS_ACCOUNT), expected, some);
  }

  /** The same ledger can be made to show either listing and to lose those replies. */
  lemma LossFound(env: Env, gl: Gl, glMap: map<string, int>, expected: real, seen: seq<Line>, some: set<nat>)
    returns (e: Env)
    requires KnownCache(gl) && TwoAccounts(glMap) && SeenBy(gl, seen) && some <= ExposedBy(gl.lines, seen)
    ensures SameLedger(env, e)
    ensures var (gl', outcome) := CorrectBalance(e, gl, glMap, expected);
      Misled(env, gl.lines, seen, some, MappedId(glMap, BOND_ACCOUNT), expected, gl'.lines, outcome)
  {
    var loop := LoopReplies(Picks(seen, IsCorrection), some, Lost);
    e := Obedient(env, gl.calls, [Done] + loop, Done, if gl.cache == Some(seen) then Fresh else Expired, gl.calls + 2, Fresh);
    KnownSeen(gl, seen);
    BalanceMisled(e, gl, glMap, expected, seen, some, loop);
  }

  lemma FloorBroken(env: Env, gl: Gl, glMap: map<string, int>, expected: real, seen: seq<Line>) returns (e: Env)
    requires KnownCache(gl) && TwoAccounts(glMap) && SeenBy(gl, seen)
    requires !Bears(env, gl.lines, seen, MappedId(glMap, BOND_ACCOUNT), expected)
    ensures SameLedger(env, e) && !FloorIfCompleted(e, gl, glMap, expected)
  {
    var account := Account(MappedId(glMap, BOND_ACCOUNT));
    e := LossFound(env, gl, glMap, expected, seen, Raising(gl.lines, ExposedBy(gl.lines, seen), account));
  }

  lemma ExactnessBroken(env: Env, gl: Gl, glMap: map<string, int>, expected: real, seen: seq<Line>) returns (e: Env)
    requires KnownCache(gl) && TwoAccounts(glMap) && SeenBy(gl, seen)
    requires !Agrees(gl.lines, seen, MappedId(glMap, BOND_ACCOUNT), expected)
    ensures SameLedger(env, e) && !ExactIfCorrected(e, gl, glMap, expected)
  {
    var account := Account(MappedId(glMap, BOND_ACCOUNT));
    if Net(seen, account) != Net(gl.lines, account) {
      OfNone(gl.lines, account);
      e := LossFound(env, gl, glMap, expected, seen, {});
    } else {
      var t :| t in ExposedBy(gl.lines, seen) && Net(gl.lines, Of({t}, account)) != 0.0;
      e := LossFound(env, gl, glMap, expected, seen, {t});
    }
  }

  lemma SameRisk(env: Env, other: Env, lines: seq<Line>, seen: seq<Line>, account: int, expected: real)
    requires SameLedger(env, other)
    ensures Bears(env, lines, seen, account, expected) <==> Bears(other, lines, seen, account, expected)
  {
  }

  /**
   A completed step 6 leaves the account at most 1 below its expected value whatever the replies,
   lost ones included, exactly when it would be so for the ledger and for a cached listing, whichever
   of them it is shown first.
   */
  lemma FloorWhateverRepliesIff(env: Env, gl: Gl, glMap: map<string, int>, expected: real)
    requires KnownCache(gl) && TwoAccounts(glMap)
    ensures var bondInv := MappedId(glMap, BOND_ACCOUNT);
      (forall e :: SameLedger(env, e) ==> FloorIfCompleted(e, gl, glMap, expected)) <==>
        && Bears(env, gl.lines, gl.lines, bondInv, expected)
        && (gl.cache.Some? ==> Bears(env, gl.lines, gl.cache.value, bondInv, expected))
  {
    var bondInv := MappedId(glMap, BOND_ACCOUNT);
    if seen :| SeenBy(gl, seen) && !Bears(env, gl.lines, seen, bondInv, expected) {
      var e := FloorBroken(env, gl, glMap, expected, seen);
      assert !FloorIfCompleted(e, gl, glMap, expected);
    } else {
      assert SeenBy(gl, gl.lines) && (gl.cache.Some? ==> SeenBy(gl, gl.cache.value));
      forall e | SameLedger(env, e) ensures FloorIfCompleted(e, gl, glMap, expected) {
        forall seen | SeenBy(gl, seen) ensures Bears(e, gl.lines, seen, bondInv, expected) {
          SameRisk(env, e, gl.lines, seen, bondInv, expected);
        }
        FloorWhenBorne(e, gl, glMap, expected);
      }
    }
  }

  /**
   A posted correction is exact whatever the replies, lost ones included, exactly when, for the
   ledger and for a cached listing, that shows the account not short, or as it is with nothing on
   the account for the loop to reverse.
   */
  lemma ExactWhateverRepliesIff(env: Env, gl: Gl, glMap: map<string, int>, expected: real)
    requires KnownCache(gl) && TwoAccounts(glMap)
    ensures var bondInv := MappedId(glMap, BOND_ACCOUNT);
      (forall e :: SameLedger(env, e) ==> ExactIfCorrected(e, gl, glMap, expected)) <==>
        && Agrees(gl.lines, gl.lines, bondInv, expected)
        && (gl.cache.Some? ==> Agrees(gl.lines, gl.cache.value, bondInv, expected))
  {
    var bondInv := MappedId(glMap, BOND_ACCOUNT);
    if seen :| SeenBy(gl, seen) && !Agrees(gl.lines, seen, bondInv, expected) {
      var e := ExactnessBroken(env, gl, glMap, expected, seen);
      assert !ExactIfCorrected(e, gl, glMap, expected);
    } else {
      assert SeenBy(gl, gl.lines) && (gl.cache.Some? ==> SeenBy(gl, gl.cache.value));
      forall e ensures ExactIfCorrected(e, gl, glMap, expected) { ExactWhenAgreed(e, gl, glMap, expected); }
    }
  }

  // ---- Losses in the loop of step 6 --------------------------------------------------------------

  /** The failing side: an account 50 too high, whose one correction of 100 is reversed unnoticed, ends 50 too low. */
  lemma OverstatedEndsShort(env: Env)
    requires !env.compensates
    ensures var lines := AfterPost([], 1, 2, 100.0, CORRECTION);
      exists e :: SameLedger(env, e) &&
        var (gl', outcome) := CorrectBalance(e, Gl(lines, None, 0, 0), map[BOND_ACCOUNT := 1, CORPUS_ACCOUNT := 2], 50.0);
        outcome.AlreadyCorrect? && Net(gl'.lines, Account(1)) == 0.0
  {
    var lines, glMap := AfterPost([], 1, 2, 100.0, CORRECTION), map[BOND_ACCOUNT := 1, CORPUS_ACCOUNT := 2];
    assert MappedId(glMap, BOND_ACCOUNT) == 1 && MappedId(glMap, CORPUS_ACCOUNT) == 2;
    NetAfterPost([], 1, 2, 100.0, CORRECTION, Account(1));
    NetAfterPost([], 1, 2, 100.0, CORRECTION, Of({0}, Account(1)));
    CorrectionIsKept();
    PostedTargets([], 1, 2, 100.0, CORRECTION, IsCorrection);
    assert lines[0] in lines && CanReverse(lines, 0);
    var e := LossFound(env, Gl(lines, None, 0, 0), glMap, 50.0, lines, {0});
  }
}
