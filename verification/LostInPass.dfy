/** What a whole pass of steps 2 and 6 is worth when replies get lost, told from the ledger before it. */
module LostInPass {
  import opened Comments
  import opened DoubleEntry
  import opened Extremes
  import opened LedgerSweeps
  import opened LostReplies
  import opened RemoteGl
  import opened Resync
  import opened ResyncGuarantees
  import opened ResyncRuns
  import opened Reversals
  import opened Seqs
  import opened Wrappers

  // ---- Reversals of step 2 that go unnoticed -------------------------------------------------

  /** A listing that shows `seen` and keeps it cached. */
  lemma ListedFresh(env: Env, gl: Gl, seen: seq<Line>, rest: seq<Reply>)
    requires Rested(env) && env.age(gl.calls) == Fresh && Scheduled(env, gl.calls, [Done] + rest)
    requires gl.cache == Some(seen) || (gl.cache == None && seen == gl.lines)
    ensures var (listed, entries) := ListCall(env, gl);
      && entries == Some(seen) && listed.cache == Some(seen) && listed.lines == gl.lines
      && listed.calls == gl.calls + 1 && Scheduled(env, listed.calls, rest)
  {
    ScheduledRest(env, gl.calls, [Done], rest, ListCall(env, gl).0.calls);
    assert env.reply(gl.calls + 0) == ([Done] + rest)[0];
  }

  lemma CleanupHides(env: Env, gl: Gl, some: set<nat>)
    requires Coherent(gl) && Rested(env) && env.age(gl.calls) == Fresh
    requires Scheduled(env, gl.calls, [Done] + Only(Duplicates(gl.lines), some, Lost))
    ensures var gl', log := Cleanup(env, gl), CleanupLog(env, gl);
      && gl'.lines == Undo(env, gl.lines, log) && Legit(gl.lines, log) && gl'.cache == Some(gl.lines)
      && Elements(log) == CleanupPart(gl.lines, some) && gl'.calls == gl.calls + 1 + |Duplicates(gl.lines)|
  {
    ListedFresh(env, gl, gl.lines, Only(Duplicates(gl.lines), some, Lost));
    DuplicatesBelow(gl.lines);
    LoopSelects(env, ListCall(env, gl).0, Duplicates(gl.lines), some, Lost);
  }

  lemma SweepHides(env: Env, gl: Gl, lines: seq<Line>, log: seq<nat>, some: set<nat>)
    requires Legit(lines, log) && gl.lines == Undo(env, lines, log) && gl.cache == Some(lines)
    requires Rested(env) && env.age(gl.calls) == Fresh
    requires Scheduled(env, gl.calls, [Done] + Only(Picks(lines, IsStale), some, Lost))
    ensures var gl', more := SweepStale(env, gl).0, SweepLog(env, gl);
      && gl'.cache == Some(lines) && gl'.calls == gl.calls + 1 + |Picks(lines, IsStale)|
      && Elements(more) == (Reversible(lines, Targets(lines, IsStale)) - Elements(log)) * some
  {
    var picks := Picks(lines, IsStale);
    ListedFresh(env, gl, lines, Only(picks, some, Lost));
    PicksAreTargets(lines, IsStale);
    StillBelow(env, lines, log, picks);
    LoopSelects(env, ListCall(env, gl).0, picks, some, Lost);
    WhereIsAll(env, ListCall(env, gl).0, IsStale, lines, 0);
    TargetsBelow(lines, IsStale);
    UndoReversible(env, lines, log, Elements(picks));
  }

  /** Any part of what step 2 goes for can be reversed with the cache still showing all of it. */
  lemma Step2Hides(env: Env, gl: Gl, some: set<nat>, first: seq<Reply>, second: seq<Reply>)
    requires GoodNotes(env) && Coherent(gl) && some <= Step2Exposed(gl.lines)
    requires first == [Done] + Only(Duplicates(gl.lines), some, Lost)
    requires second == [Done] + Only(Picks(gl.lines, IsStale), some, Lost)
    requires Rested(env) && Scheduled(env, gl.calls, first + second) && forall c: nat :: env.age(c) == Fresh
    ensures var gl', log := CleanUpStale(env, gl).0, Step2Log(env, gl);
      && gl'.lines == Undo(env, gl.lines, log) && Legit(gl.lines, log) && Elements(log) == some
      && gl'.cache == Some(gl.lines) && gl'.calls == gl.calls + |first| + |second|
  {
    var log, cleaned := CleanupLog(env, gl), Cleanup(env, gl);
    ScheduledFirst(env, gl.calls, first, second);
    CleanupHides(env, gl, some);
    ScheduledRest(env, gl.calls, first, second, cleaned.calls);
    SweepHides(env, cleaned, gl.lines, log, some);
    LogElementsConcat(log, SweepLog(env, cleaned));
    HiddenParts(gl.lines, some);
    Step2Undoes(env, gl);
  }

  lemma HiddenParts(lines: seq<Line>, some: set<nat>)
    requires some <= Step2Exposed(lines)
    ensures var part := CleanupPart(lines, some);
      part + (Reversible(lines, Targets(lines, IsStale)) - part) * some == some
  {
  }

  // ---- Which ledgers and listings step 2 can leave -----------------------------------------

  /**
   Step 2 can have reversed `gone` while a listing of step 6 shows only `shown` of it reversed: all,
   with every reply noticed; none, with the first listing still cached; or the part the clean-up
   reversed, with the second listing still cached.
   */
  ghost predicate CanShow(lines: seq<Line>, gone: set<nat>, shown: set<nat>) {
    && shown <= gone <= Step2Exposed(lines)
    && (shown == gone || shown == {} || Halves(lines, gone, shown))
  }

  ghost predicate Halves(lines: seq<Line>, gone: set<nat>, shown: set<nat>) {
    shown <= Reversible(lines, Elements(Duplicates(lines))) && gone - shown <= Reversible(lines, Targets(lines, IsStale))
  }

  /** What step 6 is shown after step 2, as reversals of the ledger before. */
  ghost predicate Shows(env: Env, lines: seq<Line>, gl: Gl, seen: seq<Line>, log: seq<nat>, part: seq<nat>) {
    && Legit(lines, log) && gl.lines == Undo(env, lines, log)
    && Legit(lines, part) && seen == Undo(env, lines, part)
    && CanShow(lines, Elements(log), Elements(part))
  }

  /** Whatever step 6 is shown, step 2 could have left so. */
  lemma ShownAfterStep2(env: Env, gl: Gl, seen: seq<Line>) returns (part: seq<nat>)
    requires GoodNotes(env) && Coherent(gl) && SeenBy(CleanUpStale(env, gl).0, seen)
    ensures Shows(env, gl.lines, CleanUpStale(env, gl).0, seen, Step2Log(env, gl), part)
  {
    var swept, cleaned := CleanUpStale(env, gl).0, Cleanup(env, gl);
    Step2Undoes(env, gl);
    Step2Cache(env, gl);
    CleanupUndoes(env, gl);
    SweepUndoes(env, cleaned, gl.lines, CleanupLog(env, gl));
    LogElementsConcat(CleanupLog(env, gl), SweepLog(env, cleaned));
    if seen == swept.lines {
      part := Step2Log(env, gl);
    } else if seen == gl.lines {
      part := [];
      assert Elements(part) == {};
    } else {
      part := CleanupLog(env, gl);
    }
  }

  lemma ShownIsKnown(env: Env, lines: seq<Line>, gl: Gl, seen: seq<Line>, log: seq<nat>, part: seq<nat>)
    requires Shows(env, lines, gl, seen, log, part) && GoodNotes(env)
    ensures Below(gl.lines, Picks(seen, IsCorrection))
  {
    NotesAreKept(env);
    UndoTargets(env, lines, part, IsCorrection);
    PicksAreTargets(seen, IsCorrection);
    TargetsBelow(lines, IsCorrection);
    forall t | t in Picks(seen, IsCorrection) ensures t < FreshId(gl.lines) {
      assert t in Elements(Picks(seen, IsCorrection)) && t in Targets(lines, IsCorrection);
      UndoStatus(env, lines, log, t);
    }
  }

  // ---- The conditions, told from the ledger before the pass ------------------------------------

  function CorrectionsOutside(lines: seq<Line>, gone: set<nat>): set<nat> {
    CorrectionsExposed(lines) - gone
  }

  /** The most that unnoticed reversals of the corrections left can take off the account. */
  function RiskOutside(env: Env, lines: seq<Line>, gone: set<nat>, account: int): real {
    Loss(env, Net(lines, Of(Raising(lines, CorrectionsOutside(lines, gone), Account(account)), Account(account))))
  }

  /** As in one step 6, with `gone` reversed and `shown` of it shown so. */
  predicate BearsAfter(env: Env, lines: seq<Line>, gone: set<nat>, shown: set<nat>, account: int, expected: real) {
    var n, m := Without(env, lines, gone, account), Without(env, lines, shown, account);
    if Abs(expected - m) <= 1.0 then n >= expected - 1.0
    else RiskOutside(env, lines, gone, account) <= if expected - m > 1.0 then n - m + 1.0 else n - expected + 1.0
  }

  ghost predicate AgreesAfter(env: Env, lines: seq<Line>, gone: set<nat>, shown: set<nat>, account: int, expected: real) {
    var n, m := Without(env, lines, gone, account), Without(env, lines, shown, account);
    expected - m <= 1.0 || (m == n && Untouched(lines, CorrectionsOutside(lines, gone), account))
  }

  /** Corrections outside what is gone keep their parts, and they are what the loop goes for. */
  lemma LeftAlone(env: Env, lines: seq<Line>, gl: Gl, seen: seq<Line>, log: seq<nat>, part: seq<nat>)
    requires Shows(env, lines, gl, seen, log, part) && GoodNotes(env)
    ensures ExposedBy(gl.lines, seen) == CorrectionsOutside(lines, Elements(log))
  {
    NotesAreKept(env);
    UndoTargets(env, lines, part, IsCorrection);
    TargetsBelow(lines, IsCorrection);
    UndoReversible(env, lines, log, Targets(seen, IsCorrection));
  }

  lemma PartsKept(env: Env, lines: seq<Line>, log: seq<nat>, txns: set<nat>, account: int)
    requires Legit(lines, log) && txns <= CorrectionsOutside(lines, Elements(log))
    ensures Net(Undo(env, lines, log), Of(txns, Account(account))) == Net(lines, Of(txns, Account(account)))
  {
    TargetsBelow(lines, IsCorrection);
    UndoNetOf(env, lines, log, txns, Account(account));
  }

  lemma EachKept(env: Env, lines: seq<Line>, log: seq<nat>, account: int)
    requires Legit(lines, log)
    ensures var txns, after := CorrectionsOutside(lines, Elements(log)), Undo(env, lines, log);
      && Raising(after, txns, Account(account)) == Raising(lines, txns, Account(account))
      && (Untouched(after, txns, account) <==> Untouched(lines, txns, account))
  {
    forall t | t in CorrectionsOutside(lines, Elements(log))
      ensures Net(Undo(env, lines, log), Of({t}, Account(account))) == Net(lines, Of({t}, Account(account)))
    {
      PartsKept(env, lines, log, {t}, account);
    }
  }

  /** The ledger and the listing show what `gone` and `shown` leave, and the loop can take as much. */
  lemma MeasuresAfter(env: Env, lines: seq<Line>, gl: Gl, seen: seq<Line>, log: seq<nat>, part: seq<nat>, account: int)
    requires Shows(env, lines, gl, seen, log, part) && GoodNotes(env)
    ensures Net(gl.lines, Account(account)) == Without(env, lines, Elements(log), account)
    ensures Net(seen, Account(account)) == Without(env, lines, Elements(part), account)
    ensures AtRisk(env, gl.lines, seen, account) == RiskOutside(env, lines, Elements(log), account)
    ensures Untouched(gl.lines, ExposedBy(gl.lines, seen), account) <==>
      Untouched(lines, CorrectionsOutside(lines, Elements(log)), account)
  {
    var txns := CorrectionsOutside(lines, Elements(log));
    LeftAlone(env, lines, gl, seen, log, part);
    EachKept(env, lines, log, account);
    PartsKept(env, lines, log, Raising(lines, txns, Account(account)), account);
    ShowsNet(env, lines, gl, seen, log, part, account);
  }

  lemma ShowsNet(env: Env, lines: seq<Line>, gl: Gl, seen: seq<Line>, log: seq<nat>, part: seq<nat>, account: int)
    requires Shows(env, lines, gl, seen, log, part)
    ensures Net(gl.lines, Account(account)) == Without(env, lines, Elements(log), account)
    ensures Net(seen, Account(account)) == Without(env, lines, Elements(part), account)
  {
    UndoNet(env, lines, log, Account(account));
    UndoNet(env, lines, part, Account(account));
  }

  lemma BearsMeans(env: Env, lines: seq<Line>, gl: Gl, seen: seq<Line>, log: seq<nat>, part: seq<nat>,
                   account: int, expected: real)
    requires Shows(env, lines, gl, seen, log, part) && GoodNotes(env)
    ensures Bears(env, gl.lines, seen, account, expected) <==>
      BearsAfter(env, lines, Elements(log), Elements(part), account, expected)
  {
    MeasuresAfter(env, lines, gl, seen, log, part, account);
  }

  lemma AgreesMeans(env: Env, lines: seq<Line>, gl: Gl, seen: seq<Line>, log: seq<nat>, part: seq<nat>,
                    account: int, expected: real)
    requires Shows(env, lines, gl, seen, log, part) && GoodNotes(env)
    ensures Agrees(gl.lines, seen, account, expected) <==>
      AgreesAfter(env, lines, Elements(log), Elements(part), account, expected)
  {
    MeasuresAfter(env, lines, gl, seen, log, part, account);
  }

  ghost predicate RunFloor(env: Env, gl: Gl, glMap: map<string, int>, expected: real) {
    FloorIfCompleted(env, CleanUpStale(env, gl).0, glMap, expected)
  }

  ghost predicate RunExact(env: Env, gl: Gl, glMap: map<string, int>, expected: real) {
    ExactIfCorrected(env, CleanUpStale(env, gl).0, glMap, expected)
  }

  // ---- They are enough -----------------------------------------------------------------------

  lemma KnownAfterStep2(env: Env, gl: Gl)
    requires GoodNotes(env) && Coherent(gl)
    ensures KnownCache(CleanUpStale(env, gl).0)
  {
    var swept := CleanUpStale(env, gl).0;
    if swept.cache.Some? {
      var part := ShownAfterStep2(env, gl, swept.cache.value);
      ShownIsKnown(env, gl.lines, swept, swept.cache.value, Step2Log(env, gl), part);
    }
  }

  lemma RunFloorWhenBorne(env: Env, gl: Gl, glMap: map<string, int>, expected: real)
    requires GoodNotes(env) && Coherent(gl) && TwoAccounts(glMap)
    requires forall gone, shown :: CanShow(gl.lines, gone, shown) ==>
      BearsAfter(env, gl.lines, gone, shown, MappedId(glMap, BOND_ACCOUNT), expected)
    ensures RunFloor(env, gl, glMap, expected)
  {
    var swept := CleanUpStale(env, gl).0;
    KnownAfterStep2(env, gl);
    forall seen | SeenBy(swept, seen) ensures Bears(env, swept.lines, seen, MappedId(glMap, BOND_ACCOUNT), expected) {
      var part := ShownAfterStep2(env, gl, seen);
      BearsMeans(env, gl.lines, swept, seen, Step2Log(env, gl), part, MappedId(glMap, BOND_ACCOUNT), expected);
    }
    FloorWhenBorne(env, swept, glMap, expected);
  }

  lemma RunExactWhenAgreed(env: Env, gl: Gl, glMap: map<string, int>, expected: real)
    requires GoodNotes(env) && Coherent(gl) && TwoAccounts(glMap)
    requires forall gone, shown :: CanShow(gl.lines, gone, shown) ==>
      AgreesAfter(env, gl.lines, gone, shown, MappedId(glMap, BOND_ACCOUNT), expected)
    ensures RunExact(env, gl, glMap, expected)
  {
    var swept := CleanUpStale(env, gl).0;
    KnownAfterStep2(env, gl);
    forall seen | SeenBy(swept, seen) ensures Agrees(swept.lines, seen, MappedId(glMap, BOND_ACCOUNT), expected) {
      var part := ShownAfterStep2(env, gl, seen);
      AgreesMeans(env, gl.lines, swept, seen, Step2Log(env, gl), part, MappedId(glMap, BOND_ACCOUNT), expected);
    }
    ExactWhenAgreed(env, swept, glMap, expected);
  }

  // ---- They are necessary -----------------------------------------------------------------------

  /** The clean-up reverses its half for all to see, the sweep the other unnoticed. */
  lemma Step2HidesHalf(env: Env, gl: Gl, gone: set<nat>, shown: set<nat>, picks: seq<nat>,
                       first: seq<Reply>, second: seq<Reply>, next: nat)
    requires GoodNotes(env) && Coherent(gl) && shown <= gone && Halves(gl.lines, gone, shown)
    requires first == [Done] + Only(Duplicates(gl.lines), shown, Done)
    requires picks == Spare(Picks(gl.lines, IsStale), shown) && second == [Done] + Only(picks, gone, Lost)
    requires Rested(env) && Scheduled(env, gl.calls, first + second)
    requires next == gl.calls + |first| && env.age(gl.calls) == env.age(next) == Expired
    ensures var gl', part := CleanUpStale(env, gl).0, CleanupLog(env, gl);
      && LeavesShown(env, gl, Undo(env, gl.lines, part), gone, shown, part)
      && gl'.cache == Some(Undo(env, gl.lines, part)) && gl'.calls == gl.calls + |first| + |second|
  {
    var part, cleaned := CleanupLog(env, gl), Cleanup(env, gl);
    ScheduledFirst(env, gl.calls, first, second);
    CleanupTakesHalf(env, gl, gone, shown, first);
    ScheduledRest(env, gl.calls, first, second, next);
    SweepHidesRest(env, cleaned, gl.lines, part, gone, shown, picks, second, next);
    HalfIsShown(env, gl, gone, shown, part);
  }

  lemma CleanupTakesHalf(env: Env, gl: Gl, gone: set<nat>, shown: set<nat>, replies: seq<Reply>)
    requires Halves(gl.lines, gone, shown) && replies == [Done] + Only(Duplicates(gl.lines), shown, Done)
    requires Rested(env) && Scheduled(env, gl.calls, replies) && env.age(gl.calls) == Expired
    ensures var gl', part := Cleanup(env, gl), CleanupLog(env, gl);
      && gl'.lines == Undo(env, gl.lines, part) && Legit(gl.lines, part)
      && Elements(part) == shown && gl'.calls == gl.calls + |replies|
  {
    CleanupTakes(env, gl, shown);
    assert CleanupPart(gl.lines, shown) == shown;
  }

  lemma HalfIsShown(env: Env, gl: Gl, gone: set<nat>, shown: set<nat>, part: seq<nat>)
    requires GoodNotes(env) && Coherent(gl) && Halves(gl.lines, gone, shown) && shown <= gone
    requires part == CleanupLog(env, gl) && Legit(gl.lines, part) && Elements(part) == shown
    requires Elements(part) + Elements(SweepLog(env, Cleanup(env, gl))) == gone
    ensures LeavesShown(env, gl, Undo(env, gl.lines, part), gone, shown, part)
  {
    LogElementsConcat(part, SweepLog(env, Cleanup(env, gl)));
    Step2Undoes(env, gl);
  }

  lemma SweepHidesRest(env: Env, gl: Gl, lines: seq<Line>, part: seq<nat>, gone: set<nat>, shown: set<nat>,
                       picks: seq<nat>, replies: seq<Reply>, base: nat)
    requires GoodNotes(env) && Legit(lines, part) && gl.lines == Undo(env, lines, part)
    requires Elements(part) == shown <= gone && Halves(lines, gone, shown)
    requires picks == Spare(Picks(lines, IsStale), shown) && replies == [Done] + Only(picks, gone, Lost)
    requires Rested(env) && gl.calls == base && env.age(base) == Expired && Scheduled(env, base, replies)
    ensures var gl', more := SweepStale(env, gl).0, SweepLog(env, gl);
      && Elements(part) + Elements(more) == gone && gl'.cache == Some(gl.lines) && gl'.calls == gl.calls + |replies|
  {
    var listed := Gl(gl.lines, Some(gl.lines), 0, gl.calls + 1);
    NotesAreKept(env);
    UndoPicks(env, lines, part, IsStale);
    ListedFirst(env, gl, Only(picks, gone, Lost), listed);
    PicksBelow(gl.lines, IsStale);
    LoopSelects(env, listed, picks, gone, Lost);
    WhereIsAll(env, listed, IsStale, gl.lines, 0);
    OtherHalf(env, lines, part, gone, picks);
  }

  lemma OtherHalf(env: Env, lines: seq<Line>, part: seq<nat>, gone: set<nat>, picks: seq<nat>)
    requires Legit(lines, part) && Elements(part) <= gone && Halves(lines, gone, Elements(part))
    requires picks == Spare(Picks(lines, IsStale), Elements(part))
    ensures Elements(part) + Reversible(Undo(env, lines, part), Elements(picks)) * gone == gone
  {
    SpareElements(Picks(lines, IsStale), Elements(part));
    PicksAreTargets(lines, IsStale);
    TargetsBelow(lines, IsStale);
    UndoReversible(env, lines, part, Elements(picks));
    ReversibleOthers(lines, Targets(lines, IsStale), Elements(part), Elements(picks));
    RestOfGone(Elements(part), Reversible(lines, Targets(lines, IsStale)), gone);
  }

  lemma ReversibleOthers(lines: seq<Line>, txns: set<nat>, part: set<nat>, others: set<nat>)
    requires others == txns - part
    ensures Reversible(lines, others) - part == Reversible(lines, txns) - part
  {
  }

  lemma RestOfGone(part: set<nat>, rest: set<nat>, gone: set<nat>)
    requires part <= gone && gone - part <= rest
    ensures part + (rest - part) * gone == gone
  {
  }

  /** A pass that step 2 left with `gone` reversed and a listing that shows `shown`. */
  ghost predicate LeavesShown(env: Env, gl: Gl, seen: seq<Line>, gone: set<nat>, shown: set<nat>, part: seq<nat>) {
    && Shows(env, gl.lines, CleanUpStale(env, gl).0, seen, Step2Log(env, gl), part)
    && Elements(Step2Log(env, gl)) == gone && Elements(part) == shown
  }

  /** Step 6 of such a pass, in which the replies to reversing `some` are lost. */
  lemma PassMisled(env: Env, gl: Gl, swept: Gl, glMap: map<string, int>, expected: real, seen: seq<Line>,
                   gone: set<nat>, shown: set<nat>, part: seq<nat>, some: set<nat>, loop: seq<Reply>)
    requires GoodNotes(env) && TwoAccounts(glMap) && LeavesShown(env, gl, seen, gone, shown, part)
    requires some <= CorrectionsOutside(gl.lines, gone) && loop == LoopReplies(Picks(seen, IsCorrection), some, Lost)
    requires swept == CleanUpStale(env, gl).0 && Rested(env) && Scheduled(env, swept.calls, [Done] + loop)
    requires forall c: nat :: swept.calls + |[Done] + loop| <= c ==> env.reply(c) == Done
    requires (swept.cache == Some(seen) && env.age(swept.calls + 1) == Fresh)
          || (seen == swept.lines && env.age(swept.calls + 1) == Expired)
    requires forall c: nat :: c > swept.calls + 1 ==> env.age(c) == Fresh
    ensures var (gl', outcome) := Run(env, gl, glMap, expected);
      Misled(env, swept.lines, seen, some, MappedId(glMap, BOND_ACCOUNT), expected, gl'.lines, outcome)
  {
    LeftAlone(env, gl.lines, swept, seen, Step2Log(env, gl), part);
    ShownIsKnown(env, gl.lines, swept, seen, Step2Log(env, gl), part);
    BalanceMisled(env, swept, glMap, expected, seen, some, loop);
  }

  /** The three ways a pass can be left, and step 6 of it. */
  lemma NoneShown(env: Env, gl: Gl, glMap: map<string, int>, expected: real, gone: set<nat>, some: set<nat>)
    returns (e: Env, part: seq<nat>)
    requires GoodNotes(env) && Coherent(gl) && TwoAccounts(glMap) && gone <= Step2Exposed(gl.lines)
    requires some <= CorrectionsOutside(gl.lines, gone)
    ensures SameLedger(env, e) && PassFound(e, gl, glMap, expected, gone, {}, some, part)
  {
    var first := [Done] + Only(Duplicates(gl.lines), gone, Lost);
    var second := [Done] + Only(Picks(gl.lines, IsStale), gone, Lost);
    var loop := LoopReplies(Picks(gl.lines, IsCorrection), some, Lost);
    e := Obedient(env, gl.calls, (first + second) + ([Done] + loop), Done, Fresh, 0, Fresh);
    part := [];
    assert Elements(part) == {};
    ScheduledFirst(e, gl.calls, first + second, [Done] + loop);
    Step2Hides(e, gl, gone, first, second);
    ScheduledRest(e, gl.calls, first + second, [Done] + loop, CleanUpStale(e, gl).0.calls);
    PassMisled(e, gl, CleanUpStale(e, gl).0, glMap, expected, gl.lines, gone, {}, part, some, loop);
  }

  lemma AllShown(env: Env, gl: Gl, glMap: map<string, int>, expected: real, gone: set<nat>, some: set<nat>)
    returns (e: Env, part: seq<nat>)
    requires GoodNotes(env) && Coherent(gl) && TwoAccounts(glMap) && gone <= Step2Exposed(gl.lines)
    requires some <= CorrectionsOutside(gl.lines, gone)
    ensures SameLedger(env, e) && PassFound(e, gl, glMap, expected, gone, gone, some, part)
  {
    var replies := Step2Replies(gl.lines, gone);
    var loop := LoopReplies(Spare(Picks(gl.lines, IsCorrection), gone), some, Lost);
    e := Obedient(env, gl.calls, replies + ([Done] + loop), Done, Expired, gl.calls + |replies| + 2, Fresh);
    ScheduledFirst(e, gl.calls, replies, [Done] + loop);
    Step2Takes(e, gl, gone, replies);
    part := Step2Log(e, gl);
    NotesAreKept(e);
    UndoPicks(e, gl.lines, part, IsCorrection);
    ScheduledRest(e, gl.calls, replies, [Done] + loop, CleanUpStale(e, gl).0.calls);
    PassMisled(e, gl, CleanUpStale(e, gl).0, glMap, expected, CleanUpStale(e, gl).0.lines, gone, gone, part, some, loop);
  }

  lemma HalfShown(env: Env, gl: Gl, glMap: map<string, int>, expected: real, gone: set<nat>, shown: set<nat>, some: set<nat>)
    returns (e: Env, part: seq<nat>)
    requires GoodNotes(env) && Coherent(gl) && TwoAccounts(glMap) && shown <= gone && Halves(gl.lines, gone, shown)
    requires some <= CorrectionsOutside(gl.lines, gone)
    ensures SameLedger(env, e) && PassFound(e, gl, glMap, expected, gone, shown, some, part)
  {
    var picks := Spare(Picks(gl.lines, IsStale), shown);
    var first, second := [Done] + Only(Duplicates(gl.lines), shown, Done), [Done] + Only(picks, gone, Lost);
    var loop := LoopReplies(Spare(Picks(gl.lines, IsCorrection), shown), some, Lost);
    var until := gl.calls + |first| + |second| + 1;
    e := Obedient(env, gl.calls, (first + second) + ([Done] + loop), Done, Expired, until, Fresh);
    ScheduledFirst(e, gl.calls, first + second, [Done] + loop);
    Step2HidesHalf(e, gl, gone, shown, picks, first, second, gl.calls + |first|);
    part := CleanupLog(e, gl);
    NotesAreKept(e);
    UndoPicks(e, gl.lines, part, IsCorrection);
    ScheduledRest(e, gl.calls, first + second, [Done] + loop, CleanUpStale(e, gl).0.calls);
    PassMisled(e, gl, CleanUpStale(e, gl).0, glMap, expected, Undo(e, gl.lines, part), gone, shown, part, some, loop);
  }

  /** A pass left so, in whose step 6 the replies to reversing `some` were lost. */
  ghost predicate PassFound(env: Env, gl: Gl, glMap: map<string, int>, expected: real, gone: set<nat>, shown: set<nat>,
                            some: set<nat>, part: seq<nat>) {
    var seen := Undo(env, gl.lines, part);
    var (gl', outcome) := Run(env, gl, glMap, expected);
    && LeavesShown(env, gl, seen, gone, shown, part)
    && Misled(env, CleanUpStale(env, gl).0.lines, seen, some, MappedId(glMap, BOND_ACCOUNT), expected, gl'.lines, outcome)
  }

  lemma AnyShown(env: Env, gl: Gl, glMap: map<string, int>, expected: real, gone: set<nat>, shown: set<nat>, some: set<nat>)
    returns (e: Env, part: seq<nat>)
    requires GoodNotes(env) && Coherent(gl) && TwoAccounts(glMap) && CanShow(gl.lines, gone, shown)
    requires some <= CorrectionsOutside(gl.lines, gone)
    ensures SameLedger(env, e) && PassFound(e, gl, glMap, expected, gone, shown, some, part)
  {
    if shown == gone {
      e, part := AllShown(env, gl, glMap, expected, gone, some);
    } else if shown == {} {
      e, part := NoneShown(env, gl, glMap, expected, gone, some);
    } else {
      e, part := HalfShown(env, gl, glMap, expected, gone, shown, some);
    }
  }

  lemma RunFloorBroken(env: Env, gl: Gl, glMap: map<string, int>, expected: real, gone: set<nat>, shown: set<nat>)
    returns (e: Env)
    requires GoodNotes(env) && Coherent(gl) && TwoAccounts(glMap) && CanShow(gl.lines, gone, shown)
    requires !BearsAfter(env, gl.lines, gone, shown, MappedId(glMap, BOND_ACCOUNT), expected)
    ensures SameLedger(env, e) && !RunFloor(e, gl, glMap, expected)
  {
    var bondInv := MappedId(glMap, BOND_ACCOUNT);
    var some, part := Raising(gl.lines, CorrectionsOutside(gl.lines, gone), Account(bondInv)), [];
    e, part := AnyShown(env, gl, glMap, expected, gone, shown, some);
    RiskTaken(e, gl.lines, CleanUpStale(e, gl).0, Undo(e, gl.lines, part), Step2Log(e, gl), part, bondInv, expected);
    SameAfter(env, e, gl.lines, gone, shown, bondInv, expected);
  }

  lemma RiskTaken(env: Env, lines: seq<Line>, gl: Gl, seen: seq<Line>, log: seq<nat>, part: seq<nat>,
                  account: int, expected: real)
    requires Shows(env, lines, gl, seen, log, part) && GoodNotes(env)
    ensures Bears(env, gl.lines, seen, account, expected) <==>
      BearsAfter(env, lines, Elements(log), Elements(part), account, expected)
    ensures var txns := CorrectionsOutside(lines, Elements(log));
      AtRisk(env, gl.lines, seen, account) ==
        Loss(env, Net(gl.lines, Of(Raising(lines, txns, Account(account)), Account(account))))
  {
    BearsMeans(env, lines, gl, seen, log, part, account, expected);
    LeftAlone(env, lines, gl, seen, log, part);
    EachKept(env, lines, log, account);
  }

  lemma SameAfter(env: Env, other: Env, lines: seq<Line>, gone: set<nat>, shown: set<nat>, account: int, expected: real)
    requires SameLedger(env, other)
    ensures BearsAfter(env, lines, gone, shown, account, expected) <==>
      BearsAfter(other, lines, gone, shown, account, expected)
    ensures AgreesAfter(env, lines, gone, shown, account, expected) <==>
      AgreesAfter(other, lines, gone, shown, account, expected)
  {
  }

  lemma RunExactBroken(env: Env, gl: Gl, glMap: map<string, int>, expected: real, gone: set<nat>, shown: set<nat>)
    returns (e: Env)
    requires GoodNotes(env) && Coherent(gl) && TwoAccounts(glMap) && CanShow(gl.lines, gone, shown)
    requires !AgreesAfter(env, gl.lines, gone, shown, MappedId(glMap, BOND_ACCOUNT), expected)
    ensures SameLedger(env, e) && !RunExact(e, gl, glMap, expected)
  {
    var some := WorthLosing(env, gl.lines, gone, shown, MappedId(glMap, BOND_ACCOUNT), expected);
    var part;
    e, part := AnyShown(env, gl, glMap, expected, gone, shown, some);
    SameBias(env, e, gl.lines, gone, shown, some, MappedId(glMap, BOND_ACCOUNT), expected);
    ExactlyMisled(e, gl, glMap, expected, gone, shown, some, part);
  }

  /** Shown `shown` and losing `some`, step 6 posts the wrong amount. */
  ghost predicate Biased(env: Env, lines: seq<Line>, gone: set<nat>, shown: set<nat>, some: set<nat>, account: int,
                         expected: real) {
    var n, m := Without(env, lines, gone, account), Without(env, lines, shown, account);
    && some <= CorrectionsOutside(lines, gone) && expected - m > 1.0
    && (m == n <==> Net(lines, Of(some, Account(account))) != 0.0)
  }

  lemma WorthLosing(env: Env, lines: seq<Line>, gone: set<nat>, shown: set<nat>, account: int, expected: real)
    returns (some: set<nat>)
    requires !AgreesAfter(env, lines, gone, shown, account, expected)
    ensures Biased(env, lines, gone, shown, some, account, expected)
  {
    if Without(env, lines, gone, account) == Without(env, lines, shown, account) {
      var t :| t in CorrectionsOutside(lines, gone) && Net(lines, Of({t}, Account(account))) != 0.0;
      some := {t};
    } else {
      some := {};
      OfNone(lines, Account(account));
    }
  }

  lemma SameBias(env: Env, other: Env, lines: seq<Line>, gone: set<nat>, shown: set<nat>, some: set<nat>, account: int,
                 expected: real)
    requires SameLedger(env, other) && Biased(env, lines, gone, shown, some, account, expected)
    ensures Biased(other, lines, gone, shown, some, account, expected)
  {
  }

  lemma ExactlyMisled(env: Env, gl: Gl, glMap: map<string, int>, expected: real, gone: set<nat>, shown: set<nat>,
                      some: set<nat>, part: seq<nat>)
    requires PassFound(env, gl, glMap, expected, gone, shown, some, part)
    requires Biased(env, gl.lines, gone, shown, some, MappedId(glMap, BOND_ACCOUNT), expected)
    ensures !RunExact(env, gl, glMap, expected)
  {
    var bondInv, log, swept := MappedId(glMap, BOND_ACCOUNT), Step2Log(env, gl), CleanUpStale(env, gl).0;
    var (gl', outcome) := Run(env, gl, glMap, expected);
    PartsKept(env, gl.lines, log, some, bondInv);
    ShowsNet(env, gl.lines, swept, Undo(env, gl.lines, part), log, part, bondInv);
    InexactWhen(env, swept.lines, Undo(env, gl.lines, part), some, bondInv, expected, gl'.lines, outcome,
                Without(env, gl.lines, gone, bondInv), Without(env, gl.lines, shown, bondInv));
  }

  lemma InexactWhen(env: Env, lines: seq<Line>, seen: seq<Line>, some: set<nat>, account: int, expected: real,
                    after: seq<Line>, outcome: Outcome, n: real, m: real)
    requires Misled(env, lines, seen, some, account, expected, after, outcome)
    requires n == Net(lines, Account(account)) && m == Net(seen, Account(account)) && expected - m > 1.0
    requires m == n <==> Net(lines, Of(some, Account(account))) != 0.0
    ensures outcome.Corrected? && Net(after, Account(account)) != expected
  {
  }

  /**
   A pass of steps 2 and 6 that completes leaves the account at most 1 below its expected value
   whatever the replies, lost ones included, exactly when the account bears it for everything step 2
   can have reversed and every listing it can have left.
   */
  lemma RunFloorIff(env: Env, gl: Gl, glMap: map<string, int>, expected: real)
    requires GoodNotes(env) && Coherent(gl) && TwoAccounts(glMap)
    ensures (forall e :: SameLedger(env, e) ==> RunFloor(e, gl, glMap, expected)) <==>
      forall gone, shown :: CanShow(gl.lines, gone, shown) ==>
        BearsAfter(env, gl.lines, gone, shown, MappedId(glMap, BOND_ACCOUNT), expected)
  {
    var bondInv := MappedId(glMap, BOND_ACCOUNT);
    if gone, shown :| CanShow(gl.lines, gone, shown) && !BearsAfter(env, gl.lines, gone, shown, bondInv, expected) {
      var e := RunFloorBroken(env, gl, glMap, expected, gone, shown);
      assert !RunFloor(e, gl, glMap, expected);
    } else {
      forall e | SameLedger(env, e) ensures RunFloor(e, gl, glMap, expected) {
        forall gone, shown | CanShow(gl.lines, gone, shown)
          ensures BearsAfter(e, gl.lines, gone, shown, bondInv, expected)
        {
          SameAfter(env, e, gl.lines, gone, shown, bondInv, expected);
        }
        RunFloorWhenBorne(e, gl, glMap, expected);
      }
    }
  }

  /** A correction it posts is exact whatever the replies, exactly when the same holds of `AgreesAfter`. */
  lemma RunExactIff(env: Env, gl: Gl, glMap: map<string, int>, expected: real)
    requires GoodNotes(env) && Coherent(gl) && TwoAccounts(glMap)
    ensures (forall e :: SameLedger(env, e) ==> RunExact(e, gl, glMap, expected)) <==>
      forall gone, shown :: CanShow(gl.lines, gone, shown) ==>
        AgreesAfter(env, gl.lines, gone, shown, MappedId(glMap, BOND_ACCOUNT), expected)
  {
    var bondInv := MappedId(glMap, BOND_ACCOUNT);
    if gone, shown :| CanShow(gl.lines, gone, shown) && !AgreesAfter(env, gl.lines, gone, shown, bondInv, expected) {
      var e := RunExactBroken(env, gl, glMap, expected, gone, shown);
      assert !RunExact(e, gl, glMap, expected);
    } else {
      forall e | SameLedger(env, e) ensures RunExact(e, gl, glMap, expected) {
        forall gone, shown | CanShow(gl.lines, gone, shown)
          ensures AgreesAfter(e, gl.lines, gone, shown, bondInv, expected)
        {
          SameAfter(env, e, gl.lines, gone, shown, bondInv, expected);
        }
        RunExactWhenAgreed(e, gl, glMap, expected);
      }
    }
  }

  // ---- The failing side -----------------------------------------------------------------------

  /** Step 6 is content, or posts 200, and the account is short by what reversing 100 takes off. */
  predicate EndsShort(env: Env, gl: Gl, glMap: map<string, int>, expected: real) {
    var (gl', outcome) := Run(env, gl, glMap, expected);
    && outcome == (if expected == 100.0 then WithinTolerance(100.0) else Corrected(200.0))
    && Net(gl'.lines, Account(1)) == expected - Loss(env, 100.0)
  }

  /**
   The failing side: one manual entry of 100, no correction, and nothing cached. Its reversal by the
   stale sweep goes unnoticed. Step 6 then finds the account at 100, and within its tolerance if
   that is expected; if 300 is expected it posts 200, though no correction touches the account.
   */
  lemma StaleEntryMisses(env: Env, expected: real)
    requires GoodNotes(env) && (expected == 100.0 || expected == 300.0)
    ensures var lines, glMap := AfterPost([], 1, 2, 100.0, "manual entry"), map[BOND_ACCOUNT := 1, CORPUS_ACCOUNT := 2];
      && CorrectionsExposed(lines) == {}
      && exists e :: SameLedger(env, e) && EndsShort(e, Gl(lines, None, 0, 0), glMap, expected)
  {
    var lines, glMap := AfterPost([], 1, 2, 100.0, "manual entry"), map[BOND_ACCOUNT := 1, CORPUS_ACCOUNT := 2];
    var gl := Gl(lines, None, 0, 0);
    assert MappedId(glMap, BOND_ACCOUNT) == 1 && MappedId(glMap, CORPUS_ACCOUNT) == 2;
    ManualEntry();
    var e, part := NoneShown(env, gl, glMap, expected, {0}, {});
    EntryMisled(e, gl, glMap, expected, part);
  }

  lemma EntryMisled(env: Env, gl: Gl, glMap: map<string, int>, expected: real, part: seq<nat>)
    requires GoodNotes(env) && PassFound(env, gl, glMap, expected, {0}, {}, {}, part) && MappedId(glMap, BOND_ACCOUNT) == 1
    requires Net(gl.lines, Account(1)) == Net(gl.lines, Of({0}, Account(1))) == 100.0
    requires expected == 100.0 || expected == 300.0
    ensures EndsShort(env, gl, glMap, expected)
  {
    var swept := CleanUpStale(env, gl).0;
    UndoNet(env, gl.lines, Step2Log(env, gl), Account(1));
    OfNone(swept.lines, Account(1));
    NoElements(part);
    assert Undo(env, gl.lines, part) == gl.lines;
  }

  lemma ManualEntry()
    ensures var lines := AfterPost([], 1, 2, 100.0, "manual entry");
      && CorrectionsExposed(lines) == {} && {0} <= Step2Exposed(lines)
      && Net(lines, Account(1)) == Net(lines, Of({0}, Account(1))) == 100.0
  {
    var lines := AfterPost([], 1, 2, 100.0, "manual entry");
    NetAfterPost([], 1, 2, 100.0, "manual entry", Account(1));
    NetAfterPost([], 1, 2, 100.0, "manual entry", Of({0}, Account(1)));
    KindsOfComment();
    PostedTargets([], 1, 2, 100.0, "manual entry", IsStale);
    PostedTargets([], 1, 2, 100.0, "manual entry", IsCorrection);
    assert lines[0] in lines && CanReverse(lines, 0);
  }
}
