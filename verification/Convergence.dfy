/** Repeated passes over steps 2 and 6: how many it takes until nothing changes any more. */
module Convergence {
  import opened CircuitBreaker
  import opened Comments
  import opened DoubleEntry
  import opened LedgerSweeps
  import opened LostReplies
  import opened RemoteGl
  import opened Resync
  import opened ResyncFixpoint
  import opened ResyncGuarantees
  import opened ResyncRuns
  import opened Reversals
  import opened Seqs

  // ---- Doing a thing again and again -----------------------------------------------------------

  function Repeat<T>(step: T -> T, x: T, k: nat): T {
    if k == 0 then x else step(Repeat(step, x, k - 1))
  }

  lemma {:induction false} RepeatKeeps<T>(step: T -> T, keeps: T -> bool, x: T, k: nat)
    requires keeps(x) && forall y :: keeps(y) ==> keeps(step(y))
    ensures keeps(Repeat(step, x, k))
  {
    if k > 0 { RepeatKeeps(step, keeps, x, k - 1); }
  }

  lemma {:induction false} RepeatConcat<T>(step: T -> T, x: T, j: nat, more: nat, k: nat)
    requires k == j + more
    ensures Repeat(step, x, k) == Repeat(step, Repeat(step, x, j), more)
  {
    if more > 0 { RepeatConcat(step, x, j, more - 1, k - 1); }
  }

  /** What every step brings down, unless it is down already, is down after as many steps. */
  lemma {:induction false} RepeatSettles<T>(step: T -> T, keeps: T -> bool, size: T -> nat, x: T, k: nat)
    requires keeps(x) && forall y :: keeps(y) ==> keeps(step(y))
    requires forall y :: keeps(y) ==> if size(y) == 0 then size(step(y)) == 0 else size(step(y)) < size(y)
    ensures k >= size(x) ==> size(Repeat(step, x, k)) == 0
    ensures k < size(x) ==> size(Repeat(step, x, k)) <= size(x) - k
  {
    if k > 0 {
      RepeatKeeps(step, keeps, x, k - 1);
      RepeatSettles(step, keeps, size, x, k - 1);
    }
  }

  // ---- Passes ------------------------------------------------------------------------------------

  /** A pass over steps 2 and 6, and the circuit breaker at rest again. */
  function Once(env: Env, gl: Gl, glMap: map<string, int>, expected: real): Gl {
    Run(env, gl, glMap, expected).0.(failures := 0)
  }

  /** So many of them in a row. */
  function Passes(env: Env, gl: Gl, glMap: map<string, int>, expected: real, k: nat): Gl {
    Repeat((g: Gl) => Once(env, g, glMap, expected), gl, k)
  }

  /** What every pass starts from. */
  ghost predicate Begins(env: Env, gl: Gl) {
    Reliable(env) && GoodNotes(env) && Sound(env, gl.lines) && Coherent(gl) && Ready(gl)
  }

  lemma OnceBegins(env: Env, gl: Gl, glMap: map<string, int>, expected: real)
    requires Begins(env, gl)
    ensures Begins(env, Once(env, gl, glMap, expected))
  {
    FirstPass(env, gl, glMap, expected);
  }

  // ---- Duplicates and stale transactions -----------------------------------------------------

  /** Stale, or sharing its comment with another unreversed transaction. */
  ghost predicate Offends(lines: seq<Line>, t: nat) {
    t in Targets(lines, IsStale) || exists u :: Shares(lines, t, u)
  }

  ghost function Offending(lines: seq<Line>): set<nat> {
    set t | t in Txns(lines) && Offends(lines, t)
  }

  lemma ExposedOffend(env: Env, lines: seq<Line>)
    requires Sound(env, lines)
    ensures Step2Exposed(lines) <= Offending(lines)
    ensures Step2Exposed(lines) == {} ==> Offending(lines) == {}
  {
    ExposedAre(env, lines);
    forall t | t in Duplicates(lines) ensures t in Offending(lines) {
      DuplicateShares(lines, t);
    }
    if Step2Exposed(lines) == {} { TidyIdleIff(env, lines); }
  }

  lemma DuplicateShares(lines: seq<Line>, t: nat)
    requires t in Duplicates(lines)
    ensures t in Txns(lines) && exists u :: Shares(lines, t, u)
  {
    var txns := Txns(lines);
    VictimsFrom(lines, txns, Keys(lines, txns));
    var i :| 0 <= i < |txns| && txns[i] == t;
    DuplicatesAre(lines, i);
    var j :| 0 <= j < i && CommentOf(lines, txns[j]) == CommentOf(lines, t);
    assert txns[j] in txns;
    assert Shares(lines, t, txns[j]);
  }

  /** A pass makes no new sharing. */
  lemma SharesLeft(env: Env, lines: seq<Line>, once: seq<Line>, log: seq<nat>, gone: set<nat>,
                   posts: bool, debit: int, credit: int, missing: real, t: nat, u: nat)
    requires GoodNotes(env) && Sound(env, lines)
    requires Leaves(env, lines, once, log, gone, posts, debit, credit, missing)
    requires posts ==> Targets(Undo(env, lines, log), IsCorrection) == {}
    requires Shares(once, t, u)
    ensures Shares(lines, t, u) && t !in gone
  {
    UndoShares(env, lines, log, t, u);
    if posts { PostedSharesPair(Undo(env, lines, log), debit, credit, missing, t, u); }
    assert t in log ==> t in Elements(log);
  }

  lemma OffendingLeft(env: Env, lines: seq<Line>, once: seq<Line>, log: seq<nat>, gone: set<nat>,
                      posts: bool, debit: int, credit: int, missing: real)
    requires GoodNotes(env) && Sound(env, lines)
    requires Leaves(env, lines, once, log, gone, posts, debit, credit, missing)
    requires posts ==> Targets(Undo(env, lines, log), IsCorrection) == {}
    ensures Offending(once) <= Offending(lines) - gone
  {
    TidyAfter(env, lines, once, log, gone, posts, debit, credit, missing);
    forall t | t in Offending(once) ensures t in Offending(lines) - gone {
      if t in Targets(once, IsStale) {
        StaleOffends(lines, t);
      } else {
        var u :| Shares(once, t, u);
        SharesLeft(env, lines, once, log, gone, posts, debit, credit, missing, t, u);
        SharerOffends(lines, t, u);
      }
    }
  }

  lemma StaleOffends(lines: seq<Line>, t: nat)
    requires t in Targets(lines, IsStale)
    ensures t in Offending(lines)
  {
  }

  lemma SharerOffends(lines: seq<Line>, t: nat, u: nat)
    requires Shares(lines, t, u)
    ensures t in Offending(lines)
  {
  }

  /** Every pass reverses an offending transaction, if there is one. */
  lemma SomeGone(env: Env, lines: seq<Line>, glMap: map<string, int>, expected: real) returns (t: nat)
    requires Sound(env, lines) && Offending(lines) != {}
    ensures t in Offending(lines) && t in Gone(env, lines, glMap, expected)
  {
    var duplicates, picks := Duplicates(lines), StalePicks(lines);
    ExposedOffend(env, lines);
    ExposedAre(env, lines);
    if duplicates != [] {
      t := duplicates[0];
      assert t in Elements(duplicates);
    } else {
      NoElements(duplicates);
      NoElements(picks);
      FirstIsReached(env, lines);
      t := picks[0];
      assert t in Elements(picks);
    }
  }

  lemma Smaller(a: set<nat>, b: set<nat>, t: nat)
    requires a <= b && t in b && t !in a
    ensures |a| < |b|
  {
    SubsetSize(a, b - {t});
  }

  lemma {:induction false} SubsetSize(a: set<nat>, b: set<nat>)
    requires a <= b
    ensures |a| <= |b|
    decreases a
  {
    if x :| x in a { SubsetSize(a - {x}, b - {x}); }
  }

  lemma OffendingShrinks(env: Env, gl: Gl, glMap: map<string, int>, expected: real)
    requires Begins(env, gl)
    ensures var once := Once(env, gl, glMap, expected).lines;
      if Offending(gl.lines) == {} then Offending(once) == {} else |Offending(once)| < |Offending(gl.lines)|
  {
    var once, gone := Run(env, gl, glMap, expected).0.lines, Gone(env, gl.lines, glMap, expected);
    var log := Pass(env, gl, glMap, expected);
    if Posts(env, gl.lines, glMap, expected) { NoneStands(env, gl, glMap, expected, log); }
    OffendingLeft(env, gl.lines, once, log, gone, Posts(env, gl.lines, glMap, expected), MappedId(glMap, BOND_ACCOUNT),
                  MappedId(glMap, CORPUS_ACCOUNT), Missing(env, gl.lines, glMap, expected));
    if Offending(gl.lines) != {} {
      var t := SomeGone(env, gl.lines, glMap, expected);
      Smaller(Offending(once), Offending(gl.lines), t);
    }
  }

  ghost function HowMany(gl: Gl): nat {
    |Offending(gl.lines)|
  }

  lemma PassesBegin(env: Env, gl: Gl, glMap: map<string, int>, expected: real, k: nat)
    requires Begins(env, gl)
    ensures Begins(env, Passes(env, gl, glMap, expected, k))
  {
    var begins := (g: Gl) => Begins(env, g);
    forall g | begins(g) ensures begins(Once(env, g, glMap, expected)) { OnceBegins(env, g, glMap, expected); }
    RepeatKeeps((g: Gl) => Once(env, g, glMap, expected), begins, gl, k);
  }

  lemma OffendingAfter(env: Env, gl: Gl, glMap: map<string, int>, expected: real, k: nat)
    requires Begins(env, gl) && k >= HowMany(gl)
    ensures HowMany(Passes(env, gl, glMap, expected, k)) == 0
  {
    var step, begins := (g: Gl) => Once(env, g, glMap, expected), (g: Gl) => Begins(env, g);
    forall g | begins(g)
      ensures begins(step(g)) && if HowMany(g) == 0 then HowMany(step(g)) == 0 else HowMany(step(g)) < HowMany(g)
    {
      OnceBegins(env, g, glMap, expected);
      OffendingShrinks(env, g, glMap, expected);
    }
    RepeatSettles(step, begins, HowMany, gl, k);
  }

  /**
   With every call that is sent answered, and each pass begun with the circuit breaker at rest, a
   sound ledger is rid of every duplicate and every stale transaction after at most as many passes as
   there were of them, and stays so.
   */
  lemma PassesTidy(env: Env, gl: Gl, glMap: map<string, int>, expected: real, k: nat)
    requires Begins(env, gl) && k >= |Offending(gl.lines)|
    ensures var lines := Passes(env, gl, glMap, expected, k).lines;
      Targets(lines, IsStale) == {} && Covered(lines, {}) && Step2Exposed(lines) == {}
    ensures |Offending(gl.lines)| <= |Txns(gl.lines)|
  {
    PassesBegin(env, gl, glMap, expected, k);
    OffendingAfter(env, gl, glMap, expected, k);
    NoneOffend(env, Passes(env, gl, glMap, expected, k).lines);
    SubsetSize(Offending(gl.lines), Elements(Txns(gl.lines)));
    DistinctSize(Txns(gl.lines));
  }

  lemma NoneOffend(env: Env, lines: seq<Line>)
    requires Sound(env, lines) && Offending(lines) == {}
    ensures Targets(lines, IsStale) == {} && Covered(lines, {}) && Step2Exposed(lines) == {}
  {
    ExposedOffend(env, lines);
    ExposedAre(env, lines);
    TidyIdleIff(env, lines);
  }

  // ---- The corrections ---------------------------------------------------------------------------

  /** The account is short, and reversing the corrections that stand does not change that. */
  ghost predicate Hopeless(lines: seq<Line>, account: int, expected: real) {
    expected - Net(lines, Account(account)) > 1.0 && Untouched(lines, Targets(lines, IsCorrection), account)
  }

  /** Step 6 has nothing more to do, or does the same again and again. */
  ghost predicate AtRest(lines: seq<Line>, glMap: map<string, int>, expected: real) {
    var bondInv := MappedId(glMap, BOND_ACCOUNT);
    NothingToDo(lines, bondInv, expected) ||
      (bondInv == MappedId(glMap, CORPUS_ACCOUNT) && Hopeless(lines, bondInv, expected))
  }

  lemma PostedNothing(lines: seq<Line>, account: int, amount: real)
    ensures Net(AfterPost(lines, account, account, amount, CORRECTION), Of({FreshId(lines)}, Account(account))) == 0.0
  {
    NetAfterPost(lines, account, account, amount, CORRECTION, Of({FreshId(lines)}, Account(account)));
    NetOfNone(lines, Of({FreshId(lines)}, Account(account)));
  }

  /** The one correction standing after a posting within one account. */
  lemma PostedUntouched(lines: seq<Line>, account: int, amount: real)
    requires Targets(lines, IsCorrection) == {}
    ensures var posted := AfterPost(lines, account, account, amount, CORRECTION);
      Untouched(posted, Targets(posted, IsCorrection), account)
  {
    CorrectionIsKept();
    PostedTargets(lines, account, account, amount, CORRECTION, IsCorrection);
    PostedNothing(lines, account, amount);
  }

  lemma LeftUntouched(env: Env, lines: seq<Line>, log: seq<nat>, account: int)
    requires GoodNotes(env) && Legit(lines, log) && Untouched(lines, Targets(lines, IsCorrection), account)
    ensures var after := Undo(env, lines, log); Untouched(after, Targets(after, IsCorrection), account)
  {
    NotesAreKept(env);
    UndoTargets(env, lines, log, IsCorrection);
    TargetsBelow(lines, IsCorrection);
    forall t | t in Targets(lines, IsCorrection) - Elements(log)
      ensures Net(Undo(env, lines, log), Of({t}, Account(account))) == 0.0
    {
      UndoNetOf(env, lines, log, {t}, Account(account));
    }
  }

  lemma HopelessStays(env: Env, lines: seq<Line>, once: seq<Line>, log: seq<nat>, gone: set<nat>,
                      posts: bool, account: int, expected: real, left: real, missing: real)
    requires GoodNotes(env) && Hopeless(lines, account, expected) && gone <= Targets(lines, IsCorrection)
    requires left == Without(env, lines, gone, account) && missing == expected - left
    requires Leaves(env, lines, once, log, gone, posts, account, account, missing)
    requires posts ==> Targets(Undo(env, lines, log), IsCorrection) == {}
    ensures Hopeless(once, account, expected)
  {
    AccountAfter(env, lines, once, log, gone, posts, account, account, expected, left, missing);
    assert forall t :: t in log ==> t in gone by { assert forall t :: t in log ==> t in Elements(log); }
    OfZero(lines, log, Account(account));
    LeftUntouched(env, lines, log, account);
    if posts { PostedUntouched(Undo(env, lines, log), account, missing); }
  }

  // ---- Passes in which step 2 has nothing to do -------------------------------------------------

  lemma QuietStays(env: Env, gl: Gl, glMap: map<string, int>, expected: real)
    requires Begins(env, gl) && Step2Exposed(gl.lines) == {}
    ensures Step2Exposed(Once(env, gl, glMap, expected).lines) == {}
  {
    ExposedAre(env, gl.lines);
    TidyIdleIff(env, gl.lines);
    NothingOffends(gl.lines);
    OnceBegins(env, gl, glMap, expected);
    OffendingShrinks(env, gl, glMap, expected);
    NoneOffend(env, Once(env, gl, glMap, expected).lines);
  }

  lemma NothingOffends(lines: seq<Line>)
    requires Targets(lines, IsStale) == {} && Covered(lines, {})
    ensures Offending(lines) == {}
  {
    forall t, u ensures !Shares(lines, t, u) {
      assert Shares(lines, t, u) ==> t in {} || u in {};
    }
  }

  lemma QuietGone(env: Env, lines: seq<Line>, glMap: map<string, int>, expected: real)
    requires Sound(env, lines) && Step2Exposed(lines) == {}
    ensures Gone(env, lines, glMap, expected) <= Targets(lines, IsCorrection)
  {
    QuietStep2(env, lines);
    PicksAreTargets(lines, IsCorrection);
    ReachedSome(Reversible(lines, Elements(Picks(lines, IsCorrection))), Picks(lines, IsCorrection));
  }

  /** A pass that posts nothing and still does not settle reverses a correction. */
  lemma CorrectionGone(env: Env, lines: seq<Line>, glMap: map<string, int>, expected: real) returns (t: nat)
    requires Sound(env, lines) && Step2Exposed(lines) == {} && Mapped(glMap)
    requires !Posts(env, lines, glMap, expected) && !Settles(env, lines, glMap, expected)
    ensures t in Targets(lines, IsCorrection) && t in Gone(env, lines, glMap, expected)
  {
    var picks := Picks(lines, IsCorrection);
    QuietStep2(env, lines);
    SoundTargets(env, lines, IsCorrection);
    PicksAreTargets(lines, IsCorrection);
    NoElements(picks);
    assert EntersLoop(env, lines, glMap, expected);
    assert picks != [];
    t := picks[0];
    assert t in Elements(picks);
    ReachesFirst(Targets(lines, IsCorrection), picks);
  }

  /** A pass after which step 6 is not at rest leaves fewer corrections. */
  lemma RestsOrShrinks(env: Env, gl: Gl, glMap: map<string, int>, expected: real)
    requires Begins(env, gl) && Step2Exposed(gl.lines) == {} && Mapped(glMap)
    ensures var once := Once(env, gl, glMap, expected).lines;
      AtRest(once, glMap, expected) || |Targets(once, IsCorrection)| < |Targets(gl.lines, IsCorrection)|
  {
    var once := Once(env, gl, glMap, expected).lines;
    var log := Pass(env, gl, glMap, expected);
    SettlesIff(env, gl, glMap, expected);
    if Posts(env, gl.lines, glMap, expected) {
      NoneStands(env, gl, glMap, expected, log);
      PostingRests(env, gl.lines, once, log, glMap, expected);
    } else if !Settles(env, gl.lines, glMap, expected) {
      var t := CorrectionGone(env, gl.lines, glMap, expected);
      NotesAreKept(env);
      UndoTargets(env, gl.lines, log, IsCorrection);
      Smaller(Targets(once, IsCorrection), Targets(gl.lines, IsCorrection), t);
    }
  }

  lemma PostingRests(env: Env, lines: seq<Line>, once: seq<Line>, log: seq<nat>, glMap: map<string, int>, expected: real)
    requires GoodNotes(env) && Posts(env, lines, glMap, expected) && Targets(Undo(env, lines, log), IsCorrection) == {}
    requires Leaves(env, lines, once, log, Gone(env, lines, glMap, expected), true, MappedId(glMap, BOND_ACCOUNT),
                    MappedId(glMap, CORPUS_ACCOUNT), Missing(env, lines, glMap, expected))
    ensures AtRest(once, glMap, expected)
  {
    var bondInv, missing := MappedId(glMap, BOND_ACCOUNT), Missing(env, lines, glMap, expected);
    AccountAfter(env, lines, once, log, Gone(env, lines, glMap, expected), true, bondInv,
                 MappedId(glMap, CORPUS_ACCOUNT), expected, Left(env, lines, glMap, expected), missing);
    if bondInv == MappedId(glMap, CORPUS_ACCOUNT) { PostedUntouched(Undo(env, lines, log), bondInv, missing); }
  }

  lemma RestStays(env: Env, gl: Gl, glMap: map<string, int>, expected: real)
    requires Begins(env, gl) && Step2Exposed(gl.lines) == {} && Mapped(glMap) && AtRest(gl.lines, glMap, expected)
    ensures AtRest(Once(env, gl, glMap, expected).lines, glMap, expected)
  {
    PassIdleIff(env, gl, glMap, expected);
    if !NothingToDo(gl.lines, MappedId(glMap, BOND_ACCOUNT), expected) {
      var log := Pass(env, gl, glMap, expected);
      QuietGone(env, gl.lines, glMap, expected);
      if Posts(env, gl.lines, glMap, expected) { NoneStands(env, gl, glMap, expected, log); }
      HopelessStays(env, gl.lines, Once(env, gl, glMap, expected).lines, log, Gone(env, gl.lines, glMap, expected),
                    Posts(env, gl.lines, glMap, expected), MappedId(glMap, BOND_ACCOUNT), expected,
                    Left(env, gl.lines, glMap, expected), Missing(env, gl.lines, glMap, expected));
    }
  }

  /** Corrections do not pile up: there is one more only where there was none. */
  lemma CorrectionsBounded(env: Env, gl: Gl, glMap: map<string, int>, expected: real, bound: nat)
    requires Begins(env, gl) && |Targets(gl.lines, IsCorrection)| <= bound && 1 <= bound
    ensures |Targets(Once(env, gl, glMap, expected).lines, IsCorrection)| <= bound
  {
    var log := Pass(env, gl, glMap, expected);
    var after := Undo(env, gl.lines, log);
    if Posts(env, gl.lines, glMap, expected) {
      NoneStands(env, gl, glMap, expected, log);
      PostedTargets(after, MappedId(glMap, BOND_ACCOUNT), MappedId(glMap, CORPUS_ACCOUNT),
                    Missing(env, gl.lines, glMap, expected), CORRECTION, IsCorrection);
      SubsetSize(Targets(Once(env, gl, glMap, expected).lines, IsCorrection), {FreshId(after)});
    } else {
      NotesAreKept(env);
      UndoTargets(env, gl.lines, log, IsCorrection);
      SubsetSize(Targets(after, IsCorrection), Targets(gl.lines, IsCorrection));
    }
  }

  // ---- All passes --------------------------------------------------------------------------------

  /** How many more passes step 6 may take, once step 2 has nothing to do. */
  ghost function ToRest(gl: Gl, glMap: map<string, int>, expected: real): nat {
    if AtRest(gl.lines, glMap, expected) then 0 else |Targets(gl.lines, IsCorrection)| + 1
  }

  ghost predicate Quiet(env: Env, gl: Gl) {
    Begins(env, gl) && Step2Exposed(gl.lines) == {}
  }

  lemma RestAfter(env: Env, gl: Gl, glMap: map<string, int>, expected: real, k: nat)
    requires Quiet(env, gl) && Mapped(glMap) && k >= ToRest(gl, glMap, expected)
    ensures AtRest(Passes(env, gl, glMap, expected, k).lines, glMap, expected)
  {
    var step, quiet := (g: Gl) => Once(env, g, glMap, expected), (g: Gl) => Quiet(env, g);
    var size := (g: Gl) => ToRest(g, glMap, expected);
    forall g | quiet(g) ensures quiet(step(g)) && if size(g) == 0 then size(step(g)) == 0 else size(step(g)) < size(g) {
      OnceBegins(env, g, glMap, expected);
      QuietStays(env, g, glMap, expected);
      if AtRest(g.lines, glMap, expected) { RestStays(env, g, glMap, expected); }
      RestsOrShrinks(env, g, glMap, expected);
    }
    RepeatSettles(step, quiet, size, gl, k);
  }

  lemma BoundedAfter(env: Env, gl: Gl, glMap: map<string, int>, expected: real, k: nat, bound: nat)
    requires Begins(env, gl) && |Targets(gl.lines, IsCorrection)| <= bound && 1 <= bound
    ensures |Targets(Passes(env, gl, glMap, expected, k).lines, IsCorrection)| <= bound
  {
    var step := (g: Gl) => Once(env, g, glMap, expected);
    var keeps := (g: Gl) => Begins(env, g) && |Targets(g.lines, IsCorrection)| <= bound;
    forall g | keeps(g) ensures keeps(step(g)) {
      OnceBegins(env, g, glMap, expected);
      CorrectionsBounded(env, g, glMap, expected, bound);
    }
    RepeatKeeps(step, keeps, gl, k);
  }

  /**
   Under the same conditions, after as many passes as there were duplicate and stale transactions and
   corrections, and two more, a pass changes nothing, unless both codes lead to one account and that
   is still short: then every pass does.
   */
  lemma PassesSettle(env: Env, gl: Gl, glMap: map<string, int>, expected: real, k: nat)
    requires Begins(env, gl) && k >= |Offending(gl.lines)| + |Targets(gl.lines, IsCorrection)| + 2
    ensures var now, bondInv := Passes(env, gl, glMap, expected, k), MappedId(glMap, BOND_ACCOUNT);
      Run(env, now, glMap, expected).0.lines == now.lines <==>
        !(Mapped(glMap) && bondInv == MappedId(glMap, CORPUS_ACCOUNT) &&
          expected - Net(now.lines, Account(bondInv)) > 1.0)
  {
    var now := Passes(env, gl, glMap, expected, k);
    PassesBegin(env, gl, glMap, expected, k);
    PassesTidy(env, gl, glMap, expected, k);
    PassIdleIff(env, now, glMap, expected);
    if Mapped(glMap) {
      AllRest(env, gl, glMap, expected, |Offending(gl.lines)|, k - |Offending(gl.lines)|, k);
    }
  }

  lemma AllRest(env: Env, gl: Gl, glMap: map<string, int>, expected: real, j: nat, more: nat, k: nat)
    requires Begins(env, gl) && Mapped(glMap) && j >= |Offending(gl.lines)| && k == j + more
    requires more >= |Targets(gl.lines, IsCorrection)| + 2
    ensures AtRest(Passes(env, gl, glMap, expected, k).lines, glMap, expected)
  {
    var quiet := Passes(env, gl, glMap, expected, j);
    QuietAfter(env, gl, glMap, expected, j, |Targets(gl.lines, IsCorrection)| + 1);
    RestAfter(env, quiet, glMap, expected, more);
    PassesConcat(env, gl, glMap, expected, j, more, k);
  }

  lemma QuietAfter(env: Env, gl: Gl, glMap: map<string, int>, expected: real, k: nat, bound: nat)
    requires Begins(env, gl) && k >= |Offending(gl.lines)| && |Targets(gl.lines, IsCorrection)| <= bound && 1 <= bound
    ensures var now := Passes(env, gl, glMap, expected, k);
      Quiet(env, now) && ToRest(now, glMap, expected) <= bound + 1
  {
    PassesBegin(env, gl, glMap, expected, k);
    PassesTidy(env, gl, glMap, expected, k);
    BoundedAfter(env, gl, glMap, expected, k, bound);
  }

  lemma PassesConcat(env: Env, gl: Gl, glMap: map<string, int>, expected: real, j: nat, more: nat, k: nat)
    requires k == j + more
    ensures Passes(env, gl, glMap, expected, k) == Passes(env, Passes(env, gl, glMap, expected, j), glMap, expected, more)
  {
    RepeatConcat((g: Gl) => Once(env, g, glMap, expected), gl, j, more, k);
  }
}
