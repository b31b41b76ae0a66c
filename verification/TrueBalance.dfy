/**
 A ledger that compensates reversals shows an account's balance over all its lines, reversed or
 not (server/integrations/fineract/fineractClient.js:545-551). Step 6 measures unreversed lines only.
 */
module TrueBalance {
  import opened Comments
  import opened RemoteGl
  import opened Resync
  import opened ResyncGuarantees
  import opened ResyncRuns
  import opened Reversals
  import opened Seqs

  function Posted(line: Line): real {
    if line.debit then line.amount else -line.amount
  }

  /** Debits minus credits over all lines of an account. */
  function Book(lines: seq<Line>, account: int): real {
    if lines == [] then 0.0
    else
      var last := lines[|lines| - 1];
      Book(lines[..|lines| - 1], account) + (if last.account == account then Posted(last) else 0.0)
  }

  lemma {:induction false} BookConcat(a: seq<Line>, b: seq<Line>, account: int)
    ensures Book(a + b, account) == Book(a, account) + Book(b, account)
  {
    if b == [] {
      assert a + b == a;
    } else {
      BookConcat(a, b[..|b| - 1], account);
      assert (a + b)[..|a + b| - 1] == a + b[..|b| - 1];
    }
  }

  lemma {:induction false} BookMarked(lines: seq<Line>, txn: nat, account: int)
    ensures Book(MarkReversed(lines, txn), account) == Book(lines, account)
  {
    if lines != [] {
      BookMarked(lines[..|lines| - 1], txn, account);
      assert MarkReversed(lines, txn)[..|lines| - 1] == MarkReversed(lines[..|lines| - 1], txn);
    }
  }

  /** Unreversed lines count alike in both sums. */
  lemma {:induction false} BookUnreversed(lines: seq<Line>, account: int)
    requires forall l :: l in lines ==> !l.reversed
    ensures Book(lines, account) == Net(lines, Account(account))
  {
    if lines != [] {
      assert lines[|lines| - 1] in lines && forall l :: l in lines[..|lines| - 1] ==> l in lines;
      BookUnreversed(lines[..|lines| - 1], account);
    }
  }

  /** A compensated reversal takes its part off the true balance once. */
  lemma BookReversed(env: Env, lines: seq<Line>, txn: nat, account: int)
    requires env.compensates
    ensures Book(AfterReverse(env, lines, txn), account) == Book(lines, account) - Net(lines, Of({txn}, Account(account)))
  {
    var mirrored := Compensation(lines, txn, FreshId(lines), env.note(txn));
    BookMarked(lines, txn, account);
    BookConcat(MarkReversed(lines, txn), mirrored, account);
    BookUnreversed(mirrored, account);
    NetCompensation(lines, txn, FreshId(lines), env.note(txn), Account(account));
  }

  lemma {:induction false} BookUndone(env: Env, lines: seq<Line>, log: seq<nat>, account: int)
    requires env.compensates && Legit(lines, log)
    ensures Book(Undo(env, lines, log), account) == Book(lines, account) - Net(lines, Of(Elements(log), Account(account)))
    decreases |log|
  {
    if log == [] {
      assert Elements(log) == {};
      OfNone(lines, Account(account));
    } else {
      var after, rest := AfterReverse(env, lines, log[0]), Elements(log[1..]);
      ElementsCons(log);
      assert log[0] in log && forall t :: t in log[1..] ==> t in log;
      LegitRest(env, lines, log);
      BookUndone(env, after, log[1..], account);
      BookReversed(env, lines, log[0], account);
      NetOfOthers(env, lines, log[0], rest, Account(account));
      OfSplit(lines, {log[0]}, rest, Account(account));
    }
  }

  lemma BookPosted(lines: seq<Line>, debit: int, credit: int, amount: real, comment: string)
    requires debit != credit
    ensures Book(AfterPost(lines, debit, credit, amount, comment), debit) == Book(lines, debit) + amount
  {
    var id := FreshId(lines);
    var d, c := Line(id, debit, true, amount, comment, false), Line(id, credit, false, amount, comment, false);
    var one, two := [d], [d, c];
    assert AfterPost(lines, debit, credit, amount, comment) == lines + two;
    BookConcat(lines, two, debit);
    assert one[..|one| - 1] == [] && two[..|two| - 1] == one;
    assert Book(one, debit) == amount;
  }

  lemma BookAfterLoop(env: Env, gl: Gl, account: int)
    requires Reliable(env) && Coherent(gl) && Ready(gl) && env.compensates
    ensures Book(AfterLoop(env, gl).lines, account) ==
      Book(gl.lines, account) - Net(gl.lines, Of(CorrectionsReached(gl.lines), Account(account)))
  {
    LoopComes(env, gl);
    BookUndone(env, gl.lines, CorrectionLog(env, gl), account);
  }

  lemma BookAfterPosting(env: Env, gl: Gl, bondInv: int, corpus: int, expected: real)
    requires Reliable(env) && Coherent(gl) && Ready(gl) && env.compensates && bondInv != corpus
    requires NeedsCorrection(env, gl.lines, bondInv, expected) && !CorrectionsTrip(gl.lines)
    ensures Book(CorrectAccount(env, gl, bondInv, corpus, expected).0.lines, bondInv) ==
      expected + Book(gl.lines, bondInv) - Net(gl.lines, Account(bondInv)) +
        Net(gl.lines, Of(CorrectionsReached(gl.lines), Account(bondInv)))
  {
    BookAfterLoop(env, gl, bondInv);
    Step6Complete(env, gl, bondInv, corpus, expected);
    BookPosted(AfterLoop(env, gl).lines, bondInv, corpus, Shortfall(env, gl.lines, bondInv, expected), CORRECTION);
  }

  /**
   Where step 6 leaves the true balance: with `measured` what it measured first and `corrections`
   the part of the old corrections reversed, a posting makes it exact iff the true balance was below
   the measured one by just those corrections.
   */
  lemma TrueBalanceAfter(env: Env, gl: Gl, bondInv: int, corpus: int, expected: real)
    requires Reliable(env) && Coherent(gl) && Ready(gl) && env.compensates && bondInv != corpus
    ensures var book := Book(CorrectAccount(env, gl, bondInv, corpus, expected).0.lines, bondInv);
      var before, measured := Book(gl.lines, bondInv), Net(gl.lines, Account(bondInv));
      var corrections := Net(gl.lines, Of(CorrectionsReached(gl.lines), Account(bondInv)));
      if !OutOfTolerance(gl.lines, bondInv, expected) then book == before
      else if NeedsCorrection(env, gl.lines, bondInv, expected) && !CorrectionsTrip(gl.lines) then
        book == expected + before - measured + corrections && (book == expected <==> before == measured - corrections)
      else book == before - corrections
  {
    if NeedsCorrection(env, gl.lines, bondInv, expected) && !CorrectionsTrip(gl.lines) {
      BookAfterPosting(env, gl, bondInv, corpus, expected);
    } else {
      BookAfterLoop(env, gl, bondInv);
      Step6Complete(env, gl, bondInv, corpus, expected);
    }
  }

  /** On a ledger without reversals the account ends too high by its old corrections, though it measures exact. */
  lemma CorrectionCountedTwice(env: Env, gl: Gl, bondInv: int, corpus: int, expected: real)
    requires Reliable(env) && Coherent(gl) && Ready(gl) && env.compensates && bondInv != corpus
    requires NeedsCorrection(env, gl.lines, bondInv, expected) && !CorrectionsTrip(gl.lines)
    requires forall l :: l in gl.lines ==> !l.reversed
    ensures var lines := CorrectAccount(env, gl, bondInv, corpus, expected).0.lines;
      Book(lines, bondInv) == expected + Net(gl.lines, Of(CorrectionsReached(gl.lines), Account(bondInv)))
  {
    TrueBalanceAfter(env, gl, bondInv, corpus, expected);
    BookUnreversed(gl.lines, bondInv);
  }
}
