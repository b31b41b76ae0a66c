/**
 How far a loop of reversals gets before the client's circuit breaker opens. The ledger refuses to
 reverse a transaction twice, each refusal counts as a failure, and a sweep over lines calls for a
 transaction once per line.
 */
module CircuitBreaker {
  import opened RemoteGl
  import opened Seqs

  /** The transactions reversed so far, and the failures in a row since the last one. */
  datatype Progress = Progress(reached: set<nat>, strikes: nat)

  /** A loop over `txns`, of which those of `can` are not refused the first time. */
  function Through(can: set<nat>, txns: seq<nat>): Progress {
    if txns == [] then Progress({}, 0)
    else
      var before, last := Through(can, txns[..|txns| - 1]), txns[|txns| - 1];
      if before.strikes >= 3 then before
      else if last in can && last !in before.reached then Progress(before.reached + {last}, 0)
      else before.(strikes := before.strikes + 1)
  }

  /** The i-th call is the first for a transaction that can be reversed. */
  predicate New(can: set<nat>, txns: seq<nat>, i: nat)
    requires i < |txns|
  {
    txns[i] in can && txns[i] !in txns[..i]
  }

  /** Three refusals in a row, from the i-th call on. */
  predicate Refusals(can: set<nat>, txns: seq<nat>, i: nat) {
    i + 3 <= |txns| && forall k: nat :: i <= k < i + 3 ==> !New(can, txns, k)
  }

  ghost predicate Opens(can: set<nat>, txns: seq<nat>) {
    exists i :: Refusals(can, txns, i)
  }

  /** Three refusals in a row come before a transaction that could be reversed. */
  ghost predicate Blocked(can: set<nat>, txns: seq<nat>) {
    exists i: nat, j: nat :: Refusals(can, txns, i) && i + 3 <= j < |txns| && New(can, txns, j)
  }

  lemma NewInPrefix(can: set<nat>, txns: seq<nat>, n: nat)
    requires n <= |txns|
    ensures forall i: nat :: i < n ==> (New(can, txns[..n], i) <==> New(can, txns, i))
  {
    forall i: nat | i < n ensures New(can, txns[..n], i) <==> New(can, txns, i) {
      assert txns[..n][..i] == txns[..i];
    }
  }

  /** What a loop has got through while the circuit breaker is closed. */
  ghost predicate Keeps(can: set<nat>, txns: seq<nat>, now: Progress) {
    && now.reached == can * Elements(txns) && now.strikes <= |txns|
    && (forall k: nat :: |txns| - now.strikes <= k < |txns| ==> !New(can, txns, k))
    && (now.strikes < |txns| ==> New(can, txns, |txns| - now.strikes - 1))
  }

  lemma ElementsAppend(txns: seq<nat>)
    requires txns != []
    ensures Elements(txns) == Elements(txns[..|txns| - 1]) + {txns[|txns| - 1]}
  {
    assert txns == txns[..|txns| - 1] + [txns[|txns| - 1]];
  }

  /** The circuit breaker is closed as long as no three refusals came in a row, and nothing was missed till then. */
  lemma {:induction false} OpensIff(can: set<nat>, txns: seq<nat>)
    ensures Through(can, txns).strikes >= 3 <==> Opens(can, txns)
    ensures !Opens(can, txns) ==> Keeps(can, txns, Through(can, txns))
  {
    if txns != [] {
      var n := |txns| - 1;
      OpensIff(can, txns[..n]);
      NewInPrefix(can, txns, n);
      OpensLater(can, txns);
      ElementsAppend(txns);
      if !Opens(can, txns[..n]) { OneMore(can, txns); }
    }
  }

  lemma OpensLater(can: set<nat>, txns: seq<nat>)
    requires txns != []
    ensures Opens(can, txns) <==>
      Opens(can, txns[..|txns| - 1]) || (|txns| >= 3 && Refusals(can, txns, |txns| - 3))
  {
    var n := |txns| - 1;
    NewInPrefix(can, txns, n);
    assert forall i: nat :: i + 3 <= n ==> (Refusals(can, txns[..n], i) <==> Refusals(can, txns, i));
    if i :| Refusals(can, txns[..n], i) { assert Refusals(can, txns, i); }
  }

  lemma OneMore(can: set<nat>, txns: seq<nat>)
    requires txns != [] && Through(can, txns[..|txns| - 1]).strikes < 3
    requires Keeps(can, txns[..|txns| - 1], Through(can, txns[..|txns| - 1]))
    ensures Keeps(can, txns, Through(can, txns))
    ensures Through(can, txns).strikes >= 3 <==> |txns| >= 3 && Refusals(can, txns, |txns| - 3)
  {
    var n := |txns| - 1;
    var before, now := Through(can, txns[..n]), Through(can, txns);
    assert txns[n] in txns[..n] <==> txns[n] in Elements(txns[..n]);
    if New(can, txns, n) {
      NewOne(can, txns, before);
    } else {
      RefusedOne(can, txns, before);
      OneMoreRefused(can, txns, now);
    }
  }

  lemma OneMoreRefused(can: set<nat>, txns: seq<nat>, now: Progress)
    requires txns != [] && Keeps(can, txns, now) && now.strikes <= 3
    ensures now.strikes >= 3 <==> |txns| >= 3 && Refusals(can, txns, |txns| - 3)
  {
    StrikesAre(can, txns, now.strikes);
  }

  lemma NewOne(can: set<nat>, txns: seq<nat>, before: Progress)
    requires txns != [] && New(can, txns, |txns| - 1) && before.reached == can * Elements(txns[..|txns| - 1])
    ensures Keeps(can, txns, Progress(before.reached + {txns[|txns| - 1]}, 0))
    ensures |txns| >= 3 ==> !Refusals(can, txns, |txns| - 3)
  {
    ElementsAppend(txns);
  }

  lemma RefusedOne(can: set<nat>, txns: seq<nat>, before: Progress)
    requires txns != [] && !New(can, txns, |txns| - 1) && Keeps(can, txns[..|txns| - 1], before)
    ensures Keeps(can, txns, before.(strikes := before.strikes + 1))
  {
    NewInPrefix(can, txns, |txns| - 1);
    ElementsAppend(txns);
  }

  /** The failures in a row are the refusals since the last transaction reversed. */
  lemma StrikesAre(can: set<nat>, txns: seq<nat>, strikes: nat)
    requires strikes <= |txns| && strikes <= 3
    requires forall k: nat :: |txns| - strikes <= k < |txns| ==> !New(can, txns, k)
    requires strikes < |txns| ==> New(can, txns, |txns| - strikes - 1)
    ensures strikes >= 3 <==> |txns| >= 3 && Refusals(can, txns, |txns| - 3)
  {
  }

  lemma {:induction false} ReachedSome(can: set<nat>, txns: seq<nat>)
    ensures Through(can, txns).reached <= can * Elements(txns)
  {
    if txns != [] {
      ReachedSome(can, txns[..|txns| - 1]);
      ElementsAppend(txns);
    }
  }

  /** The loop reverses all it could iff no such transaction first comes after three refusals in a row. */
  lemma {:induction false} ReachesAllIff(can: set<nat>, txns: seq<nat>)
    ensures Through(can, txns).reached == can * Elements(txns) <==> !Blocked(can, txns)
  {
    OpensIff(can, txns);
    BlockedOpens(can, txns);
    if Opens(can, txns) && txns != [] {
      var n := |txns| - 1;
      OpensIff(can, txns[..n]);
      BlockedLater(can, txns);
      if Opens(can, txns[..n]) {
        ReachesAllIff(can, txns[..n]);
        ReachedSome(can, txns[..n]);
        AllOfMore(can, txns, Through(can, txns[..n]).reached);
      } else {
        BlockedOpens(can, txns[..n]);
        OneMore(can, txns);
      }
    }
  }

  lemma AllOfMore(can: set<nat>, txns: seq<nat>, reached: set<nat>)
    requires txns != [] && reached <= can * Elements(txns[..|txns| - 1])
    ensures reached == can * Elements(txns) <==>
      reached == can * Elements(txns[..|txns| - 1]) && !New(can, txns, |txns| - 1)
  {
    ElementsAppend(txns);
    var last := txns[|txns| - 1];
    assert last in txns[..|txns| - 1] <==> last in Elements(txns[..|txns| - 1]);
    if reached == can * Elements(txns) {
      assert can * Elements(txns[..|txns| - 1]) <= reached;
      assert last in can ==> last in reached;
    }
  }

  lemma BlockedOpens(can: set<nat>, txns: seq<nat>)
    ensures Blocked(can, txns) ==> Opens(can, txns)
  {
    if i: nat, j: nat :| Refusals(can, txns, i) && i + 3 <= j < |txns| && New(can, txns, j) {
      assert Refusals(can, txns, i);
    }
  }

  lemma {:induction false} ReachesFirst(can: set<nat>, txns: seq<nat>)
    requires txns != [] && txns[0] in can
    ensures txns[0] in Through(can, txns).reached
  {
    if |txns| > 1 { ReachesFirst(can, txns[..|txns| - 1]); }
  }

  /** A loop that calls for every transaction once, and could reverse them all, is never refused. */
  lemma NeverOpens(can: set<nat>, txns: seq<nat>)
    requires Distinct(txns) && Elements(txns) <= can
    ensures !Opens(can, txns)
  {
    forall i: nat ensures !Refusals(can, txns, i) {
      if i < |txns| {
        assert txns[i] in txns && txns[i] in Elements(txns);
        assert New(can, txns, i);
      }
    }
  }

  lemma BlockedLater(can: set<nat>, txns: seq<nat>)
    requires txns != []
    ensures Blocked(can, txns) <==>
      Blocked(can, txns[..|txns| - 1]) || (Opens(can, txns[..|txns| - 1]) && New(can, txns, |txns| - 1))
  {
    var n := |txns| - 1;
    NewInPrefix(can, txns, n);
    assert forall i: nat :: i + 3 <= n ==> (Refusals(can, txns[..n], i) <==> Refusals(can, txns, i));
    if i: nat, j: nat :| Refusals(can, txns, i) && i + 3 <= j < |txns| && New(can, txns, j) {
      assert Refusals(can, txns[..n], i);
      if j < n { assert New(can, txns[..n], j); }
    }
    if i: nat, j: nat :| Refusals(can, txns[..n], i) && i + 3 <= j < n && New(can, txns[..n], j) {
      assert Refusals(can, txns, i) && New(can, txns, j);
    }
    if Opens(can, txns[..n]) && New(can, txns, n) {
      var i :| Refusals(can, txns[..n], i);
      assert Refusals(can, txns, i);
    }
  }
}
