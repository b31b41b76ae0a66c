/**
 The two loops of the resync that reverse transactions: over the lines of a snapshot,
 and over a list of transactions. Failed reversals are swallowed.
 */
module LedgerSweeps {
  import opened CircuitBreaker
  import opened RemoteGl
  import opened Reversals
  import opened Seqs
  import opened Wrappers

  /** Reverse the transaction of every unreversed line with a chosen comment, counting successes. */
  function ReverseWhere(env: Env, gl: Gl, chosen: string -> bool, snapshot: seq<Line>, count: nat): (Gl, nat)
    decreases |snapshot|
  {
    if snapshot == [] then (gl, count)
    else
      var line, rest := snapshot[0], snapshot[1..];
      if line.reversed || !chosen(line.comment) then ReverseWhere(env, gl, chosen, rest, count)
      else
        var (gl', ok) := ReverseCall(env, gl, line.txn);
        ReverseWhere(env, gl', chosen, rest, if ok then count + 1 else count)
  }

  function ReverseAll(env: Env, gl: Gl, txns: seq<nat>): Gl
    decreases |txns|
  {
    if txns == [] then gl else ReverseAll(env, ReverseCall(env, gl, txns[0]).0, txns[1..])
  }

  // ---- What a loop comes to, whichever calls fail ---------------------------------------

  /** The transactions a sweep calls for, line by line. */
  function Picks(snapshot: seq<Line>, chosen: string -> bool): seq<nat> {
    if snapshot == [] then []
    else (if Picked(snapshot[0], chosen) then [snapshot[0].txn] else []) + Picks(snapshot[1..], chosen)
  }

  lemma {:induction false} PicksAreTargets(snapshot: seq<Line>, chosen: string -> bool)
    ensures Elements(Picks(snapshot, chosen)) == Targets(snapshot, chosen)
  {
    if snapshot != [] {
      PicksAreTargets(snapshot[1..], chosen);
      assert snapshot == [snapshot[0]] + snapshot[1..];
      var line, rest := snapshot[0], Picks(snapshot[1..], chosen);
      assert Targets(snapshot, chosen) == (if Picked(line, chosen) then {line.txn} else {}) + Targets(snapshot[1..], chosen);
      assert Elements([line.txn] + rest) == {line.txn} + Elements(rest);
    }
  }

  lemma ConsMembers(txns: seq<nat>)
    requires txns != []
    ensures txns == [txns[0]] + txns[1..] && txns[0] in txns && forall t :: t in txns[1..] ==> t in txns
    ensures Elements(txns) == {txns[0]} + Elements(txns[1..])
  {
    assert txns == [txns[0]] + txns[1..];
  }

  /** The calls that are not for `gone`. */
  function Spare(txns: seq<nat>, gone: set<nat>): seq<nat> {
    if txns == [] then []
    else (if txns[0] in gone then [] else [txns[0]]) + Spare(txns[1..], gone)
  }

  lemma {:induction false} SpareElements(txns: seq<nat>, gone: set<nat>)
    ensures Elements(Spare(txns, gone)) == Elements(txns) - gone
  {
    if txns != [] {
      SpareElements(txns[1..], gone);
      ConsMembers(txns);
      var rest := Spare(txns[1..], gone);
      assert Elements([txns[0]] + rest) == {txns[0]} + Elements(rest);
      assert [] + rest == rest;
    }
  }

  lemma {:induction false} SpareTwice(txns: seq<nat>, txn: nat, gone: set<nat>)
    ensures Spare(Spare(txns, {txn}), gone) == Spare(txns, {txn} + gone)
  {
    if txns != [] {
      var rest := Spare(txns[1..], {txn});
      SpareTwice(txns[1..], txn, gone);
      assert ([txns[0]] + rest)[1..] == rest && [] + rest == rest;
    }
  }

  lemma {:induction false} SpareNothing(txns: seq<nat>)
    ensures Spare(txns, {}) == txns
  {
    if txns != [] { SpareNothing(txns[1..]); }
  }

  lemma {:induction false} PicksConcat(a: seq<Line>, b: seq<Line>, chosen: string -> bool)
    ensures Picks(a + b, chosen) == Picks(a, chosen) + Picks(b, chosen)
  {
    if a == [] {
      assert a + b == b;
    } else {
      assert (a + b)[0] == a[0] && (a + b)[1..] == a[1..] + b;
      PicksConcat(a[1..], b, chosen);
    }
  }

  lemma {:induction false} PicksMarked(lines: seq<Line>, txn: nat, chosen: string -> bool)
    ensures Picks(MarkReversed(lines, txn), chosen) == Spare(Picks(lines, chosen), {txn})
  {
    if lines != [] {
      PicksMarked(lines[1..], txn, chosen);
      var marked, rest := MarkReversed(lines, txn), Picks(lines[1..], chosen);
      assert marked[1..] == MarkReversed(lines[1..], txn);
      assert Picked(marked[0], chosen) <==> Picked(lines[0], chosen) && lines[0].txn != txn;
      assert ([lines[0].txn] + rest)[1..] == rest && [] + rest == rest;
    }
  }

  lemma {:induction false} NoPicks(lines: seq<Line>, chosen: string -> bool)
    requires NonePicked(lines, chosen)
    ensures Picks(lines, chosen) == []
  {
    if lines != [] {
      assert lines[0] in lines && forall l :: l in lines[1..] ==> l in lines;
      NoPicks(lines[1..], chosen);
    }
  }

  /** A sweep after a reversal goes for the same lines, but for those of the transaction reversed. */
  lemma PicksAfter(env: Env, lines: seq<Line>, txn: nat, chosen: string -> bool)
    requires !chosen(env.note(txn))
    ensures Picks(AfterReverse(env, lines, txn), chosen) == Spare(Picks(lines, chosen), {txn})
  {
    var marked, mirrored := MarkReversed(lines, txn), Compensation(lines, txn, FreshId(lines), env.note(txn));
    PicksMarked(lines, txn, chosen);
    NoPicks(mirrored, chosen);
    PicksConcat(marked, mirrored, chosen);
    assert marked + [] == marked;
  }

  lemma {:induction false} UndoPicks(env: Env, lines: seq<Line>, log: seq<nat>, chosen: string -> bool)
    requires forall t :: !chosen(env.note(t))
    ensures Picks(Undo(env, lines, log), chosen) == Spare(Picks(lines, chosen), Elements(log))
    decreases |log|
  {
    if log == [] {
      assert Elements(log) == {};
      SpareNothing(Picks(lines, chosen));
    } else {
      ConsMembers(log);
      PicksAfter(env, lines, log[0], chosen);
      UndoPicks(env, AfterReverse(env, lines, log[0]), log[1..], chosen);
      SpareTwice(Picks(lines, chosen), log[0], Elements(log[1..]));
    }
  }

  /** The transaction is not refused, the call is sent, and it reaches the ledger. */
  predicate TakesEffect(env: Env, gl: Gl, txn: nat) {
    CanReverse(gl.lines, txn) && !Open(env, gl) && env.reply(gl.calls) != Down
  }

  /** The reversals that take effect, in order. */
  function Log(env: Env, gl: Gl, txns: seq<nat>): seq<nat>
    decreases |txns|
  {
    if txns == [] then []
    else
      var rest := Log(env, ReverseCall(env, gl, txns[0]).0, txns[1..]);
      if TakesEffect(env, gl, txns[0]) then [txns[0]] + rest else rest
  }

  /** A sweep over lines is the loop over the transactions of the lines picked. */
  lemma {:induction false} WhereIsAll(env: Env, gl: Gl, chosen: string -> bool, snapshot: seq<Line>, count: nat)
    ensures ReverseWhere(env, gl, chosen, snapshot, count).0 == ReverseAll(env, gl, Picks(snapshot, chosen))
    decreases |snapshot|
  {
    if snapshot != [] {
      var line, rest := snapshot[0], snapshot[1..];
      if Picked(line, chosen) {
        var (gl', ok) := ReverseCall(env, gl, line.txn);
        assert Picks(snapshot, chosen)[1..] == Picks(rest, chosen);
        WhereIsAll(env, gl', chosen, rest, if ok then count + 1 else count);
      } else {
        assert Picks(snapshot, chosen) == Picks(rest, chosen);
        WhereIsAll(env, gl, chosen, rest, count);
      }
    }
  }

  /** What every single reversal keeps, both loops keep, whichever calls fail and whatever they were shown. */
  ghost predicate KeptByReversal(env: Env, inv: seq<Line> -> bool) {
    forall lines, txn :: inv(lines) && CanReverse(lines, txn) ==> inv(AfterReverse(env, lines, txn))
  }

  lemma {:induction false} AllKeeps(env: Env, gl: Gl, txns: seq<nat>, inv: seq<Line> -> bool)
    requires KeptByReversal(env, inv) && inv(gl.lines)
    ensures inv(ReverseAll(env, gl, txns).lines)
    decreases |txns|
  {
    if txns != [] { AllKeeps(env, ReverseCall(env, gl, txns[0]).0, txns[1..], inv); }
  }

  lemma WhereKeeps(env: Env, gl: Gl, chosen: string -> bool, snapshot: seq<Line>, count: nat, inv: seq<Line> -> bool)
    requires KeptByReversal(env, inv) && inv(gl.lines)
    ensures inv(ReverseWhere(env, gl, chosen, snapshot, count).0.lines)
  {
    WhereIsAll(env, gl, chosen, snapshot, count);
    AllKeeps(env, gl, Picks(snapshot, chosen), inv);
  }

  /** The sweep visits lines, yet when no reply is lost it counts the transactions it reverses. */
  lemma {:induction false} SweepCounts(env: Env, gl: Gl, chosen: string -> bool, snapshot: seq<Line>, count: nat)
    requires LossFree(env)
    ensures ReverseWhere(env, gl, chosen, snapshot, count).1 == count + |Log(env, gl, Picks(snapshot, chosen))|
    decreases |snapshot|
  {
    if snapshot != [] {
      var line, rest := snapshot[0], snapshot[1..];
      if Picked(line, chosen) {
        var (gl', ok) := ReverseCall(env, gl, line.txn);
        assert Picks(snapshot, chosen)[1..] == Picks(rest, chosen);
        SweepCounts(env, gl', chosen, rest, if ok then count + 1 else count);
      } else {
        assert Picks(snapshot, chosen) == Picks(rest, chosen);
        SweepCounts(env, gl, chosen, rest, count);
      }
    }
  }

  ghost predicate Below(lines: seq<Line>, txns: seq<nat>) {
    forall t :: t in txns ==> t < FreshId(lines)
  }

  lemma LogCons(env: Env, lines: seq<Line>, txn: nat, log: seq<nat>, rest: set<nat>)
    requires CanReverse(lines, txn) && Legit(AfterReverse(env, lines, txn), log)
    requires Elements(log) <= rest && forall t :: t in rest ==> t < FreshId(lines)
    ensures Legit(lines, [txn] + log) && Elements([txn] + log) <= Reversible(lines, {txn} + rest)
    ensures Undo(env, lines, [txn] + log) == Undo(env, AfterReverse(env, lines, txn), log)
  {
    forall t | t in log ensures t != txn && t in rest && CanReverse(lines, t) {
      assert t in Elements(log);
      StatusAfter(env, lines, txn, t);
    }
    assert ([txn] + log)[1..] == log;
    assert forall t :: t in [txn] + log ==> t == txn || t in log;
  }

  lemma {:induction false} LoopClears(env: Env, gl: Gl, txns: seq<nat>)
    ensures var gl', log := ReverseAll(env, gl, txns), Log(env, gl, txns);
      && gl'.calls == gl.calls + |txns|
      && (gl'.cache == gl.cache || gl'.cache == None)
      && (log == [] ==> gl'.cache == gl.cache)
      && (LossFree(env) && log != [] ==> gl'.cache == None)
    decreases |txns|
  {
    if txns != [] { LoopClears(env, ReverseCall(env, gl, txns[0]).0, txns[1..]); }
  }

  lemma {:induction false} LoopLogs(env: Env, gl: Gl, txns: seq<nat>)
    requires Below(gl.lines, txns)
    ensures var log := Log(env, gl, txns);
      && ReverseAll(env, gl, txns).lines == Undo(env, gl.lines, log) && Legit(gl.lines, log)
      && Elements(log) <= Reversible(gl.lines, Elements(txns))
    decreases |txns|
  {
    if txns != [] {
      var gl', rest := ReverseCall(env, gl, txns[0]).0, txns[1..];
      ConsMembers(txns);
      if TakesEffect(env, gl, txns[0]) {
        FreshGrows(env, gl.lines, txns[0]);
        LoopLogs(env, gl', rest);
        LogCons(env, gl.lines, txns[0], Log(env, gl', rest), Elements(rest));
      } else {
        LoopLogs(env, gl', rest);
      }
    }
  }

  /**
   Whichever calls fail, a loop reverses some of the transactions it calls for, each once. It
   leaves the cached listing alone or clears it; with no reply lost it clears it iff it
   reversed anything.
   */
  lemma LoopUndoes(env: Env, gl: Gl, txns: seq<nat>)
    requires Below(gl.lines, txns)
    ensures var gl', log := ReverseAll(env, gl, txns), Log(env, gl, txns);
      && gl'.lines == Undo(env, gl.lines, log) && gl'.calls == gl.calls + |txns|
      && Legit(gl.lines, log) && Elements(log) <= Reversible(gl.lines, Elements(txns))
      && (gl'.cache == gl.cache || gl'.cache == None)
      && (log == [] ==> gl'.cache == gl.cache)
      && (LossFree(env) && log != [] ==> gl'.cache == None)
  {
    LoopClears(env, gl, txns);
    LoopLogs(env, gl, txns);
  }

  lemma {:induction false} LogAppend(env: Env, gl: Gl, txns: seq<nat>, txn: nat)
    ensures var gl' := ReverseAll(env, gl, txns);
      && ReverseAll(env, gl, txns + [txn]) == ReverseCall(env, gl', txn).0
      && Log(env, gl, txns + [txn]) == Log(env, gl, txns) + if TakesEffect(env, gl', txn) then [txn] else []
    decreases |txns|
  {
    if txns == [] {
      assert [] + [txn] == [txn] && [txn][1..] == [];
    } else {
      assert (txns + [txn])[0] == txns[0] && (txns + [txn])[1..] == txns[1..] + [txn];
      LogAppend(env, ReverseCall(env, gl, txns[0]).0, txns[1..], txn);
    }
  }

  // ---- How far a loop gets when every call is answered -------------------------------------

  /** The transactions a loop over `txns` reverses when every call that is sent is answered. */
  function Reached(lines: seq<Line>, txns: seq<nat>): set<nat> {
    Through(Reversible(lines, Elements(txns)), txns).reached
  }

  /** The ledger's refusals open the circuit breaker during that loop. */
  ghost predicate Trips(lines: seq<Line>, txns: seq<nat>) {
    Opens(Reversible(lines, Elements(txns)), txns)
  }

  /** They open it too early for some transaction. */
  ghost predicate CutShort(lines: seq<Line>, txns: seq<nat>) {
    Blocked(Reversible(lines, Elements(txns)), txns)
  }

  lemma AnsweredCall(env: Env, gl: Gl, txn: nat)
    requires Reliable(env)
    ensures TakesEffect(env, gl, txn) <==> gl.failures < 3 && CanReverse(gl.lines, txn)
    ensures ReverseCall(env, gl, txn).0.failures ==
      if gl.failures >= 3 then gl.failures else if CanReverse(gl.lines, txn) then 0 else gl.failures + 1
  {
  }

  lemma LeftToReverse(env: Env, gl: Gl, txns: seq<nat>, t: nat)
    requires Below(gl.lines, txns) && t < FreshId(gl.lines)
    ensures CanReverse(ReverseAll(env, gl, txns).lines, t) <==>
      CanReverse(gl.lines, t) && t !in Elements(Log(env, gl, txns))
  {
    LoopUndoes(env, gl, txns);
    UndoStatus(env, gl.lines, Log(env, gl, txns), t);
  }

  lemma {:induction false} LoopReaches(env: Env, gl: Gl, can: set<nat>, txns: seq<nat>)
    requires Reliable(env) && Below(gl.lines, txns) && gl.failures == 0
    requires forall t :: t in txns ==> (t in can <==> CanReverse(gl.lines, t))
    ensures Elements(Log(env, gl, txns)) == Through(can, txns).reached
    ensures ReverseAll(env, gl, txns).failures == Through(can, txns).strikes
    decreases |txns|
  {
    if txns != [] {
      var init, last := txns[..|txns| - 1], txns[|txns| - 1];
      assert txns == init + [last] && last in txns && forall t :: t in init ==> t in txns;
      LoopReaches(env, gl, can, init);
      LogAppend(env, gl, init, last);
      LeftToReverse(env, gl, init, last);
      AnsweredCall(env, ReverseAll(env, gl, init), last);
      LogElements(Log(env, gl, init), last);
    }
  }

  lemma LogElements(log: seq<nat>, last: nat)
    ensures Elements(log + [last]) == Elements(log) + {last} && log + [] == log
  {
  }

  /**
   When every call that is sent is answered, a loop that finds the circuit breaker at rest reverses
   all the ledger does not refuse, exactly when no such transaction first comes up after three
   refusals in a row; and it leaves the circuit breaker open iff there were three.
   */
  lemma LoopComplete(env: Env, gl: Gl, txns: seq<nat>)
    requires Reliable(env) && Below(gl.lines, txns) && gl.failures == 0
    ensures Elements(Log(env, gl, txns)) == Reached(gl.lines, txns)
    ensures Reached(gl.lines, txns) == Reversible(gl.lines, Elements(txns)) <==> !CutShort(gl.lines, txns)
    ensures ReverseAll(env, gl, txns).failures >= 3 <==> Trips(gl.lines, txns)
    ensures !Trips(gl.lines, txns) ==> !CutShort(gl.lines, txns)
  {
    var can := Reversible(gl.lines, Elements(txns));
    LoopReaches(env, gl, can, txns);
    OpensIff(can, txns);
    BlockedOpens(can, txns);
    ReachesAllIff(can, txns);
    assert can * Elements(txns) == can;
  }

  /** Reversals of other transactions make no difference to how far a loop gets. */
  lemma ReachedAfter(env: Env, lines: seq<Line>, log: seq<nat>, txns: seq<nat>)
    requires Legit(lines, log) && Below(lines, txns) && Elements(txns) !! Elements(log)
    ensures var after := Undo(env, lines, log);
      && Reversible(after, Elements(txns)) == Reversible(lines, Elements(txns))
      && Reached(after, txns) == Reached(lines, txns)
      && (Trips(after, txns) <==> Trips(lines, txns)) && (CutShort(after, txns) <==> CutShort(lines, txns))
  {
    forall t | t in Elements(txns) ensures t < FreshId(lines) {}
    UndoReversible(env, lines, log, Elements(txns));
  }

  // ---- Replies made to order ------------------------------------------------------------------

  /** The calls from number `base` on get these replies. */
  ghost predicate Scheduled(env: Env, base: nat, replies: seq<Reply>) {
    forall i {:trigger replies[i]} :: 0 <= i < |replies| ==> env.reply(base + i) == replies[i]
  }

  /** So they do, all later calls get the reply `after`, and a cached listing is `first` of one age, later of another. */
  ghost predicate Follows(env: Env, base: nat, replies: seq<Reply>, after: Reply, first: Age, until: nat, age: Age) {
    && Rested(env) && Scheduled(env, base, replies)
    && (forall c: nat :: base + |replies| <= c ==> env.reply(c) == after)
    && (forall c: nat :: env.age(c) == if c < until then first else age)
  }

  /** The same ledger can be made to answer that way. */
  lemma Obedient(env: Env, base: nat, replies: seq<Reply>, after: Reply, first: Age, until: nat, age: Age)
    returns (e: Env)
    ensures SameLedger(env, e) && Follows(e, base, replies, after, first, until, age)
  {
    e := env.(reply := (c: nat) => if base <= c < base + |replies| then replies[c - base] else after,
              age := (c: nat) => if c < until then first else age, rested := (c: nat) => true);
  }

  lemma ScheduledFirst(env: Env, base: nat, replies: seq<Reply>, rest: seq<Reply>)
    requires Scheduled(env, base, replies + rest)
    ensures Scheduled(env, base, replies)
  {
    forall i | 0 <= i < |replies| ensures env.reply(base + i) == replies[i] {
      assert (replies + rest)[i] == replies[i];
    }
  }

  lemma ScheduledRest(env: Env, base: nat, replies: seq<Reply>, rest: seq<Reply>, next: nat)
    requires Scheduled(env, base, replies + rest) && next == base + |replies|
    ensures Scheduled(env, next, rest)
  {
    var all := replies + rest;
    forall i | 0 <= i < |rest| ensures env.reply(next + i) == rest[i] {
      assert all[|replies| + i] == rest[i] && base + (|replies| + i) == next + i;
    }
  }

  /** In a loop over `txns`, only the calls for `some` take effect. */
  function Only(txns: seq<nat>, some: set<nat>, reply: Reply): (replies: seq<Reply>)
    ensures |replies| == |txns|
  {
    seq(|txns|, i requires 0 <= i < |txns| => if txns[i] in some then reply else Down)
  }

  lemma OnlyRest(env: Env, base: nat, txns: seq<nat>, some: set<nat>, reply: Reply, next: nat)
    requires Scheduled(env, base, Only(txns, some, reply)) && txns != [] && next == base + 1
    ensures env.reply(base) == if txns[0] in some then reply else Down
    ensures Scheduled(env, next, Only(txns[1..], some, reply))
  {
    var all, rest := Only(txns, some, reply), Only(txns[1..], some, reply);
    assert env.reply(base + 0) == all[0];
    forall i | 0 <= i < |rest| ensures env.reply(next + i) == rest[i] {
      assert all[i + 1] == rest[i] && next + i == base + (i + 1);
    }
  }

  lemma LogFirst(env: Env, gl: Gl, txns: seq<nat>, t: nat)
    requires txns != []
    ensures t in Log(env, gl, txns) <==>
      (TakesEffect(env, gl, txns[0]) && t == txns[0]) || t in Log(env, ReverseCall(env, gl, txns[0]).0, txns[1..])
  {
  }

  lemma NextStatus(env: Env, gl: Gl, txn: nat, t: nat)
    requires t < FreshId(gl.lines)
    ensures var gl' := ReverseCall(env, gl, txn).0;
      && gl'.calls == gl.calls + 1 && FreshId(gl.lines) <= FreshId(gl'.lines)
      && (CanReverse(gl'.lines, t) <==> CanReverse(gl.lines, t) && !(TakesEffect(env, gl, txn) && t == txn))
  {
    if TakesEffect(env, gl, txn) { StatusAfter(env, gl.lines, txn, t); }
  }

  lemma StillBelowNext(env: Env, gl: Gl, txns: seq<nat>)
    requires Below(gl.lines, txns) && txns != []
    ensures Below(ReverseCall(env, gl, txns[0]).0.lines, txns[1..])
  {
    ConsMembers(txns);
    forall t | t in txns[1..] ensures t < FreshId(ReverseCall(env, gl, txns[0]).0.lines) {
      NextStatus(env, gl, txns[0], t);
    }
  }

  lemma {:induction false} LoopSelectsEach(env: Env, gl: Gl, txns: seq<nat>, some: set<nat>, reply: Reply, t: nat)
    requires Rested(env) && Scheduled(env, gl.calls, Only(txns, some, reply)) && reply != Down
    requires Below(gl.lines, txns) && t < FreshId(gl.lines)
    ensures t in Log(env, gl, txns) <==> t in txns && t in some && CanReverse(gl.lines, t)
    decreases |txns|
  {
    if txns != [] {
      var gl', rest := ReverseCall(env, gl, txns[0]).0, txns[1..];
      ConsMembers(txns);
      OnlyRest(env, gl.calls, txns, some, reply, gl'.calls);
      LogFirst(env, gl, txns, t);
      NextStatus(env, gl, txns[0], t);
      StillBelowNext(env, gl, txns);
      LoopSelectsEach(env, gl', rest, some, reply, t);
    }
  }

  lemma {:induction false} LoopCache(env: Env, gl: Gl, txns: seq<nat>, some: set<nat>, reply: Reply)
    requires Rested(env) && Scheduled(env, gl.calls, Only(txns, some, reply)) && reply != Down
    ensures ReverseAll(env, gl, txns).cache == if reply == Lost || Log(env, gl, txns) == [] then gl.cache else None
    decreases |txns|
  {
    if txns != [] {
      var gl' := ReverseCall(env, gl, txns[0]).0;
      OnlyRest(env, gl.calls, txns, some, reply, gl'.calls);
      LoopCache(env, gl', txns[1..], some, reply);
    }
  }

  /** Any part of what a loop could reverse can be what it does reverse. */
  lemma LoopSelects(env: Env, gl: Gl, txns: seq<nat>, some: set<nat>, reply: Reply)
    requires Rested(env) && Scheduled(env, gl.calls, Only(txns, some, reply)) && reply != Down && Below(gl.lines, txns)
    ensures var log, gl' := Log(env, gl, txns), ReverseAll(env, gl, txns);
      && gl'.lines == Undo(env, gl.lines, log) && gl'.calls == gl.calls + |txns| && Legit(gl.lines, log)
      && Elements(log) == Reversible(gl.lines, Elements(txns)) * some
      && gl'.cache == if reply == Lost || Elements(log) == {} then gl.cache else None
  {
    var log := Log(env, gl, txns);
    LoopUndoes(env, gl, txns);
    LoopCache(env, gl, txns, some, reply);
    NoElements(log);
    forall t | t in txns ensures t in log <==> t in some && CanReverse(gl.lines, t) {
      LoopSelectsEach(env, gl, txns, some, reply, t);
    }
    forall t ensures t in Elements(log) <==> t in Reversible(gl.lines, Elements(txns)) * some {}
  }

  /** With nothing to pick, a sweep makes no call at all. */
  lemma {:induction false} SweepIdle(env: Env, gl: Gl, chosen: string -> bool, snapshot: seq<Line>, count: nat)
    requires NonePicked(snapshot, chosen)
    ensures ReverseWhere(env, gl, chosen, snapshot, count) == (gl, count)
    decreases |snapshot|
  {
    if snapshot != [] {
      assert snapshot[0] in snapshot && forall l :: l in snapshot[1..] ==> l in snapshot;
      SweepIdle(env, gl, chosen, snapshot[1..], count);
    }
  }
}
