/**
 The remote general ledger behind the admin routes, as its callers see it: lines
 grouped into transactions, with calls that may fail before or after taking effect.
 */
module RemoteGl {
  import opened Wrappers

  datatype Line = Line(txn: nat, account: int, debit: bool, amount: real, comment: string, reversed: bool)

  /** What one remote call comes to: done, done although the caller sees a failure, or nothing done. */
  datatype Reply = Done | Lost | Down

  /** How old a cached listing is: served outright, served only when the network fails, or dropped. */
  datatype Age = Fresh | Stale | Expired

  /**
   Whether a reversal appends compensating lines, the comment it gives them for the transaction
   reversed, and for the n-th call its reply, the age of the cached listing, and whether the
   client's circuit breaker has been reset since the call before, by the passing of time or by
   another request.
   */
  datatype Env = Env(compensates: bool, note: nat -> string, reply: nat -> Reply, age: nat -> Age, rested: nat -> bool)

  /** The ledger; the client's cached listing and its count of failures in a row; the number of calls made so far. */
  datatype Gl = Gl(lines: seq<Line>, cache: Option<seq<Line>>, failures: nat, calls: nat)

  /** After so many failures in a row the client rejects further calls for a while. */
  const THRESHOLD := 3

  function Failures(env: Env, gl: Gl): nat {
    if env.rested(gl.calls) then 0 else gl.failures
  }

  /** The next call is rejected without being sent. */
  predicate Open(env: Env, gl: Gl) {
    Failures(env, gl) >= THRESHOLD
  }

  /** Every call that is sent is answered, and nothing but these calls touches the circuit breaker. */
  ghost predicate Reliable(env: Env) {
    forall n :: env.reply(n) == Done && !env.rested(n)
  }

  /** The circuit breaker is always reset in time. */
  ghost predicate Rested(env: Env) {
    forall n :: env.rested(n)
  }

  /** A listing finds the circuit breaker closed and resets it. */
  predicate Ready(gl: Gl) {
    gl.failures == 0 || (gl.failures < 3 && gl.cache == None)
  }

  /** Calls may fail, but none takes effect without its caller being told. */
  ghost predicate LossFree(env: Env) {
    forall n :: env.reply(n) != Lost
  }

  /** The same remote ledger, answering in another pattern. */
  ghost predicate SameLedger(env: Env, other: Env) {
    env.compensates == other.compensates && env.note == other.note
  }

  /** A cached listing is up to date, as when nothing but this client posted since, and no reply was lost. */
  predicate Coherent(gl: Gl) {
    gl.cache == None || gl.cache == Some(gl.lines)
  }

  // ---- Sums over unreversed lines --------------------------------------------

  /** All lines, those of one account, or those of some transactions within a scope. */
  datatype Scope = Everything | Account(account: int) | Of(txns: set<nat>, within: Scope)

  predicate In(line: Line, scope: Scope) {
    match scope
    case Everything => true
    case Account(a) => line.account == a
    case Of(txns, within) => line.txn in txns && In(line, within)
  }

  function Transaction(txn: nat): Scope { Of({txn}, Everything) }

  function Signed(line: Line): real {
    if line.reversed then 0.0 else if line.debit then line.amount else -line.amount
  }

  /** Debits minus credits over the unreversed lines of a scope. */
  function Net(lines: seq<Line>, scope: Scope): real {
    if lines == [] then 0.0
    else
      var last := lines[|lines| - 1];
      Net(lines[..|lines| - 1], scope) + (if In(last, scope) then Signed(last) else 0.0)
  }

  // ---- Reversal ----------------------------------------------------------------

  predicate Active(lines: seq<Line>, txn: nat) {
    exists l :: l in lines && l.txn == txn && !l.reversed
  }

  predicate AlreadyReversed(lines: seq<Line>, txn: nat) {
    exists l :: l in lines && l.txn == txn && l.reversed
  }

  /** A reversal is refused for an unknown transaction and for one already reversed. */
  predicate CanReverse(lines: seq<Line>, txn: nat) {
    Active(lines, txn) && !AlreadyReversed(lines, txn)
  }

  function MarkReversed(lines: seq<Line>, txn: nat): (marked: seq<Line>)
    ensures |marked| == |lines|
    ensures forall i :: 0 <= i < |lines| ==>
      marked[i] == if lines[i].txn == txn then lines[i].(reversed := true) else lines[i]
  {
    if lines == [] then []
    else
      var last := lines[|lines| - 1];
      MarkReversed(lines[..|lines| - 1], txn) + [if last.txn == txn then last.(reversed := true) else last]
  }

  /** The mirrored lines of a transaction, under a new transaction id. */
  function Compensation(lines: seq<Line>, txn: nat, id: nat, note: string): (mirrored: seq<Line>)
    ensures forall l :: l in mirrored ==> l.txn == id && !l.reversed && l.comment == note
    ensures Active(lines, txn) ==> mirrored != []
  {
    if lines == [] then []
    else
      var last := lines[|lines| - 1];
      var before := Compensation(lines[..|lines| - 1], txn, id, note);
      if last.txn == txn && !last.reversed then
        before + [Line(id, last.account, !last.debit, last.amount, note, false)]
      else before
  }

  /** An id above every transaction of the ledger. */
  function FreshId(lines: seq<Line>): (id: nat)
    ensures forall l :: l in lines ==> l.txn < id
  {
    if lines == [] then 0
    else
      var before, last := FreshId(lines[..|lines| - 1]), lines[|lines| - 1].txn;
      assert lines == lines[..|lines| - 1] + [lines[|lines| - 1]];
      if last < before then before else last + 1
  }

  function AfterReverse(env: Env, lines: seq<Line>, txn: nat): seq<Line> {
    MarkReversed(lines, txn) + (if env.compensates then Compensation(lines, txn, FreshId(lines), env.note(txn)) else [])
  }

  function AfterPost(lines: seq<Line>, debit: int, credit: int, amount: real, comment: string): seq<Line> {
    var id := FreshId(lines);
    lines + [Line(id, debit, true, amount, comment, false), Line(id, credit, false, amount, comment, false)]
  }

  /** A failed call counts, unless it was rejected without being sent. */
  function Missed(env: Env, gl: Gl): Gl {
    gl.(failures := Failures(env, gl) + (if Open(env, gl) then 0 else 1), calls := gl.calls + 1)
  }

  /** A call that changes the ledger: only when it is known to have succeeded is the cache cleared. */
  function ChangeCall(env: Env, gl: Gl, after: seq<Line>): (Gl, bool) {
    if Open(env, gl) || env.reply(gl.calls) == Down then (Missed(env, gl), false)
    else if env.reply(gl.calls) == Lost then (Missed(env, gl).(lines := after), false)
    else (Gl(after, None, 0, gl.calls + 1), true)
  }

  /** A refusal is a failure too. */
  function ReverseCall(env: Env, gl: Gl, txn: nat): (Gl, bool) {
    if CanReverse(gl.lines, txn) then ChangeCall(env, gl, AfterReverse(env, gl.lines, txn))
    else (Missed(env, gl), false)
  }

  function PostCall(env: Env, gl: Gl, debit: int, credit: int, amount: real, comment: string): (Gl, bool) {
    ChangeCall(env, gl, AfterPost(gl.lines, debit, credit, amount, comment))
  }

  /** A listing that fails with `Down` failed twice, unless the first failure opened the circuit breaker. */
  function MissedTwice(env: Env, gl: Gl): Gl {
    var once := Missed(env, gl);
    if env.reply(gl.calls) == Down && once.failures < THRESHOLD then once.(failures := once.failures + 1) else once
  }

  /** A listing comes from a fresh cache, else from the network, else from a stale cache. */
  function ListCall(env: Env, gl: Gl): (Gl, Option<seq<Line>>) {
    var age := env.age(gl.calls);
    if gl.cache.Some? && age == Fresh then (gl.(calls := gl.calls + 1), gl.cache)
    else if !Open(env, gl) && env.reply(gl.calls) == Done then
      (Gl(gl.lines, Some(gl.lines), 0, gl.calls + 1), Some(gl.lines))
    else
      var missed := MissedTwice(env, gl);
      if age == Stale then (missed, gl.cache) else (missed.(cache := None), None)
  }

  /** A query to the application's own database, which only succeeds or fails. */
  function LookupCall(env: Env, gl: Gl): (Gl, bool) {
    (gl.(calls := gl.calls + 1), env.reply(gl.calls) == Done)
  }

  class Fineract {
    const env: Env
    var lines: seq<Line>
    var cache: Option<seq<Line>>
    var failures: nat
    var calls: nat

    constructor (env: Env, lines: seq<Line>)
      ensures this.env == env && State() == Gl(lines, None, 0, 0)
    {
      this.env := env;
      this.lines := lines;
      cache, failures, calls := None, 0, 0;
    }

    function State(): Gl
      reads this
    {
      Gl(lines, cache, failures, calls)
    }

    /** The circuit breaker: a call may be sent unless too many before it failed in a row. */
    method Admit() returns (admitted: bool)
      modifies this`failures
      ensures admitted <==> !Open(env, old(State()))
      ensures failures == Failures(env, old(State()))
    {
      if env.rested(calls) { failures := 0; }
      admitted := failures < THRESHOLD;
    }

    method ReverseJournalEntry(txn: nat) returns (ok: bool)
      modifies this
      ensures (State(), ok) == ReverseCall(env, old(State()), txn)
    {
      var admitted := Admit();
      var reply := env.reply(calls);
      calls := calls + 1;
      if !admitted { return false; }
      if reply == Down || !CanReverse(lines, txn) {
        failures := failures + 1;
        return false;
      }
      lines := AfterReverse(env, lines, txn);
      if reply == Lost {
        failures := failures + 1;
        return false;
      }
      cache, failures := None, 0;
      return true;
    }

    method GetJournalEntries() returns (entries: Option<seq<Line>>)
      modifies this
      ensures (State(), entries) == ListCall(env, old(State()))
    {
      var reply, age := env.reply(calls), env.age(calls);
      if cache.Some? && age == Fresh {
        calls := calls + 1;
        return cache;
      }
      var admitted := Admit();
      calls := calls + 1;
      if admitted && reply == Done {
        cache, failures := Some(lines), 0;
        return cache;
      }
      if admitted { failures := failures + 1; }
      if reply == Down && failures < THRESHOLD { failures := failures + 1; }
      if age != Stale { cache := None; }
      return cache;
    }

    method Lookup() returns (ok: bool)
      modifies this
      ensures (State(), ok) == LookupCall(env, old(State()))
    {
      ok := env.reply(calls) == Done;
      calls := calls + 1;
    }

    method PostJournalEntry(debit: int, credit: int, amount: real, comment: string) returns (ok: bool)
      modifies this
      ensures (State(), ok) == PostCall(env, old(State()), debit, credit, amount, comment)
    {
      var admitted := Admit();
      var reply := env.reply(calls);
      calls := calls + 1;
      if !admitted { return false; }
      if reply == Down {
        failures := failures + 1;
        return false;
      }
      lines := AfterPost(lines, debit, credit, amount, comment);
      if reply == Lost {
        failures := failures + 1;
        return false;
      }
      cache, failures := None, 0;
      return true;
    }
  }

  // ---- What a call comes to ----------------------------------------------------------

  /** So many failures in a row count against the next call. */
  predicate Counted(env: Env, gl: Gl, failures: nat) {
    if env.rested(gl.calls) then failures == 0 else failures == gl.failures
  }

  /** After three failures in a row a change is not sent; one that is sent may take effect unnoticed. */
  lemma ChangeIs(env: Env, gl: Gl, after: seq<Line>, f: nat)
    requires Counted(env, gl, f)
    ensures var (gl', ok), reply := ChangeCall(env, gl, after), env.reply(gl.calls);
      && (ok <==> f < 3 && reply == Done)
      && gl'.lines == (if f < 3 && reply != Down then after else gl.lines)
      && gl'.cache == (if ok then None else gl.cache)
      && gl'.failures == (if ok then 0 else if f < 3 then f + 1 else f)
      && gl'.calls == gl.calls + 1
  {
  }

  /** A refused reversal is sent, changes nothing, and counts as a failure. */
  lemma RefusalIs(env: Env, gl: Gl, txn: nat, f: nat)
    requires Counted(env, gl, f) && !CanReverse(gl.lines, txn)
    ensures var (gl', ok) := ReverseCall(env, gl, txn);
      !ok && gl' == gl.(failures := if f < 3 then f + 1 else f, calls := gl.calls + 1)
  {
  }

  /**
   A listing shows the ledger if it is sent and answered, a fresh cached listing outright, and a stale
   one otherwise. It is tried twice, unless the failure of the first try was the third in a row.
   */
  lemma ListIs(env: Env, gl: Gl, f: nat)
    requires Counted(env, gl, f)
    ensures var (gl', entries), reply, age := ListCall(env, gl), env.reply(gl.calls), env.age(gl.calls);
      && gl'.lines == gl.lines && gl'.calls == gl.calls + 1 && gl'.cache == entries
      && (if gl.cache.Some? && age == Fresh then entries == gl.cache && gl'.failures == gl.failures
          else if f < 3 && reply == Done then entries == Some(gl.lines) && gl'.failures == 0
          else
            && entries == (if age == Stale then gl.cache else None)
            && (f >= 3 && reply != Down ==> gl'.failures == f)
            && (f < 3 && reply == Lost ==> gl'.failures == f + 1)
            && (f < 2 && reply == Down ==> gl'.failures == f + 2)
            && (f >= 2 && reply == Down ==> gl'.failures == if f == 2 then 3 else f))
  {
  }

  // ---- Laws of the sums --------------------------------------------------------

  lemma {:induction false} NetConcat(a: seq<Line>, b: seq<Line>, scope: Scope)
    ensures Net(a + b, scope) == Net(a, scope) + Net(b, scope)
  {
    if b == [] {
      assert a + b == a;
    } else {
      NetConcat(a, b[..|b| - 1], scope);
      assert (a + b)[..|a + b| - 1] == a + b[..|b| - 1];
    }
  }

  lemma {:induction false} NetOfNone(lines: seq<Line>, scope: Scope)
    requires forall l :: l in lines ==> !In(l, scope)
    ensures Net(lines, scope) == 0.0
  {
    if lines != [] {
      assert lines[|lines| - 1] in lines && forall l :: l in lines[..|lines| - 1] ==> l in lines;
      NetOfNone(lines[..|lines| - 1], scope);
    }
  }

  /** Marking a transaction takes its part out of every scope. */
  lemma {:induction false} NetMarked(lines: seq<Line>, txn: nat, scope: Scope)
    ensures Net(MarkReversed(lines, txn), scope) == Net(lines, scope) - Net(lines, Of({txn}, scope))
  {
    if lines != [] {
      NetMarked(lines[..|lines| - 1], txn, scope);
      assert MarkReversed(lines, txn)[..|lines| - 1] == MarkReversed(lines[..|lines| - 1], txn);
    }
  }

  /** A scope that does not look at transactions. */
  predicate Plain(scope: Scope) { !scope.Of? }

  /** Compensating lines carry the opposite of the transaction they mirror. */
  lemma {:induction false} NetCompensation(lines: seq<Line>, txn: nat, id: nat, note: string, scope: Scope)
    requires Plain(scope)
    ensures Net(Compensation(lines, txn, id, note), scope) == -Net(lines, Of({txn}, scope))
  {
    if lines != [] {
      var before := Compensation(lines[..|lines| - 1], txn, id, note);
      NetCompensation(lines[..|lines| - 1], txn, id, note, scope);
      var last := lines[|lines| - 1];
      assert In(last, Of({txn}, scope)) <==> last.txn == txn && In(last, scope);
      if last.txn == txn && !last.reversed {
        var mirror := Line(id, last.account, !last.debit, last.amount, note, false);
        assert Compensation(lines, txn, id, note)[..|before|] == before;
        assert In(mirror, scope) <==> In(last, scope);
      }
    }
  }

  /** What reversing a part takes off a sum over unreversed lines: twice the part when the ledger also compensates. */
  function Loss(env: Env, part: real): real {
    if env.compensates then part + part else part
  }

  /** What one reversal does to the ledger as a whole and to every account. */
  lemma NetReversed(env: Env, lines: seq<Line>, txn: nat, scope: Scope)
    requires Plain(scope)
    ensures Net(AfterReverse(env, lines, txn), scope) == Net(lines, scope) - Loss(env, Net(lines, Of({txn}, scope)))
  {
    var mirrored := Compensation(lines, txn, FreshId(lines), env.note(txn));
    NetMarked(lines, txn, scope);
    NetCompensation(lines, txn, FreshId(lines), env.note(txn), scope);
    NetConcat(MarkReversed(lines, txn), mirrored, scope);
    assert MarkReversed(lines, txn) + [] == MarkReversed(lines, txn);
  }

  lemma {:induction false} OfNested(lines: seq<Line>, ts: set<nat>, us: set<nat>, scope: Scope)
    ensures Net(lines, Of(ts, Of(us, scope))) == Net(lines, Of(ts * us, scope))
  {
    if lines != [] {
      var last := lines[|lines| - 1];
      OfNested(lines[..|lines| - 1], ts, us, scope);
      assert In(last, Of(ts, Of(us, scope))) <==> last.txn in ts && In(last, Of(us, scope));
    }
  }

  lemma {:induction false} OfSplit(lines: seq<Line>, ts: set<nat>, us: set<nat>, scope: Scope)
    requires ts !! us
    ensures Net(lines, Of(ts + us, scope)) == Net(lines, Of(ts, scope)) + Net(lines, Of(us, scope))
  {
    if lines != [] { OfSplit(lines[..|lines| - 1], ts, us, scope); }
  }

  lemma {:induction false} OfNone(lines: seq<Line>, scope: Scope)
    ensures Net(lines, Of({}, scope)) == 0.0
  {
    if lines != [] { OfNone(lines[..|lines| - 1], scope); }
  }

  /** Transactions other than the reversed one and its compensation keep their parts. */
  lemma NetOfOthers(env: Env, lines: seq<Line>, txn: nat, ts: set<nat>, scope: Scope)
    requires txn !in ts && FreshId(lines) !in ts
    ensures Net(AfterReverse(env, lines, txn), Of(ts, scope)) == Net(lines, Of(ts, scope))
  {
    var marked, mirrored := MarkReversed(lines, txn), Compensation(lines, txn, FreshId(lines), env.note(txn));
    NetMarked(lines, txn, Of(ts, scope));
    OfNested(lines, {txn}, ts, scope);
    assert {txn} * ts == {};
    OfNone(lines, scope);
    NetConcat(marked, mirrored, Of(ts, scope));
    NetOfNone(mirrored, Of(ts, scope));
    assert marked + [] == marked;
  }

  /** Reversing a transaction keeps the ledger in balance exactly when that transaction is balanced. */
  lemma ReverseKeepsTotalIff(env: Env, lines: seq<Line>, txn: nat)
    ensures Net(AfterReverse(env, lines, txn), Everything) == Net(lines, Everything) <==>
      Net(lines, Transaction(txn)) == 0.0
  {
    NetReversed(env, lines, txn, Everything);
  }

  /** Every transaction balances by itself, as the ledger demands of each posting. */
  ghost predicate Balanced(lines: seq<Line>) {
    forall t: nat :: Net(lines, Transaction(t)) == 0.0
  }

  lemma ReverseKeepsBalanced(env: Env, lines: seq<Line>, txn: nat)
    requires Balanced(lines)
    ensures Balanced(AfterReverse(env, lines, txn))
  {
    var id := FreshId(lines);
    var marked, mirrored := MarkReversed(lines, txn), Compensation(lines, txn, id, env.note(txn));
    forall t: nat ensures Net(AfterReverse(env, lines, txn), Transaction(t)) == 0.0 {
      if t != txn && t != id {
        NetOfOthers(env, lines, txn, {t}, Everything);
      } else {
        MarkedBalances(lines, txn, t);
        NetCompensation(lines, txn, id, env.note(txn), Everything);
        AllOf(mirrored, id, t);
        NetConcat(marked, mirrored, Transaction(t));
        assert Net(lines, Transaction(txn)) == 0.0;
        assert marked + [] == marked;
      }
    }
  }

  lemma MarkedBalances(lines: seq<Line>, txn: nat, t: nat)
    requires Net(lines, Transaction(txn)) == Net(lines, Transaction(t)) == 0.0
    ensures Net(MarkReversed(lines, txn), Transaction(t)) == 0.0
  {
    NetMarked(lines, txn, Transaction(t));
    OfNested(lines, {txn}, {t}, Everything);
    assert {txn} * {t} == if t == txn then {t} else {};
    OfNone(lines, Everything);
  }

  /** Lines of one transaction. */
  lemma {:induction false} AllOf(lines: seq<Line>, id: nat, t: nat)
    requires forall l :: l in lines ==> l.txn == id
    ensures Net(lines, Transaction(t)) == if t == id then Net(lines, Everything) else 0.0
  {
    if lines != [] {
      assert lines[|lines| - 1] in lines && forall l :: l in lines[..|lines| - 1] ==> l in lines;
      AllOf(lines[..|lines| - 1], id, t);
    }
  }

  /** What a posting adds to a scope: the debit minus the credit, as far as they lie in it. */
  lemma NetAfterPost(lines: seq<Line>, debit: int, credit: int, amount: real, comment: string, scope: Scope)
    ensures var id := FreshId(lines);
      Net(AfterPost(lines, debit, credit, amount, comment), scope) ==
        Net(lines, scope) +
        (if In(Line(id, debit, true, amount, comment, false), scope) then amount else 0.0) -
        (if In(Line(id, credit, false, amount, comment, false), scope) then amount else 0.0)
  {
    var id := FreshId(lines);
    var d, c := Line(id, debit, true, amount, comment, false), Line(id, credit, false, amount, comment, false);
    NetConcat(lines, [d, c], scope);
    assert [d, c][..1] == [d] && [d][..0] == [];
    assert Net([d], scope) == if In(d, scope) then amount else 0.0;
  }

  lemma PostKeepsBalanced(lines: seq<Line>, debit: int, credit: int, amount: real, comment: string)
    requires Balanced(lines)
    ensures Balanced(AfterPost(lines, debit, credit, amount, comment))
  {
    forall t: nat ensures Net(AfterPost(lines, debit, credit, amount, comment), Transaction(t)) == 0.0 {
      NetAfterPost(lines, debit, credit, amount, comment, Transaction(t));
    }
  }

  function Drop(lines: seq<Line>, txn: nat): seq<Line> {
    if lines == [] then []
    else
      var before, last := Drop(lines[..|lines| - 1], txn), lines[|lines| - 1];
      if last.txn == txn then before else before + [last]
  }

  lemma {:induction false} NetDropped(lines: seq<Line>, txn: nat, other: nat)
    ensures |Drop(lines, txn)| <= |lines|
    ensures lines != [] && lines[|lines| - 1].txn == txn ==> |Drop(lines, txn)| < |lines|
    ensures Net(lines, Everything) == Net(lines, Transaction(txn)) + Net(Drop(lines, txn), Everything)
    ensures Net(Drop(lines, txn), Transaction(other)) ==
      if other == txn then 0.0 else Net(lines, Transaction(other))
  {
    if lines != [] {
      var before, last := Drop(lines[..|lines| - 1], txn), lines[|lines| - 1];
      NetDropped(lines[..|lines| - 1], txn, other);
      if last.txn != txn { assert Drop(lines, txn)[..|before|] == before; }
    }
  }

  /** When every transaction balances, total debits equal total credits. */
  lemma {:induction false} BalancedTotal(lines: seq<Line>)
    requires Balanced(lines)
    ensures Net(lines, Everything) == 0.0
    decreases |lines|
  {
    if lines != [] {
      var txn := lines[|lines| - 1].txn;
      forall t: nat ensures Net(Drop(lines, txn), Transaction(t)) == 0.0 { NetDropped(lines, txn, t); }
      NetDropped(lines, txn, txn);
      BalancedTotal(Drop(lines, txn));
    }
  }
}
