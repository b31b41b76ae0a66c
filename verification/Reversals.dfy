/**
 Reversing one transaction after another: what is left unreversed, under which comments, and
 what every scope of the ledger adds up to.
 */
module Reversals {
  import opened Comments
  import opened RemoteGl
  import opened Seqs

  // ---- Ledgers as reversals leave them -----------------------------------------

  /** Reversal notes announce themselves, are trimmed, and name the transaction reversed. */
  ghost predicate GoodNotes(env: Env) {
    && (forall t :: "Reversal entry" <= env.note(t) && Trim(env.note(t)) == env.note(t))
    && (forall t, u :: env.note(t) == env.note(u) ==> t == u)
  }

  /** A transaction is reversed as a whole, and only a reversed transaction has a note about it. */
  ghost predicate Sound(env: Env, lines: seq<Line>) {
    && (forall t :: !(Active(lines, t) && AlreadyReversed(lines, t)))
    && (forall l, t :: l in lines && Trim(l.comment) == env.note(t) ==> AlreadyReversed(lines, t))
  }

  /** A ledger without reversals and without notes is sound. */
  lemma UnreversedIsSound(env: Env, lines: seq<Line>)
    requires GoodNotes(env) && forall l :: l in lines ==> !l.reversed && !("Reversal entry" <= Trim(l.comment))
    ensures Sound(env, lines)
  {
  }

  /** The first unreversed line of a transaction decides which comment the transaction has. */
  function FirstActive(lines: seq<Line>, txn: nat): (first: seq<Line>)
    ensures |first| <= 1
    ensures first != [] <==> Active(lines, txn)
    ensures first != [] ==> first[0] in lines && first[0].txn == txn && !first[0].reversed
  {
    if lines == [] then []
    else
      var before, last := FirstActive(lines[..|lines| - 1], txn), lines[|lines| - 1];
      assert lines == lines[..|lines| - 1] + [last];
      if before != [] then before else if last.txn == txn && !last.reversed then [last] else []
  }

  function CommentOf(lines: seq<Line>, txn: nat): string {
    var first := FirstActive(lines, txn);
    if first == [] then "" else Trim(first[0].comment)
  }

  lemma {:induction false} FirstActiveConcat(a: seq<Line>, b: seq<Line>, txn: nat)
    ensures FirstActive(a + b, txn) ==
      if FirstActive(a, txn) != [] then FirstActive(a, txn) else FirstActive(b, txn)
  {
    if b == [] {
      assert a + b == a;
    } else {
      FirstActiveConcat(a, b[..|b| - 1], txn);
      assert (a + b)[..|a + b| - 1] == a + b[..|b| - 1];
    }
  }

  lemma {:induction false} FirstActiveMarked(lines: seq<Line>, txn: nat, other: nat)
    ensures FirstActive(MarkReversed(lines, txn), other) == if other == txn then [] else FirstActive(lines, other)
  {
    if lines != [] {
      FirstActiveMarked(lines[..|lines| - 1], txn, other);
      assert MarkReversed(lines, txn)[..|lines| - 1] == MarkReversed(lines[..|lines| - 1], txn);
    }
  }

  /** Who is active after a reversal, and under which comment. */
  lemma FirstActiveAfter(env: Env, lines: seq<Line>, txn: nat, other: nat)
    requires Active(lines, txn)
    ensures var first := FirstActive(AfterReverse(env, lines, txn), other);
      if other == txn then first == []
      else if other != FreshId(lines) then first == FirstActive(lines, other)
      else if env.compensates then first != [] && first[0].comment == env.note(txn)
      else first == []
  {
    var mirrored := Compensation(lines, txn, FreshId(lines), env.note(txn));
    FirstActiveMarked(lines, txn, other);
    if env.compensates {
      FirstActiveConcat(MarkReversed(lines, txn), mirrored, other);
      assert mirrored[0] in mirrored;
    } else {
      assert MarkReversed(lines, txn) + [] == MarkReversed(lines, txn);
    }
  }

  lemma ReversedAfter(env: Env, lines: seq<Line>, txn: nat, other: nat)
    requires Active(lines, txn)
    ensures AlreadyReversed(AfterReverse(env, lines, txn), other) <==> other == txn || AlreadyReversed(lines, other)
  {
    var marked, after := MarkReversed(lines, txn), AfterReverse(env, lines, txn);
    if other == txn || AlreadyReversed(lines, other) {
      var l :| l in lines && l.txn == other && (other == txn || l.reversed);
      var i :| 0 <= i < |lines| && lines[i] == l;
      assert marked[i] in marked && after[i] == marked[i];
    }
    if AlreadyReversed(after, other) {
      var l :| l in after && l.txn == other && l.reversed;
      assert l in marked;
      var i :| 0 <= i < |lines| && marked[i] == l;
      assert lines[i] in lines;
    }
  }

  lemma ReverseKeepsSound(env: Env, lines: seq<Line>, txn: nat)
    requires GoodNotes(env) && Sound(env, lines) && CanReverse(lines, txn)
    ensures Sound(env, AfterReverse(env, lines, txn))
  {
    var after := AfterReverse(env, lines, txn);
    forall t ensures !(Active(after, t) && AlreadyReversed(after, t)) {
      FirstActiveAfter(env, lines, txn, t);
      ReversedAfter(env, lines, txn, t);
    }
    forall l, t | l in after && Trim(l.comment) == env.note(t) ensures AlreadyReversed(after, t) {
      ReversedAfter(env, lines, txn, t);
      if l in MarkReversed(lines, txn) {
        var i :| 0 <= i < |lines| && MarkReversed(lines, txn)[i] == l;
        assert lines[i] in lines && lines[i].comment == l.comment;
      }
    }
  }

  /** Two unreversed transactions with one comment. */
  predicate Shares(lines: seq<Line>, t: nat, u: nat) {
    Active(lines, t) && Active(lines, u) && t != u && CommentOf(lines, t) == CommentOf(lines, u) != ""
  }

  /** Two unreversed transactions share a comment only if one of them is among `gone`. */
  ghost predicate Covered(lines: seq<Line>, gone: set<nat>) {
    forall t, u :: Shares(lines, t, u) ==> t in gone || u in gone
  }

  /** No unreversed transaction carries the note of one that is still to be reversed. */
  lemma NoteUnshared(env: Env, lines: seq<Line>, txn: nat, t: nat)
    requires GoodNotes(env) && Sound(env, lines) && CanReverse(lines, txn)
    ensures Active(lines, t) ==> CommentOf(lines, t) != env.note(txn)
  {
  }

  lemma CommentAfter(env: Env, lines: seq<Line>, txn: nat, t: nat)
    requires GoodNotes(env) && CanReverse(lines, txn)
    ensures var after := AfterReverse(env, lines, txn);
      if t == txn then !Active(after, t)
      else if t != FreshId(lines) then
        Active(after, t) == Active(lines, t) && CommentOf(after, t) == CommentOf(lines, t)
      else !Active(lines, t) && (Active(after, t) ==> CommentOf(after, t) == env.note(txn))
  {
    FirstActiveAfter(env, lines, txn, t);
  }

  /** A reversal takes its transaction out of every sharing, and its note is shared with nothing. */
  lemma SharesAfter(env: Env, lines: seq<Line>, txn: nat, t: nat, u: nat)
    requires GoodNotes(env) && Sound(env, lines) && CanReverse(lines, txn)
    ensures Shares(AfterReverse(env, lines, txn), t, u) <==> Shares(lines, t, u) && t != txn && u != txn
  {
    CommentAfter(env, lines, txn, t);
    CommentAfter(env, lines, txn, u);
    NoteUnshared(env, lines, txn, t);
    NoteUnshared(env, lines, txn, u);
  }

  // ---- Lines picked by their comment ------------------------------------------------

  predicate Picked(line: Line, chosen: string -> bool) {
    !line.reversed && chosen(line.comment)
  }

  /** The transactions a sweep over the snapshot goes for. */
  function Targets(snapshot: seq<Line>, chosen: string -> bool): set<nat> {
    set l | l in snapshot && Picked(l, chosen) :: l.txn
  }

  /** Those the ledger does not refuse to reverse. */
  function Reversible(lines: seq<Line>, txns: set<nat>): set<nat> {
    set t | t in txns && CanReverse(lines, t)
  }

  ghost predicate NonePicked(lines: seq<Line>, chosen: string -> bool) {
    forall l :: l in lines ==> !Picked(l, chosen)
  }

  lemma NonePickedIff(lines: seq<Line>, chosen: string -> bool)
    ensures NonePicked(lines, chosen) <==> Targets(lines, chosen) == {}
  {
    if !NonePicked(lines, chosen) {
      var l :| l in lines && Picked(l, chosen);
      assert l.txn in Targets(lines, chosen);
    }
  }

  /** A reversal picks out no new line: what is picked afterwards was there before, in another transaction. */
  lemma PickedAfter(env: Env, lines: seq<Line>, txn: nat, chosen: string -> bool, l: Line)
    requires !chosen(env.note(txn)) && l in AfterReverse(env, lines, txn) && Picked(l, chosen)
    ensures l in lines && l.txn != txn
  {
    assert l in MarkReversed(lines, txn);
    var i :| 0 <= i < |lines| && MarkReversed(lines, txn)[i] == l;
    assert lines[i] in lines;
  }

  lemma TargetsAfter(env: Env, lines: seq<Line>, txn: nat, chosen: string -> bool)
    requires !chosen(env.note(txn))
    ensures Targets(AfterReverse(env, lines, txn), chosen) == Targets(lines, chosen) - {txn}
  {
    var after := AfterReverse(env, lines, txn);
    forall l | l in after && Picked(l, chosen) ensures l in lines && l.txn != txn {
      PickedAfter(env, lines, txn, chosen, l);
    }
    forall l | l in lines && Picked(l, chosen) && l.txn != txn ensures l in after {
      var i :| 0 <= i < |lines| && lines[i] == l;
      assert MarkReversed(lines, txn)[i] == l && after[i] == l;
    }
  }

  lemma FreshGrows(env: Env, lines: seq<Line>, txn: nat)
    ensures FreshId(lines) <= FreshId(AfterReverse(env, lines, txn))
  {
    var marked := MarkReversed(lines, txn);
    FreshMarked(lines, txn);
    FreshConcat(marked, if env.compensates then Compensation(lines, txn, FreshId(lines), env.note(txn)) else []);
  }

  lemma {:induction false} FreshMarked(lines: seq<Line>, txn: nat)
    ensures FreshId(MarkReversed(lines, txn)) == FreshId(lines)
  {
    if lines != [] {
      FreshMarked(lines[..|lines| - 1], txn);
      assert MarkReversed(lines, txn)[..|lines| - 1] == MarkReversed(lines[..|lines| - 1], txn);
    }
  }

  lemma {:induction false} FreshConcat(a: seq<Line>, b: seq<Line>)
    ensures FreshId(a) <= FreshId(a + b)
  {
    if b == [] {
      assert a + b == a;
    } else {
      FreshConcat(a, b[..|b| - 1]);
      assert (a + b)[..|a + b| - 1] == a + b[..|b| - 1];
    }
  }

  // ---- Many reversals ------------------------------------------------------------------

  /** The ledger after reversing the transactions of a log in order. */
  function Undo(env: Env, lines: seq<Line>, log: seq<nat>): seq<Line>
    decreases |log|
  {
    if log == [] then lines else Undo(env, AfterReverse(env, lines, log[0]), log[1..])
  }

  /** Every transaction of the log can be reversed when its turn comes. */
  predicate Legit(lines: seq<Line>, log: seq<nat>) {
    Distinct(log) && forall t :: t in log ==> CanReverse(lines, t)
  }

  lemma ElementsCons(log: seq<nat>)
    requires log != []
    ensures Elements(log) == {log[0]} + Elements(log[1..])
    ensures Distinct(log) ==> Distinct(log[1..]) && log[0] !in Elements(log[1..])
  {
    assert log == [log[0]] + log[1..];
  }

  lemma StatusAfter(env: Env, lines: seq<Line>, txn: nat, t: nat)
    requires Active(lines, txn) && t < FreshId(lines)
    ensures Active(AfterReverse(env, lines, txn), t) <==> t != txn && Active(lines, t)
    ensures CanReverse(AfterReverse(env, lines, txn), t) <==> t != txn && CanReverse(lines, t)
    ensures FreshId(lines) <= FreshId(AfterReverse(env, lines, txn))
  {
    FirstActiveAfter(env, lines, txn, t);
    ReversedAfter(env, lines, txn, t);
    FreshGrows(env, lines, txn);
  }

  lemma LegitRest(env: Env, lines: seq<Line>, log: seq<nat>)
    requires Legit(lines, log) && log != []
    ensures Legit(AfterReverse(env, lines, log[0]), log[1..])
  {
    ElementsCons(log);
    assert log[0] in log;
    forall t | t in log[1..] ensures CanReverse(AfterReverse(env, lines, log[0]), t) {
      assert t in log && t in Elements(log[1..]);
      StatusAfter(env, lines, log[0], t);
    }
  }

  lemma {:induction false} UndoConcat(env: Env, lines: seq<Line>, a: seq<nat>, b: seq<nat>)
    ensures Undo(env, lines, a + b) == Undo(env, Undo(env, lines, a), b)
    decreases |a|
  {
    if a == [] {
      assert a + b == b;
    } else {
      assert (a + b)[0] == a[0] && (a + b)[1..] == a[1..] + b;
      UndoConcat(env, AfterReverse(env, lines, a[0]), a[1..], b);
    }
  }

  /** Of the transactions there were, exactly those of the log are gone, and the others keep their comments. */
  lemma {:induction false} UndoStatus(env: Env, lines: seq<Line>, log: seq<nat>, t: nat)
    requires Legit(lines, log) && t < FreshId(lines)
    ensures FreshId(lines) <= FreshId(Undo(env, lines, log))
    ensures FirstActive(Undo(env, lines, log), t) == if t in log then [] else FirstActive(lines, t)
    ensures AlreadyReversed(Undo(env, lines, log), t) <==> t in log || AlreadyReversed(lines, t)
    decreases |log|
  {
    if log != [] {
      var after := AfterReverse(env, lines, log[0]);
      assert log[0] in log && log == [log[0]] + log[1..];
      LegitRest(env, lines, log);
      FreshGrows(env, lines, log[0]);
      FirstActiveAfter(env, lines, log[0], t);
      ReversedAfter(env, lines, log[0], t);
      UndoStatus(env, after, log[1..], t);
    }
  }

  /** Which of the transactions there were can still be reversed. */
  lemma UndoReversible(env: Env, lines: seq<Line>, log: seq<nat>, txns: set<nat>)
    requires Legit(lines, log) && forall t :: t in txns ==> t < FreshId(lines)
    ensures Reversible(Undo(env, lines, log), txns) == Reversible(lines, txns) - Elements(log)
  {
    forall t | t in txns ensures CanReverse(Undo(env, lines, log), t) <==> CanReverse(lines, t) && t !in log {
      UndoStatus(env, lines, log, t);
    }
  }

  /** What the whole ledger, and every account, adds up to afterwards. */
  lemma {:induction false} UndoNet(env: Env, lines: seq<Line>, log: seq<nat>, scope: Scope)
    requires Legit(lines, log) && Plain(scope)
    ensures Net(Undo(env, lines, log), scope) == Net(lines, scope) - Loss(env, Net(lines, Of(Elements(log), scope)))
    decreases |log|
  {
    if log == [] {
      assert Elements(log) == {};
      OfNone(lines, scope);
    } else {
      var after, rest := AfterReverse(env, lines, log[0]), Elements(log[1..]);
      ElementsCons(log);
      assert forall t :: t in log[1..] ==> t in log;
      LegitRest(env, lines, log);
      UndoNet(env, after, log[1..], scope);
      NetReversed(env, lines, log[0], scope);
      NetOfOthers(env, lines, log[0], rest, scope);
      OfSplit(lines, {log[0]}, rest, scope);
    }
  }

  lemma {:induction false} OfZero(lines: seq<Line>, log: seq<nat>, scope: Scope)
    requires Distinct(log) && forall t :: t in log ==> Net(lines, Of({t}, scope)) == 0.0
    ensures Net(lines, Of(Elements(log), scope)) == 0.0
  {
    if log == [] {
      assert Elements(log) == {};
      OfNone(lines, scope);
    } else {
      ElementsCons(log);
      assert log[0] in log && forall t :: t in log[1..] ==> t in log;
      OfZero(lines, log[1..], scope);
      OfSplit(lines, {log[0]}, Elements(log[1..]), scope);
    }
  }

  /** Reversing transactions that come to nothing changes nothing. */
  lemma UndoZero(env: Env, lines: seq<Line>, log: seq<nat>, scope: Scope)
    requires Legit(lines, log) && Plain(scope) && forall t :: t in log ==> Net(lines, Of({t}, scope)) == 0.0
    ensures Net(Undo(env, lines, log), scope) == Net(lines, scope)
  {
    UndoNet(env, lines, log, scope);
    OfZero(lines, log, scope);
  }

  /** What transactions outside the log add up to does not change. */
  lemma {:induction false} UndoNetOf(env: Env, lines: seq<Line>, log: seq<nat>, ts: set<nat>, scope: Scope)
    requires Legit(lines, log) && ts !! Elements(log) && forall t :: t in ts ==> t < FreshId(lines)
    ensures Net(Undo(env, lines, log), Of(ts, scope)) == Net(lines, Of(ts, scope))
    decreases |log|
  {
    if log != [] {
      ElementsCons(log);
      LegitRest(env, lines, log);
      FreshGrows(env, lines, log[0]);
      NetOfOthers(env, lines, log[0], ts, scope);
      UndoNetOf(env, AfterReverse(env, lines, log[0]), log[1..], ts, scope);
    }
  }

  lemma {:induction false} UndoTargets(env: Env, lines: seq<Line>, log: seq<nat>, chosen: string -> bool)
    requires forall t :: !chosen(env.note(t))
    ensures Targets(Undo(env, lines, log), chosen) == Targets(lines, chosen) - Elements(log)
    decreases |log|
  {
    if log != [] {
      ElementsCons(log);
      TargetsAfter(env, lines, log[0], chosen);
      UndoTargets(env, AfterReverse(env, lines, log[0]), log[1..], chosen);
    }
  }

  lemma {:induction false} UndoSound(env: Env, lines: seq<Line>, log: seq<nat>)
    requires GoodNotes(env) && Sound(env, lines) && Legit(lines, log)
    ensures Sound(env, Undo(env, lines, log))
    decreases |log|
  {
    if log != [] {
      assert log[0] in log;
      LegitRest(env, lines, log);
      ReverseKeepsSound(env, lines, log[0]);
      UndoSound(env, AfterReverse(env, lines, log[0]), log[1..]);
    }
  }

  lemma {:induction false} UndoShares(env: Env, lines: seq<Line>, log: seq<nat>, t: nat, u: nat)
    requires GoodNotes(env) && Sound(env, lines) && Legit(lines, log)
    ensures Shares(Undo(env, lines, log), t, u) <==> Shares(lines, t, u) && t !in log && u !in log
    decreases |log|
  {
    if log != [] {
      assert log[0] in log && log == [log[0]] + log[1..];
      LegitRest(env, lines, log);
      ReverseKeepsSound(env, lines, log[0]);
      SharesAfter(env, lines, log[0], t, u);
      UndoShares(env, AfterReverse(env, lines, log[0]), log[1..], t, u);
    }
  }

  /** No comment is shared afterwards iff every two that shared one have lost one of them. */
  lemma UndoCovers(env: Env, lines: seq<Line>, log: seq<nat>, gone: set<nat>)
    requires GoodNotes(env) && Sound(env, lines) && Legit(lines, log)
    ensures Covered(Undo(env, lines, log), gone) <==> Covered(lines, gone + Elements(log))
  {
    forall t, u ensures Shares(Undo(env, lines, log), t, u) <==> Shares(lines, t, u) && t !in log && u !in log {
      UndoShares(env, lines, log, t, u);
    }
  }
}
