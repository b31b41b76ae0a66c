/**
 Steps 2 and 6 of POST /fineract/resync-all (server/routes/admin.js): reverse duplicate
 and stale ledger entries, then bring the bond account to its expected face value.
 */
module Resync {
  import opened Comments
  import opened LedgerSweeps
  import opened RemoteGl
  import opened Reversals
  import opened Seqs
  import opened Wrappers

  // ---- Duplicate entries ---------------------------------------------------------

  /** The unreversed transactions, in order of first appearance. */
  function Txns(lines: seq<Line>): (txns: seq<nat>)
    ensures forall t :: t in txns <==> Active(lines, t)
    ensures Distinct(txns)
  {
    if lines == [] then []
    else
      var before, last := Txns(lines[..|lines| - 1]), lines[|lines| - 1];
      assert lines == lines[..|lines| - 1] + [last];
      if last.reversed || last.txn in before then before else before + [last.txn]
  }

  /** Their distinct comments, in the same order. */
  function Keys(lines: seq<Line>, txns: seq<nat>): (keys: seq<string>)
    ensures forall t :: t in txns && CommentOf(lines, t) != "" ==> CommentOf(lines, t) in keys
    ensures "" !in keys && Distinct(keys)
  {
    if txns == [] then []
    else
      var before, comment := Keys(lines, txns[..|txns| - 1]), CommentOf(lines, txns[|txns| - 1]);
      assert txns == txns[..|txns| - 1] + [txns[|txns| - 1]];
      if comment == "" || comment in before then before else before + [comment]
  }

  function Sharing(lines: seq<Line>, txns: seq<nat>, comment: string): (shared: seq<nat>)
    ensures forall t :: t in shared <==> t in txns && CommentOf(lines, t) == comment
  {
    if txns == [] then []
    else
      var before, last := Sharing(lines, txns[..|txns| - 1], comment), txns[|txns| - 1];
      assert txns == txns[..|txns| - 1] + [last];
      if CommentOf(lines, last) == comment then before + [last] else before
  }

  /** All but the first transaction of every comment. */
  function Victims(lines: seq<Line>, txns: seq<nat>, keys: seq<string>): seq<nat> {
    if keys == [] then []
    else
      var shared := Sharing(lines, txns, keys[0]);
      (if shared == [] then [] else shared[1..]) + Victims(lines, txns, keys[1..])
  }

  /** The names a plain JavaScript object inherits, and so answers to without having been given them. */
  const INHERITED: set<string> := {
    "constructor", "hasOwnProperty", "isPrototypeOf", "propertyIsEnumerable", "toLocaleString", "toString", "valueOf",
    "__defineGetter__", "__defineSetter__", "__lookupGetter__", "__lookupSetter__", "__proto__"}

  /** They begin with a small letter or an underscore. */
  lemma InheritedNames(name: string)
    ensures name in INHERITED ==> name != "" && name[0] in {'c', 'h', 'i', 'p', 't', 'v', '_'}
  {
  }

  lemma KindsOfComment()
    ensures forall c :: c in {"manual entry", "Trust JE 1", "constructor"} ==> Trim(c) == c && !("Reversal entry" <= c)
    ensures IsStale("manual entry") && IsStale("constructor") && !IsStale("Trust JE 1")
    ensures "constructor" in INHERITED && "manual entry" !in INHERITED && "Trust JE 1" !in INHERITED
  {
    TrimmedByEnds("manual entry");
    TrimmedByEnds("Trust JE 1");
    TrimmedByEnds("constructor");
    assert TRUST_PREFIX <= "Trust JE 1";
    assert "manual entry"[0] == 'm' && "constructor"[0] == 'c' && TRUST_PREFIX[0] == 'T' && REVERSAL_PREFIX[0] == 'R';
    InheritedNames("manual entry");
    InheritedNames("Trust JE 1");
  }

  /** Grouping by comment in a plain object throws on an inherited name, before anything is reversed. */
  predicate Throws(lines: seq<Line>) {
    exists t :: t in Txns(lines) && CommentOf(lines, t) in INHERITED
  }

  /** The transactions the duplicate clean-up goes for. */
  function Duplicates(lines: seq<Line>): seq<nat> {
    if Throws(lines) then [] else Victims(lines, Txns(lines), Keys(lines, Txns(lines)))
  }

  lemma {:induction false} SharedAreVictims(lines: seq<Line>, txns: seq<nat>, keys: seq<string>, t: nat, u: nat)
    requires t in txns && u in txns && t != u
    requires CommentOf(lines, t) == CommentOf(lines, u) && CommentOf(lines, t) in keys
    ensures t in Victims(lines, txns, keys) || u in Victims(lines, txns, keys)
  {
    if keys[0] == CommentOf(lines, t) {
      var shared := Sharing(lines, txns, keys[0]);
      assert t in shared && u in shared && shared == [shared[0]] + shared[1..];
    } else {
      assert keys == [keys[0]] + keys[1..];
      SharedAreVictims(lines, txns, keys[1..], t, u);
    }
  }

  /** Unless grouping throws, reversing the duplicates is enough to leave one transaction per comment. */
  lemma DuplicatesCover(lines: seq<Line>)
    requires !Throws(lines)
    ensures Covered(lines, Elements(Duplicates(lines)))
  {
    var txns := Txns(lines);
    forall t, u | Shares(lines, t, u) ensures t in Duplicates(lines) || u in Duplicates(lines) {
      SharedAreVictims(lines, txns, Keys(lines, txns), t, u);
    }
  }

  /** An earlier transaction has this comment. */
  ghost predicate EarlierShares(lines: seq<Line>, txns: seq<nat>, comment: string, i: nat)
    requires i <= |txns|
  {
    exists j :: 0 <= j < i && CommentOf(lines, txns[j]) == comment
  }

  lemma {:induction false} SharingTail(lines: seq<Line>, txns: seq<nat>, comment: string, i: nat)
    requires Distinct(txns) && i < |txns| && CommentOf(lines, txns[i]) == comment
    ensures Sharing(lines, txns, comment) != []
    ensures txns[i] in Sharing(lines, txns, comment)[1..] <==> EarlierShares(lines, txns, comment, i)
  {
    var init, last := txns[..|txns| - 1], txns[|txns| - 1];
    assert txns[i] in Sharing(lines, txns, comment);
    EarlierInPrefix(lines, txns, comment, i, |txns| - 1);
    if i < |init| {
      SharingTail(lines, init, comment, i);
      TailAppended(Sharing(lines, init, comment), last, txns[i]);
    } else {
      InitShares(lines, init, comment);
      assert forall k :: 0 <= k < |init| ==> init[k] == txns[k] != last;
      TailOfLast(Sharing(lines, init, comment), last);
    }
  }

  lemma EarlierInPrefix(lines: seq<Line>, txns: seq<nat>, comment: string, i: nat, n: nat)
    requires i <= n <= |txns|
    ensures EarlierShares(lines, txns[..n], comment, i) <==> EarlierShares(lines, txns, comment, i)
  {
    assert forall j :: 0 <= j < i ==> txns[..n][j] == txns[j];
  }

  lemma TailAppended(before: seq<nat>, last: nat, t: nat)
    requires before != [] && t != last
    ensures t in (before + [last])[1..] <==> t in before[1..]
  {
    assert (before + [last])[1..] == before[1..] + [last];
  }

  lemma TailOfLast(before: seq<nat>, last: nat)
    requires last !in before
    ensures last in (before + [last])[1..] <==> before != []
  {
    if before != [] { assert (before + [last])[1..] == before[1..] + [last]; }
  }

  lemma InitShares(lines: seq<Line>, init: seq<nat>, comment: string)
    ensures Sharing(lines, init, comment) != [] <==> EarlierShares(lines, init, comment, |init|)
  {
    var shared := Sharing(lines, init, comment);
    if shared != [] {
      assert shared[0] in shared;
      var j :| 0 <= j < |init| && init[j] == shared[0];
    }
    forall j | 0 <= j < |init| && CommentOf(lines, init[j]) == comment ensures shared != [] {
      assert init[j] in shared;
    }
  }

  lemma {:induction false} VictimsAre(lines: seq<Line>, txns: seq<nat>, keys: seq<string>, t: nat)
    requires t in txns
    ensures t in Victims(lines, txns, keys) <==>
      CommentOf(lines, t) in keys && t in Sharing(lines, txns, CommentOf(lines, t))[1..]
  {
    assert t in Sharing(lines, txns, CommentOf(lines, t));
    if keys != [] {
      var shared := Sharing(lines, txns, keys[0]);
      assert keys == [keys[0]] + keys[1..];
      assert shared != [] ==> shared == [shared[0]] + shared[1..];
      VictimsAre(lines, txns, keys[1..], t);
    }
  }

  /** A transaction is called for iff grouping does not throw and an earlier one has the same non-empty comment. */
  lemma DuplicatesAre(lines: seq<Line>, i: nat)
    requires i < |Txns(lines)|
    ensures var txns := Txns(lines);
      var comment := CommentOf(lines, txns[i]);
      txns[i] in Duplicates(lines) <==> !Throws(lines) && comment != "" && EarlierShares(lines, txns, comment, i)
  {
    var txns := Txns(lines);
    assert txns[i] in txns;
    VictimsAre(lines, txns, Keys(lines, txns), txns[i]);
    SharingTail(lines, txns, CommentOf(lines, txns[i]), i);
  }

  lemma {:induction false} SharingDistinct(lines: seq<Line>, txns: seq<nat>, comment: string)
    requires Distinct(txns)
    ensures Distinct(Sharing(lines, txns, comment))
  {
    if txns != [] {
      var init, last := txns[..|txns| - 1], txns[|txns| - 1];
      SharingDistinct(lines, init, comment);
      assert forall i :: 0 <= i < |init| ==> init[i] == txns[i] != last;
      assert last !in Sharing(lines, init, comment);
    }
  }

  lemma AtMostOneShares(lines: seq<Line>, txns: seq<nat>, comment: string)
    requires Covered(lines, {}) && comment != "" && Distinct(txns)
    requires forall t :: t in txns ==> Active(lines, t)
    ensures |Sharing(lines, txns, comment)| <= 1
  {
    var shared := Sharing(lines, txns, comment);
    if |shared| > 1 {
      assert shared[0] in shared && shared[1] in shared;
      SharersCoincide(lines, comment, shared[0], shared[1]);
      SharingDistinct(lines, txns, comment);
    }
  }

  lemma SharersCoincide(lines: seq<Line>, comment: string, t: nat, u: nat)
    requires Covered(lines, {}) && comment != "" && Active(lines, t) && Active(lines, u)
    requires CommentOf(lines, t) == CommentOf(lines, u) == comment
    ensures t == u
  {
    assert Shares(lines, t, u) ==> t in {} || u in {};
  }

  lemma {:induction false} NoVictims(lines: seq<Line>, txns: seq<nat>, keys: seq<string>)
    requires Covered(lines, {}) && "" !in keys && Distinct(txns)
    requires forall t :: t in txns ==> Active(lines, t)
    ensures Victims(lines, txns, keys) == []
  {
    if keys != [] {
      assert keys == [keys[0]] + keys[1..];
      AtMostOneShares(lines, txns, keys[0]);
      NoVictims(lines, txns, keys[1..]);
    }
  }

  lemma NoDuplicates(lines: seq<Line>)
    requires Covered(lines, {})
    ensures Duplicates(lines) == []
  {
    NoVictims(lines, Txns(lines), Keys(lines, Txns(lines)));
  }

  lemma {:induction false} VictimsFrom(lines: seq<Line>, txns: seq<nat>, keys: seq<string>)
    ensures forall t :: t in Victims(lines, txns, keys) ==> t in txns
  {
    if keys != [] {
      var shared := Sharing(lines, txns, keys[0]);
      VictimsFrom(lines, txns, keys[1..]);
      assert shared != [] ==> forall t :: t in shared[1..] ==> t in shared;
    }
  }

  /** No transaction is called for twice. */
  lemma {:induction false} VictimsDistinct(lines: seq<Line>, txns: seq<nat>, keys: seq<string>)
    requires Distinct(txns) && Distinct(keys)
    ensures Distinct(Victims(lines, txns, keys))
  {
    if keys != [] {
      var shared, rest := Sharing(lines, txns, keys[0]), Victims(lines, txns, keys[1..]);
      SharingDistinct(lines, txns, keys[0]);
      VictimsDistinct(lines, txns, keys[1..]);
      VictimsFrom(lines, txns, keys[1..]);
      forall t | t in rest ensures t !in shared {
        VictimsAre(lines, txns, keys[1..], t);
      }
      if shared != [] {
        assert forall t :: t in shared[1..] ==> t in shared;
        DistinctConcat(shared[1..], rest);
      }
    }
  }

  lemma DuplicatesDistinct(lines: seq<Line>)
    ensures Distinct(Duplicates(lines))
  {
    VictimsDistinct(lines, Txns(lines), Keys(lines, Txns(lines)));
  }

  lemma DuplicatesBelow(lines: seq<Line>)
    ensures Below(lines, Duplicates(lines))
  {
    VictimsFrom(lines, Txns(lines), Keys(lines, Txns(lines)));
  }

  lemma PicksBelow(lines: seq<Line>, chosen: string -> bool)
    ensures Below(lines, Picks(lines, chosen))
  {
    PicksAreTargets(lines, chosen);
    forall t | t in Picks(lines, chosen) ensures t < FreshId(lines) {
      assert t in Elements(Picks(lines, chosen));
    }
  }

  // ---- The two steps ---------------------------------------------------------------

  /** DataBridge.cleanupFineractDuplicates: without a listing it does nothing. */
  function Cleanup(env: Env, gl: Gl): Gl {
    var (gl', entries) := ListCall(env, gl);
    if entries.None? then gl' else ReverseAll(env, gl', Duplicates(entries.value))
  }

  /** Step 2: the number of stale reversals, or none when the listing failed. */
  function CleanUpStale(env: Env, gl: Gl): (Gl, Option<nat>) {
    SweepStale(env, Cleanup(env, gl))
  }

  function SweepStale(env: Env, gl: Gl): (Gl, Option<nat>) {
    var (gl', entries) := ListCall(env, gl);
    if entries.None? then (gl', None)
    else
      var (swept, count) := ReverseWhere(env, gl', IsStale, entries.value, 0);
      (swept, Some(count))
  }

  datatype Outcome =
    | MissingMapping
    | Aborted
    | WithinTolerance(balance: real)
    | AlreadyCorrect(balance: real)
    | Corrected(amount: real)

  const BOND_ACCOUNT := "1100"
  const CORPUS_ACCOUNT := "3000"

  function Abs(x: real): real {
    if x < 0.0 then -x else x
  }

  /** An account code maps to nothing when it is missing or maps to zero. */
  function MappedId(glMap: map<string, int>, code: string): int {
    if code in glMap then glMap[code] else 0
  }

  /** Step 6, with its queries for the mapping rows and for the expected face value. */
  function CorrectBalance(env: Env, gl: Gl, glMap: map<string, int>, expected: real): (Gl, Outcome) {
    var bondInv, corpus := MappedId(glMap, BOND_ACCOUNT), MappedId(glMap, CORPUS_ACCOUNT);
    var (mapped, ok) := LookupCall(env, gl);
    if !ok then (mapped, Aborted)
    else if bondInv == 0 || corpus == 0 then (mapped, MissingMapping)
    else CorrectAccount(env, mapped, bondInv, corpus, expected)
  }

  function CorrectAccount(env: Env, gl: Gl, bondInv: int, corpus: int, expected: real): (Gl, Outcome) {
    var (listed, entries) := ListCall(env, gl);
    if entries.None? then (listed, Aborted)
    else
      var (looked, ok) := LookupCall(env, listed);
      if !ok then (looked, Aborted)
      else
        var balance := Net(entries.value, Account(bondInv));
        if Abs(expected - balance) <= 1.0 then (looked, WithinTolerance(balance))
        else Recorrect(env, ReverseWhere(env, looked, IsCorrection, entries.value, 0).0, bondInv, corpus, expected)
  }

  /** Measure again and post what is missing. */
  function Recorrect(env: Env, gl: Gl, bondInv: int, corpus: int, expected: real): (Gl, Outcome) {
    var (relisted, current) := ListCall(env, gl);
    if current.None? then (relisted, Aborted)
    else
      var diff := expected - Net(current.value, Account(bondInv));
      if diff > 1.0 then
        var (posted, ok) := PostCall(env, relisted, bondInv, corpus, diff, CORRECTION);
        (posted, if ok then Corrected(diff) else Aborted)
      else (relisted, AlreadyCorrect(expected - diff))
  }

  // ---- The routes as they run --------------------------------------------------------

  method CleanupDuplicates(remote: Fineract)
    modifies remote
    ensures remote.State() == Cleanup(remote.env, old(remote.State()))
  {
    var entries := remote.GetJournalEntries();
    if entries.None? { return; }
    ghost var start := remote.State();
    var txns := Duplicates(entries.value);
    for i := 0 to |txns|
      invariant ReverseAll(remote.env, remote.State(), txns[i..]) == ReverseAll(remote.env, start, txns)
    {
      assert txns[i..][0] == txns[i] && txns[i..][1..] == txns[i + 1..];
      var _ := remote.ReverseJournalEntry(txns[i]);
    }
  }

  /** The loop over the lines of a snapshot, shared by the stale sweep and the correction step. */
  method ReverseChosen(remote: Fineract, entries: seq<Line>, chosen: string -> bool) returns (count: nat)
    modifies remote
    ensures (remote.State(), count) == ReverseWhere(remote.env, old(remote.State()), chosen, entries, 0)
  {
    count := 0;
    for i := 0 to |entries|
      invariant ReverseWhere(remote.env, remote.State(), chosen, entries[i..], count) ==
                ReverseWhere(remote.env, old(remote.State()), chosen, entries, 0)
    {
      var line := entries[i];
      assert entries[i..][0] == line && entries[i..][1..] == entries[i + 1..];
      if line.reversed { continue; }
      if chosen(line.comment) {
        var ok := remote.ReverseJournalEntry(line.txn);
        if ok { count := count + 1; }
      }
    }
  }

  method Step2(remote: Fineract) returns (staleReversed: Option<nat>)
    modifies remote
    ensures (remote.State(), staleReversed) == CleanUpStale(remote.env, old(remote.State()))
  {
    CleanupDuplicates(remote);
    var entries := remote.GetJournalEntries();
    if entries.None? { return None; }
    var count := ReverseChosen(remote, entries.value, IsStale);
    return Some(count);
  }

  /** The measuring loop. */
  method Measure(entries: seq<Line>, account: int) returns (balance: real)
    ensures balance == Net(entries, Account(account))
  {
    balance := 0.0;
    for i := 0 to |entries|
      invariant balance == Net(entries[..i], Account(account))
    {
      assert entries[..i + 1][..i] == entries[..i];
      var line := entries[i];
      if line.reversed { continue; }
      if line.account == account {
        balance := balance + (if line.debit then line.amount else -line.amount);
      }
    }
    assert entries[..|entries|] == entries;
  }

  method Step6(remote: Fineract, glMap: map<string, int>, expected: real) returns (outcome: Outcome)
    modifies remote
    ensures (remote.State(), outcome) == CorrectBalance(remote.env, old(remote.State()), glMap, expected)
  {
    var ok := remote.Lookup();
    if !ok { return Aborted; }
    var bondInv, corpus := MappedId(glMap, BOND_ACCOUNT), MappedId(glMap, CORPUS_ACCOUNT);
    if bondInv == 0 || corpus == 0 { return MissingMapping; }
    var entries := remote.GetJournalEntries();
    if entries.None? { return Aborted; }
    var balance := Measure(entries.value, bondInv);
    ok := remote.Lookup();
    if !ok { return Aborted; }
    if Abs(expected - balance) <= 1.0 { return WithinTolerance(balance); }
    var _ := ReverseChosen(remote, entries.value, IsCorrection);
    var current := remote.GetJournalEntries();
    if current.None? { return Aborted; }
    var freshBalance := Measure(current.value, bondInv);
    if expected - freshBalance > 1.0 {
      ok := remote.PostJournalEntry(bondInv, corpus, expected - freshBalance, CORRECTION);
      return if ok then Corrected(expected - freshBalance) else Aborted;
    }
    return AlreadyCorrect(freshBalance);
  }
}
