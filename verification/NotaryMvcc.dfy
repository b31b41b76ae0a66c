/**
 Concurrent notarizations. Fabric endorses a proposal against the committed state of
 the moment, and later commits its write set only if the keys it read still carry the
 version they had. Endorsements and commits interleave freely.
 */
module NotaryMvcc {
  import opened Decimal
  import opened Notary
  import opened NotaryBook
  import opened NotaryGuarantees
  import opened Wrappers

  /** A committed value and the height of the commit that wrote it. */
  datatype Versioned = Versioned(value: string, height: nat)

  type Ledger = map<string, Versioned>

  /** An endorsed transaction on its way to be committed. */
  datatype Transaction = Transaction(call: Call, read: map<string, Option<nat>>, writeSet: World)

  datatype System = System(ledger: Ledger, height: nat, pending: seq<Transaction>, committed: seq<Call>)

  /** Simulate a proposal now, or try to commit the i-th pending transaction. */
  datatype Event = Endorse(call: Call) | Commit(i: nat)

  const GENESIS := System(map[], 0, [], [])

  function Values(ledger: Ledger): World {
    map k | k in ledger :: ledger[k].value
  }

  function HeightAt(ledger: Ledger, key: string): Option<nat> {
    if key in ledger then Some(ledger[key].height) else None
  }

  /** The check Fabric makes at commit: every key read is at the version read. */
  predicate Unchanged(ledger: Ledger, tx: Transaction) {
    forall k :: k in tx.read ==> HeightAt(ledger, k) == tx.read[k]
  }

  function WriteAll(ledger: Ledger, writeSet: World, height: nat): Ledger {
    ledger + map k | k in writeSet :: Versioned(writeSet[k], height)
  }

  /** A failed endorsement is not submitted; a transaction that fails the check is dropped. */
  function Step(json: Json, s: System, event: Event): System {
    match event
    case Endorse(c) =>
      var e := Simulate(json, Values(s.ledger), c);
      if e.result.Err? then s
      else
        var tx := Transaction(c, map k | k in e.readSet :: HeightAt(s.ledger, k), e.writeSet);
        s.(pending := s.pending + [tx])
    case Commit(i) =>
      if i >= |s.pending| then s
      else
        if Unchanged(s.ledger, s.pending[i]) then Accept(s, i) else s.(pending := Without(s.pending, i))
  }

  function Accept(s: System, i: nat): System
    requires i < |s.pending|
  {
    var tx := s.pending[i];
    System(WriteAll(s.ledger, tx.writeSet, s.height + 1), s.height + 1, Without(s.pending, i), s.committed + [tx.call])
  }

  function Without(pending: seq<Transaction>, i: nat): (rest: seq<Transaction>)
    requires i < |pending|
    ensures forall tx :: tx in rest ==> tx in pending
  {
    pending[..i] + pending[i + 1..]
  }

  function Exec(json: Json, events: seq<Event>): System {
    if events == [] then GENESIS
    else Step(json, Exec(json, events[..|events| - 1]), events[|events| - 1])
  }

  // ---- Serial equivalence ----------------------------------------------------

  /** A simulation depends on the store through the one key it reads. */
  lemma SimulateReadsRecordKey(json: Json, world: World, world': World, c: Call)
    requires Simulate(json, world, c).result.Ok?
    ensures Simulate(json, world, c).readSet == {Name(LatestOf(IdOf(c)))}
    ensures Get(world, Name(LatestOf(IdOf(c)))) == Get(world', Name(LatestOf(IdOf(c)))) ==>
      Simulate(json, world, c) == Simulate(json, world', c)
  {
    SimulateCases(json, world, c);
    SimulateCases(json, world', c);
    ReadsOnlyKey(json, Get(world, Name(LatestOf(IdOf(c)))), c, Name(LatestOf(IdOf(c))));
  }

  lemma ReadsOnlyKey(json: Json, stored: string, c: Call, key: string)
    ensures Proceed(json, stored, c, key).readSet == {key}
    ensures var w := Proceed(json, stored, c, key).writeSet; w != map[] ==> key in w
  {
  }

  /** A pending transaction that would pass the check writes what simulating it now would. */
  ghost predicate Current(json: Json, s: System, tx: Transaction) {
    && (forall k :: k in tx.read && tx.read[k].Some? ==> tx.read[k].value <= s.height)
    && (Unchanged(s.ledger, tx) ==>
          var e := Simulate(json, Values(s.ledger), tx.call);
          e.result.Ok? && e.readSet == tx.read.Keys && e.writeSet == tx.writeSet)
  }

  ghost predicate Serial(json: Json, s: System) {
    && Values(s.ledger) == RunWorld(json, s.committed)
    && (forall k :: k in s.ledger ==> s.ledger[k].height <= s.height)
    && (forall tx :: tx in s.pending ==> Current(json, s, tx))
  }

  /** Whatever another commit wrote, a transaction still passing the check read untouched keys. */
  lemma CurrentSurvivesCommit(json: Json, s: System, s': System, tx: Transaction, written: World)
    requires Current(json, s, tx)
    requires s'.height == s.height + 1 && s'.ledger == WriteAll(s.ledger, written, s'.height)
    ensures Current(json, s', tx)
  {
    if Unchanged(s'.ledger, tx) {
      forall k | k in tx.read
        ensures HeightAt(s.ledger, k) == tx.read[k] && Get(Values(s.ledger), k) == Get(Values(s'.ledger), k)
      {
        assert HeightAt(s'.ledger, k) == tx.read[k];
        assert k !in written;
      }
      SimulateReadsRecordKey(json, Values(s.ledger), Values(s'.ledger), tx.call);
      assert Name(LatestOf(IdOf(tx.call))) in tx.read.Keys;
    }
  }

  lemma EndorseKeepsSerial(json: Json, s: System, c: Call)
    requires Serial(json, s)
    ensures Serial(json, Step(json, s, Endorse(c)))
  {
    var s' := Step(json, s, Endorse(c));
    forall tx | tx in s'.pending ensures Current(json, s', tx) {
      if tx in s.pending { assert Current(json, s, tx); }
    }
  }

  lemma ValuesAfterWrite(ledger: Ledger, writeSet: World, height: nat)
    ensures Values(WriteAll(ledger, writeSet, height)) == Values(ledger) + writeSet
  {
  }

  lemma CommitsAsIfSerial(json: Json, s: System, tx: Transaction)
    requires Values(s.ledger) == RunWorld(json, s.committed)
    requires Current(json, s, tx) && Unchanged(s.ledger, tx)
    ensures Values(WriteAll(s.ledger, tx.writeSet, s.height + 1)) == RunWorld(json, s.committed + [tx.call])
  {
    assert (s.committed + [tx.call])[..|s.committed|] == s.committed;
    ValuesAfterWrite(s.ledger, tx.writeSet, s.height + 1);
  }

  lemma AcceptKeepsSerial(json: Json, s: System, i: nat)
    requires Serial(json, s) && i < |s.pending| && Unchanged(s.ledger, s.pending[i])
    ensures Serial(json, Accept(s, i))
  {
    var s', tx := Accept(s, i), s.pending[i];
    CommitsAsIfSerial(json, s, tx);
    forall other | other in s'.pending ensures Current(json, s', other) {
      CurrentSurvivesCommit(json, s, s', other, tx.writeSet);
    }
  }

  lemma DropKeepsSerial(json: Json, s: System, i: nat)
    requires Serial(json, s) && (i < |s.pending| ==> !Unchanged(s.ledger, s.pending[i]))
    ensures Serial(json, Step(json, s, Commit(i)))
  {
    var s' := Step(json, s, Commit(i));
    forall tx | tx in s'.pending ensures Current(json, s', tx) {
      assert Current(json, s, tx);
    }
  }

  lemma StepKeepsSerial(json: Json, s: System, event: Event)
    requires Serial(json, s)
    ensures Serial(json, Step(json, s, event))
  {
    match event
    case Endorse(c) => EndorseKeepsSerial(json, s, c);
    case Commit(i) =>
      if i < |s.pending| && Unchanged(s.ledger, s.pending[i]) {
        AcceptKeepsSerial(json, s, i);
        assert Step(json, s, event) == Accept(s, i);
      } else {
        DropKeepsSerial(json, s, i);
      }
  }

  /** Every interleaving leaves the store that running the committed calls one after another gives. */
  lemma {:induction false} Serializable(json: Json, events: seq<Event>)
    ensures Serial(json, Exec(json, events))
  {
    if events == [] {
      assert Values(map[]) == map[];
    } else {
      Serializable(json, events[..|events| - 1]);
      StepKeepsSerial(json, Exec(json, events[..|events| - 1]), events[|events| - 1]);
    }
  }

  /** So no version is lost or duplicated: a history is the committed submissions, collapsed. */
  lemma ConcurrentHistory(json: Json, events: seq<Event>, r: RecordId)
    requires json.Faithful() && ValidId(r)
    ensures var s := Exec(json, events);
      var h := Entries(BlockHeads(Submitted(s.committed, r)));
      && (h != [] ==> WellFormedHistory(r, h))
      && (RecordHistory(json, Values(s.ledger), r.0, r.1) == Ok(h) <==> |h| < BILLION)
  {
    Serializable(json, events);
    HistoryIsCollapsedSubmissions(json, Exec(json, events).committed, r);
    LatestIsLastEntry(json, Exec(json, events).committed, r);
  }

  // ---- What the check does ---------------------------------------------------

  /** A non-empty write set holds the latest cell of its own record, and cells of that record only. */
  lemma WriteSetShape(json: Json, world: World, c: Call)
    ensures var w := Simulate(json, world, c).writeSet;
      && (w != map[] ==> Name(LatestOf(IdOf(c))) in w)
      && (forall r :: ValidId(r) && r != IdOf(c) ==> Name(LatestOf(r)) !in w)
  {
    SimulateCases(json, world, c);
    ReadsOnlyKey(json, Get(world, Name(LatestOf(IdOf(c)))), c, Name(LatestOf(IdOf(c))));
    forall r | ValidId(r) && r != IdOf(c) ensures Name(LatestOf(r)) !in Simulate(json, world, c).writeSet {
      WritesElsewhere(json, world, c, r);
    }
  }

  /**
   Of two transactions that could both commit, the one committed first blocks the other
   exactly when both are about the same record and the first one adds a version.
   */
  lemma FirstCommitterWins(json: Json, events: seq<Event>, i: nat, j: nat)
    requires var s := Exec(json, events);
      i < |s.pending| && j < |s.pending| && i != j &&
      Unchanged(s.ledger, s.pending[i]) && Unchanged(s.ledger, s.pending[j])
    ensures var s := Exec(json, events);
      var first, second := s.pending[i], s.pending[j];
      Unchanged(Step(json, s, Commit(i)).ledger, second) <==>
        IdOf(first.call) != IdOf(second.call) || first.writeSet == map[]
  {
    Serializable(json, events);
    BlocksSameRecord(json, Exec(json, events), Exec(json, events).pending[i], Exec(json, events).pending[j]);
  }

  lemma BlocksSameRecord(json: Json, s: System, first: Transaction, second: Transaction)
    requires Serial(json, s) && first in s.pending && second in s.pending
    requires Unchanged(s.ledger, first) && Unchanged(s.ledger, second)
    ensures Unchanged(WriteAll(s.ledger, first.writeSet, s.height + 1), second) <==>
      IdOf(first.call) != IdOf(second.call) || first.writeSet == map[]
  {
    ReadsItsRecordKey(json, s, second);
    WritesWhoseKey(json, s, first, IdOf(second.call));
    BlocksIffWrites(s, first, second, Name(LatestOf(IdOf(second.call))));
  }

  lemma WritesWhoseKey(json: Json, s: System, tx: Transaction, r: RecordId)
    requires Serial(json, s) && tx in s.pending && Unchanged(s.ledger, tx) && ValidId(r)
    ensures Name(LatestOf(r)) in tx.writeSet <==> r == IdOf(tx.call) && tx.writeSet != map[]
  {
    ReadsItsRecordKey(json, s, tx);
  }

  /** A commit at a new height blocks a transaction exactly when it writes the one key that transaction read. */
  lemma BlocksIffWrites(s: System, first: Transaction, second: Transaction, key: string)
    requires second.read.Keys == {key} && Unchanged(s.ledger, second)
    requires forall k :: k in s.ledger ==> s.ledger[k].height <= s.height
    ensures Unchanged(WriteAll(s.ledger, first.writeSet, s.height + 1), second) <==> key !in first.writeSet
  {
    var after := WriteAll(s.ledger, first.writeSet, s.height + 1);
    assert key in second.read.Keys;
    assert forall k :: k in second.read ==> k in second.read.Keys && k == key;
    assert HeightAt(s.ledger, key) == second.read[key];
    assert HeightAt(after, key) == if key in first.writeSet then Some(s.height + 1) else HeightAt(s.ledger, key);
  }

  /** A pending transaction that could commit reads the latest cell of its record, and writes it or nothing. */
  lemma ReadsItsRecordKey(json: Json, s: System, tx: Transaction)
    requires Serial(json, s) && tx in s.pending && Unchanged(s.ledger, tx)
    ensures ValidId(IdOf(tx.call)) && tx.read.Keys == {Name(LatestOf(IdOf(tx.call)))}
    ensures tx.writeSet != map[] ==> Name(LatestOf(IdOf(tx.call))) in tx.writeSet
    ensures forall r :: ValidId(r) && r != IdOf(tx.call) ==> Name(LatestOf(r)) !in tx.writeSet
    ensures forall k :: k in s.ledger ==> s.ledger[k].height <= s.height
  {
    assert Current(json, s, tx);
    var world := Values(s.ledger);
    SimulateReadsRecordKey(json, world, world, tx.call);
    WriteSetShape(json, world, tx.call);
    RecordKeyOf(IdOf(tx.call));
  }

  lemma FirstNotarization(json: Json, c: Call)
    requires json.Faithful() && Accepts(c)
    ensures var encoded := json.encode(EntryFor(c, 1));
      Simulate(json, map[], c).writeSet ==
        map[Name(LatestOf(IdOf(c))) := encoded][Name(VersionOf(IdOf(c), 1)) := encoded]
  {
    RecordKeyOf(IdOf(c));
    SimulateCases(json, map[], c);
    HistoryKeyOf(IdOf(c), 1);
  }

  lemma PairHistory(a: Call, b: Call)
    requires Accepts(a) && Accepts(b) && IdOf(a) == IdOf(b) && a.digest != b.digest
    ensures HistoryOf(RunBook([a, b]), IdOf(a)) == [EntryFor(a, 1), EntryFor(b, 2)]
  {
    assert [a, b][..1] == [a] && [a][..0] == [];
    HistoryAfter(RunBook([]), a, IdOf(a));
    HistoryAfter(RunBook([a]), b, IdOf(a));
  }

  lemma SerialPair(json: Json, a: Call, b: Call)
    requires json.Faithful() && Accepts(a) && Accepts(b) && IdOf(a) == IdOf(b) && a.digest != b.digest
    ensures Get(RunWorld(json, [a, b]), Name(VersionOf(IdOf(a), 1))) == json.encode(EntryFor(a, 1))
    ensures Get(RunWorld(json, [a, b]), Name(VersionOf(IdOf(a), 2))) == json.encode(EntryFor(b, 2))
  {
    var calls: seq<Call> := [a, b];
    PairHistory(a, b);
    RunRefines(json, calls);
    HistoryCell(json, RunWorld(json, calls), RunBook(calls), IdOf(a), 1);
    HistoryCell(json, RunWorld(json, calls), RunBook(calls), IdOf(a), 2);
  }

  lemma HistoryCell(json: Json, world: World, book: Book, r: RecordId, v: nat)
    requires Represents(json, world, book) && ValidId(r) && 1 <= v <= |HistoryOf(book, r)|
    ensures Get(world, Name(VersionOf(r, v))) == json.encode(HistoryOf(book, r)[v - 1])
  {
    CellContent(json, world, book, VersionOf(r, v));
  }

  /** Without the check on the record key, two first notarizations of one record lose a version. */
  lemma BlindCommitsLoseAVersion(json: Json, a: Call, b: Call)
    requires json.Faithful() && Accepts(a) && Accepts(b) && IdOf(a) == IdOf(b) && a.digest != b.digest
    ensures var blind, serial := Simulate(json, map[], a).writeSet + Simulate(json, map[], b).writeSet, RunWorld(json, [a, b]);
      var first, second := Name(VersionOf(IdOf(a), 1)), Name(VersionOf(IdOf(a), 2));
      && Get(serial, first) == json.encode(EntryFor(a, 1)) && Get(serial, second) == json.encode(EntryFor(b, 2))
      && Get(blind, first) == json.encode(EntryFor(b, 1)) && second !in blind
  {
    SerialPair(json, a, b);
    BlindPair(json, a, b);
  }

  lemma BlindPair(json: Json, a: Call, b: Call)
    requires json.Faithful() && Accepts(a) && Accepts(b) && IdOf(a) == IdOf(b)
    ensures var blind := Simulate(json, map[], a).writeSet + Simulate(json, map[], b).writeSet;
      && Get(blind, Name(VersionOf(IdOf(a), 1))) == json.encode(EntryFor(b, 1))
      && Name(VersionOf(IdOf(a), 2)) !in blind
  {
    var r := IdOf(a);
    FirstNotarization(json, a);
    FirstNotarization(json, b);
    NameInjective(VersionOf(r, 2), VersionOf(r, 1));
    NameInjective(VersionOf(r, 2), LatestOf(r));
  }
}
