/**
 What the chaincode's key/value store means: for each record, the sequence of its
 notarizations. Every run of the chaincode refines appends to that sequence.
 */
module NotaryBook {
  import opened Decimal
  import opened CompositeKey
  import opened Lex
  import opened Notary
  import opened Wrappers

  type Book = map<RecordId, seq<Notarization>>

  function HistoryOf(book: Book, r: RecordId): seq<Notarization> {
    if r in book then book[r] else []
  }

  /** A call that is not refused: it names its record in characters a key may have, and its digest takes 64 bytes. */
  predicate Accepts(c: Call) {
    && c.recordType != "" && c.recordId != "" && ByteLength(c.digest) == 64
    && '\0' !in c.recordType && '\U{10FFFF}' !in c.recordType && '\0' !in c.recordId && '\U{10FFFF}' !in c.recordId
  }

  /** The intended effect of a call: append unless the digest is the latest one. */
  function Notarize(book: Book, c: Call): Book {
    if !Accepts(c) then book
    else
      var h := HistoryOf(book, IdOf(c));
      if h != [] && h[|h| - 1].digest == c.digest then book
      else book[IdOf(c) := h + [EntryFor(c, |h| + 1)]]
  }

  // ---- Invariant of every reachable state ----------------------------------

  /** Versions are exactly 1..n, neighbours differ, digests have full length. */
  predicate WellFormedHistory(r: RecordId, h: seq<Notarization>) {
    && h != []
    && (forall i :: 0 <= i < |h| ==>
          h[i].version == i + 1 && (h[i].recordType, h[i].recordId) == r && ByteLength(h[i].digest) == 64)
    && (forall i :: 0 < i < |h| ==> h[i - 1].digest != h[i].digest)
  }

  predicate WellFormedBook(book: Book) {
    forall r :: r in book ==> ValidId(r) && WellFormedHistory(r, book[r])
  }

  lemma NotarizeKeepsWellFormed(book: Book, c: Call)
    requires WellFormedBook(book)
    ensures WellFormedBook(Notarize(book, c))
  {
  }

  function Lookup(world: World, key: string): Option<string> {
    if key in world then Some(world[key]) else None
  }

  /** What the book says a cell holds. */
  function Content(json: Json, book: Book, cell: Cell): Option<string> {
    match cell
    case LatestOf(r) =>
      if HistoryOf(book, r) != [] then Some(json.encode(book[r][|book[r]| - 1])) else None
    case VersionOf(r, v) =>
      if 1 <= v <= |HistoryOf(book, r)| then Some(json.encode(book[r][v - 1])) else None
  }

  /** Under a naming of cells, the store holds every cell as the book has it, and no other key. */
  ghost predicate Stores(name: Cell -> string, json: Json, world: World, book: Book) {
    && (forall cell :: ValidCell(cell) ==> Lookup(world, name(cell)) == Content(json, book, cell))
    && (forall key :: key in world ==> exists cell :: ValidCell(cell) && key == name(cell))
  }

  ghost predicate Represents(json: Json, world: World, book: Book) {
    WellFormedBook(book) && Stores(Name, json, world, book)
  }

  ghost predicate Injective(name: Cell -> string) {
    forall a, b :: ValidCell(a) && ValidCell(b) && name(a) == name(b) ==> a == b
  }

  lemma CellNamesInjective()
    ensures Injective(Name)
  {
    forall a, b | ValidCell(a) && ValidCell(b) && Name(a) == Name(b) ensures a == b {
      NameInjective(a, b);
    }
  }

  /** Whether a call adds a version to its record. */
  predicate Appends(book: Book, c: Call) {
    var h := HistoryOf(book, IdOf(c));
    Accepts(c) && (h == [] || h[|h| - 1].digest != c.digest)
  }

  /** A history changes only by the append that a call to its own record makes. */
  lemma HistoryAfter(book: Book, c: Call, r: RecordId)
    ensures HistoryOf(Notarize(book, c), r) ==
      if Appends(book, c) && IdOf(c) == r then HistoryOf(book, r) + [EntryFor(c, |HistoryOf(book, r)| + 1)]
      else HistoryOf(book, r)
  {
  }

  lemma CellContent(json: Json, world: World, book: Book, cell: Cell)
    requires Represents(json, world, book) && ValidCell(cell)
    ensures Lookup(world, Name(cell)) == Content(json, book, cell)
  {
  }

  /** What a record key holds: the last entry of the history, or nothing. */
  lemma LatestStored(json: Json, world: World, book: Book, r: RecordId)
    requires Represents(json, world, book) && ValidId(r)
    ensures var h := HistoryOf(book, r);
      && Get(world, Name(LatestOf(r))) == (if h == [] then "" else json.encode(h[|h| - 1]))
      && (h != [] ==> h[|h| - 1].version == |h|)
  {
    CellContent(json, world, book, LatestOf(r));
  }

  lemma NextVersionFromHistory(json: Json, h: seq<Notarization>, stored: string, digest: string)
    requires json.Faithful()
    requires stored == if h == [] then "" else json.encode(h[|h| - 1])
    requires h != [] ==> h[|h| - 1].version == |h|
    ensures NextVersion(json, stored, digest) ==
      Ok(if h != [] && h[|h| - 1].digest == digest then None else Some(|h| + 1))
  {
    if h != [] { assert json.decode(json.encode(h[|h| - 1])) == Some(h[|h| - 1]); }
  }

  /** The endorsement of a call, in terms of the history of its record. */
  lemma SimulateFromBook(json: Json, world: World, book: Book, c: Call)
    requires json.Faithful() && Represents(json, world, book)
    ensures var e, h := Simulate(json, world, c), HistoryOf(book, IdOf(c));
      && (e.result.Ok? <==> Accepts(c))
      && (Appends(book, c) ==> e == Append(json, c, Name(LatestOf(IdOf(c))), |h| + 1))
      && (!Appends(book, c) ==> e.writeSet == map[])
      && (!Appends(book, c) && Accepts(c) ==> h != [] && e.result == Ok(json.encode(h[|h| - 1])))
  {
    if Accepts(c) {
      AcceptedFromBook(json, world, book, c);
    } else {
      SimulateCases(json, world, c);
    }
  }

  lemma AcceptedFromBook(json: Json, world: World, book: Book, c: Call)
    requires json.Faithful() && Represents(json, world, book) && Accepts(c)
    ensures var e, h := Simulate(json, world, c), HistoryOf(book, IdOf(c));
      && e.result.Ok?
      && (if Appends(book, c) then e == Append(json, c, Name(LatestOf(IdOf(c))), |h| + 1)
          else e.writeSet == map[] && h != [] && e.result == Ok(json.encode(h[|h| - 1])))
  {
    var r := IdOf(c);
    var h := HistoryOf(book, r);
    SimulateCases(json, world, c);
    AppendSucceeds(json, c, Name(LatestOf(r)), |h| + 1);
    LatestStored(json, world, book, r);
    NextVersionFromHistory(json, h, Get(world, Name(LatestOf(r))), c.digest);
  }

  lemma AppendSucceeds(json: Json, c: Call, key: string, version: int)
    requires ValidId(IdOf(c))
    ensures Append(json, c, key, version).result.Ok?
  {
    HistoryKeyOf(IdOf(c), version);
  }

  /** An appending call sets the latest cell of its record and one new version cell. */
  lemma ContentAfter(json: Json, book: Book, c: Call, cell: Cell)
    requires Appends(book, c)
    ensures var n := |HistoryOf(book, IdOf(c))| + 1;
      Content(json, Notarize(book, c), cell) ==
        if cell == LatestOf(IdOf(c)) || cell == VersionOf(IdOf(c), n) then Some(json.encode(EntryFor(c, n)))
        else Content(json, book, cell)
  {
    HistoryAfter(book, c, cell.r);
  }

  lemma LookupAfter(world: World, first: string, second: string, encoded: string, key: string)
    ensures Lookup(world + map[first := encoded][second := encoded], key) ==
      if key == first || key == second then Some(encoded) else Lookup(world, key)
  {
  }

  /** Writing the two cells of a new version appends it to the history the store stands for. */
  lemma AppendRefines(name: Cell -> string, json: Json, world: World, book: Book, c: Call, encoded: string)
    requires Injective(name) && Stores(name, json, world, book) && Appends(book, c)
    requires encoded == json.encode(EntryFor(c, |HistoryOf(book, IdOf(c))| + 1))
    ensures
      var latest, version := LatestOf(IdOf(c)), VersionOf(IdOf(c), |HistoryOf(book, IdOf(c))| + 1);
      Stores(name, json, world + map[name(latest) := encoded][name(version) := encoded], Notarize(book, c))
  {
    var latest, version := LatestOf(IdOf(c)), VersionOf(IdOf(c), |HistoryOf(book, IdOf(c))| + 1);
    var world' := world + map[name(latest) := encoded][name(version) := encoded];
    assert ValidCell(latest) && ValidCell(version);
    forall cell | ValidCell(cell) ensures Lookup(world', name(cell)) == Content(json, Notarize(book, c), cell) {
      LookupAfter(world, name(latest), name(version), encoded, name(cell));
      ContentAfter(json, book, c, cell);
    }
    forall key | key in world' ensures exists cell :: ValidCell(cell) && key == name(cell) {
      assert key in world || key == name(latest) || key == name(version);
    }
  }

  /** One call refines the intended append, on every state the invariant describes. */
  lemma NotarizeRefines(json: Json, world: World, book: Book, c: Call)
    requires json.Faithful() && Represents(json, world, book)
    ensures Represents(json, world + Simulate(json, world, c).writeSet, Notarize(book, c))
  {
    SimulateFromBook(json, world, book, c);
    NotarizeKeepsWellFormed(book, c);
    if Appends(book, c) {
      var n := |HistoryOf(book, IdOf(c))| + 1;
      HistoryKeyOf(IdOf(c), n);
      CellNamesInjective();
      AppendRefines(Name, json, world, book, c, json.encode(EntryFor(c, n)));
    } else {
      assert world + map[] == world;
    }
  }

  // ---- Whole runs ----------------------------------------------------------

  /** The world after a run, each call committed before the next is simulated. */
  function RunWorld(json: Json, calls: seq<Call>): World {
    if calls == [] then map[]
    else
      var world := RunWorld(json, calls[..|calls| - 1]);
      world + Simulate(json, world, calls[|calls| - 1]).writeSet
  }

  function RunBook(calls: seq<Call>): Book {
    if calls == [] then map[] else Notarize(RunBook(calls[..|calls| - 1]), calls[|calls| - 1])
  }

  lemma {:induction false} RunRefines(json: Json, calls: seq<Call>)
    requires json.Faithful()
    ensures Represents(json, RunWorld(json, calls), RunBook(calls))
  {
    if calls != [] {
      var before := calls[..|calls| - 1];
      RunRefines(json, before);
      NotarizeRefines(json, RunWorld(json, before), RunBook(before), calls[|calls| - 1]);
    }
  }

  // ---- What a history is, read off the submissions alone --------------------

  /** The accepted submissions for one record, in order. */
  function Submitted(calls: seq<Call>, r: RecordId): seq<Call> {
    if calls == [] then []
    else
      var before, last := Submitted(calls[..|calls| - 1], r), calls[|calls| - 1];
      if Accepts(last) && IdOf(last) == r then before + [last] else before
  }

  /** The first submission of each block of consecutive equal digests. */
  function BlockHeads(cs: seq<Call>): seq<Call> {
    if |cs| <= 1 then cs
    else
      var before, last := BlockHeads(cs[..|cs| - 1]), cs[|cs| - 1];
      if cs[|cs| - 2].digest != last.digest then before + [last] else before
  }

  /** The entries those submissions become, numbered from 1. */
  function Entries(heads: seq<Call>): (h: seq<Notarization>)
    ensures |h| == |heads|
  {
    if heads == [] then []
    else Entries(heads[..|heads| - 1]) + [EntryFor(heads[|heads| - 1], |heads|)]
  }

  /** Every entry is the submission it stands for, field by field, under its version. */
  lemma {:induction false} EntriesKeep(heads: seq<Call>, i: nat)
    requires i < |heads|
    ensures var e, c := Entries(heads)[i], heads[i];
      && e.version == i + 1 && e.digest == c.digest && e.metadata == c.metadata
      && e.recordType == c.recordType && e.recordId == c.recordId
      && e.txId == c.txId && e.notarizedAt == c.notarizedAt
  {
    if i < |heads| - 1 { EntriesKeep(heads[..|heads| - 1], i); }
  }

  lemma {:induction false} LastHead(cs: seq<Call>)
    requires cs != []
    ensures BlockHeads(cs) != []
    ensures BlockHeads(cs)[|BlockHeads(cs)| - 1].digest == cs[|cs| - 1].digest
  {
    if |cs| > 1 { LastHead(cs[..|cs| - 1]); }
  }

  lemma HeadsAppend(cs: seq<Call>, c: Call)
    ensures BlockHeads(cs + [c]) ==
      if cs == [] || cs[|cs| - 1].digest != c.digest then BlockHeads(cs) + [c] else BlockHeads(cs)
  {
    assert (cs + [c])[..|cs|] == cs;
  }

  /** Appending to the entries is what one more submission does to them. */
  lemma EntriesAppend(cs: seq<Call>, c: Call)
    ensures var h := Entries(BlockHeads(cs));
      Entries(BlockHeads(cs + [c])) ==
        if h == [] || h[|h| - 1].digest != c.digest then h + [EntryFor(c, |h| + 1)] else h
  {
    HeadsAppend(cs, c);
    if cs != [] { LastHead(cs); }
    assert (BlockHeads(cs) + [c])[..|BlockHeads(cs)|] == BlockHeads(cs);
  }

  /** After any run, a record's history is its submissions with consecutive duplicates collapsed. */
  lemma {:induction false} HistoryCollapsesSubmissions(calls: seq<Call>, r: RecordId)
    ensures HistoryOf(RunBook(calls), r) == Entries(BlockHeads(Submitted(calls, r)))
  {
    if calls != [] {
      var before, c := calls[..|calls| - 1], calls[|calls| - 1];
      HistoryCollapsesSubmissions(before, r);
      HistoryAfter(RunBook(before), c, r);
      OneMoreCall(HistoryOf(RunBook(before), r), c, Accepts(c) && IdOf(c) == r, Submitted(before, r));
    }
  }

  lemma OneMoreCall(h: seq<Notarization>, c: Call, taken: bool, cs: seq<Call>)
    requires h == Entries(BlockHeads(cs))
    ensures Entries(BlockHeads(if taken then cs + [c] else cs)) ==
      if taken && (h == [] || h[|h| - 1].digest != c.digest) then h + [EntryFor(c, |h| + 1)] else h
  {
    EntriesAppend(cs, c);
  }

  // ---- Reading a history back ----------------------------------------------

  function VersionKeys(r: RecordId, n: nat): (keys: seq<string>)
    ensures |keys| == n && forall i :: 0 <= i < n ==> keys[i] == Name(VersionOf(r, i + 1))
  {
    seq(n, i requires 0 <= i < n => Name(VersionOf(r, i + 1)))
  }

  lemma NameOfVersion(r: RecordId, v: int)
    ensures Name(VersionOf(r, v)) == HistoryPrefix(r) + (Format09d(v) + [MIN_RUNE])
  {
    var leading, rest := [HISTORY_NAMESPACE, r.0, r.1], [Format09d(v)];
    assert leading + rest == [HISTORY_NAMESPACE, r.0, r.1, Format09d(v)];
    JoinAppend(leading, rest);
    assert Join(rest) == Format09d(v) + [MIN_RUNE] + Join(rest[1..]) == Format09d(v) + [MIN_RUNE];
  }

  /** Ending both strings with the least character keeps their order. */
  lemma {:induction false} LessEnded(a: string, b: string)
    requires Less(a, b) && forall c :: c in b ==> c > MIN_RUNE
    ensures Less(a + [MIN_RUNE], b + [MIN_RUNE])
  {
    assert b[0] in b;
    if a != [] && a[0] == b[0] {
      assert forall c :: c in b[1..] ==> c in b;
      LessEnded(a[1..], b[1..]);
      assert (a + [MIN_RUNE])[1..] == a[1..] + [MIN_RUNE] && (b + [MIN_RUNE])[1..] == b[1..] + [MIN_RUNE];
    }
  }

  lemma VersionKeyLess(r: RecordId, v: int, w: int)
    requires Less(Format09d(v), Format09d(w))
    ensures Less(Name(VersionOf(r, v)), Name(VersionOf(r, w)))
  {
    NameOfVersion(r, v);
    NameOfVersion(r, w);
    LessEnded(Format09d(v), Format09d(w));
    LessCommonPrefix(HistoryPrefix(r), Format09d(v) + [MIN_RUNE], Format09d(w) + [MIN_RUNE]);
  }

  lemma VersionKeysSorted(r: RecordId, n: nat)
    requires n < BILLION
    ensures SortedBy(Less, VersionKeys(r, n))
  {
    forall i, j | 0 <= i < j < n ensures Less(VersionKeys(r, n)[i], VersionKeys(r, n)[j]) {
      VersionOrder(r, i + 1, j + 1);
    }
  }

  lemma VersionOrder(r: RecordId, v: nat, w: nat)
    requires v < w < BILLION
    ensures Less(Name(VersionOf(r, v)), Name(VersionOf(r, w)))
  {
    FormatMonotone(v, w);
    VersionKeyLess(r, v, w);
  }

  /** A scan sees the version keys of the record asked for and no other key of the store. */
  lemma ScanSeesVersions(json: Json, world: World, book: Book, r: RecordId)
    requires Represents(json, world, book) && ValidId(r)
    ensures SameElements(ScannedKeys(world, HistoryPrefix(r)), VersionKeys(r, |HistoryOf(book, r)|))
  {
    var keys := VersionKeys(r, |HistoryOf(book, r)|);
    forall k ensures k in world && InScan(HistoryPrefix(r), k) <==> k in keys {
      if k in keys {
        var i :| 0 <= i < |keys| && keys[i] == k;
        ScanIsolation(r, VersionOf(r, i + 1));
        CellContent(json, world, book, VersionOf(r, i + 1));
      }
      if k in world && InScan(HistoryPrefix(r), k) {
        var cell := CellOf(json, world, book, k);
        ScanIsolation(r, cell);
        assert keys[cell.version - 1] == k;
      }
    }
  }

  /** Every key of the store names a cell the book fills. */
  lemma CellOf(json: Json, world: World, book: Book, key: string) returns (cell: Cell)
    requires Represents(json, world, book) && key in world
    ensures ValidCell(cell) && key == Name(cell) && Content(json, book, cell).Some?
  {
    cell :| ValidCell(cell) && key == Name(cell);
    CellContent(json, world, book, cell);
  }

  lemma {:induction false} DecodeEntries(json: Json, world: World, keys: seq<string>, h: seq<Notarization>)
    requires json.Faithful() && |keys| == |h|
    requires forall i :: 0 <= i < |h| ==> Get(world, keys[i]) == json.encode(h[i])
    ensures DecodeAll(json, world, keys) == Ok(h)
  {
    if keys != [] {
      DecodeEntries(json, world, keys[1..], h[1..]);
      assert json.decode(json.encode(h[0])) == Some(h[0]);
      assert h == [h[0]] + h[1..];
    }
  }

  /** Read through its version keys in numeric order, a history decodes to itself. */
  lemma DecodeVersionKeys(json: Json, world: World, book: Book, r: RecordId)
    requires json.Faithful() && Represents(json, world, book) && ValidId(r)
    ensures DecodeAll(json, world, VersionKeys(r, |HistoryOf(book, r)|)) == Ok(HistoryOf(book, r))
  {
    var h := HistoryOf(book, r);
    var keys := VersionKeys(r, |h|);
    forall i | 0 <= i < |h| ensures Get(world, keys[i]) == json.encode(h[i]) {
      CellContent(json, world, book, VersionOf(r, i + 1));
    }
    DecodeEntries(json, world, keys, h);
  }
}
