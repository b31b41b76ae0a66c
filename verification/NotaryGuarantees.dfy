/** What an auditor may rely on, stated over the chaincode's own entry points. */
module NotaryGuarantees {
  import opened CompositeKey
  import opened Decimal
  import opened Lex
  import opened Notary
  import opened NotaryBook
  import opened Wrappers

  /** A reachable state keeps every record's versions at 1..n with neighbours differing, and GetRecord answers entry n. */
  lemma LatestIsLastEntry(json: Json, calls: seq<Call>, r: RecordId)
    requires json.Faithful() && ValidId(r)
    ensures var h := Entries(BlockHeads(Submitted(calls, r)));
      && (h != [] ==> WellFormedHistory(r, h))
      && GetRecord(RunWorld(json, calls), r.0, r.1) ==
           Ok(if h == [] then NeverNotarized(r.0, r.1) else Stored(json.encode(h[|h| - 1])))
  {
    RunRefines(json, calls);
    HistoryCollapsesSubmissions(calls, r);
    CellContent(json, RunWorld(json, calls), RunBook(calls), LatestOf(r));
    RecordKeyOf(r);
  }

  // ---- Reading the whole history -------------------------------------------

  lemma {:induction false} DecodedAt(json: Json, world: World, keys: seq<string>, h: seq<Notarization>)
    requires DecodeAll(json, world, keys) == Ok(h)
    ensures |h| == |keys|
    ensures forall i :: 0 <= i < |keys| ==> json.decode(Get(world, keys[i])) == Some(h[i])
  {
    if keys != [] {
      var rest := DecodeAll(json, world, keys[1..]);
      DecodedAt(json, world, keys[1..], rest.value);
      assert h[1..] == rest.value;
    }
  }

  /** The bytes under a version key decode to the entry of that version. */
  lemma VersionDecodes(json: Json, world: World, book: Book, r: RecordId, v: nat)
    requires json.Faithful() && Represents(json, world, book) && ValidId(r)
    requires 1 <= v <= |HistoryOf(book, r)|
    ensures json.decode(Get(world, Name(VersionOf(r, v)))) == Some(HistoryOf(book, r)[v - 1])
    ensures HistoryOf(book, r)[v - 1].version == v
  {
    CellContent(json, world, book, VersionOf(r, v));
  }

  /** Which keys come back decides what comes back: the key at i holds the entry of version i + 1. */
  lemma DecodedInOrder(json: Json, world: World, book: Book, r: RecordId, keys: seq<string>)
    requires json.Faithful() && Represents(json, world, book) && ValidId(r)
    requires SameElements(keys, VersionKeys(r, |HistoryOf(book, r)|))
    requires DecodeAll(json, world, keys) == Ok(HistoryOf(book, r))
    ensures keys == VersionKeys(r, |HistoryOf(book, r)|)
  {
    var h := HistoryOf(book, r);
    var ordered := VersionKeys(r, |h|);
    DecodedAt(json, world, keys, h);
    forall i | 0 <= i < |keys| ensures keys[i] == ordered[i] {
      assert keys[i] in ordered;
      KeyOfEntry(json, world, book, r, keys[i], i);
    }
  }

  /** A version key that holds the entry at i is the key of version i + 1. */
  lemma KeyOfEntry(json: Json, world: World, book: Book, r: RecordId, key: string, i: nat)
    requires json.Faithful() && Represents(json, world, book) && ValidId(r) && i < |HistoryOf(book, r)|
    requires key in VersionKeys(r, |HistoryOf(book, r)|)
    requires json.decode(Get(world, key)) == Some(HistoryOf(book, r)[i])
    ensures key == VersionKeys(r, |HistoryOf(book, r)|)[i]
  {
    var ordered := VersionKeys(r, |HistoryOf(book, r)|);
    var j :| 0 <= j < |ordered| && ordered[j] == key;
    VersionDecodes(json, world, book, r, j + 1);
    VersionDecodes(json, world, book, r, i + 1);
  }

  lemma VersionKeysUnsorted(r: RecordId, n: nat)
    requires n >= BILLION
    ensures !SortedBy(Less, VersionKeys(r, n))
  {
    var keys := VersionKeys(r, n);
    FormatWrapsAtBillion();
    VersionKeyLess(r, BILLION, BILLION - 1);
    if SortedBy(Less, keys) {
      assert Less(keys[BILLION - 2], keys[BILLION - 1]);
      LessAsymmetric(keys[BILLION - 2], keys[BILLION - 1]);
    }
  }

  lemma HistoryScan(json: Json, world: World, r: RecordId)
    requires ValidId(r)
    ensures RecordHistory(json, world, r.0, r.1) == DecodeAll(json, world, ScannedKeys(world, HistoryPrefix(r)))
  {
    HistoryPrefixOf(r);
  }

  /** Scanned in key order, a history comes back in version order exactly below a billion versions. */
  lemma HistoryInOrderIff(json: Json, world: World, book: Book, r: RecordId)
    requires json.Faithful() && Represents(json, world, book) && ValidId(r)
    ensures RecordHistory(json, world, r.0, r.1) == Ok(HistoryOf(book, r)) <==> |HistoryOf(book, r)| < BILLION
  {
    var h := HistoryOf(book, r);
    var scanned, ordered := ScannedKeys(world, HistoryPrefix(r)), VersionKeys(r, |h|);
    HistoryScan(json, world, r);
    ScanSeesVersions(json, world, book, r);
    if |h| < BILLION {
      VersionKeysSorted(r, |h|);
      forall a, b | Less(a, b) ensures !Less(b, a) { LessAsymmetric(a, b); }
      SortedUnique(Less, scanned, ordered);
      DecodeVersionKeys(json, world, book, r);
    } else {
      VersionKeysUnsorted(r, |h|);
      if RecordHistory(json, world, r.0, r.1) == Ok(h) {
        DecodedInOrder(json, world, book, r, scanned);
      }
    }
  }

  /**
   After any run over any mix of records, GetRecordHistory returns a record's submissions
   with consecutive duplicates collapsed, oldest first, exactly while there are fewer
   than a billion versions.
   */
  lemma HistoryIsCollapsedSubmissions(json: Json, calls: seq<Call>, r: RecordId)
    requires json.Faithful() && ValidId(r)
    ensures var h := Entries(BlockHeads(Submitted(calls, r)));
      RecordHistory(json, RunWorld(json, calls), r.0, r.1) == Ok(h) <==> |h| < BILLION
  {
    RunRefines(json, calls);
    HistoryCollapsesSubmissions(calls, r);
    HistoryInOrderIff(json, RunWorld(json, calls), RunBook(calls), r);
  }

  lemma {:induction false} AsciiLength(s: string)
    requires forall i :: 0 <= i < |s| ==> s[i] < 0x80 as char
    ensures ByteLength(s) == |s|
  {
    if s != "" { AsciiLength(s[..|s| - 1]); }
  }

  /** One of two digests, by turns. */
  function Turn(n: nat): (digest: string)
    ensures ByteLength(digest) == 64
  {
    var digest := seq(64, _ => if n % 2 == 0 then 'a' else 'b');
    AsciiLength(digest);
    digest
  }

  function OfTurn(r: RecordId, n: nat): Call {
    Call(r.0, r.1, Turn(n), "", "", "")
  }

  function ByTurns(r: RecordId, n: nat): (calls: seq<Call>)
    ensures |calls| == n
  {
    seq(n, i requires 0 <= i < n => OfTurn(r, i))
  }

  lemma {:induction false} AllSubmitted(calls: seq<Call>, r: RecordId)
    requires forall i :: 0 <= i < |calls| ==> Accepts(calls[i]) && IdOf(calls[i]) == r
    ensures Submitted(calls, r) == calls
  {
    if calls != [] { AllSubmitted(calls[..|calls| - 1], r); }
  }

  lemma {:induction false} AllHeads(calls: seq<Call>)
    requires forall i :: 0 < i < |calls| ==> calls[i - 1].digest != calls[i].digest
    ensures BlockHeads(calls) == calls
  {
    if |calls| > 1 { AllHeads(calls[..|calls| - 1]); }
  }

  lemma TurnsDiffer(n: nat)
    ensures Turn(n) != Turn(n + 1)
  {
    assert Turn(n)[0] != Turn(n + 1)[0];
  }

  /** Both cases occur: two digests submitted by turns make a history of any length. */
  lemma HistoriesOfAnyLength(json: Json, r: RecordId, n: nat)
    requires json.Faithful() && ValidId(r) && r.0 != "" && r.1 != ""
    ensures var h := Entries(BlockHeads(Submitted(ByTurns(r, n), r)));
      && |h| == n
      && (RecordHistory(json, RunWorld(json, ByTurns(r, n)), r.0, r.1) == Ok(h) <==> n < BILLION)
  {
    var calls := ByTurns(r, n);
    forall i | 0 < i < n ensures calls[i - 1].digest != calls[i].digest { TurnsDiffer(i - 1); }
    AllSubmitted(calls, r);
    AllHeads(calls);
    HistoryIsCollapsedSubmissions(json, ByTurns(r, n), r);
  }

  /** Past that bound only the order suffers: no entry is missing and none is foreign. */
  lemma HistoryComplete(json: Json, calls: seq<Call>, r: RecordId)
    requires json.Faithful() && ValidId(r)
    ensures var result := RecordHistory(json, RunWorld(json, calls), r.0, r.1);
      result.Ok? && SameElements(result.value, Entries(BlockHeads(Submitted(calls, r))))
  {
    RunRefines(json, calls);
    HistoryCollapsesSubmissions(calls, r);
    var world, book := RunWorld(json, calls), RunBook(calls);
    HistoryScan(json, world, r);
    ScanSeesVersions(json, world, book, r);
    DecodeRearranged(json, world, book, r, ScannedKeys(world, HistoryPrefix(r)));
  }

  lemma DecodeRearranged(json: Json, world: World, book: Book, r: RecordId, keys: seq<string>)
    requires json.Faithful() && Represents(json, world, book) && ValidId(r)
    requires SameElements(keys, VersionKeys(r, |HistoryOf(book, r)|))
    ensures DecodeAll(json, world, keys).Ok?
    ensures SameElements(DecodeAll(json, world, keys).value, HistoryOf(book, r))
  {
    var h := HistoryOf(book, r);
    var ordered := VersionKeys(r, |h|);
    VersionsDecode(json, world, book, r, keys);
    AllDecode(json, world, keys);
    var found := DecodeAll(json, world, keys).value;
    DecodedAt(json, world, keys, found);
    forall i | 0 <= i < |found| ensures found[i] in h {
      assert keys[i] in ordered;
      VersionHeld(json, world, book, r, keys[i], found[i]);
    }
    forall j | 0 <= j < |h| ensures h[j] in found {
      assert ordered[j] in keys;
      var i :| 0 <= i < |keys| && keys[i] == ordered[j];
      VersionDecodes(json, world, book, r, j + 1);
    }
  }

  lemma VersionHeld(json: Json, world: World, book: Book, r: RecordId, key: string, entry: Notarization)
    requires json.Faithful() && Represents(json, world, book) && ValidId(r)
    requires key in VersionKeys(r, |HistoryOf(book, r)|) && json.decode(Get(world, key)) == Some(entry)
    ensures entry in HistoryOf(book, r)
  {
    var ordered := VersionKeys(r, |HistoryOf(book, r)|);
    var j :| 0 <= j < |ordered| && ordered[j] == key;
    VersionDecodes(json, world, book, r, j + 1);
  }

  lemma VersionsDecode(json: Json, world: World, book: Book, r: RecordId, keys: seq<string>)
    requires json.Faithful() && Represents(json, world, book) && ValidId(r)
    requires SameElements(keys, VersionKeys(r, |HistoryOf(book, r)|))
    ensures forall k :: k in keys ==> json.decode(Get(world, k)).Some?
  {
    var ordered := VersionKeys(r, |HistoryOf(book, r)|);
    forall k | k in keys ensures json.decode(Get(world, k)).Some? {
      var j :| 0 <= j < |ordered| && ordered[j] == k;
      VersionDecodes(json, world, book, r, j + 1);
    }
  }

  lemma {:induction false} AllDecode(json: Json, world: World, keys: seq<string>)
    requires forall k :: k in keys ==> json.decode(Get(world, k)).Some?
    ensures DecodeAll(json, world, keys).Ok?
  {
    if keys != [] {
      assert keys[0] in keys && forall k :: k in keys[1..] ==> k in keys;
      AllDecode(json, world, keys[1..]);
    }
  }

  // ---- What one call writes -----------------------------------------------------

  /** The length in bytes, character by character. */
  lemma {:induction false} ByteLengthAdds(a: string, b: string)
    ensures ByteLength(a + b) == ByteLength(a) + ByteLength(b)
  {
    if b == "" {
      assert a + b == a;
    } else {
      ByteLengthAdds(a, b[..|b| - 1]);
      assert (a + b)[..|a + b| - 1] == a + b[..|b| - 1];
    }
  }

  lemma ByteLengthOfOne(c: char)
    ensures ByteLength([c]) ==
      if c <= '\U{7F}' then 1 else if c <= '\U{7FF}' then 2 else if c <= '\U{FFFF}' then 3 else 4
  {
  }

  /**
   After any run a call with an ASCII digest succeeds iff that has 64 characters and the record is
   named in characters a key may have; otherwise nothing is written.
   */
  lemma TakenIff(json: Json, calls: seq<Call>, c: Call)
    requires json.Faithful() && forall i :: 0 <= i < |c.digest| ==> c.digest[i] <= '\U{7F}'
    ensures var e := Simulate(json, RunWorld(json, calls), c);
      && (e.result.Ok? <==>
            && c.recordType != "" && c.recordId != "" && |c.digest| == 64
            && '\0' !in c.recordType && '\U{10FFFF}' !in c.recordType && '\0' !in c.recordId && '\U{10FFFF}' !in c.recordId)
      && (e.result.Err? ==> e.writeSet == map[])
  {
    AsciiLength(c.digest);
    RunRefines(json, calls);
    SimulateFromBook(json, RunWorld(json, calls), RunBook(calls), c);
  }

  /** On any store, what a call is told that lacks a part, or whose digest has the wrong length. */
  lemma RefusalSays(json: Json, world: World, c: Call)
    ensures var result := Simulate(json, world, c).result;
      if c.recordType == "" || c.recordId == "" || c.digest == "" then
        result == Err("recordType, recordId and digest are all required")
      else
        ByteLength(c.digest) != 64 ==> result == Err("digest must be a 64-character sha256 hex string")
  {
  }

  /** The text of a key: every part ends in U+0000. */
  lemma KeyOfText(kind: string, a: string, b: string, tail: seq<string>)
    ensures KeyOf([kind, a, b] + tail) == ("\0" + kind + "\0") + a + "\0" + b + "\0" + Join(tail)
  {
    var two, three := [b] + tail, [a, b] + tail;
    JoinFirst(b, tail);
    assert three == [a] + two;
    JoinFirst(a, two);
    assert [kind, a, b] + tail == [kind] + three;
    JoinFirst(kind, three);
    TextsTogether(kind, a, b, Join(tail), Join(two), Join(three));
  }

  lemma TextsTogether(kind: string, a: string, b: string, one: string, two: string, three: string)
    requires two == b + "\0" + one && three == a + "\0" + two
    ensures "\0" + (kind + "\0" + three) == ("\0" + kind + "\0") + a + "\0" + b + "\0" + one
  {
  }

  lemma JoinFirst(part: string, rest: seq<string>)
    ensures Join([part] + rest) == part + "\0" + Join(rest)
  {
    assert ([part] + rest)[1..] == rest;
  }

  lemma LatestKeyText(r: RecordId)
    ensures Name(LatestOf(r)) == "\0notarization\0" + r.0 + "\0" + r.1 + "\0"
  {
    KeyOfText("notarization", r.0, r.1, []);
    assert ["notarization", r.0, r.1] + [] == ["notarization", r.0, r.1];
    assert "\0" + "notarization" + "\0" == "\0notarization\0";
  }

  lemma VersionKeyText(r: RecordId, v: int)
    ensures Name(VersionOf(r, v)) == "\0notarization-history\0" + r.0 + "\0" + r.1 + "\0" + (Format09d(v) + "\0")
  {
    var tail := [Format09d(v)];
    KeyOfText("notarization-history", r.0, r.1, tail);
    assert ["notarization-history", r.0, r.1] + tail == ["notarization-history", r.0, r.1, Format09d(v)];
    assert "\0" + "notarization-history" + "\0" == "\0notarization-history\0";
    assert tail[1..] == [] && Join(tail) == Format09d(v) + "\0";
  }

  /**
   After any run a call that succeeds either repeats the latest digest of its record and writes
   nothing, or writes its entry, with the next version, under the record's key and under the key of
   that version, and under no other.
   */
  lemma TakenWrites(json: Json, calls: seq<Call>, c: Call)
    requires json.Faithful() && Simulate(json, RunWorld(json, calls), c).result.Ok?
    ensures var e, h := Simulate(json, RunWorld(json, calls), c), Entries(BlockHeads(Submitted(calls, IdOf(c))));
      var entry := Notarization(c.recordType, c.recordId, c.digest, c.metadata, c.txId, c.notarizedAt, |h| + 1);
      if h != [] && h[|h| - 1].digest == c.digest then
        e.writeSet == map[] && e.result == Ok(json.encode(h[|h| - 1]))
      else
        && e.result == Ok(json.encode(entry))
        && e.writeSet == map[
             "\0notarization\0" + c.recordType + "\0" + c.recordId + "\0" := json.encode(entry)][
             "\0notarization-history\0" + c.recordType + "\0" + c.recordId + "\0" + (Format09d(|h| + 1) + "\0") :=
               json.encode(entry)]
  {
    var h := Entries(BlockHeads(Submitted(calls, IdOf(c))));
    RunRefines(json, calls);
    HistoryCollapsesSubmissions(calls, IdOf(c));
    SimulateFromBook(json, RunWorld(json, calls), RunBook(calls), c);
    if Appends(RunBook(calls), c) {
      HistoryKeyOf(IdOf(c), |h| + 1);
      LatestKeyText(IdOf(c));
      VersionKeyText(IdOf(c), |h| + 1);
    }
  }

  // ---- Isolation and immutability ------------------------------------------

  lemma WritesOwnCells(json: Json, world: World, c: Call, key: string)
    requires key in Simulate(json, world, c).writeSet
    ensures ValidId(IdOf(c))
    ensures exists cell :: ValidCell(cell) && cell.r == IdOf(c) && key == Name(cell)
  {
    var latest := Name(LatestOf(IdOf(c)));
    SimulateCases(json, world, c);
    var next := NextVersion(json, Get(world, latest), c.digest);
    if next.Ok? && next.value.Some? { AppendWritesCells(json, c, next.value.value, key); }
  }

  lemma AppendWritesCells(json: Json, c: Call, version: int, key: string)
    requires ValidId(IdOf(c)) && key in Append(json, c, Name(LatestOf(IdOf(c))), version).writeSet
    ensures exists cell :: ValidCell(cell) && cell.r == IdOf(c) && key == Name(cell)
  {
    HistoryKeyOf(IdOf(c), version);
    var latest, newest := LatestOf(IdOf(c)), VersionOf(IdOf(c), version);
    assert ValidCell(latest) && ValidCell(newest);
    assert key == Name(latest) || key == Name(newest);
  }

  lemma {:induction false} DecodeFrame(json: Json, world: World, world': World, keys: seq<string>)
    requires forall k :: k in keys ==> Get(world, k) == Get(world', k)
    ensures DecodeAll(json, world, keys) == DecodeAll(json, world', keys)
  {
    if keys != [] {
      assert keys[0] in keys && forall k :: k in keys[1..] ==> k in keys;
      DecodeFrame(json, world, world', keys[1..]);
    }
  }

  /** Writes outside a scanned range leave what the scan decodes to. */
  lemma ScanFrame(json: Json, world: World, written: World, partial: string)
    requires forall key :: key in written ==> !InScan(partial, key)
    ensures DecodeAll(json, world + written, ScannedKeys(world + written, partial)) ==
            DecodeAll(json, world, ScannedKeys(world, partial))
  {
    var world' := world + written;
    assert (set k | k in world && InScan(partial, k)) == (set k | k in world' && InScan(partial, k));
    DecodeFrame(json, world, world', ScannedKeys(world, partial));
  }

  lemma WritesElsewhere(json: Json, world: World, c: Call, r: RecordId)
    requires ValidId(r) && r != IdOf(c)
    ensures forall key :: key in Simulate(json, world, c).writeSet ==>
      key != Name(LatestOf(r)) && !InScan(HistoryPrefix(r), key)
  {
    forall key | key in Simulate(json, world, c).writeSet
      ensures key != Name(LatestOf(r)) && !InScan(HistoryPrefix(r), key)
    {
      WritesOwnCells(json, world, c, key);
      var cell :| ValidCell(cell) && cell.r == IdOf(c) && key == Name(cell);
      NameInjective(LatestOf(r), cell);
      ScanIsolation(r, cell);
    }
  }

  /** On any store whatever, a call leaves what every other record reads unchanged. */
  lemma OtherRecordsUnchanged(json: Json, world: World, c: Call, r: RecordId)
    requires ValidId(r) && r != IdOf(c)
    ensures var world' := world + Simulate(json, world, c).writeSet;
      && GetRecord(world', r.0, r.1) == GetRecord(world, r.0, r.1)
      && RecordHistory(json, world', r.0, r.1) == RecordHistory(json, world, r.0, r.1)
  {
    WritesElsewhere(json, world, c, r);
    RecordUnchanged(world, Simulate(json, world, c).writeSet, r);
    HistoryUnchanged(json, world, Simulate(json, world, c).writeSet, r);
  }

  lemma RecordUnchanged(world: World, written: World, r: RecordId)
    requires ValidId(r) && Name(LatestOf(r)) !in written
    ensures GetRecord(world + written, r.0, r.1) == GetRecord(world, r.0, r.1)
  {
    RecordKeyOf(r);
  }

  lemma HistoryUnchanged(json: Json, world: World, written: World, r: RecordId)
    requires ValidId(r) && forall key :: key in written ==> !InScan(HistoryPrefix(r), key)
    ensures RecordHistory(json, world + written, r.0, r.1) == RecordHistory(json, world, r.0, r.1)
  {
    ScanFrame(json, world, written, HistoryPrefix(r));
    HistoryScan(json, world, r);
    HistoryScan(json, world + written, r);
  }

  /** In a reachable state no call touches an existing history cell, of any record. */
  lemma HistoryCellsImmutable(json: Json, calls: seq<Call>, c: Call, r: RecordId, v: int)
    requires json.Faithful() && ValidId(r)
    requires Name(VersionOf(r, v)) in RunWorld(json, calls)
    ensures Name(VersionOf(r, v)) !in Simulate(json, RunWorld(json, calls), c).writeSet
  {
    var world, book := RunWorld(json, calls), RunBook(calls);
    RunRefines(json, calls);
    CellContent(json, world, book, VersionOf(r, v));
    SimulateFromBook(json, world, book, c);
    if Appends(book, c) {
      var n := |HistoryOf(book, IdOf(c))| + 1;
      HistoryKeyOf(IdOf(c), n);
      NameInjective(VersionOf(r, v), LatestOf(IdOf(c)));
      NameInjective(VersionOf(r, v), VersionOf(IdOf(c), n));
    }
  }

  /** Continuing a run only ever extends a history. */
  lemma {:induction false} HistoryOnlyGrows(calls: seq<Call>, more: seq<Call>, r: RecordId)
    ensures HistoryOf(RunBook(calls), r) <= HistoryOf(RunBook(calls + more), r)
  {
    if more == [] {
      assert calls + more == calls;
    } else {
      var before, c := more[..|more| - 1], more[|more| - 1];
      HistoryOnlyGrows(calls, before, r);
      assert (calls + more)[..|calls + more| - 1] == calls + before;
      HistoryAfter(RunBook(calls + before), c, r);
    }
  }
}
