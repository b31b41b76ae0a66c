/**
 The notarization chaincode (chaincode/trustnotary/main.go): two entry points that
 read the world state and one that writes a latest record and a versioned history.
 */
module Notary {
  import opened CompositeKey
  import opened Decimal
  import opened Lex
  import opened Wrappers

  const RECORD_NAMESPACE := "notarization"
  const HISTORY_NAMESPACE := "notarization-history"
  const DIGEST_LENGTH := 64

  datatype Notarization = Notarization(
    recordType: string, recordId: string, digest: string, metadata: string,
    txId: string, notarizedAt: string, version: int)

  /** One NotarizeRecord proposal, with the id and timestamp Fabric gives the transaction. */
  datatype Call = Call(
    recordType: string, recordId: string, digest: string, metadata: string,
    txId: string, notarizedAt: string)

  /** The JSON encoding of a notarization, kept abstract. */
  datatype Json = Json(encode: Notarization -> string, decode: string -> Option<Notarization>) {
    ghost predicate Faithful() {
      forall n :: encode(n) != "" && decode(encode(n)) == Some(n)
    }
  }

  type World = map<string, string>

  /** GetState answers no bytes for an absent key. */
  function Get(world: World, key: string): string {
    if key in world then world[key] else ""
  }

  /** What simulating a proposal yields: its response and its read and write sets. */
  datatype Endorsement = Endorsement(result: Result<string>, readSet: set<string>, writeSet: World)

  /** What GetRecord answers: the stored bytes, or an explicit "never notarized". */
  datatype Latest = NeverNotarized(recordType: string, recordId: string) | Stored(payload: string)

  function RecordKey(recordType: string, recordId: string): Result<string> {
    CreateCompositeKey(RECORD_NAMESPACE, [recordType, recordId])
  }

  function HistoryKey(recordType: string, recordId: string, version: int): Result<string> {
    CreateCompositeKey(HISTORY_NAMESPACE, [recordType, recordId, Format09d(version)])
  }

  /** The length of a string in UTF-8, which is what `len` counts. */
  function ByteLength(s: string): nat {
    if s == "" then 0
    else
      var c := s[|s| - 1] as int;
      ByteLength(s[..|s| - 1]) + if c < 0x80 then 1 else if c < 0x800 then 2 else if c < 0x1_0000 then 3 else 4
  }

  function EntryFor(c: Call, version: int): Notarization {
    Notarization(c.recordType, c.recordId, c.digest, c.metadata, c.txId, c.notarizedAt, version)
  }

  /** A well-formed call names its record and carries a digest of the right length. */
  predicate WellFormed(c: Call) {
    c.recordType != "" && c.recordId != "" && ByteLength(c.digest) == DIGEST_LENGTH
  }

  /** The pure meaning of NotarizeRecord: simulation against a fixed world state. */
  function Simulate(json: Json, world: World, c: Call): Endorsement {
    if !WellFormed(c) then
      Endorsement(Err(if c.recordType == "" || c.recordId == "" || c.digest == ""
                      then "recordType, recordId and digest are all required"
                      else "digest must be a 64-character sha256 hex string"), {}, map[])
    else
      match RecordKey(c.recordType, c.recordId)
      case Err(error) => Endorsement(Err(error), {}, map[])
      case Ok(key) => Proceed(json, Get(world, key), c, key)
  }

  /** What becomes of a well-formed call whose record key holds `stored`. */
  function Proceed(json: Json, stored: string, c: Call, key: string): Endorsement {
    match NextVersion(json, stored, c.digest)
    case Err(error) => Endorsement(Err(error), {key}, map[])
    case Ok(None) => Endorsement(Ok(stored), {key}, map[])
    case Ok(Some(version)) => Append(json, c, key, version)
  }

  /** The version a digest gets after the stored latest record; none when it is that record's digest. */
  function NextVersion(json: Json, stored: string, digest: string): Result<Option<int>> {
    if stored == "" then Ok(Some(1))
    else
      match json.decode(stored)
      case None => Err("cannot unmarshal stored notarization")
      case Some(existing) => Ok(if existing.digest == digest then None else Some(existing.version + 1))
  }

  function Append(json: Json, c: Call, key: string, version: int): Endorsement {
    var encoded := json.encode(EntryFor(c, version));
    match HistoryKey(c.recordType, c.recordId, version)
    case Err(error) => Endorsement(Err(error), {key}, map[key := encoded])
    case Ok(hKey) => Endorsement(Ok(encoded), {key}, map[key := encoded][hKey := encoded])
  }

  function GetRecord(world: World, recordType: string, recordId: string): Result<Latest> {
    match RecordKey(recordType, recordId)
    case Err(error) => Err(error)
    case Ok(key) =>
      var stored := Get(world, key);
      Ok(if stored == "" then NeverNotarized(recordType, recordId) else Stored(stored))
  }

  /** The keys a partial-key query iterates over, in key order. */
  function ScannedKeys(world: World, partial: string): (keys: seq<string>)
    ensures forall k :: k in keys <==> k in world && InScan(partial, k)
  {
    Ascending(set k | k in world && InScan(partial, k))
  }

  function DecodeAll(json: Json, world: World, keys: seq<string>): Result<seq<Notarization>> {
    if keys == [] then Ok([])
    else
      match json.decode(Get(world, keys[0]))
      case None => Err("cannot unmarshal history entry")
      case Some(entry) => Then([entry], DecodeAll(json, world, keys[1..]))
  }

  function Then(versions: seq<Notarization>, rest: Result<seq<Notarization>>): Result<seq<Notarization>> {
    match rest
    case Err(error) => Err(error)
    case Ok(more) => Ok(versions + more)
  }

  /** The pure meaning of GetRecordHistory. */
  function RecordHistory(json: Json, world: World, recordType: string, recordId: string): Result<seq<Notarization>> {
    match CreateCompositeKey(HISTORY_NAMESPACE, [recordType, recordId])
    case Err(error) => Err(error)
    case Ok(partial) => DecodeAll(json, world, ScannedKeys(world, partial))
  }

  /**
   The stub of one transaction. Reads see the committed world only; writes are
   buffered in the write set and take effect at commit.
   */
  class Stub {
    const world: World
    var readSet: set<string>
    var writeSet: World

    constructor (world: World)
      ensures this.world == world && readSet == {} && writeSet == map[]
    {
      this.world := world;
      readSet := {};
      writeSet := map[];
    }

    method GetState(key: string) returns (value: string)
      modifies this`readSet
      ensures readSet == old(readSet) + {key} && value == Get(world, key)
    {
      readSet := readSet + {key};
      value := Get(world, key);
    }

    method PutState(key: string, value: string)
      modifies this`writeSet
      ensures writeSet == old(writeSet)[key := value]
    {
      writeSet := writeSet[key := value];
    }

    method NotarizeRecord(json: Json, c: Call) returns (r: Result<string>)
      requires readSet == {} && writeSet == map[]
      modifies this
      ensures Endorsement(r, readSet, writeSet) == Simulate(json, world, c)
    {
      if c.recordType == "" || c.recordId == "" || c.digest == "" {
        return Err("recordType, recordId and digest are all required");
      }
      if ByteLength(c.digest) != DIGEST_LENGTH {
        return Err("digest must be a 64-character sha256 hex string");
      }
      var keyed := RecordKey(c.recordType, c.recordId);
      if keyed.Err? { return keyed; }
      var existingBytes := GetState(keyed.value);
      var version := 1;
      if |existingBytes| > 0 {
        var existing := json.decode(existingBytes);
        if existing.None? { return Err("cannot unmarshal stored notarization"); }
        if existing.value.digest == c.digest { return Ok(existingBytes); }
        version := existing.value.version + 1;
      }
      r := AppendVersion(json, c, keyed.value, version);
    }

    /** The part of NotarizeRecord that writes a new version under both its keys. */
    method AppendVersion(json: Json, c: Call, key: string, version: int) returns (r: Result<string>)
      requires readSet == {key} && writeSet == map[]
      modifies this`writeSet
      ensures Endorsement(r, readSet, writeSet) == Append(json, c, key, version)
    {
      var encoded := json.encode(EntryFor(c, version));
      PutState(key, encoded);
      var hKeyed := HistoryKey(c.recordType, c.recordId, version);
      if hKeyed.Err? { return hKeyed; }
      PutState(hKeyed.value, encoded);
      return Ok(encoded);
    }

    method GetRecordHistory(json: Json, recordType: string, recordId: string)
      returns (r: Result<seq<Notarization>>)
      ensures r == RecordHistory(json, world, recordType, recordId)
    {
      var partial := CreateCompositeKey(HISTORY_NAMESPACE, [recordType, recordId]);
      if partial.Err? { return Err(partial.error); }
      var items := ScannedKeys(world, partial.value);
      r := CollectVersions(json, items);
    }

    /** The iterator loop of GetRecordHistory. */
    method CollectVersions(json: Json, keys: seq<string>) returns (r: Result<seq<Notarization>>)
      ensures r == DecodeAll(json, world, keys)
    {
      var versions: seq<Notarization> := [];
      assert keys[0..] == keys;
      ThenEmpty(DecodeAll(json, world, keys));
      for i := 0 to |keys|
        invariant DecodeAll(json, world, keys) == Then(versions, DecodeAll(json, world, keys[i..]))
      {
        var entry := json.decode(Get(world, keys[i]));
        DecodeStep(json, world, keys, i);
        if entry.None? { return Err("cannot unmarshal history entry"); }
        ThenAppend(versions, entry.value, DecodeAll(json, world, keys[i + 1..]));
        versions := versions + [entry.value];
      }
      assert keys[|keys|..] == [] && versions + [] == versions;
      return Ok(versions);
    }
  }

  lemma DecodeStep(json: Json, world: World, keys: seq<string>, i: nat)
    requires i < |keys|
    ensures DecodeAll(json, world, keys[i..]) ==
      match json.decode(Get(world, keys[i]))
      case None => Err("cannot unmarshal history entry")
      case Some(entry) => Then([entry], DecodeAll(json, world, keys[i + 1..]))
  {
    assert keys[i..][0] == keys[i] && keys[i..][1..] == keys[i + 1..];
  }

  lemma ThenEmpty(rest: Result<seq<Notarization>>)
    ensures Then([], rest) == rest
  {
    if rest.Ok? { assert [] + rest.value == rest.value; }
  }

  lemma ThenAppend(versions: seq<Notarization>, entry: Notarization, rest: Result<seq<Notarization>>)
    ensures Then(versions, Then([entry], rest)) == Then(versions + [entry], rest)
  {
    if rest.Ok? { assert versions + ([entry] + rest.value) == versions + [entry] + rest.value; }
  }

  // ---- Keys of one record ------------------------------------------------

  type RecordId = (string, string)

  predicate ValidId(r: RecordId) {
    ValidPart(r.0) && ValidPart(r.1)
  }

  function IdOf(c: Call): RecordId {
    (c.recordType, c.recordId)
  }

  /** The cells the chaincode ever uses. */
  datatype Cell = LatestOf(r: RecordId) | VersionOf(r: RecordId, version: int)

  predicate ValidCell(cell: Cell) {
    ValidId(cell.r)
  }

  /** The key under which a cell is stored. */
  function Name(cell: Cell): string {
    match cell
    case LatestOf(r) => KeyOf([RECORD_NAMESPACE, r.0, r.1])
    case VersionOf(r, version) => KeyOf([HISTORY_NAMESPACE, r.0, r.1, Format09d(version)])
  }

  function HistoryPrefix(r: RecordId): string {
    KeyOf([HISTORY_NAMESPACE, r.0, r.1])
  }

  lemma FormattedIsValidPart(v: int)
    ensures ValidPart(Format09d(v))
  {
  }

  lemma ValidAttributes(objectType: string, attributes: seq<string>)
    requires ValidPart(objectType)
    ensures ValidParts([objectType] + attributes) <==> forall part :: part in attributes ==> ValidPart(part)
  {
    forall part | part in attributes ensures part in [objectType] + attributes {}
  }

  lemma RecordKeyOf(r: RecordId)
    ensures RecordKey(r.0, r.1).Ok? <==> ValidId(r)
    ensures RecordKey(r.0, r.1).Ok? ==> RecordKey(r.0, r.1) == Ok(Name(LatestOf(r)))
  {
    NamespacesAreParts();
    ValidAttributes(RECORD_NAMESPACE, [r.0, r.1]);
    assert r.0 in [r.0, r.1] && r.1 in [r.0, r.1];
    assert [RECORD_NAMESPACE] + [r.0, r.1] == [RECORD_NAMESPACE, r.0, r.1];
  }

  /** A call that names a valid record proceeds with what its record key holds; any other reads and writes nothing. */
  lemma SimulateCases(json: Json, world: World, c: Call)
    ensures var key := Name(LatestOf(IdOf(c)));
      Simulate(json, world, c) ==
        if WellFormed(c) && ValidId(IdOf(c)) then Proceed(json, Get(world, key), c, key)
        else Endorsement(Simulate(json, world, c).result, {}, map[])
    ensures !(WellFormed(c) && ValidId(IdOf(c))) ==> Simulate(json, world, c).result.Err?
  {
    RecordKeyOf(IdOf(c));
  }

  lemma HistoryPrefixOf(r: RecordId)
    ensures var partial := CreateCompositeKey(HISTORY_NAMESPACE, [r.0, r.1]);
      && (partial.Ok? <==> ValidId(r))
      && (partial.Ok? ==> partial == Ok(HistoryPrefix(r)))
  {
    NamespacesAreParts();
    ValidAttributes(HISTORY_NAMESPACE, [r.0, r.1]);
    assert r.0 in [r.0, r.1] && r.1 in [r.0, r.1];
    assert [HISTORY_NAMESPACE] + [r.0, r.1] == [HISTORY_NAMESPACE, r.0, r.1];
  }

  lemma HistoryKeyOf(r: RecordId, v: int)
    requires ValidId(r)
    ensures HistoryKey(r.0, r.1, v) == Ok(Name(VersionOf(r, v)))
  {
    NamespacesAreParts();
    FormattedIsValidPart(v);
    ValidAttributes(HISTORY_NAMESPACE, [r.0, r.1, Format09d(v)]);
    assert [HISTORY_NAMESPACE] + [r.0, r.1, Format09d(v)] == [HISTORY_NAMESPACE, r.0, r.1, Format09d(v)];
  }

  lemma NamespacesAreParts()
    ensures ValidPart(RECORD_NAMESPACE) && ValidPart(HISTORY_NAMESPACE)
    ensures RECORD_NAMESPACE != HISTORY_NAMESPACE
  {
    assert |RECORD_NAMESPACE| != |HISTORY_NAMESPACE|;
  }

  lemma LatestInjective(r: RecordId, s: RecordId)
    requires ValidId(r) && ValidId(s) && Name(LatestOf(r)) == Name(LatestOf(s))
    ensures r == s
  {
    NamespacesAreParts();
    var a, b := [RECORD_NAMESPACE, r.0, r.1], [RECORD_NAMESPACE, s.0, s.1];
    KeyInjective(a, b);
    assert a[1] == b[1] && a[2] == b[2];
  }

  lemma VersionInjective(r: RecordId, s: RecordId, v: int, w: int)
    requires ValidId(r) && ValidId(s) && Name(VersionOf(r, v)) == Name(VersionOf(s, w))
    ensures r == s && v == w
  {
    NamespacesAreParts();
    FormattedIsValidPart(v);
    FormattedIsValidPart(w);
    var a, b := [HISTORY_NAMESPACE, r.0, r.1, Format09d(v)], [HISTORY_NAMESPACE, s.0, s.1, Format09d(w)];
    KeyInjective(a, b);
    assert a[1] == b[1] && a[2] == b[2] && a[3] == b[3];
    FormatInjective(v, w);
  }

  lemma LatestIsNotVersion(r: RecordId, s: RecordId, w: int)
    requires ValidId(r) && ValidId(s)
    ensures Name(LatestOf(r)) != Name(VersionOf(s, w))
  {
    NamespacesAreParts();
    NamespacesApart([RECORD_NAMESPACE, r.0, r.1], [HISTORY_NAMESPACE, s.0, s.1, Format09d(w)]);
  }

  /** No two cells share a key: not two records, not two versions, not a record and a version. */
  lemma NameInjective(a: Cell, b: Cell)
    requires ValidCell(a) && ValidCell(b)
    ensures Name(a) == Name(b) <==> a == b
  {
    if Name(a) == Name(b) {
      match (a, b)
      case (LatestOf(r), LatestOf(s)) => LatestInjective(r, s);
      case (VersionOf(r, v), VersionOf(s, w)) => VersionInjective(r, s, v, w);
      case (LatestOf(r), VersionOf(s, w)) => LatestIsNotVersion(r, s, w);
      case (VersionOf(s, w), LatestOf(r)) => LatestIsNotVersion(r, s, w);
    }
  }

  /** A history scan sees the versions of its own record only, and no latest record. */
  lemma ScanIsolation(r: RecordId, cell: Cell)
    requires ValidId(r) && ValidCell(cell)
    ensures InScan(HistoryPrefix(r), Name(cell)) <==> cell.VersionOf? && cell.r == r
  {
    NamespacesAreParts();
    var asked, s := [HISTORY_NAMESPACE, r.0, r.1], cell.r;
    match cell
    case LatestOf(_) =>
      ScanIsPrefix(HistoryPrefix(r), Name(cell));
      NamespacesApart(asked, [RECORD_NAMESPACE, s.0, s.1]);
    case VersionOf(_, v) =>
      FormattedIsValidPart(v);
      var leading := [HISTORY_NAMESPACE, s.0, s.1];
      ScanSelectsByLeadingParts(asked, leading, [Format09d(v)]);
      assert leading + [Format09d(v)] == [HISTORY_NAMESPACE, s.0, s.1, Format09d(v)];
      assert asked == leading ==> asked[1] == leading[1] && asked[2] == leading[2];
  }
}
