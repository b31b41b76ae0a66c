/**
 The network-first offline cache of the mobile app (public/dapp/mobile-service-worker.js).
 Handlers return before their cache writes complete, so requests, network answers, writes
 and failures interleave freely.
 */
module OfflineCache {
  import opened Wrappers

  const CACHE := "dlbtrust-mobile-v3"

  const PRECACHE := [
    "/dapp/mobile.html", "/dapp/mobile-manifest.json", "/dapp/js/qrcode.min.js",
    "/dapp/js/html5-qrcode.min.js", "/dapp/icons/icon.svg"]

  datatype Request = Request(verb: string, sameOrigin: bool, pathname: string, query: string)

  datatype Response = Response(ok: bool, body: string)

  datatype Entry = Entry(request: Request, response: Response)

  /** A named cache of the origin. */
  datatype Store = Store(name: string, entries: map<Request, Response>)

  /**
   The caches in order of creation; intercepted fetches awaiting the network and writes under
   way, each under the number of its fetch; what the network answered, and what was answered
   from the caches, in order.
   */
  datatype State = State(
    caches: seq<Store>, inFlight: map<nat, Request>, writes: map<nat, seq<Entry>>,
    network: seq<Entry>, offline: seq<(Request, Option<Response>)>)

  datatype Event =
    | Fetch(id: nat, request: Request)
    | Answered(id: nat, response: Response)
    | Failed(id: nat)
    | Installing(id: nat, responses: seq<Response>)
    | WriteDone(id: nat)
    | WriteFailed(id: nat)
    | Activate

  /** The requests a fetch handler takes over; all others go to the network as if there were no worker. */
  predicate Intercepts(precache: seq<string>, r: Request) {
    r.verb == "GET" && r.sameOrigin && r.pathname in precache
  }

  /** caches.match looks through all caches of the origin, oldest first. */
  function Match(caches: seq<Store>, r: Request): Option<Response> {
    if caches == [] then None
    else if r in caches[0].entries then Some(caches[0].entries[r])
    else Match(caches[1..], r)
  }

  /** What the cache of this version holds for a request. */
  function Cached(caches: seq<Store>, r: Request): Option<Response> {
    if caches == [] then None
    else if caches[0].name == CACHE then (if r in caches[0].entries then Some(caches[0].entries[r]) else None)
    else Cached(caches[1..], r)
  }

  function Write(entries: map<Request, Response>, batch: seq<Entry>): map<Request, Response> {
    if batch == [] then entries
    else
      var last := batch[|batch| - 1];
      Write(entries, batch[..|batch| - 1])[last.request := last.response]
  }

  /** Opens the cache, creating it if need be, and puts a batch of entries. */
  function Put(caches: seq<Store>, batch: seq<Entry>): seq<Store> {
    if caches == [] then [Store(CACHE, Write(map[], batch))]
    else if caches[0].name == CACHE then [Store(CACHE, Write(caches[0].entries, batch))] + caches[1..]
    else [caches[0]] + Put(caches[1..], batch)
  }

  function OnlyCurrent(caches: seq<Store>): seq<Store> {
    if caches == [] then []
    else (if caches[0].name == CACHE then [caches[0]] else []) + OnlyCurrent(caches[1..])
  }

  /** cache.addAll: one entry per precached path, answered in order. */
  function Batch(precache: seq<string>, responses: seq<Response>): (batch: seq<Entry>)
    requires |responses| <= |precache|
    ensures |batch| == |responses|
  {
    seq(|responses|, i requires 0 <= i < |responses| => Entry(Request("GET", true, precache[i], ""), responses[i]))
  }

  function Without<V>(m: map<nat, V>, id: nat): map<nat, V> {
    map k | k in m && k != id :: m[k]
  }

  function Step(precache: seq<string>, s: State, event: Event): State {
    match event
    case Fetch(id, r) =>
      if Intercepts(precache, r) && id !in s.inFlight && id !in s.writes then s.(inFlight := s.inFlight[id := r])
      else s
    case Answered(id, response) =>
      if id !in s.inFlight then s
      else
        var entry := Entry(s.inFlight[id], response);
        s.(inFlight := Without(s.inFlight, id), network := s.network + [entry],
           writes := if response.ok then s.writes[id := [entry]] else s.writes)
    case Failed(id) =>
      if id !in s.inFlight then s
      else
        var r := s.inFlight[id];
        s.(inFlight := Without(s.inFlight, id), offline := s.offline + [(r, Match(s.caches, r))])
    case Installing(id, responses) =>
      if |responses| > |precache| || id in s.inFlight || id in s.writes then s
      else
        var batch := Batch(precache, responses);
        var all := |responses| == |precache| && forall r :: r in responses ==> r.ok;
        s.(network := s.network + batch, writes := if all then s.writes[id := batch] else s.writes)
    case WriteDone(id) =>
      if id !in s.writes then s
      else s.(caches := Put(s.caches, s.writes[id]), writes := Without(s.writes, id))
    case WriteFailed(id) => s.(writes := Without(s.writes, id))
    case Activate => s.(caches := OnlyCurrent(s.caches))
  }

  function Run(precache: seq<string>, s: State, events: seq<Event>): State {
    if events == [] then s
    else Step(precache, Run(precache, s, events[..|events| - 1]), events[|events| - 1])
  }

  /** The worker itself, one method per handler or continuation. */
  class ServiceWorker {
    const precache: seq<string>
    var caches: seq<Store>
    var inFlight: map<nat, Request>
    var writes: map<nat, seq<Entry>>
    var network: seq<Entry>
    var offline: seq<(Request, Option<Response>)>

    constructor (caches: seq<Store>)
      ensures precache == PRECACHE && Now() == State(caches, map[], map[], [], [])
    {
      precache := PRECACHE;
      this.caches := caches;
      inFlight, writes, network, offline := map[], map[], [], [];
    }

    function Now(): State
      reads this
    {
      State(caches, inFlight, writes, network, offline)
    }

    method OnFetch(id: nat, request: Request)
      requires id !in inFlight && id !in writes
      modifies this
      ensures Now() == Step(precache, old(Now()), Fetch(id, request))
    {
      if request.verb != "GET" { return; }
      if !request.sameOrigin || request.pathname !in precache { return; }
      inFlight := inFlight[id := request];
    }

    /** The network answered: the page gets the response, an ok one is also written, not awaited. */
    method OnResponse(id: nat, response: Response)
      requires id in inFlight
      modifies this
      ensures Now() == Step(precache, old(Now()), Answered(id, response))
    {
      var entry := Entry(inFlight[id], response);
      inFlight := Without(inFlight, id);
      network := network + [entry];
      if response.ok { writes := writes[id := [entry]]; }
    }

    /** The network failed: the page gets what the caches have. */
    method OnFailure(id: nat) returns (answer: Option<Response>)
      requires id in inFlight
      modifies this
      ensures Now() == Step(precache, old(Now()), Failed(id))
      ensures answer == Match(old(caches), old(inFlight)[id])
    {
      answer := Match(caches, inFlight[id]);
      offline := offline + [(inFlight[id], answer)];
      inFlight := Without(inFlight, id);
    }

    method OnInstall(id: nat, responses: seq<Response>)
      requires |responses| <= |precache| && id !in inFlight && id !in writes
      modifies this
      ensures Now() == Step(precache, old(Now()), Installing(id, responses))
    {
      var batch := Batch(precache, responses);
      network := network + batch;
      if |responses| == |precache| && forall r :: r in responses ==> r.ok { writes := writes[id := batch]; }
    }

    method OnWritten(id: nat)
      requires id in writes
      modifies this
      ensures Now() == Step(precache, old(Now()), WriteDone(id))
    {
      caches := Put(caches, writes[id]);
      writes := Without(writes, id);
    }

    method OnActivate()
      modifies this
      ensures Now() == Step(precache, old(Now()), Activate)
    {
      caches := OnlyCurrent(caches);
    }
  }

  // ---- Safety: only what the network said ---------------------------------------------------

  predicate Earned(network: seq<Entry>, r: Request, response: Response) {
    response.ok && Entry(r, response) in network
  }

  ghost predicate AllEarned(caches: seq<Store>, network: seq<Entry>) {
    forall c, r :: c in caches && r in c.entries ==> Earned(network, r, c.entries[r])
  }

  /** Everything cached, being written or answered offline is an ok network answer to that very request. */
  ghost predicate Safe(precache: seq<string>, s: State) {
    && AllEarned(s.caches, s.network)
    && (forall id, e :: id in s.writes && e in s.writes[id] ==>
          Earned(s.network, e.request, e.response) && Intercepts(precache, e.request))
    && (forall id :: id in s.inFlight ==> Intercepts(precache, s.inFlight[id]))
    && (forall a :: a in s.offline ==>
          Intercepts(precache, a.0) && (a.1.Some? ==> Earned(s.network, a.0, a.1.value)))
  }

  lemma {:induction false} MatchEarned(caches: seq<Store>, network: seq<Entry>, r: Request)
    requires AllEarned(caches, network)
    ensures Match(caches, r).Some? ==> Earned(network, r, Match(caches, r).value)
  {
    if caches != [] {
      assert caches[0] in caches && forall c :: c in caches[1..] ==> c in caches;
      MatchEarned(caches[1..], network, r);
    }
  }

  lemma {:induction false} WriteHas(entries: map<Request, Response>, batch: seq<Entry>, r: Request)
    requires r in Write(entries, batch)
    ensures Entry(r, Write(entries, batch)[r]) in batch || (r in entries && Write(entries, batch)[r] == entries[r])
  {
    if batch != [] {
      var init, last := batch[..|batch| - 1], batch[|batch| - 1];
      assert batch == init + [last];
      if last.request != r { WriteHas(entries, init, r); }
    }
  }

  lemma {:induction false} PutEarned(caches: seq<Store>, batch: seq<Entry>, network: seq<Entry>)
    requires AllEarned(caches, network) && forall e :: e in batch ==> Earned(network, e.request, e.response)
    ensures AllEarned(Put(caches, batch), network)
  {
    if caches == [] || caches[0].name == CACHE {
      var entries := if caches == [] then map[] else caches[0].entries;
      forall r | r in Write(entries, batch) ensures Earned(network, r, Write(entries, batch)[r]) {
        WriteHas(entries, batch, r);
        if caches != [] && r in entries { assert caches[0] in caches; }
      }
      assert forall c :: c in Put(caches, batch) ==> c == Store(CACHE, Write(entries, batch)) || c in caches;
    } else {
      assert caches[0] in caches && forall c :: c in caches[1..] ==> c in caches;
      PutEarned(caches[1..], batch, network);
    }
  }

  lemma {:induction false} OnlyCurrentSubset(caches: seq<Store>)
    ensures forall c :: c in OnlyCurrent(caches) ==> c in caches && c.name == CACHE
  {
    if caches != [] {
      OnlyCurrentSubset(caches[1..]);
      assert caches == [caches[0]] + caches[1..];
    }
  }

  lemma StepKeepsSafe(precache: seq<string>, s: State, event: Event)
    requires Safe(precache, s)
    ensures Safe(precache, Step(precache, s, event))
  {
    var s' := Step(precache, s, event);
    assert forall e :: e in s.network ==> e in s'.network;
    match event
    case Fetch(id, r) =>
    case Answered(id, response) =>
      if id in s.inFlight { assert Entry(s.inFlight[id], response) in s'.network; }
    case Failed(id) =>
      if id in s.inFlight { MatchEarned(s.caches, s.network, s.inFlight[id]); }
    case Installing(id, responses) =>
      if s' != s {
        var batch := Batch(precache, responses);
        forall i | 0 <= i < |batch| ensures batch[i] in s'.network && Intercepts(precache, batch[i].request) {
          assert batch[i] in batch;
        }
      }
    case WriteDone(id) =>
      if id in s.writes { PutEarned(s.caches, s.writes[id], s.network); }
    case WriteFailed(id) =>
    case Activate => OnlyCurrentSubset(s.caches);
  }

  /** In every interleaving, whatever is cached or answered offline was earned from the network. */
  lemma {:induction false} RunKeepsSafe(precache: seq<string>, s: State, events: seq<Event>)
    requires Safe(precache, s)
    ensures Safe(precache, Run(precache, s, events))
  {
    if events != [] {
      RunKeepsSafe(precache, s, events[..|events| - 1]);
      StepKeepsSafe(precache, Run(precache, s, events[..|events| - 1]), events[|events| - 1]);
    }
  }

  // ---- The worker of the app -----------------------------------------------------------------

  /** Exactly the GET requests of the origin for the five files of the shell are taken over. */
  lemma ShellIsTakenOver(s: State, id: nat, r: Request)
    requires id !in s.inFlight && id !in s.writes
    ensures var s', shell := Step(PRECACHE, s, Fetch(id, r)), {
        "/dapp/mobile.html", "/dapp/mobile-manifest.json", "/dapp/js/qrcode.min.js",
        "/dapp/js/html5-qrcode.min.js", "/dapp/icons/icon.svg"};
      s' == if r.verb == "GET" && r.sameOrigin && r.pathname in shell then s.(inFlight := s.inFlight[id := r]) else s
  {
    InShell(r.pathname);
  }

  lemma InShell(path: string)
    ensures path in PRECACHE <==> path in {
      "/dapp/mobile.html", "/dapp/mobile-manifest.json", "/dapp/js/qrcode.min.js",
      "/dapp/js/html5-qrcode.min.js", "/dapp/icons/icon.svg"}
  {
    assert PRECACHE[0] in PRECACHE && PRECACHE[1] in PRECACHE && PRECACHE[2] in PRECACHE && PRECACHE[3] in PRECACHE &&
           PRECACHE[4] in PRECACHE;
  }

  /** An install asks for those files, in order, and writes them only if all came back ok. */
  lemma InstallAsks(s: State, id: nat, responses: seq<Response>)
    requires |responses| <= 5 && id !in s.inFlight && id !in s.writes
    ensures var s', shell := Step(PRECACHE, s, Installing(id, responses)), [
        "/dapp/mobile.html", "/dapp/mobile-manifest.json", "/dapp/js/qrcode.min.js",
        "/dapp/js/html5-qrcode.min.js", "/dapp/icons/icon.svg"];
      var batch := seq(|responses|, i requires 0 <= i < |responses| =>
                         Entry(Request("GET", true, shell[i], ""), responses[i]));
      && s'.network == s.network + batch && s'.caches == s.caches && s'.inFlight == s.inFlight
      && s'.writes == if |responses| == 5 && (forall r :: r in responses ==> r.ok) then s.writes[id := batch] else s.writes
  {
    var shell := [
      "/dapp/mobile.html", "/dapp/mobile-manifest.json", "/dapp/js/qrcode.min.js",
      "/dapp/js/html5-qrcode.min.js", "/dapp/icons/icon.svg"];
    assert Batch(PRECACHE, responses) == seq(|responses|, i requires 0 <= i < |responses| =>
                                               Entry(Request("GET", true, shell[i], ""), responses[i]));
  }

  /** Activation leaves the cache of this version alone and deletes the others. */
  lemma {:induction false} ActivateKeeps(caches: seq<Store>, c: Store)
    ensures c in OnlyCurrent(caches) <==> c in caches && c.name == "dlbtrust-mobile-v3"
  {
    if caches != [] {
      assert caches == [caches[0]] + caches[1..];
      ActivateKeeps(caches[1..], c);
    }
  }

  /** A write goes to the first cache of that name, which it makes if there is none, and to no other. */
  lemma {:induction false} WriteGoesTo(caches: seq<Store>, batch: seq<Entry>, i: nat)
    requires i <= |caches| && forall j :: 0 <= j < i ==> caches[j].name != "dlbtrust-mobile-v3"
    requires i < |caches| ==> caches[i].name == "dlbtrust-mobile-v3"
    ensures var entries := if i < |caches| then caches[i].entries else map[];
      Put(caches, batch) ==
        caches[..i] + [Store("dlbtrust-mobile-v3", Write(entries, batch))] + if i < |caches| then caches[i + 1..] else []
    decreases i
  {
    if i > 0 {
      WriteGoesTo(caches[1..], batch, i - 1);
      assert caches[..i] == [caches[0]] + caches[1..][..i - 1];
      assert i < |caches| ==> caches[i + 1..] == caches[1..][i..];
    } else {
      assert caches[..0] == [];
    }
  }

  /** An offline page comes from the oldest cache that has it. */
  lemma {:induction false} OldestAnswers(caches: seq<Store>, i: nat, r: Request)
    requires i < |caches| && r in caches[i].entries && forall j :: 0 <= j < i ==> r !in caches[j].entries
    ensures Match(caches, r) == Some(caches[i].entries[r])
  {
    if i > 0 { OldestAnswers(caches[1..], i - 1, r); }
  }

  lemma {:induction false} NoneAnswers(caches: seq<Store>, r: Request)
    requires forall c :: c in caches ==> r !in c.entries
    ensures Match(caches, r) == None
  {
    if caches != [] {
      assert caches == [caches[0]] + caches[1..];
      NoneAnswers(caches[1..], r);
    }
  }

  // ---- What lies outside the precache set ---------------------------------------------------

  lemma {:induction false} WriteMisses(entries: map<Request, Response>, batch: seq<Entry>, r: Request)
    requires forall e :: e in batch ==> e.request != r
    ensures r in Write(entries, batch) <==> r in entries
    ensures r in entries ==> Write(entries, batch)[r] == entries[r]
  {
    if batch != [] {
      var init, last := batch[..|batch| - 1], batch[|batch| - 1];
      assert batch == init + [last];
      WriteMisses(entries, init, r);
    }
  }

  lemma {:induction false} PutMisses(caches: seq<Store>, batch: seq<Entry>, r: Request)
    requires forall e :: e in batch ==> e.request != r
    ensures Cached(Put(caches, batch), r) == Cached(caches, r)
  {
    if caches == [] {
      WriteMisses(map[], batch, r);
    } else if caches[0].name == CACHE {
      WriteMisses(caches[0].entries, batch, r);
    } else {
      PutMisses(caches[1..], batch, r);
    }
  }

  lemma {:induction false} OnlyCurrentCached(caches: seq<Store>, r: Request)
    ensures Cached(OnlyCurrent(caches), r) == Cached(caches, r)
  {
    if caches != [] {
      OnlyCurrentCached(caches[1..], r);
      var rest := OnlyCurrent(caches[1..]);
      assert ([caches[0]] + rest)[1..] == rest && [] + rest == rest;
    }
  }

  /** A request the worker does not intercept is never answered from a cache, and never changes what is cached. */
  lemma {:induction false} OthersUntouched(precache: seq<string>, s: State, events: seq<Event>, r: Request)
    requires Safe(precache, s) && !Intercepts(precache, r)
    ensures var s' := Run(precache, s, events);
      && Cached(s'.caches, r) == Cached(s.caches, r)
      && (forall a :: a in s'.offline ==> a.0 != r)
      && (forall id :: Step(precache, s', Fetch(id, r)) == s')
  {
    RunKeepsSafe(precache, s, events);
    if events != [] {
      var before, event := Run(precache, s, events[..|events| - 1]), events[|events| - 1];
      OthersUntouched(precache, s, events[..|events| - 1], r);
      RunKeepsSafe(precache, s, events[..|events| - 1]);
      match event
      case WriteDone(id) =>
        if id in before.writes { PutMisses(before.caches, before.writes[id], r); }
      case Activate => OnlyCurrentCached(before.caches, r);
      case _ =>
    }
  }

  // ---- Freshness ----------------------------------------------------------------------------

  /** The most recent ok answer to a request. */
  function LastOk(entries: seq<Entry>, r: Request): Option<Response> {
    if entries == [] then None
    else
      var last := entries[|entries| - 1];
      if last.request == r && last.response.ok then Some(last.response)
      else LastOk(entries[..|entries| - 1], r)
  }

  /** A page awaits the network's answer to `r`. */
  predicate Awaits(s: State, id: nat, r: Request) {
    id in s.inFlight && s.inFlight[id] == r
  }

  /** A response to `r` is being written. */
  predicate Writing(s: State, id: nat, r: Request) {
    id in s.writes && LastOk(s.writes[id], r).Some?
  }

  ghost predicate Settled(s: State, r: Request) {
    forall id :: !Writing(s, id, r)
  }

  /** No use of `r` is outstanding, neither an answer nor a write. */
  ghost predicate Idle(s: State, r: Request) {
    (forall id :: !Awaits(s, id, r)) && Settled(s, r)
  }

  /** No page awaits an answer to `r`, and what is being written for it is what this batch has. */
  ghost predicate Agrees(s: State, batch: seq<Entry>, r: Request) {
    && (forall i :: !Awaits(s, i, r))
    && (forall i :: Writing(s, i, r) ==> LastOk(s.writes[i], r) == LastOk(batch, r))
  }

  /**
   `r` is not fetched again while an earlier answer or write for it is outstanding; an install that
   was answered ok for `r` is complete and agrees with what is outstanding; no write for `r` fails.
   */
  ghost predicate Disciplined(precache: seq<string>, s: State, event: Event, r: Request) {
    match event
    case Fetch(id, q) => q == r ==> Idle(s, r)
    case Installing(id, responses) =>
      |responses| <= |precache| && LastOk(Batch(precache, responses), r).Some? ==>
        && Agrees(s, Batch(precache, responses), r)
        && |responses| == |precache| && (forall a :: a in responses ==> a.ok)
        && id !in s.inFlight && id !in s.writes
    case WriteFailed(id) => !Writing(s, id, r)
    case _ => true
  }

  ghost predicate DisciplinedRun(precache: seq<string>, s: State, events: seq<Event>, r: Request) {
    events != [] ==>
      && DisciplinedRun(precache, s, events[..|events| - 1], r)
      && Disciplined(precache, Run(precache, s, events[..|events| - 1]), events[|events| - 1], r)
  }

  /** No number is in use twice. */
  ghost predicate OneUse(s: State) {
    forall id :: id in s.inFlight ==> id !in s.writes
  }

  /**
   A fetch under way is the only outstanding business; pending writes carry the latest ok answer,
   and when there are none the cache does.
   */
  ghost predicate Fresh(s: State, r: Request) {
    && OneUse(s)
    && (forall i, j :: Awaits(s, i, r) && Awaits(s, j, r) ==> i == j)
    && (forall i, j :: Awaits(s, i, r) ==> !Writing(s, j, r))
    && (forall id :: Writing(s, id, r) ==> LastOk(s.writes[id], r) == LastOk(s.network, r))
    && (Settled(s, r) ==> Cached(s.caches, r) == LastOk(s.network, r))
  }

  lemma {:induction false} LastOkConcat(a: seq<Entry>, b: seq<Entry>, r: Request)
    ensures LastOk(a + b, r) == if LastOk(b, r).Some? then LastOk(b, r) else LastOk(a, r)
  {
    if b == [] {
      assert a + b == a;
    } else {
      assert (a + b)[..|a + b| - 1] == a + b[..|b| - 1];
      LastOkConcat(a, b[..|b| - 1], r);
    }
  }

  lemma {:induction false} LastOkNone(batch: seq<Entry>, r: Request)
    requires LastOk(batch, r) == None && forall e :: e in batch ==> e.response.ok
    ensures forall e :: e in batch ==> e.request != r
  {
    if batch != [] {
      assert batch == batch[..|batch| - 1] + [batch[|batch| - 1]];
      assert batch[|batch| - 1] in batch;
      LastOkNone(batch[..|batch| - 1], r);
    }
  }

  lemma {:induction false} WriteHits(entries: map<Request, Response>, batch: seq<Entry>, r: Request)
    requires LastOk(batch, r).Some? && forall e :: e in batch ==> e.response.ok
    ensures r in Write(entries, batch) && Some(Write(entries, batch)[r]) == LastOk(batch, r)
  {
    var init, last := batch[..|batch| - 1], batch[|batch| - 1];
    assert last in batch;
    if last.request != r { WriteHits(entries, init, r); }
  }

  lemma {:induction false} PutHits(caches: seq<Store>, batch: seq<Entry>, r: Request)
    requires LastOk(batch, r).Some? && forall e :: e in batch ==> e.response.ok
    ensures Cached(Put(caches, batch), r) == LastOk(batch, r)
  {
    if caches == [] {
      WriteHits(map[], batch, r);
    } else if caches[0].name == CACHE {
      WriteHits(caches[0].entries, batch, r);
    } else {
      PutHits(caches[1..], batch, r);
    }
  }

  lemma AnsweredKeepsFresh(precache: seq<string>, s: State, id: nat, response: Response, r: Request)
    requires Safe(precache, s) && Fresh(s, r)
    ensures Fresh(Step(precache, s, Answered(id, response)), r)
  {
    if id in s.inFlight {
      var s' := Step(precache, s, Answered(id, response));
      var entry := Entry(s.inFlight[id], response);
      LastOkConcat(s.network, [entry], r);
      assert [entry][..0] == [];
      assert LastOk([entry], r) == if Awaits(s, id, r) && response.ok then Some(response) else None;
      assert forall i :: Awaits(s', i, r) ==> Awaits(s, i, r);
      assert forall i :: Writing(s', i, r) ==> Writing(s, i, r) || (i == id && Awaits(s, i, r));
      assert forall i :: Writing(s, i, r) && !Awaits(s, id, r) ==> Writing(s', i, r);
      if Awaits(s, id, r) {
        if response.ok { assert Writing(s', id, r); }
      }
    }
  }

  lemma BatchKeepsFresh(s: State, id: nat, batch: seq<Entry>, written: bool, r: Request)
    requires Fresh(s, r) && id !in s.inFlight && id !in s.writes
    requires LastOk(batch, r).Some? ==> written && Agrees(s, batch, r)
    ensures Fresh(s.(network := s.network + batch, writes := if written then s.writes[id := batch] else s.writes), r)
  {
    LastOkConcat(s.network, batch, r);
    var network := s.network + batch;
    if LastOk(batch, r).Some? {
      NewBatchKeepsFresh(s, id, batch, network, r);
    } else {
      OtherBatchKeepsFresh(s, id, batch, written, network, r);
    }
  }

  lemma NewBatchKeepsFresh(s: State, id: nat, batch: seq<Entry>, network: seq<Entry>, r: Request)
    requires OneUse(s) && id !in s.inFlight && id !in s.writes
    requires LastOk(batch, r).Some? && LastOk(batch, r) == LastOk(network, r) && Agrees(s, batch, r)
    ensures Fresh(s.(network := network, writes := s.writes[id := batch]), r)
  {
    var s' := s.(network := network, writes := s.writes[id := batch]);
    assert forall i :: Writing(s', i, r) ==> i == id || Writing(s, i, r);
    assert forall i :: Awaits(s', i, r) ==> Awaits(s, i, r);
    assert Writing(s', id, r);
  }

  lemma OtherBatchKeepsFresh(s: State, id: nat, batch: seq<Entry>, written: bool, network: seq<Entry>, r: Request)
    requires Fresh(s, r) && id !in s.inFlight && id !in s.writes
    requires LastOk(batch, r) == None && LastOk(network, r) == LastOk(s.network, r)
    ensures Fresh(s.(network := network, writes := if written then s.writes[id := batch] else s.writes), r)
  {
    if written {
      OtherWriteKeepsFresh(s, s.(network := network, writes := s.writes[id := batch]), id, r);
    } else {
      OtherWriteKeepsFresh(s, s.(network := network), id, r);
    }
  }

  lemma OtherWriteKeepsFresh(s: State, s': State, id: nat, r: Request)
    requires Fresh(s, r) && id !in s.inFlight && id !in s.writes
    requires s'.caches == s.caches && s'.inFlight == s.inFlight && LastOk(s'.network, r) == LastOk(s.network, r)
    requires forall i :: i in s.writes ==> i in s'.writes && s'.writes[i] == s.writes[i]
    requires forall i :: i in s'.writes ==> i in s.writes || (i == id && LastOk(s'.writes[i], r) == None)
    ensures Fresh(s', r)
  {
    assert forall i :: Writing(s', i, r) <==> Writing(s, i, r);
    assert forall i :: Awaits(s', i, r) <==> Awaits(s, i, r);
  }

  lemma InstallingKeepsFresh(precache: seq<string>, s: State, id: nat, responses: seq<Response>, r: Request)
    requires Fresh(s, r) && Disciplined(precache, s, Installing(id, responses), r)
    ensures Fresh(Step(precache, s, Installing(id, responses)), r)
  {
    if |responses| <= |precache| && id !in s.inFlight && id !in s.writes {
      var written := |responses| == |precache| && forall a :: a in responses ==> a.ok;
      BatchKeepsFresh(s, id, Batch(precache, responses), written, r);
    }
  }

  lemma WriteDoneKeepsFresh(precache: seq<string>, s: State, id: nat, r: Request)
    requires Safe(precache, s) && Fresh(s, r)
    ensures Fresh(Step(precache, s, WriteDone(id)), r)
  {
    if id in s.writes {
      var s' := Step(precache, s, WriteDone(id));
      assert forall i :: Writing(s', i, r) <==> Writing(s, i, r) && i != id;
      assert forall i :: Awaits(s', i, r) <==> Awaits(s, i, r);
      if Writing(s, id, r) {
        PutHits(s.caches, s.writes[id], r);
      } else {
        LastOkNone(s.writes[id], r);
        PutMisses(s.caches, s.writes[id], r);
      }
    }
  }

  lemma StepKeepsFresh(precache: seq<string>, s: State, event: Event, r: Request)
    requires Safe(precache, s) && Fresh(s, r) && Disciplined(precache, s, event, r)
    ensures Fresh(Step(precache, s, event), r)
  {
    var s' := Step(precache, s, event);
    match event
    case Fetch(id, q) =>
      assert forall i :: Awaits(s', i, r) ==> Awaits(s, i, r) || (i == id && q == r);
      assert forall i :: Writing(s', i, r) <==> Writing(s, i, r);
    case Answered(id, response) => AnsweredKeepsFresh(precache, s, id, response, r);
    case Failed(id) =>
      assert forall i :: Awaits(s', i, r) ==> Awaits(s, i, r);
      assert forall i :: Writing(s', i, r) <==> Writing(s, i, r);
    case Installing(id, responses) => InstallingKeepsFresh(precache, s, id, responses, r);
    case WriteDone(id) => WriteDoneKeepsFresh(precache, s, id, r);
    case WriteFailed(id) =>
      assert forall i :: Awaits(s', i, r) <==> Awaits(s, i, r);
      assert forall i :: Writing(s', i, r) <==> Writing(s, i, r);
    case Activate =>
      OnlyCurrentCached(s.caches, r);
      assert forall i :: Awaits(s', i, r) <==> Awaits(s, i, r);
      assert forall i :: Writing(s', i, r) <==> Writing(s, i, r);
  }

  /** Whatever other requests do, a request used one at a time is cached as the network last answered it. */
  lemma {:induction false} DisciplinedStaysFresh(precache: seq<string>, s: State, events: seq<Event>, r: Request)
    requires Safe(precache, s) && Fresh(s, r) && DisciplinedRun(precache, s, events, r)
    ensures Fresh(Run(precache, s, events), r)
    ensures var s' := Run(precache, s, events);
      Settled(s', r) ==> Cached(s'.caches, r) == LastOk(s'.network, r)
  {
    if events != [] {
      var init := events[..|events| - 1];
      DisciplinedStaysFresh(precache, s, init, r);
      RunKeepsSafe(precache, s, init);
      StepKeepsFresh(precache, Run(precache, s, init), events[|events| - 1], r);
    }
  }

  /** Nothing but the cache of this version is left, as after an activation. */
  predicate Clean(caches: seq<Store>) {
    |caches| <= 1 && forall c :: c in caches ==> c.name == CACHE
  }

  lemma CleanWrites(caches: seq<Store>, batch: seq<Entry>)
    requires Clean(caches)
    ensures Clean(Put(caches, batch)) && OnlyCurrent(caches) == caches
  {
    if caches != [] {
      assert caches[0] in caches && caches[1..] == [];
      assert OnlyCurrent([]) == [] && caches == [caches[0]];
    }
  }

  lemma {:induction false} RunKeepsClean(precache: seq<string>, s: State, events: seq<Event>)
    requires Clean(s.caches)
    ensures Clean(Run(precache, s, events).caches)
  {
    if events != [] {
      RunKeepsClean(precache, s, events[..|events| - 1]);
      var before, event := Run(precache, s, events[..|events| - 1]), events[|events| - 1];
      if event.WriteDone? && event.id in before.writes { CleanWrites(before.caches, before.writes[event.id]); }
      CleanWrites(before.caches, []);
    }
  }

  /** Without older caches, a page that goes offline is shown the newest response the network ever gave. */
  lemma OfflineAnswerIsNewest(precache: seq<string>, s: State, events: seq<Event>, id: nat, r: Request)
    requires Clean(s.caches) && Safe(precache, s) && Fresh(s, r) && DisciplinedRun(precache, s, events, r)
    requires var s' := Run(precache, s, events); id in s'.inFlight && s'.inFlight[id] == r
    ensures var s' := Run(precache, s, events);
      Step(precache, s', Failed(id)).offline == s'.offline + [(r, LastOk(s'.network, r))]
  {
    var s' := Run(precache, s, events);
    DisciplinedStaysFresh(precache, s, events, r);
    RunKeepsClean(precache, s, events);
    assert Awaits(s', id, r);
    assert Settled(s', r);
    if s'.caches == [] {
      assert Match(s'.caches, r) == Cached(s'.caches, r);
    } else {
      assert s'.caches[0] in s'.caches && s'.caches[1..] == [];
      assert Match([], r) == None;
      assert Match(s'.caches, r) == Cached(s'.caches, r);
    }
  }

  // ---- When a new request can leave a stale page ---------------------------------------------

  /** What brings outstanding business to its end. */
  predicate Finishes(event: Event) {
    event.Answered? || event.Failed? || event.WriteDone? || event.Activate?
  }

  /** However the outstanding business ends, the latest ok answer is cached afterwards. */
  ghost predicate NeverStale(precache: seq<string>, s: State, r: Request) {
    forall events: seq<Event> :: (forall e :: e in events ==> Finishes(e)) ==>
      var s' := Run(precache, s, events);
      Idle(s', r) ==> Cached(s'.caches, r) == LastOk(s'.network, r)
  }

  lemma {:induction false} RunCons(precache: seq<string>, s: State, event: Event, rest: seq<Event>)
    ensures Run(precache, s, [event] + rest) == Run(precache, Step(precache, s, event), rest)
  {
    var events := [event] + rest;
    if rest == [] {
      assert events[..0] == [] && events[0] == event;
    } else {
      assert events[..|events| - 1] == [event] + rest[..|rest| - 1];
      RunCons(precache, s, event, rest[..|rest| - 1]);
    }
  }

  lemma StaleNow(precache: seq<string>, s: State, r: Request)
    requires Idle(s, r) && Cached(s.caches, r) != LastOk(s.network, r)
    ensures !NeverStale(precache, s, r)
  {
    assert Run(precache, s, []) == s && forall e :: e in [] ==> Finishes(e);
  }

  lemma StaleLater(precache: seq<string>, s: State, event: Event, r: Request)
    requires Finishes(event) && !NeverStale(precache, Step(precache, s, event), r)
    ensures !NeverStale(precache, s, r)
  {
    var rest: seq<Event> :| (forall e :: e in rest ==> Finishes(e)) &&
      var s' := Run(precache, Step(precache, s, event), rest);
      Idle(s', r) && Cached(s'.caches, r) != LastOk(s'.network, r);
    RunCons(precache, s, event, rest);
    assert forall e :: e in [event] + rest ==> Finishes(e);
  }

  lemma {:induction false} FinishingIsDisciplined(precache: seq<string>, s: State, events: seq<Event>, r: Request)
    requires forall e :: e in events ==> Finishes(e)
    ensures DisciplinedRun(precache, s, events, r)
  {
    if events != [] {
      var init, last := events[..|events| - 1], events[|events| - 1];
      assert events == init + [last];
      FinishingIsDisciplined(precache, s, init, r);
      assert last in events && Finishes(last);
    }
  }

  lemma FreshNeverStale(precache: seq<string>, s: State, r: Request)
    requires Safe(precache, s) && Fresh(s, r)
    ensures NeverStale(precache, s, r)
  {
    forall events: seq<Event> | forall e :: e in events ==> Finishes(e)
      ensures var s' := Run(precache, s, events); Idle(s', r) ==> Cached(s'.caches, r) == LastOk(s'.network, r)
    {
      FinishingIsDisciplined(precache, s, events, r);
      DisciplinedStaysFresh(precache, s, events, r);
    }
  }

  lemma {:induction false} RunKeepsOneUse(precache: seq<string>, s: State, events: seq<Event>)
    requires OneUse(s)
    ensures OneUse(Run(precache, s, events))
  {
    if events != [] { RunKeepsOneUse(precache, s, events[..|events| - 1]); }
  }

  /** Once every page that awaits `r` has failed, a stale page stays. */
  lemma {:induction false} FailuresLeaveStale(precache: seq<string>, s: State, r: Request)
    requires Settled(s, r) && Cached(s.caches, r) != LastOk(s.network, r)
    ensures !NeverStale(precache, s, r)
    decreases s.inFlight.Keys
  {
    if i :| Awaits(s, i, r) {
      var s' := Step(precache, s, Failed(i));
      assert i in s.inFlight.Keys && s'.inFlight.Keys == s.inFlight.Keys - {i};
      assert forall j :: Writing(s', j, r) <==> Writing(s, j, r);
      FailuresLeaveStale(precache, s', r);
      StaleLater(precache, s, Failed(i), r);
    } else {
      StaleNow(precache, s, r);
    }
  }

  lemma FailedStep(precache: seq<string>, s: State, r: Request, j: nat)
    requires Awaits(s, j, r)
    ensures var s' := Step(precache, s, Failed(j));
      && s'.writes == s.writes && s'.network == s.network && s'.inFlight.Keys == s.inFlight.Keys - {j}
  {
    assert j in s.inFlight.Keys;
  }

  /** A write that does not carry the latest ok answer can be the last of all. */
  lemma {:induction false} LateWriteGoesStale(precache: seq<string>, s: State, r: Request, i: nat)
    requires Safe(precache, s) && Writing(s, i, r) && LastOk(s.writes[i], r) != LastOk(s.network, r)
    ensures !NeverStale(precache, s, r)
    decreases s.inFlight.Keys, s.writes.Keys
  {
    if j :| Awaits(s, j, r) {
      StepKeepsSafe(precache, s, Failed(j));
      FailedStep(precache, s, r, j);
      LateWriteGoesStale(precache, Step(precache, s, Failed(j)), r, i);
      StaleLater(precache, s, Failed(j), r);
    } else if j :| j != i && Writing(s, j, r) {
      var s' := Step(precache, s, WriteDone(j));
      StepKeepsSafe(precache, s, WriteDone(j));
      assert j in s.writes.Keys && s'.writes.Keys == s.writes.Keys - {j};
      LateWriteGoesStale(precache, s', r, i);
      StaleLater(precache, s, WriteDone(j), r);
    } else {
      LastWriteGoesStale(precache, s, r, i);
    }
  }

  lemma LastWriteGoesStale(precache: seq<string>, s: State, r: Request, i: nat)
    requires Safe(precache, s) && Writing(s, i, r) && LastOk(s.writes[i], r) != LastOk(s.network, r)
    requires (forall j :: !Awaits(s, j, r)) && forall j :: Writing(s, j, r) ==> j == i
    ensures !NeverStale(precache, s, r)
  {
    var s' := Step(precache, s, WriteDone(i));
    PutHits(s.caches, s.writes[i], r);
    assert forall j :: Awaits(s', j, r) ==> Awaits(s, j, r);
    assert forall j :: Writing(s', j, r) ==> Writing(s, j, r) && j != i;
    StaleNow(precache, s', r);
    StaleLater(precache, s, WriteDone(i), r);
  }

  /** While a response to `r` is being written, a page that awaits `r` can be answered otherwise and written first. */
  lemma AnsweredOtherwise(precache: seq<string>, s: State, r: Request, id: nat, i: nat)
    requires Safe(precache, s) && id != i && Writing(s, i, r) && Awaits(s, id, r)
    ensures !NeverStale(precache, s, r)
  {
    var older := LastOk(s.writes[i], r).value;
    var newer := Response(true, older.body + "!");
    var entry, s' := Entry(r, newer), Step(precache, s, Answered(id, newer));
    StepKeepsSafe(precache, s, Answered(id, newer));
    LastOkConcat(s.network, [entry], r);
    assert LastOk([entry], r) == Some(newer) && |newer.body| == |older.body| + 1;
    LateWriteGoesStale(precache, s', r, i);
    StaleLater(precache, s, Answered(id, newer), r);
  }

  /** Of two pages that await `r`, one can be answered first and written last. */
  lemma AnswerGoesStale(precache: seq<string>, s: State, r: Request, id: nat, i: nat)
    requires Safe(precache, s) && id != i && Awaits(s, i, r) && Awaits(s, id, r)
    ensures !NeverStale(precache, s, r)
  {
    var answer := Response(true, "");
    StepKeepsSafe(precache, s, Answered(i, answer));
    assert LastOk([Entry(r, answer)], r) == Some(answer);
    AnsweredOtherwise(precache, Step(precache, s, Answered(i, answer)), r, id, i);
    StaleLater(precache, s, Answered(i, answer), r);
  }

  /**
   In whatever state: the latest ok answer ends up cached, however all outstanding business ends,
   iff the state is fresh.
   */
  lemma NeverStaleIff(precache: seq<string>, s: State, r: Request)
    requires Safe(precache, s) && OneUse(s)
    ensures NeverStale(precache, s, r) <==> Fresh(s, r)
  {
    if Fresh(s, r) {
      FreshNeverStale(precache, s, r);
    } else if i :| Writing(s, i, r) && LastOk(s.writes[i], r) != LastOk(s.network, r) {
      LateWriteGoesStale(precache, s, r, i);
    } else if i, j :| Awaits(s, i, r) && Awaits(s, j, r) && i != j {
      AnswerGoesStale(precache, s, r, i, j);
    } else if i, j :| Awaits(s, i, r) && Writing(s, j, r) {
      AnsweredOtherwise(precache, s, r, i, j);
    } else {
      FailuresLeaveStale(precache, s, r);
    }
  }

  /**
   A new fetch of `r` leaves it so iff no earlier use of `r` is outstanding when it starts, neither
   an answer nor a cache write, and the latest ok answer is cached.
   */
  lemma FetchSafeIff(precache: seq<string>, s: State, id: nat, r: Request)
    requires Safe(precache, s) && OneUse(s) && Intercepts(precache, r) && id !in s.inFlight && id !in s.writes
    ensures NeverStale(precache, Step(precache, s, Fetch(id, r)), r) <==>
      Idle(s, r) && Cached(s.caches, r) == LastOk(s.network, r)
  {
    var s' := Step(precache, s, Fetch(id, r));
    StepKeepsSafe(precache, s, Fetch(id, r));
    NeverStaleIff(precache, s', r);
    if Fresh(s', r) { FetchNeedsIdle(s, s', id, r); }
    if Idle(s, r) && Cached(s.caches, r) == LastOk(s.network, r) { FreshAfterFetch(s, s', id, r); }
  }

  lemma FetchNeedsIdle(s: State, s': State, id: nat, r: Request)
    requires s' == s.(inFlight := s.inFlight[id := r]) && id !in s.inFlight && Fresh(s', r)
    ensures Idle(s, r) && Cached(s.caches, r) == LastOk(s.network, r)
  {
    assert Awaits(s', id, r);
    assert forall j :: Awaits(s, j, r) ==> Awaits(s', j, r) && j != id;
    assert forall j :: Writing(s', j, r) <==> Writing(s, j, r);
  }

  lemma FreshAfterFetch(s: State, s': State, id: nat, r: Request)
    requires s' == s.(inFlight := s.inFlight[id := r]) && id !in s.writes && OneUse(s)
    requires Idle(s, r) && Cached(s.caches, r) == LastOk(s.network, r)
    ensures Fresh(s', r)
  {
    assert forall j :: Awaits(s', j, r) ==> Awaits(s, j, r) || j == id;
    assert forall j :: Writing(s', j, r) <==> Writing(s, j, r);
  }

  /**
   A complete install that fetched `r` does so iff no page awaits an answer to `r` and whatever is
   being written for it is the very response the install got.
   */
  lemma InstallSafeIff(precache: seq<string>, s: State, id: nat, responses: seq<Response>, r: Request)
    requires Safe(precache, s) && OneUse(s) && id !in s.inFlight && id !in s.writes
    requires |responses| == |precache| && (forall a :: a in responses ==> a.ok)
    requires LastOk(Batch(precache, responses), r).Some?
    ensures NeverStale(precache, Step(precache, s, Installing(id, responses)), r) <==>
      Agrees(s, Batch(precache, responses), r)
  {
    StepKeepsSafe(precache, s, Installing(id, responses));
    var batch, network := Batch(precache, responses), s.network + Batch(precache, responses);
    NeverStaleIff(precache, Step(precache, s, Installing(id, responses)), r);
    LastOkConcat(s.network, batch, r);
    if Agrees(s, batch, r) { NewBatchKeepsFresh(s, id, batch, network, r); }
    if Fresh(s.(network := network, writes := s.writes[id := batch]), r) {
      InstallNeedsAgreement(s, id, batch, network, r);
    }
  }

  lemma InstallNeedsAgreement(s: State, id: nat, batch: seq<Entry>, network: seq<Entry>, r: Request)
    requires id !in s.writes && LastOk(batch, r).Some? && LastOk(batch, r) == LastOk(network, r)
    requires Fresh(s.(network := network, writes := s.writes[id := batch]), r)
    ensures Agrees(s, batch, r)
  {
    var s' := s.(network := network, writes := s.writes[id := batch]);
    assert Writing(s', id, r);
    assert forall i :: Awaits(s, i, r) ==> Awaits(s', i, r);
    assert forall i :: Writing(s, i, r) ==> Writing(s', i, r) && s'.writes[i] == s.writes[i];
  }

  lemma RunTake(precache: seq<string>, s: State, events: seq<Event>, k: nat)
    requires 0 < k <= |events|
    ensures Run(precache, s, events[..k]) == Step(precache, Run(precache, s, events[..k - 1]), events[k - 1])
  {
    assert events[..k][..k - 1] == events[..k - 1];
  }

  /** A fetch answered ok at once leaves one more answer and one more write under way. */
  lemma FetchAnswered(precache: seq<string>, s: State, events: seq<Event>, k: nat)
    requires k + 2 <= |events| && events[k].Fetch? && events[k + 1].Answered? && events[k].id == events[k + 1].id
    requires Intercepts(precache, events[k].request) && events[k + 1].response.ok
    requires var now := Run(precache, s, events[..k]); events[k].id !in now.inFlight && events[k].id !in now.writes
    ensures var now, entry := Run(precache, s, events[..k]), Entry(events[k].request, events[k + 1].response);
      Run(precache, s, events[..k + 2]) ==
        now.(network := now.network + [entry], writes := now.writes[events[k].id := [entry]])
  {
    var now := Run(precache, s, events[..k]);
    RunTake(precache, s, events, k + 1);
    RunTake(precache, s, events, k + 2);
    assert Without(now.inFlight[events[k].id := events[k].request], events[k].id) == now.inFlight;
  }

  /**
   The write is not awaited: when the second fetch of a page starts before the first one's write
   is done, the older response can overwrite the newer for good, even if the fetches themselves
   do not overlap.
   */
  lemma StaleOverwrite(precache: seq<string>, s: State, r: Request, older: Response, newer: Response, i: nat, j: nat)
    requires Intercepts(precache, r) && older.ok && newer.ok
    requires s.inFlight == map[] && s.writes == map[] && i != j
    ensures var s' := Run(precache, s, [Fetch(i, r), Answered(i, older), Fetch(j, r), Answered(j, newer),
                                        WriteDone(j), WriteDone(i)]);
      && s'.inFlight == map[] && s'.writes == map[]
      && LastOk(s'.network, r) == Some(newer) && Cached(s'.caches, r) == Some(older)
  {
    var events := [Fetch(i, r), Answered(i, older), Fetch(j, r), Answered(j, newer), WriteDone(j), WriteDone(i)];
    var e1, e2 := [Entry(r, older)], [Entry(r, newer)];
    var s2 := s.(network := s.network + e1, writes := map[i := e1]);
    var s4 := s2.(network := s2.network + e2, writes := map[i := e1, j := e2]);
    assert Run(precache, s, events[..2]) == s2 by { FetchAnswered(precache, s, events, 0); }
    assert Run(precache, s, events[..4]) == s4 by { FetchAnswered(precache, s, events, 2); }
    RunTake(precache, s, events, 5);
    RunTake(precache, s, events, 6);
    assert events[..6] == events;
    assert e1[..0] == e2[..0] == [] && LastOk(e1, r) == Some(older) && LastOk(e2, r) == Some(newer);
    LastOkConcat(s2.network, e2, r);
    LastWriteWins(precache, s4, i, j, r);
  }

  /** Of two writes under way, the one done last stays. */
  lemma LastWriteWins(precache: seq<string>, s: State, i: nat, j: nat, r: Request)
    requires i != j && s.writes.Keys == {i, j} && LastOk(s.writes[i], r).Some?
    requires forall e :: e in s.writes[i] ==> e.response.ok
    ensures var s' := Step(precache, Step(precache, s, WriteDone(j)), WriteDone(i));
      && s'.writes == map[] && s'.inFlight == s.inFlight && s'.network == s.network
      && Cached(s'.caches, r) == LastOk(s.writes[i], r)
  {
    assert i in s.writes.Keys && j in s.writes.Keys;
    assert Without(Without(s.writes, j), i) == map[];
    PutHits(Put(s.caches, s.writes[j]), s.writes[i], r);
  }
}
