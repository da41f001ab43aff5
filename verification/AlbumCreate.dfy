/**
 Creating albums exactly once: any number of createAlbum requests on the server,
 one SQL statement at a time, and the Lightroom clients that send them, with lost
 requests, lost answers, requests that arrive long after the client gave up,
 exhausted retries, restarts and later publishes.
 */
module AlbumCreate {
  import opened Base

  /** An album row. `owner` is the collection whose publish asked for it, for the proofs only. */
  datatype Album = Album(slug: nat, key: Option<nat>, owner: Option<nat>)

  datatype Answer = Created(album: nat) | Failed

  /** How far a request has come. */
  datatype Phase =
    | Looking                    // GetAlbumByIdempotencyKey, if there is a key
    | Inserting(attempt: nat)    // INSERT
    | Classifying(attempt: nat)  // the INSERT broke a UNIQUE constraint: count rows with the key
    | Replaying                  // lost the race: fetch the row the other request made
    | Answered(answer: Answer)

  datatype Request = Request(key: Option<nat>, owner: Option<nat>, phase: Phase)

  const SLUG_RETRIES := 10

  /** Sends of one call: the first and one per RETRY_DELAYS entry. */
  const MAX_SENDS := 6

  /** What one publish of a collection is doing about its album. */
  datatype Run =
    | Resting
    | Ready(key: nat, send: nat)               // about to make this send of the ladder
    | Waiting(key: nat, send: nat, request: nat)
    | Got(album: nat)                          // answered, not recorded yet
    | Recorded                                 // recorded, the key not cleared yet

  /** key and remoteId are kept in the catalog and outlive the process. */
  datatype Client = Client(key: Option<nat>, remoteId: Option<nat>, run: Run)

  datatype State = State(
    albums: map<nat, Album>,
    requests: map<nat, Request>,
    clients: map<nat, Client>,
    idsUsed: set<nat>,          // history: album ids ever given out
    keysUsed: set<nat>,         // history: idempotency keys ever minted
    minted: map<nat, nat>,      // history: the keys minted by the clients here, each with its collection
    keyOf: map<nat, nat>)       // history: the key that the latest publish of each collection uses

  const INITIAL := State(map[], map[], map[], {}, {}, map[], map[])

  datatype ServerStep =
    | Accept(r: nat, key: Option<nat>)                 // a request of some other client
    | Lookup(r: nat, found: Option<nat>)
    | InsertRow(r: nat, slug: nat, id: nat)
    | Classify(r: nat)
    | Replay(r: nat, found: Option<nat>)
    | Reject(r: nat)                                   // any other error: storage, a missing parent folder
    | Delete(id: nat)

  datatype ClientStep =
    | Install
    | Begin(key: nat)          // pendingCreateKey finds no key, or cannot read it: it mints one and stores it
    | Resume                   // pendingCreateKey finds the stored key
    | BeginUnstored(key: nat)  // it mints one that the catalog refuses, or has no name to store it under
    | Send(request: nat)
    | SendLost                 // the request never reaches the server
    | GiveUpWaiting            // no answer, or a transient failure: on to the next send
    | Receive
    | Resend                   // the folder chain was repaired: the same create again
    | Record                   // recordRemoteCollectionId
    | Clear                    // clearPendingCreateKey
    | Quit                     // error, cancel, crash or restart

  datatype Event = Server(server: ServerStep) | At(collection: nat, client: ClientStep)

  predicate HasKey(a: Album, key: Option<nat>) {
    key.Some? && a.key == key
  }

  predicate KeyTaken(albums: map<nat, Album>, key: Option<nat>) {
    exists id :: id in albums && HasKey(albums[id], key)
  }

  predicate SlugTaken(albums: map<nat, Album>, slug: nat) {
    exists id :: id in albums && albums[id].slug == slug
  }

  /** found is what a query by key may return. */
  predicate Finds(albums: map<nat, Album>, key: Option<nat>, found: Option<nat>) {
    match found
    case None => !KeyTaken(albums, key)
    case Some(id) => id in albums && HasKey(albums[id], key)
  }

  predicate CanServe(s: State, e: ServerStep) {
    match e
    case Accept(r, key) => r !in s.requests && (key.Some? ==> key.value !in s.minted)
    case Lookup(r, found) => r in s.requests && s.requests[r].phase.Looking? && Finds(s.albums, s.requests[r].key, found)
    case InsertRow(r, _, id) => r in s.requests && s.requests[r].phase.Inserting? && id !in s.idsUsed
    case Classify(r) => r in s.requests && s.requests[r].phase.Classifying?
    case Replay(r, found) => r in s.requests && s.requests[r].phase.Replaying? && Finds(s.albums, s.requests[r].key, found)
    case Reject(r) => r in s.requests && !s.requests[r].phase.Answered?
    case Delete(id) => id in s.albums
  }

  function SetPhase(s: State, r: nat, ph: Phase): State
    requires r in s.requests
  {
    s.(requests := s.requests[r := s.requests[r].(phase := ph)])
  }

  function Serve(s: State, e: ServerStep): State
    requires CanServe(s, e)
  {
    match e
    case Accept(r, key) =>
      s.(requests := s.requests[r := Request(key, None, Looking)], keysUsed := s.keysUsed + if key.Some? then {key.value} else {})
    case Lookup(r, found) =>
      SetPhase(s, r, if found.Some? then Answered(Created(found.value)) else Inserting(0))
    case InsertRow(r, slug, id) =>
      var q := s.requests[r];
      if SlugTaken(s.albums, slug) || KeyTaken(s.albums, q.key)
      then SetPhase(s, r, Classifying(q.phase.attempt))
      else SetPhase(s.(albums := s.albums[id := Album(slug, q.key, q.owner)], idsUsed := s.idsUsed + {id}), r, Answered(Created(id)))
    case Classify(r) =>
      var q := s.requests[r];
      if KeyTaken(s.albums, q.key) then SetPhase(s, r, Replaying)
      else if q.phase.attempt >= SLUG_RETRIES then SetPhase(s, r, Answered(Failed))
      else SetPhase(s, r, Inserting(q.phase.attempt + 1))
    case Replay(r, found) =>
      SetPhase(s, r, Answered(if found.Some? then Created(found.value) else Failed))
    case Reject(r) => SetPhase(s, r, Answered(Failed))
    case Delete(id) => s.(albums := s.albums - {id})
  }

  /** Nothing recorded, or the server says album_not_found for what is. */
  predicate NeedsAlbum(s: State, cl: Client) {
    cl.remoteId.None? || cl.remoteId.value !in s.albums
  }

  predicate CanAct(s: State, c: nat, e: ClientStep) {
    if e.Install? then c !in s.clients
    else
      c in s.clients &&
      var cl := s.clients[c];
      match e
      case Install => true
      case Begin(key) => cl.run.Resting? && NeedsAlbum(s, cl) && key !in s.keysUsed
      case Resume => cl.run.Resting? && NeedsAlbum(s, cl) && cl.key.Some?
      case BeginUnstored(key) => cl.run.Resting? && NeedsAlbum(s, cl) && key !in s.keysUsed
      case Send(r) => cl.run.Ready? && r !in s.requests
      case SendLost => cl.run.Ready?
      case GiveUpWaiting => cl.run.Waiting?
      case Receive => cl.run.Waiting? && cl.run.request in s.requests && s.requests[cl.run.request].phase.Answered?
                      && s.requests[cl.run.request].phase.answer.Created?
      case Resend => cl.run.Waiting?
      case Record => cl.run.Got?
      case Clear => cl.run.Recorded?
      case Quit => true
  }

  /** The next send of the ladder, or none left. */
  function NextSend(key: nat, send: nat): Run {
    if send < MAX_SENDS then Ready(key, send + 1) else Resting
  }

  function SetRun(s: State, c: nat, run: Run): State
    requires c in s.clients
  {
    s.(clients := s.clients[c := s.clients[c].(run := run)])
  }

  function Mint(s: State, c: nat, key: nat): State {
    s.(keysUsed := s.keysUsed + {key}, minted := s.minted[key := c], keyOf := s.keyOf[c := key])
  }

  function Act(s: State, c: nat, e: ClientStep): State
    requires CanAct(s, c, e)
  {
    match e
    case Install => s.(clients := s.clients[c := Client(None, None, Resting)])
    case Begin(key) =>
      Mint(s, c, key).(clients := s.clients[c := Client(Some(key), s.clients[c].remoteId, Ready(key, 1))])
    case Resume => SetRun(s.(keyOf := s.keyOf[c := s.clients[c].key.value]), c, Ready(s.clients[c].key.value, 1))
    case BeginUnstored(key) => SetRun(Mint(s, c, key), c, Ready(key, 1))
    case Send(r) =>
      var run := s.clients[c].run;
      SetRun(s.(requests := s.requests[r := Request(Some(run.key), Some(c), Looking)]), c, Waiting(run.key, run.send, r))
    case SendLost => SetRun(s, c, NextSend(s.clients[c].run.key, s.clients[c].run.send))
    case GiveUpWaiting => SetRun(s, c, NextSend(s.clients[c].run.key, s.clients[c].run.send))
    case Receive => SetRun(s, c, Got(s.requests[s.clients[c].run.request].phase.answer.album))
    case Resend => SetRun(s, c, Ready(s.clients[c].run.key, 1))
    case Record =>
      var cl := s.clients[c];
      s.(clients := s.clients[c := Client(cl.key, Some(cl.run.album), Recorded)])
    case Clear => s.(clients := s.clients[c := s.clients[c].(key := None, run := Resting)])
    case Quit => SetRun(s, c, Resting)
  }

  predicate Enabled(s: State, e: Event) {
    match e
    case Server(x) => CanServe(s, x)
    case At(c, x) => CanAct(s, c, x)
  }

  function Apply(s: State, e: Event): State
    requires Enabled(s, e)
  {
    match e
    case Server(x) => Serve(s, x)
    case At(c, x) => Act(s, c, x)
  }

  predicate CanRun(s: State, es: seq<Event>)
    decreases |es|
  {
    es == [] || (Enabled(s, es[0]) && CanRun(Apply(s, es[0]), es[1..]))
  }

  function After(s: State, es: seq<Event>): State
    requires CanRun(s, es)
    decreases |es|
  {
    if es == [] then s else After(Apply(s, es[0]), es[1..])
  }
}
