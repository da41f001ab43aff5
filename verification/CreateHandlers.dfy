/**
 createAlbum on the server and the plugin's publish with its retry ladder, in the
 form the source has them: objects whose fields change step by step. Between two
 steps everybody else may do anything AlbumCreate lets them do, and everything, by
 whomever, goes into one log, which is a run of AlbumCreate.
 */
module CreateHandlers {
  import opened Base
  import opened AlbumCreate
  import opened AlbumCreateOnce
  import Deeds

  // ----- the log -----

  lemma {:induction false} RunPrefix(s: State, es: seq<Event>, k: nat)
    requires CanRun(s, es) && k <= |es|
    ensures CanRun(s, es[..k])
    decreases k
  {
    if k > 0 {
      RunPrefix(Apply(s, es[0]), es[1..], k - 1);
      assert es[..k][1..] == es[1..][..k - 1];
    }
  }

  /** The state after the first k events. */
  ghost function Past(log: seq<Event>, k: nat): State
    requires CanRun(INITIAL, log) && k <= |log|
  {
    RunPrefix(INITIAL, log, k);
    After(INITIAL, log[..k])
  }

  lemma {:induction false} RunSnoc(s: State, es: seq<Event>, e: Event)
    requires CanRun(s, es) && Enabled(After(s, es), e)
    ensures CanRun(s, es + [e]) && After(s, es + [e]) == Apply(After(s, es), e)
    decreases |es|
  {
    if es == [] {
      assert CanRun(Apply(s, e), []) && After(Apply(s, e), []) == Apply(s, e);
      assert (es + [e])[0] == e && (es + [e])[1..] == [];
    } else {
      RunSnoc(Apply(s, es[0]), es[1..], e);
      assert (es + [e])[1..] == es[1..] + [e];
    }
  }

  lemma {:induction false} LastStep(s: State, es: seq<Event>, e: Event)
    requires CanRun(s, es + [e])
    ensures CanRun(s, es) && Enabled(After(s, es), e) && After(s, es + [e]) == Apply(After(s, es), e)
    decreases |es|
  {
    if es == [] {
      assert CanRun(Apply(s, e), []) && After(Apply(s, e), []) == Apply(s, e);
      assert (es + [e])[0] == e && (es + [e])[1..] == [];
    } else {
      assert (es + [e])[1..] == es[1..] + [e];
      LastStep(Apply(s, es[0]), es[1..], e);
    }
  }

  /** One event on. */
  lemma PastNext(log: seq<Event>, k: nat)
    requires CanRun(INITIAL, log) && k < |log|
    ensures Enabled(Past(log, k), log[k]) && Past(log, k + 1) == Apply(Past(log, k), log[k])
  {
    RunPrefix(INITIAL, log, k + 1);
    assert log[..k + 1] == log[..k] + [log[k]];
    LastStep(INITIAL, log[..k], log[k]);
  }

  /** What has happened stays as it was. */
  lemma PastEarlier(log: seq<Event>, log': seq<Event>, k: nat)
    requires CanRun(INITIAL, log) && CanRun(INITIAL, log') && log <= log' && k <= |log|
    ensures Past(log', k) == Past(log, k)
  {
    assert log'[..k] == log[..k];
  }

  // ----- one process among the others -----

  datatype Process = Handling(request: nat) | Publishing(collection: nat)

  predicate Involves(who: Process, e: Event) {
    match who
    case Handling(r) => e.Server? && !e.server.Delete? && e.server.r == r
    case Publishing(c) => e.At? && e.collection == c
  }

  /** No event since the first from is one of who's. */
  predicate NoneOf(who: Process, log: seq<Event>, from: nat) {
    forall k :: from <= k < |log| ==> !Involves(who, log[k])
  }

  /** What belongs to who stays: a request with its phase, or a client; and a request keeps its key. */
  ghost predicate SameControl(who: Process, s: State, t: State) {
    && s.idsUsed <= t.idsUsed && s.keysUsed <= t.keysUsed
    && (forall r :: r in s.requests ==> r in t.requests && t.requests[r].key == s.requests[r].key && t.requests[r].owner == s.requests[r].owner)
    && match who
       case Handling(r) => r in s.requests ==> t.requests[r] == s.requests[r]
       case Publishing(c) => c in s.clients ==> c in t.clients && t.clients[c] == s.clients[c]
  }

  lemma ServeKeepsControl(who: Process, s: State, x: ServerStep)
    requires CanServe(s, x) && !Involves(who, Server(x))
    ensures SameControl(who, s, Serve(s, x))
  {
    if x.Delete? {
      assert Serve(s, x).clients == s.clients;
    } else if x.Accept? || x.InsertRow? {
      assert Serve(s, x).clients == s.clients;
    } else {
      assert Serve(s, x).(requests := s.requests) == s;
    }
  }

  lemma ActKeepsControl(who: Process, s: State, c: nat, x: ClientStep)
    requires CanAct(s, c, x) && who != Publishing(c)
    ensures SameControl(who, s, Act(s, c, x))
  {
    var t := Act(s, c, x);
    assert t.(clients := s.clients, requests := s.requests, keysUsed := s.keysUsed, minted := s.minted, keyOf := s.keyOf) == s;
  }

  lemma StepKeepsControl(who: Process, s: State, e: Event)
    requires Enabled(s, e) && !Involves(who, e)
    ensures SameControl(who, s, Apply(s, e))
  {
    match e
    case Server(x) => ServeKeepsControl(who, s, x);
    case At(c, x) => ActKeepsControl(who, s, c, x);
  }

  lemma {:induction false} ControlKept(who: Process, log: seq<Event>, from: nat, k: nat)
    requires CanRun(INITIAL, log) && from <= k <= |log| && NoneOf(who, log, from)
    ensures SameControl(who, Past(log, from), Past(log, k))
    decreases k
  {
    if from < k {
      ControlKept(who, log, from, k - 1);
      PastNext(log, k - 1);
      StepKeepsControl(who, Past(log, k - 1), log[k - 1]);
    }
  }

  // ----- how an insert goes -----

  /** A row with this slug and key can be inserted. */
  predicate Free(s: State, slug: nat, key: Option<nat>) {
    !SlugTaken(s.albums, slug) && !KeyTaken(s.albums, key)
  }

  predicate IsInsertFor(e: Event, r: nat) {
    e.Server? && e.server.InsertRow? && e.server.r == r
  }

  predicate IsInsert(e: Event, r: nat, slug: nat) {
    IsInsertFor(e, r) && e.server.slug == slug
  }

  /** The deeds from n on are an INSERT for request r that was refused, and the count of rows with its key after it. */
  ghost predicate Refused(log: seq<Event>, deeds: seq<Event>, places: seq<nat>, n: nat, r: nat, key: Option<nat>)
    requires CanRun(INITIAL, log)
  {
    && n + 1 < |deeds| == |places| && places[n] < |log| && places[n + 1] < |log|
    && IsInsertFor(deeds[n], r) && deeds[n + 1] == Server(Classify(r))
    && !Free(Past(log, places[n]), deeds[n].server.slug, key)
  }

  /** And its key was taken at that count, or not. */
  ghost predicate KeyWas(taken: bool, log: seq<Event>, places: seq<nat>, n: nat, key: Option<nat>)
    requires CanRun(INITIAL, log)
  {
    n + 1 < |places| && places[n + 1] < |log| && (taken <==> KeyTaken(Past(log, places[n + 1]).albums, key))
  }

  /** The deeds from n on begin with k inserts refused for their slug. */
  ghost predicate Collided(log: seq<Event>, deeds: seq<Event>, places: seq<nat>, n: nat, k: nat, r: nat, key: Option<nat>)
    requires CanRun(INITIAL, log)
  {
    forall j: nat :: j < k ==> Refused(log, deeds, places, n + 2 * j, r, key) && KeyWas(false, log, places, n + 2 * j, key)
  }

  lemma RefusedLater(log: seq<Event>, deeds: seq<Event>, places: seq<nat>, log': seq<Event>, deeds': seq<Event>, places': seq<nat>, n: nat, r: nat, key: Option<nat>)
    requires CanRun(INITIAL, log) && CanRun(INITIAL, log') && log <= log' && deeds <= deeds' && places <= places' && |deeds'| == |places'|
    requires Refused(log, deeds, places, n, r, key)
    ensures Refused(log', deeds', places', n, r, key)
    ensures forall taken :: KeyWas(taken, log, places, n, key) ==> KeyWas(taken, log', places', n, key)
  {
    PastEarlier(log, log', places[n]);
    PastEarlier(log, log', places[n + 1]);
  }

  lemma CollidedLater(log: seq<Event>, deeds: seq<Event>, places: seq<nat>, log': seq<Event>, deeds': seq<Event>, places': seq<nat>, n: nat, k: nat, r: nat, key: Option<nat>)
    requires CanRun(INITIAL, log) && CanRun(INITIAL, log') && log <= log' && deeds <= deeds' && places <= places' && |deeds'| == |places'|
    requires Collided(log, deeds, places, n, k, r, key)
    ensures Collided(log', deeds', places', n, k, r, key)
  {
    forall j: nat | j < k ensures Refused(log', deeds', places', n + 2 * j, r, key) && KeyWas(false, log', places', n + 2 * j, key) {
      RefusedLater(log, deeds, places, log', deeds', places', n + 2 * j, r, key);
    }
  }

  lemma {:induction false} KeepsAt(hs: set<Hypothesis>, s: State, es: seq<Event>, k: nat)
    requires CanRun(s, es) && KeepsTo(hs, s, es) && k < |es|
    ensures CanRun(s, es[..k]) && KeepsTo(hs, s, es[..k])
    ensures Enabled(After(s, es[..k]), es[k]) && HoldAll(hs, After(s, es[..k]), es[k])
    decreases k
  {
    if k > 0 {
      KeepsAt(hs, Apply(s, es[0]), es[1..], k - 1);
      assert es[..k][1..] == es[1..][..k - 1];
    }
  }

  lemma {:induction false} RunKeepsSound(s: State, es: seq<Event>)
    requires Sound(s) && CanRun(s, es)
    ensures Sound(After(s, es))
    decreases |es|
  {
    if es != [] {
      StepKeepsSound(s, es[0]);
      RunKeepsSound(Apply(s, es[0]), es[1..]);
    }
  }

  /** A key that is taken stays taken, as long as no row with it is deleted. */
  lemma {:induction false} KeyStaysTaken(log: seq<Event>, i: nat, j: nat, key: nat)
    requires CanRun(INITIAL, log) && KeepsTo({RowsStay(key)}, INITIAL, log) && i <= j <= |log|
    requires KeyTaken(Past(log, i).albums, Some(key))
    ensures KeyTaken(Past(log, j).albums, Some(key))
    decreases j
  {
    if i < j {
      KeyStaysTaken(log, i, j - 1, key);
      PastNext(log, j - 1);
      KeepsAt({RowsStay(key)}, INITIAL, log, j - 1);
      RunKeepsSound(INITIAL, log[..j - 1]);
      KeyStaysOne(Past(log, j - 1), log[j - 1], key);
    }
  }

  lemma KeyStaysOne(s: State, e: Event, key: nat)
    requires Enabled(s, e) && Holds(RowsStay(key), s, e) && KeyTaken(s.albums, Some(key))
    requires forall id :: id in s.albums ==> id in s.idsUsed
    ensures KeyTaken(Apply(s, e).albums, Some(key))
  {
    var id :| id in s.albums && HasKey(s.albums[id], Some(key));
    assert id in Apply(s, e).albums && HasKey(Apply(s, e).albums[id], Some(key));
  }

  // ----- the albums table, backend/internal/db/albums.go -----

  class AlbumTable {
    var albums: map<nat, Album>

    constructor ()
      ensures albums == map[]
    {
      albums := map[];
    }

    /** INSERT INTO albums, under the UNIQUE constraints on slug and idempotency_key. */
    method Insert(id: nat, a: Album) returns (ok: bool)
      requires id !in albums
      modifies this
      ensures ok <==> !old(SlugTaken(albums, a.slug)) && !old(KeyTaken(albums, a.key))
      ensures albums == if ok then old(albums)[id := a] else old(albums)
    {
      ok := !SlugTaken(albums, a.slug) && !KeyTaken(albums, a.key);
      if ok { albums := albums[id := a]; }
    }

    /** SELECT COUNT(*) ... WHERE idempotency_key = ?, which an empty key skips. */
    method HasIdempotencyKey(key: Option<nat>) returns (taken: bool)
      ensures taken <==> KeyTaken(albums, key)
    {
      if key.None? { return false; }
      taken := exists id :: id in albums && HasKey(albums[id], key);
    }

    /** SELECT ... WHERE idempotency_key = ? */
    method GetAlbumByIdempotencyKey(key: Option<nat>) returns (found: Option<nat>)
      ensures Finds(albums, key, found)
    {
      if exists id :: id in albums && HasKey(albums[id], key) {
        var id :| id in albums && HasKey(albums[id], key);
        return Some(id);
      }
      return None;
    }
  }

  /** What db.CreateAlbum returns. */
  datatype CreateError = Inserted(id: nat) | ErrIdempotencyKeyTaken | ErrSlugTaken | ErrStorage

  /** Where a request is after an INSERT attempt. */
  function Next(err: CreateError, attempt: nat): Phase {
    match err
    case Inserted(id) => Answered(Created(id))
    case ErrIdempotencyKeyTaken => Replaying
    case ErrSlugTaken => if attempt >= SLUG_RETRIES then Answered(Failed) else Inserting(attempt + 1)
    case ErrStorage => Answered(Failed)
  }

  /** The error code of a body that has one. */
  datatype ErrorCode = FolderNotFound | OtherError

  /** What a send gives the plugin: no headers, or a status with the body's error code and album id, if any. */
  datatype Reply = NoReply | Reply(status: nat, error: Option<ErrorCode>, album: Option<nat>)

  predicate IsOk(reply: Reply) {
    reply.Reply? && 200 <= reply.status < 300
  }

  predicate IsTransient(reply: Reply) {
    reply.NoReply? || reply.status == 0 || reply.status >= 500 || (reply.status == 404 && reply.error.None?)
  }

  predicate IsFolderGone(reply: Reply) {
    reply.Reply? && reply.status == 404 && reply.error == Some(FolderNotFound)
  }

  /** The client waits for an answer that has been given, and reply is that answer. */
  predicate IsAnswerTo(s: State, c: nat, reply: Reply) {
    && c in s.clients && s.clients[c].run.Waiting? && SaysCreated(s, s.clients[c].run.request)
    && reply.Reply? && reply.album == Some(s.requests[s.clients[c].run.request].phase.answer.album)
  }

  /** The request has been answered with an error. */
  predicate SaysFailed(s: State, r: nat) {
    r in s.requests && s.requests[r].phase == Answered(Failed)
  }

  /** The replies of one call: all but the last made it go on, and the last one ended it. */
  predicate IsLadder(replies: seq<Reply>, canceled: bool) {
    && 1 <= |replies| <= 6
    && (forall i :: 0 <= i < |replies| - 1 ==> IsTransient(replies[i]) && !IsOk(replies[i]))
    && var last := replies[|replies| - 1];
       IsOk(last) || !IsTransient(last) || |replies| == 6 || canceled
  }

  /** In numbers: it goes on after no headers, a 5xx or a bare 404, and ends early only with a 2xx, or with something that is none of these. */
  lemma LadderSays(replies: seq<Reply>, canceled: bool)
    requires IsLadder(replies, canceled)
    ensures forall i :: 0 <= i < |replies| - 1 ==>
              replies[i].NoReply? || replies[i].status == 0 || replies[i].status >= 500 || (replies[i].status == 404 && replies[i].error.None?)
    ensures var last := replies[|replies| - 1];
            |replies| < 6 && !canceled ==>
              last.Reply? && (200 <= last.status <= 299 || (1 <= last.status <= 499 && (last.status == 404 ==> last.error.Some?)))
  {
    assert forall i :: 0 <= i < |replies| - 1 ==> IsTransient(replies[i]);
  }

  class World {
    const db: AlbumTable
    const healthy: bool               // no storage error happens
    const reliable: bool              // nothing is lost, and nobody answers in the server's place
    const patient: bool               // nobody cancels a publish
    var requests: map<nat, Request>
    var clients: map<nat, Client>
    var idsUsed: set<nat>
    var keysUsed: set<nat>

    ghost const alone: bool           // nobody else does anything
    ghost var log: seq<Event>         // everything that has happened, by whom ever
    ghost var deeds: seq<Event>       // what the calls here have done of it
    ghost var places: seq<nat>        // and where that is in the log
    ghost var now: State              // where that leads
    ghost var heard: seq<Reply>       // every reply to a send from here
    ghost var faults: nat             // storage errors that the calls here have met
    ghost var canceled: bool          // the user has canceled

    constructor (healthy: bool, reliable: bool, patient: bool, ghost alone: bool)
      ensures this.healthy == healthy && this.reliable == reliable && this.patient == patient && this.alone == alone
      ensures fresh(db) && Valid() && log == [] && heard == [] && !canceled
    {
      this.healthy, this.reliable, this.patient, this.alone := healthy, reliable, patient, alone;
      db := new AlbumTable();
      requests, clients, idsUsed, keysUsed := map[], map[], {}, {};
      log, deeds, places, now, heard, faults, canceled := [], [], [], INITIAL, [], 0, false;
    }

    ghost predicate Logged()
      reads this`log, this`deeds, this`places, this`now
    {
      CanRun(INITIAL, log) && After(INITIAL, log) == now && Deeds.Recorded(log, deeds, places, alone)
    }

    /** The log leads to where things are, and has the deeds in their places. */
    ghost predicate Valid()
      reads this, db
    {
      && Logged() && now.albums == db.albums && now.requests == requests && now.clients == clients
      && now.idsUsed == idsUsed && now.keysUsed == keysUsed
    }

    lemma Here()
      requires Valid()
      ensures Past(log, |log|) == now
    {
      assert log[..|log|] == log;
    }

    // ----- what is proved of all runs, of this world -----

    /** As long as no row with its key has been deleted, an answer that names a row names the only one with that key. */
    lemma OneRow(r: nat, key: nat)
      requires Valid() && KeepsTo({RowsStay(key)}, INITIAL, log) && SaysCreated(now, r) && requests[r].key == Some(key)
      ensures RowsWith(now, key) == {requests[r].phase.answer.album}
    {
      OneRowPerKey(log, key);
    }

    /** As long as its key is kept and none of its rows deleted, what a collection has recorded is the only row made for it. */
    lemma OneAlbum(c: nat)
      requires Valid() && KeepsTo({OwnRowsStay(c), KeyIsKept(c)}, INITIAL, log) && c in clients && clients[c].remoteId.Some?
      ensures RowsFor(now, c) == {clients[c].remoteId.value}
    {
      ExactlyOnce(log, c);
    }

    // ----- steps -----

    /** Any number of steps of anybody but who. */
    method Environment(ghost who: Process)
      requires Valid()
      modifies this`log, this`now, this`requests, this`clients, this`idsUsed, this`keysUsed, db
      ensures Valid() && old(log) <= log && NoneOf(who, log, |old(log)|) && (alone ==> log == old(log))
    {
    }

    /** The same, and what it leaves alone. */
    method Others(ghost who: Process)
      requires Valid()
      modifies this`log, this`now, this`requests, this`clients, this`idsUsed, this`keysUsed, db
      ensures Valid() && old(log) <= log && NoneOf(who, log, |old(log)|) && SameControl(who, old(now), now)
    {
      ghost var before := log;
      Here();
      Environment(who);
      ControlKept(who, log, |before|, |log|);
      PastEarlier(before, log, |before|);
      Here();
    }

    /** Whether a storage error happens here. */
    method Fails() returns (fails: bool)
      modifies this`faults
      ensures (healthy ==> !fails) && faults == old(faults) + if fails then 1 else 0
    {
      fails := *;
      if healthy { fails := false; }
      if fails { faults := faults + 1; }
    }

    /** A step of one's own goes into the log. */
    ghost method Take(e: Event)
      requires Logged() && Enabled(now, e)
      modifies this`log, this`now, this`deeds, this`places
      ensures Logged() && log == old(log) + [e] && now == Apply(old(now), e)
      ensures deeds == old(deeds) + [e] && places == old(places) + [|old(log)|] && |places| == |deeds|
      ensures Past(log, |old(log)|) == old(now)
    {
      RunSnoc(INITIAL, log, e);
      Deeds.RecordedSnoc(log, deeds, places, alone, e);
      assert (log + [e])[..|log|] == log;
      log, deeds, places, now := log + [e], deeds + [e], places + [|log|], Apply(now, e);
    }

    // ----- backend/internal/api/publish_albums.go and slug.go -----

    method Move(r: nat, ph: Phase)
      requires r in requests
      modifies this`requests
      ensures requests == old(requests)[r := old(requests)[r].(phase := ph)]
    {
      requests := requests[r := requests[r].(phase := ph)];
    }

    /** A step of the handler of r that leaves the table alone. */
    method Step(ghost x: ServerStep, r: nat, ph: Phase)
      requires Valid() && CanServe(now, x) && r in requests && Serve(now, x) == SetPhase(now, r, ph)
      modifies this`log, this`now, this`deeds, this`places, this`requests
      ensures Valid() && log == old(log) + [Server(x)] && deeds == old(deeds) + [Server(x)]
      ensures places == old(places) + [|old(log)|] && |places| == |deeds| && Past(log, |old(log)|) == old(now)
      ensures r in requests && requests[r] == old(requests)[r].(phase := ph)
    {
      Take(Server(x));
      Move(r, ph);
    }

    /** A storage error ends the request. */
    method GiveUp(r: nat)
      requires Valid() && r in requests && !requests[r].phase.Answered?
      modifies this`log, this`now, this`deeds, this`places, this`requests
      ensures Valid() && old(log) <= log && deeds == old(deeds) + [Server(Reject(r))] && old(places) <= places && |places| == |deeds|
      ensures r in requests && requests[r] == old(requests)[r].(phase := Answered(Failed))
    {
      Step(Reject(r), r, Answered(Failed));
    }

    /** The second half of db.CreateAlbum: which constraint was it? */
    method ClassifyError(r: nat, attempt: nat) returns (err: CreateError)
      requires Valid() && r in requests && requests[r].phase == Classifying(attempt)
      modifies this`log, this`now, this`deeds, this`places, this`requests, this`faults
      ensures Valid() && old(log) <= log && old(places) <= places && |places| == |deeds|
      ensures !err.Inserted? && r in requests && requests[r] == old(requests)[r].(phase := Next(err, attempt))
      ensures if err == ErrStorage then !healthy && deeds == old(deeds) + [Server(Reject(r))]
              else
                && deeds == old(deeds) + [Server(Classify(r))] && places[|old(deeds)|] == |old(log)| < |log| && Past(log, |old(log)|) == old(now)
                && (err == ErrIdempotencyKeyTaken <==> KeyTaken(old(db.albums), requests[r].key))
      ensures err == ErrStorage <==> faults != old(faults)
    {
      var fails := Fails();
      if fails {
        GiveUp(r);
        return ErrStorage;
      }
      var taken := db.HasIdempotencyKey(requests[r].key);
      err := if taken then ErrIdempotencyKeyTaken else ErrSlugTaken;
      Step(Classify(r), r, Next(err, attempt));
    }

    /** What became of an INSERT of slug for request r: it is deed n, and it took the deeds up to m. */
    ghost predicate InsertWent(n: nat, m: nat, r: nat, slug: nat, key: Option<nat>, err: CreateError)
      requires Logged()
      reads this`log, this`now, this`deeds, this`places
    {
      |deeds| == |places| && n < m <= |deeds| &&
      match err
      case Inserted(id) =>
        m == n + 1 && deeds[n] == Server(InsertRow(r, slug, id)) && places[n] < |log| && Free(Past(log, places[n]), slug, key)
      case ErrIdempotencyKeyTaken =>
        m == n + 2 && Refused(log, deeds, places, n, r, key) && deeds[n].server.slug == slug && KeyWas(true, log, places, n, key)
      case ErrSlugTaken =>
        m == n + 2 && Refused(log, deeds, places, n, r, key) && deeds[n].server.slug == slug && KeyWas(false, log, places, n, key)
      case ErrStorage => !healthy && m <= n + 2 && deeds[m - 1] == Server(Reject(r))
    }

    /** db.CreateAlbum: the INSERT, then the classification of a violated constraint. */
    method InsertOrClassify(r: nat, slug: nat) returns (err: CreateError)
      requires Valid() && r in requests && requests[r].phase.Inserting?
      modifies this`log, this`now, this`deeds, this`places, this`requests, this`clients, this`idsUsed, this`keysUsed, this`faults, db
      ensures Valid() && old(log) <= log && old(deeds) <= deeds && old(places) <= places
      ensures InsertWent(|old(deeds)|, |deeds|, r, slug, old(requests[r].key), err)
      ensures r in requests && requests[r] == old(requests)[r].(phase := Next(err, old(requests[r].phase.attempt)))
      ensures err == ErrStorage <==> faults != old(faults)
    {
      var fails := Fails();
      if fails {
        GiveUp(r);
        return ErrStorage;
      }
      var id := Insert(r, slug);
      if id.Some? {
        return Inserted(id.value);
      }
      err := ClassifyAfter(r, slug, |deeds| - 1);
    }

    /** After deed n, an INSERT that was refused. */
    method ClassifyAfter(r: nat, ghost slug: nat, ghost n: nat) returns (err: CreateError)
      requires Valid() && r in requests && requests[r].phase.Classifying? && |places| == |deeds| == n + 1
      requires places[n] < |log| && IsInsert(deeds[n], r, slug) && !Free(Past(log, places[n]), slug, requests[r].key)
      modifies this`log, this`now, this`deeds, this`places, this`requests, this`clients, this`idsUsed, this`keysUsed, this`faults, db
      ensures Valid() && old(log) <= log && old(deeds) <= deeds && old(places) <= places
      ensures InsertWent(n, |deeds|, r, slug, old(requests[r].key), err) && !err.Inserted?
      ensures r in requests && requests[r] == old(requests)[r].(phase := Next(err, old(requests[r].phase.attempt)))
      ensures err == ErrStorage <==> faults != old(faults)
    {
      ghost var was := log;
      Others(Handling(r));
      PastEarlier(was, log, places[n]);
      ghost var before := log;
      err := ClassifyError(r, requests[r].phase.attempt);
      PastEarlier(before, log, places[n]);
    }

    /** The INSERT: the new id, or none if a constraint was violated. */
    method Insert(r: nat, slug: nat) returns (done: Option<nat>)
      requires Valid() && r in requests && requests[r].phase.Inserting?
      modifies this`log, this`now, this`deeds, this`places, this`requests, this`clients, this`idsUsed, this`keysUsed, db
      ensures Valid() && r in requests && |places| == |deeds| == |old(deeds)| + 1 && old(deeds) <= deeds && old(places) <= places
      ensures |log| == |old(log)| + 1 && old(log) <= log && places[|old(deeds)|] == |old(log)| && Past(log, |old(log)|) == old(now)
      ensures IsInsert(deeds[|old(deeds)|], r, slug) && (done.Some? ==> deeds[|old(deeds)|].server.id == done.value)
      ensures (done.Some? <==> Free(old(now), slug, old(requests[r].key)))
      ensures requests[r] == old(requests)[r].(phase := if done.Some? then Answered(Created(done.value)) else Classifying(old(requests[r].phase.attempt)))
      ensures done.Some? ==> done.value in db.albums && db.albums[done.value] == Album(slug, requests[r].key, requests[r].owner)
    {
      var q := requests[r];
      AlwaysAnother(idsUsed + db.albums.Keys);
      var id: nat :| id !in idsUsed + db.albums.Keys;
      Take(Server(InsertRow(r, slug, id)));
      var ok := db.Insert(id, Album(slug, q.key, q.owner));
      if ok {
        idsUsed := idsUsed + {id};
        Move(r, Answered(Created(id)));
        done := Some(id);
      } else {
        Move(r, Classifying(q.phase.attempt));
        done := None;
      }
    }

    /** After ErrIdempotencyKeyTaken: the row the other request made. */
    method FetchWinner(r: nat) returns (answer: Answer)
      requires Valid() && r in requests && requests[r].phase == Replaying
      modifies this`log, this`now, this`deeds, this`places, this`requests, this`faults
      ensures Valid() && old(log) <= log && old(places) <= places && |places| == |deeds|
      ensures r in requests && requests[r] == old(requests)[r].(phase := Answered(answer))
      ensures || (FetchedAt(|old(deeds)|, r, requests[r].key, answer) && |deeds| == |old(deeds)| + 1 && old(deeds) <= deeds)
              || (!healthy && answer.Failed? && deeds == old(deeds) + [Server(Reject(r))])
      ensures faults != old(faults) ==> deeds == old(deeds) + [Server(Reject(r))]
    {
      var fails := Fails();
      if fails {
        GiveUp(r);
        return Failed;
      }
      var found := db.GetAlbumByIdempotencyKey(requests[r].key);
      answer := if found.Some? then Created(found.value) else Failed;
      Step(Replay(r, found), r, Answered(answer));
    }

    /** The lookup before anything is written, which an empty key skips. */
    method LookUp(r: nat) returns (answer: Option<Answer>)
      requires Valid() && r in requests && requests[r].phase == Looking
      modifies this`log, this`now, this`deeds, this`places, this`requests, this`faults
      ensures Valid() && old(log) <= log && old(places) <= places && |places| == |deeds|
      ensures r in requests && requests[r] == old(requests)[r].(phase := if answer.Some? then Answered(answer.value) else Inserting(0))
      ensures match answer
              case None => deeds == old(deeds) + [Server(Lookup(r, None))]
              case Some(Created(id)) => deeds == old(deeds) + [Server(Lookup(r, Some(id)))]
              case Some(Failed) => !healthy && deeds == old(deeds) + [Server(Reject(r))]
      ensures faults != old(faults) <==> answer == Some(Failed)
    {
      var fails := Fails();
      if fails {
        GiveUp(r);
        return Some(Failed);
      }
      var found := db.GetAlbumByIdempotencyKey(requests[r].key);
      answer := if found.Some? then Some(Created(found.value)) else None;
      Step(Lookup(r, found), r, if answer.Some? then Answered(answer.value) else Inserting(0));
    }

    /** From deed n up to m: k inserts refused for their slug, the first for base, and then one that went as err says. */
    ghost predicate Attempted(n: nat, m: nat, k: nat, r: nat, base: nat, slug: nat, key: Option<nat>, err: CreateError)
      requires Logged()
      reads this`log, this`now, this`deeds, this`places
    {
      && k <= SLUG_RETRIES && Collided(log, deeds, places, n, k, r, key) && InsertWent(n + 2 * k, m, r, slug, key, err)
      && (err == ErrSlugTaken ==> k == SLUG_RETRIES)
      && (if k == 0 then slug == base else n < |deeds| && IsInsert(deeds[n], r, base))
    }

    /** withUniqueSlug: the name's slug first, then up to SLUG_RETRIES others. */
    method WithUniqueSlug(r: nat, base: nat) returns (err: CreateError)
      requires Valid() && r in requests && requests[r].phase == Inserting(0)
      modifies this`log, this`now, this`deeds, this`places, this`requests, this`clients, this`idsUsed, this`keysUsed, this`faults, db
      ensures Valid() && old(log) <= log && old(deeds) <= deeds && old(places) <= places
      ensures r in requests && requests[r] == old(requests)[r].(phase := Next(err, SLUG_RETRIES))
      ensures exists k: nat, slug: nat :: Attempted(|old(deeds)|, |deeds|, k, r, base, slug, old(requests[r].key), err)
      ensures err == ErrStorage <==> faults != old(faults)
    {
      ghost var n, key := |deeds|, requests[r].key;
      var attempt := 0;
      var slug := base;
      while true
        invariant attempt <= SLUG_RETRIES && Valid() && old(log) <= log && old(deeds) <= deeds && old(places) <= places
        invariant r in requests && requests[r] == old(requests)[r].(phase := Inserting(attempt))
        invariant UpTo(n, attempt, r, base, slug, key) && faults == old(faults)
        decreases SLUG_RETRIES - attempt
      {
        err := Attempt(n, attempt, r, base, slug, key);
        if err != ErrSlugTaken || attempt >= SLUG_RETRIES {
          return;
        }
        slug := *;
        attempt := attempt + 1;
      }
    }

    /** Before the next attempt: k inserts so far, all refused for their slug. */
    ghost predicate UpTo(n: nat, k: nat, r: nat, base: nat, slug: nat, key: Option<nat>)
      requires Logged()
      reads this`log, this`now, this`deeds, this`places
    {
      && |deeds| == |places| == n + 2 * k && Collided(log, deeds, places, n, k, r, key)
      && (if k == 0 then slug == base else IsInsert(deeds[n], r, base))
    }

    method Attempt(ghost n: nat, attempt: nat, r: nat, ghost base: nat, slug: nat, ghost key: Option<nat>) returns (err: CreateError)
      requires Valid() && r in requests && requests[r].phase == Inserting(attempt) && requests[r].key == key
      requires attempt <= SLUG_RETRIES && UpTo(n, attempt, r, base, slug, key)
      modifies this`log, this`now, this`deeds, this`places, this`requests, this`clients, this`idsUsed, this`keysUsed, this`faults, db
      ensures Valid() && old(log) <= log && old(deeds) <= deeds && old(places) <= places
      ensures r in requests && requests[r] == old(requests)[r].(phase := Next(err, attempt))
      ensures if err == ErrSlugTaken && attempt < SLUG_RETRIES then UpTo(n, attempt + 1, r, base, base, key)
              else Attempted(n, |deeds|, attempt, r, base, slug, key, err)
      ensures err == ErrStorage <==> faults != old(faults)
    {
      ghost var before, did, at := log, deeds, places;
      Others(Handling(r));
      err := InsertOrClassify(r, slug);
      CollidedLater(before, did, at, log, deeds, places, n, attempt, r, key);
    }

    /** The parent folder of the request does not exist. */
    method RefuseParent(r: nat)
      requires Valid() && r in requests && requests[r].phase == Inserting(0)
      modifies this`log, this`now, this`deeds, this`places, this`requests, this`clients, this`idsUsed, this`keysUsed, db
      ensures Valid() && old(log) <= log && deeds == old(deeds) + [Server(Reject(r))] && old(places) <= places && |places| == |deeds|
      ensures r in requests && requests[r] == old(requests)[r].(phase := Answered(Failed))
    {
      Others(Handling(r));
      Step(Reject(r), r, Answered(Failed));
    }

    /** From deed n on: the inserts, and if the key was taken, the fetch of the winner's row. */
    ghost predicate Answers(n: nat, m: nat, r: nat, base: nat, key: Option<nat>, err: CreateError, answer: Answer)
      requires Logged()
      reads this`log, this`now, this`deeds, this`places
    {
      && (exists k: nat, slug: nat :: Attempted(n, m, k, r, base, slug, key, err))
      && match err
         case Inserted(id) => |deeds| == m && answer == Created(id)
         case ErrIdempotencyKeyTaken =>
           |deeds| == m + 1 && (FetchedAt(m, r, key, answer) || (!healthy && answer.Failed? && deeds[m] == Server(Reject(r))))
         case _ => |deeds| == m && answer.Failed?
    }

    ghost predicate AnswersFrom(n: nat, r: nat, base: nat, key: Option<nat>, answer: Answer)
      requires Logged()
      reads this`log, this`now, this`deeds, this`places
    {
      exists m: nat, err :: Answers(n, m, r, base, key, err, answer)
    }

    /** Deed m found the row with the key, or that there is none any more. */
    ghost predicate FetchedAt(m: nat, r: nat, key: Option<nat>, answer: Answer)
      requires Logged()
      reads this`log, this`now, this`deeds, this`places
    {
      && m < |deeds| == |places| && places[m] < |log|
      && deeds[m] == Server(Replay(r, if answer.Created? then Some(answer.album) else None))
      && (answer.Failed? ==> !KeyTaken(Past(log, places[m]).albums, key))
    }

    /** The insert and, after a lost race, the other request's row. */
    method InsertOrReplay(r: nat, base: nat) returns (answer: Answer)
      requires Valid() && r in requests && requests[r].phase == Inserting(0)
      modifies this`log, this`now, this`deeds, this`places, this`requests, this`clients, this`idsUsed, this`keysUsed, this`faults, db
      ensures Valid() && old(log) <= log && old(deeds) <= deeds && old(places) <= places
      ensures r in requests && requests[r] == old(requests)[r].(phase := Answered(answer))
      ensures AnswersFrom(|old(deeds)|, r, base, old(requests[r].key), answer)
      ensures faults != old(faults) ==> answer.Failed?
    {
      ghost var n, key := |deeds|, requests[r].key;
      var err := WithUniqueSlug(r, base);
      ghost var m := |deeds|;
      match err {
        case Inserted(id) => answer := Created(id);
        case ErrIdempotencyKeyTaken => answer := FetchAfterOthers(n, r, base, key, err);
        case ErrSlugTaken => answer := Failed;
        case ErrStorage => answer := Failed;
      }
      assert Answers(n, m, r, base, key, err, answer);
    }

    /** The log only grows: what was attempted stays so. */
    lemma StillAttempted(log0: seq<Event>, deeds0: seq<Event>, places0: seq<nat>, n: nat, m: nat, k: nat, r: nat, base: nat, slug: nat, key: Option<nat>)
      requires Logged() && CanRun(INITIAL, log0) && log0 <= log && deeds0 <= deeds && places0 <= places && |deeds0| == |places0| && |deeds| == |places|
      requires k <= SLUG_RETRIES && Collided(log0, deeds0, places0, n, k, r, key) && m == n + 2 * k + 2 <= |deeds0|
      requires Refused(log0, deeds0, places0, n + 2 * k, r, key) && deeds0[n + 2 * k].server.slug == slug && KeyWas(true, log0, places0, n + 2 * k, key)
      requires if k == 0 then slug == base else IsInsert(deeds0[n], r, base)
      ensures Attempted(n, m, k, r, base, slug, key, ErrIdempotencyKeyTaken)
    {
      CollidedLater(log0, deeds0, places0, log, deeds, places, n, k, r, key);
      RefusedLater(log0, deeds0, places0, log, deeds, places, n + 2 * k, r, key);
    }

    method FetchAfterOthers(ghost n: nat, r: nat, ghost base: nat, ghost key: Option<nat>, ghost err: CreateError) returns (answer: Answer)
      requires Valid() && r in requests && requests[r].phase == Replaying && requests[r].key == key && err == ErrIdempotencyKeyTaken
      requires exists k: nat, slug: nat :: Attempted(n, |deeds|, k, r, base, slug, key, err)
      modifies this`log, this`now, this`deeds, this`places, this`requests, this`clients, this`idsUsed, this`keysUsed, this`faults, db
      ensures Valid() && old(log) <= log && old(deeds) <= deeds && old(places) <= places
      ensures r in requests && requests[r] == old(requests)[r].(phase := Answered(answer))
      ensures Answers(n, |old(deeds)|, r, base, key, err, answer)
      ensures faults != old(faults) ==> answer.Failed?
    {
      ghost var k: nat, slug: nat :| Attempted(n, |deeds|, k, r, base, slug, key, err);
      OthersAfterAttempts(n, |deeds|, k, r, base, slug, key, err);
      answer := FetchAfter(n, |deeds|, k, r, base, slug, key, err);
    }

    method OthersAfterAttempts(ghost n: nat, ghost m: nat, ghost k: nat, r: nat, ghost base: nat, ghost slug: nat, ghost key: Option<nat>, ghost err: CreateError)
      requires Valid() && r in requests && err == ErrIdempotencyKeyTaken && Attempted(n, m, k, r, base, slug, key, err)
      modifies this`log, this`now, this`requests, this`clients, this`idsUsed, this`keysUsed, db
      ensures Valid() && old(log) <= log && r in requests && requests[r] == old(requests)[r]
      ensures Attempted(n, m, k, r, base, slug, key, err)
    {
      ghost var log0 := log;
      Others(Handling(r));
      StillAttempted(log0, deeds, places, n, m, k, r, base, slug, key);
    }

    method FetchAfter(ghost n: nat, ghost m: nat, ghost k: nat, r: nat, ghost base: nat, ghost slug: nat, ghost key: Option<nat>, ghost err: CreateError)
      returns (answer: Answer)
      requires Valid() && r in requests && requests[r].phase == Replaying && requests[r].key == key
      requires err == ErrIdempotencyKeyTaken && m == |deeds| && Attempted(n, m, k, r, base, slug, key, err)
      modifies this`log, this`now, this`deeds, this`places, this`requests, this`faults
      ensures Valid() && old(log) <= log && old(deeds) <= deeds && old(places) <= places
      ensures r in requests && requests[r] == old(requests)[r].(phase := Answered(answer))
      ensures Answers(n, m, r, base, key, err, answer)
      ensures faults != old(faults) ==> answer.Failed?
    {
      ghost var log0, deeds0, places0 := log, deeds, places;
      answer := FetchWinner(r);
      StillAttempted(log0, deeds0, places0, n, m, k, r, base, slug, key);
    }

    /** How request r was handled since had: answered from the lookup, refused for its parent, or by inserting. */
    ghost predicate Handled(had: seq<Event>, r: nat, base: nat, key: Option<nat>, parentExists: bool, answer: Answer)
      requires Logged()
      reads this`log, this`now, this`deeds, this`places
    {
      var n := |had|;
      had <= deeds && n < |deeds| &&
      if deeds[n] == Server(Reject(r)) then |deeds| == n + 1 && answer.Failed? && !healthy
      else if deeds[n] != Server(Lookup(r, None)) then answer.Created? && deeds == had + [Server(Lookup(r, Some(answer.album)))]
      else if !parentExists then answer.Failed? && deeds == had + [Server(Lookup(r, None)), Server(Reject(r))]
      else AnswersFrom(n + 1, r, base, key, answer)
    }

    /** From deed n on: all the inserts there may be, the first for base, and for each the slug was taken. */
    ghost predicate AllSlugsTaken(n: nat, r: nat, base: nat)
      requires Logged()
      reads this`log, this`now, this`deeds, this`places
    {
      && |deeds| == |places| == n + 22 && IsInsert(deeds[n], r, base)
      && forall j: nat :: j <= 10 ==> SlugWasTaken(n + 2 * j, r)
    }

    ghost predicate SlugWasTaken(i: nat, r: nat)
      requires Logged()
      reads this`log, this`now, this`deeds, this`places
    {
      i < |deeds| == |places| && IsInsertFor(deeds[i], r) && places[i] < |log| && SlugTaken(Past(log, places[i]).albums, deeds[i].server.slug)
    }

    /**
     POST /api/publish/albums, for a name with slug base. If no row with its key is
     deleted, an answer that names a row names the only row with that key; and a
     healthy server, with the parent folder there, answers with an error only after
     all 11 inserts, each of which found its slug taken. A slug that is free at its
     insert, with the key free too, is answered with the row just made.
     */
    method CreateAlbum(r: nat, base: nat, parentExists: bool) returns (answer: Answer)
      requires Valid() && r in requests && requests[r].phase == Looking
      modifies this`log, this`now, this`deeds, this`places, this`requests, this`clients, this`idsUsed, this`keysUsed, this`faults, db
      ensures Valid() && old(log) <= log
      ensures r in requests && requests[r] == old(requests)[r].(phase := Answered(answer))
      ensures Handled(old(deeds), r, base, requests[r].key, parentExists, answer)
      ensures answer.Created? && requests[r].key.Some? && KeepsTo({RowsStay(requests[r].key.value)}, INITIAL, log) ==>
                RowsWith(now, requests[r].key.value) == {answer.album}
      ensures healthy && parentExists && answer.Failed? && (requests[r].key.Some? ==> KeepsTo({RowsStay(requests[r].key.value)}, INITIAL, log)) ==>
                AllSlugsTaken(|old(deeds)| + 1, r, base)
      ensures faults != old(faults) ==> answer.Failed?
    {
      ghost var had, key := deeds, requests[r].key;
      answer := Handle(r, base, parentExists);
      if key.Some? && KeepsTo({RowsStay(key.value)}, INITIAL, log) && answer.Created? { OneRow(r, key.value); }
      if healthy && parentExists && answer.Failed? && (key.Some? ==> KeepsTo({RowsStay(key.value)}, INITIAL, log)) {
        OnlyForSlugs(had, r, base, key);
      }
    }

    method Handle(r: nat, base: nat, parentExists: bool) returns (answer: Answer)
      requires Valid() && r in requests && requests[r].phase == Looking
      modifies this`log, this`now, this`deeds, this`places, this`requests, this`clients, this`idsUsed, this`keysUsed, this`faults, db
      ensures Valid() && old(log) <= log
      ensures r in requests && requests[r] == old(requests)[r].(phase := Answered(answer))
      ensures Handled(old(deeds), r, base, requests[r].key, parentExists, answer)
      ensures faults != old(faults) ==> answer.Failed?
    {
      ghost var had := deeds;
      var early := LookUp(r);
      if early.Some? {
        return early.value;
      }
      if parentExists {
        answer := InsertOrReplay(r, base);
      } else {
        RefuseParent(r);
        answer := Failed;
        assert deeds == had + [Server(Lookup(r, None)), Server(Reject(r))];
      }
    }

    /** A failure of a healthy server, with the parent there and no row with the key deleted, is for want of a slug. */
    lemma OnlyForSlugs(had: seq<Event>, r: nat, base: nat, key: Option<nat>)
      requires Logged() && healthy && Handled(had, r, base, key, true, Failed)
      requires key.Some? ==> KeepsTo({RowsStay(key.value)}, INITIAL, log)
      ensures AllSlugsTaken(|had| + 1, r, base)
    {
      var n := |had| + 1;
      var m: nat, err :| Answers(n, m, r, base, key, err, Failed);
      var k: nat, slug: nat :| Attempted(n, m, k, r, base, slug, key, err);
      if err == ErrIdempotencyKeyTaken { KeyStays(n + 2 * k + 1, m, key); }
      OutOfSlugs(n, m, k, r, base, slug, key);
    }

    /** When the last insert is refused for its slug too, all were. */
    lemma OutOfSlugs(n: nat, m: nat, k: nat, r: nat, base: nat, slug: nat, key: Option<nat>)
      requires Logged() && Attempted(n, m, k, r, base, slug, key, ErrSlugTaken) && |deeds| == m
      requires key.Some? ==> KeepsTo({RowsStay(key.value)}, INITIAL, log)
      ensures AllSlugsTaken(n, r, base)
    {
      forall j: nat | j <= 10 ensures SlugWasTaken(n + 2 * j, r) {
        assert Refused(log, deeds, places, n + 2 * j, r, key) && KeyWas(false, log, places, n + 2 * j, key);
        RefusedForSlug(n + 2 * j, r, key);
      }
    }

    /** With no row of the key deleted, an insert was refused for its slug if the key was not taken when it was looked for. */
    lemma RefusedForSlug(i: nat, r: nat, key: Option<nat>)
      requires Logged() && Refused(log, deeds, places, i, r, key) && KeyWas(false, log, places, i, key)
      requires key.Some? ==> KeepsTo({RowsStay(key.value)}, INITIAL, log)
      ensures SlugWasTaken(i, r)
    {
      if KeyTaken(Past(log, places[i]).albums, key) { KeyStays(i, i + 1, key); }
    }

    /** A key that was taken at a deed is taken at every later one. */
    lemma KeyStays(i: nat, j: nat, key: Option<nat>)
      requires Logged() && i < j < |deeds| == |places| && places[i] < |log| && places[j] < |log|
      requires key.Some? ==> KeepsTo({RowsStay(key.value)}, INITIAL, log)
      requires KeyTaken(Past(log, places[i]).albums, key)
      ensures KeyTaken(Past(log, places[j]).albums, key)
    {
      Deeds.PlacesGrow(log, deeds, places, alone, i, j);
      KeyStaysTaken(log, places[i], places[j], key.value);
    }

    // ----- PublishTask.lua and SmugboxAPI.lua -----

    /** A step of collection c's publish that changes its own state and nothing else. */
    method Turn(ghost x: ClientStep, c: nat, cl: Client)
      requires Valid() && CanAct(now, c, x) && c in clients && Act(now, c, x) == now.(clients := now.clients[c := cl])
      modifies this`log, this`now, this`deeds, this`places, this`clients
      ensures Valid() && old(log) <= log && deeds == old(deeds) + [At(c, x)]
      ensures clients == old(clients)[c := cl] && now == old(now).(clients := old(clients)[c := cl])
    {
      Take(At(c, x));
      clients := clients[c := cl];
    }

    /**
     pendingCreateKey: the stored key if the catalog gives it, or a new one.
     readable and writable say whether the catalog can read and takes the key;
     neither, if the collection has no identity to store it under.
     */
    method PendingCreateKey(c: nat, readable: bool, writable: bool) returns (key: nat)
      requires Valid() && c in clients && clients[c].run.Resting? && NeedsAlbum(now, clients[c])
      modifies this`log, this`now, this`deeds, this`places, this`clients, this`keysUsed
      ensures Valid() && old(log) <= log && c in clients
      ensures if old(clients[c].key.Some?) && readable then old(clients[c].key) == Some(key) && deeds == old(deeds) + [At(c, Resume)]
              else key !in old(keysUsed) && deeds == old(deeds) + [At(c, if writable then Begin(key) else BeginUnstored(key))]
      ensures var kept := (old(clients[c].key.Some?) && readable) || writable;
              clients[c] == Client(if kept then Some(key) else old(clients[c].key), old(clients[c].remoteId), Ready(key, 1))
    {
      var cl := clients[c];
      if cl.key.Some? && readable {
        key := cl.key.value;
        Take(At(c, Resume));
        clients := clients[c := cl.(run := Ready(key, 1))];
        return;
      }
      key := MintKey(c, writable);
    }

    /** A new key, kept if the catalog takes it. */
    method MintKey(c: nat, writable: bool) returns (key: nat)
      requires Valid() && c in clients && clients[c].run.Resting? && NeedsAlbum(now, clients[c])
      modifies this`log, this`now, this`deeds, this`places, this`clients, this`keysUsed
      ensures Valid() && old(log) <= log && c in clients && key !in old(keysUsed)
      ensures deeds == old(deeds) + [At(c, if writable then Begin(key) else BeginUnstored(key))]
      ensures clients[c] == Client(if writable then Some(key) else old(clients[c].key), old(clients[c].remoteId), Ready(key, 1))
    {
      AlwaysAnother(keysUsed);
      key :| key !in keysUsed;
      Take(At(c, if writable then Begin(key) else BeginUnstored(key)));
      keysUsed := keysUsed + {key};
      clients := clients[c := Client(if writable then Some(key) else clients[c].key, clients[c].remoteId, Ready(key, 1))];
    }

    /** Whether a message gets through, and nobody answers in the server's place. */
    method Delivers() returns (delivers: bool)
      ensures reliable ==> delivers
    {
      delivers := *;
      if reliable { delivers := true; }
    }

    /** What the network, a reverse proxy or the server's front door says in the handler's place. */
    method OtherReply() returns (reply: Reply)
      ensures !IsOk(reply)
    {
      if * { return NoReply; }
      var status: nat := *;
      var code: Option<ErrorCode> := *;
      return Reply(if status < 300 then 0 else status, code, None);
    }

    /** What the handler says of an error. */
    method ErrorReply() returns (reply: Reply)
      ensures !IsOk(reply) && reply.Reply?
    {
      var status: nat := *;
      var code: ErrorCode := *;
      return Reply(if 400 <= status then status else 500, Some(code), None);
    }

    /** What may be said of request r: the id that it was answered with; or an error, if it was answered with one or nothing is sure. */
    ghost predicate Fits(s: State, r: nat, reply: Reply) {
      if IsOk(reply) then SaysCreated(s, r) && reply.album == Some(s.requests[r].phase.answer.album)
      else (reliable ==> !SaysCreated(s, r)) && (reliable && !IsTransient(reply) ==> SaysFailed(s, r))
    }

    /** One POST. */
    method SendOnce(c: nat) returns (reply: Reply)
      requires Valid() && c in clients && clients[c].run.Ready? && !canceled
      modifies this, db
      ensures Valid() && old(log) <= log && !canceled && heard == old(heard) + [reply] && c in clients
      ensures if clients[c].run.Waiting? then SentAs(old(deeds), c, old(clients[c]), clients[c].run.request) && Fits(now, clients[c].run.request, reply)
              else !reliable && deeds == old(deeds) && clients[c] == old(clients[c]) && IsTransient(reply) && !IsOk(reply)
    {
      Others(Publishing(c));
      var arrives := Delivers();
      if !arrives {
        heard := heard + [NoReply];
        return NoReply;
      }
      reply := Exchange(c);
    }

    /** The request arrives, and is answered or not. */
    method Exchange(c: nat) returns (reply: Reply)
      requires Valid() && c in clients && clients[c].run.Ready?
      modifies this`log, this`now, this`deeds, this`places, this`requests, this`clients, this`idsUsed, this`keysUsed, this`heard, db
      ensures Valid() && old(log) <= log && heard == old(heard) + [reply] && c in clients
      ensures clients[c].run.Waiting? && SentAs(old(deeds), c, old(clients[c]), clients[c].run.request) && Fits(now, clients[c].run.request, reply)
    {
      ghost var had, cl := deeds, clients[c];
      var r := Post(c);
      Others(Publishing(c));
      reply := Answer(r);
      assert SentAs(had, c, cl, r);
    }

    /** Since had, client c, which was cl, has sent request r. */
    ghost predicate SentAs(had: seq<Event>, c: nat, cl: Client, r: nat)
      reads this`deeds, this`clients
    {
      && deeds == had + [At(c, Send(r))] && c in clients && cl.run.Ready?
      && clients[c] == cl.(run := Waiting(cl.run.key, cl.run.send, r))
    }

    /** The request is sent, and arrives. */
    method Post(c: nat) returns (r: nat)
      requires Valid() && c in clients && clients[c].run.Ready?
      modifies this`log, this`now, this`deeds, this`places, this`clients, this`requests
      ensures Valid() && old(log) <= log && SentAs(old(deeds), c, old(clients[c]), r) && r in requests
    {
      var cl := clients[c];
      AlwaysAnother(requests.Keys);
      r :| r !in requests.Keys;
      Take(At(c, Send(r)));
      requests := requests[r := Request(Some(cl.run.key), Some(c), Looking)];
      clients := clients[c := cl.(run := Waiting(cl.run.key, cl.run.send, r))];
    }

    /** What comes back for request r: its answer, or a timeout, or something else. */
    method Answer(r: nat) returns (reply: Reply)
      requires Valid() && r in requests
      modifies this`heard
      ensures Valid() && heard == old(heard) + [reply] && Fits(now, r, reply)
    {
      var returns_ := Delivers();
      if !returns_ {
        reply := OtherReply();
      } else if !requests[r].phase.Answered? {
        reply := NoReply;
      } else if requests[r].phase.answer.Created? {
        reply := Reply(201, None, Some(requests[r].phase.answer.album));
      } else {
        reply := ErrorReply();
      }
      heard := heard + [reply];
    }

    /** Whether the user cancels here. */
    method IsCanceled() returns (yes: bool)
      modifies this`canceled
      ensures (patient ==> !yes) && (canceled <==> old(canceled) || yes)
    {
      yes := *;
      if patient { yes := false; }
      canceled := canceled || yes;
    }

    /**
     sendWithRetry: it sends again after every transient failure, until the ladder
     is exhausted or the user cancels, and at no other time.
     */
    method SendWithRetry(c: nat) returns (ok: bool, reply: Reply)
      requires !canceled && Valid() && c in clients && clients[c].run.Ready? && clients[c].run.send == 1
      modifies this, db
      ensures Valid() && old(log) <= log && c in clients
      ensures SameCatalog(clients[c], old(clients[c]))
      ensures old(heard) < heard && IsLadder(heard[|old(heard)|..], canceled) && reply == heard[|heard| - 1]
      ensures ok <==> IsOk(reply)
      ensures (clients[c].run.Ready? || clients[c].run.Waiting?) && clients[c].run.key == old(clients[c].run.key)
      ensures clients[c].run.send == |heard| - |old(heard)|
      ensures reliable || !IsTransient(reply) ==> clients[c].run.Waiting?
      ensures clients[c].run.Waiting? && (ok || !IsTransient(reply)) ==> Fits(now, clients[c].run.request, reply)
      ensures patient ==> !canceled
      ensures canceled ==> IsTransient(reply) && !IsOk(reply)
    {
      ghost var before, cl := heard, clients[c];
      var attempt := 1;
      while true
        invariant 1 <= attempt <= MAX_SENDS && Valid() && old(log) <= log && c in clients
        invariant clients[c] == cl.(run := Ready(cl.run.key, attempt)) && !canceled
        invariant before <= heard && |heard| == |before| + attempt - 1 && AllTransient(heard[|before|..])
        decreases MAX_SENDS - attempt
      {
        var done;
        ok, reply, done := SendNext(c, attempt, before);
        if done { return; }
        NextAttempt(c, attempt);
        attempt := attempt + 1;
      }
    }

    /** One send of the ladder, and whether it is the last. */
    method SendNext(c: nat, attempt: nat, ghost before: seq<Reply>) returns (ok: bool, reply: Reply, done: bool)
      requires !canceled && Valid() && c in clients && clients[c].run.Ready? && clients[c].run.send == attempt <= MAX_SENDS
      requires before <= heard && |heard| == |before| + attempt - 1 && AllTransient(heard[|before|..])
      modifies this, db
      ensures Valid() && old(log) <= log && heard == old(heard) + [reply] && (ok <==> IsOk(reply))
      ensures AfterSend(old(clients[c]), c, reply)
      ensures if done then IsLadder(heard[|before|..], canceled) else !canceled && attempt < MAX_SENDS && AllTransient(heard[|before|..])
      ensures patient ==> !canceled
      ensures canceled ==> IsTransient(reply) && !IsOk(reply)
    {
      ghost var so := heard;
      reply := SendOnce(c);
      LadderOn(before, so, reply);
      ok := IsOk(reply);
      if ok || attempt == MAX_SENDS || !IsTransient(reply) {
        return ok, reply, true;
      }
      done := IsCanceled();
    }

    /** Client c, which was cl, after a send that had this reply. */
    ghost predicate AfterSend(cl: Client, c: nat, reply: Reply)
      reads this
    {
      && c in clients && cl.run.Ready? && SameCatalog(clients[c], cl)
      && (clients[c] == cl || (clients[c].run.Waiting? && clients[c].run.key == cl.run.key && clients[c].run.send == cl.run.send))
      && (reliable || !IsTransient(reply) ==> clients[c].run.Waiting?)
      && (clients[c].run.Waiting? && (IsOk(reply) || !IsTransient(reply)) ==> Fits(now, clients[c].run.request, reply))
    }

    /** One more reply on the ladder. */
    lemma LadderOn(before: seq<Reply>, so: seq<Reply>, reply: Reply)
      requires before <= so && |so| < |before| + MAX_SENDS && AllTransient(so[|before|..])
      ensures var ladder := (so + [reply])[|before|..];
              && (IsTransient(reply) && !IsOk(reply) ==> AllTransient(ladder))
              && (IsOk(reply) || !IsTransient(reply) || |so| + 1 == |before| + MAX_SENDS ==> IsLadder(ladder, false))
              && IsLadder(ladder, true)
    {
      assert (so + [reply])[|before|..] == so[|before|..] + [reply];
    }

    /** On to the next send. */
    method NextAttempt(c: nat, attempt: nat)
      requires Valid() && c in clients && (clients[c].run.Ready? || clients[c].run.Waiting?) && clients[c].run.send == attempt < MAX_SENDS
      modifies this`log, this`now, this`deeds, this`places, this`clients
      ensures Valid() && old(log) <= log && c in clients
      ensures clients[c] == old(clients[c]).(run := Ready(old(clients[c].run.key), attempt + 1))
    {
      Turn(if clients[c].run.Waiting? then GiveUpWaiting else SendLost, c, clients[c].(run := Ready(clients[c].run.key, attempt + 1)));
    }

    /** The create call, sent again once if the parent folder was gone and its chain could be repaired. */
    method SendCreate(c: nat, repairs: bool) returns (ok: bool, reply: Reply)
      requires !canceled && Valid() && c in clients && clients[c].run.Ready? && clients[c].run.send == 1
      modifies this, db
      ensures Valid() && old(log) <= log && c in clients && SameCatalog(clients[c], old(clients[c]))
      ensures old(heard) < heard && IsCreateCall(heard[|old(heard)|..], canceled, repairs) && reply == heard[|heard| - 1]
      ensures ok <==> IsOk(reply)
      ensures ok || !IsTransient(reply) ==> clients[c].run.Waiting? && Fits(now, clients[c].run.request, reply)
      ensures patient ==> !canceled
    {
      ghost var before := heard;
      ok, reply := SendWithRetry(c);
      ghost var first := heard;
      if !ok && IsFolderGone(reply) && repairs {
        ok, reply := SendAgain(c);
        IsTwoLadders(before, first, heard);
      } else {
        assert IsCreateCall(heard[|before|..], canceled, repairs);
      }
    }

    method SendAgain(c: nat) returns (ok: bool, reply: Reply)
      requires !canceled && Valid() && c in clients && clients[c].run.Waiting?
      modifies this, db
      ensures Valid() && old(log) <= log && c in clients && SameCatalog(clients[c], old(clients[c]))
      ensures old(heard) < heard && IsLadder(heard[|old(heard)|..], canceled) && reply == heard[|heard| - 1]
      ensures ok <==> IsOk(reply)
      ensures ok || !IsTransient(reply) ==> clients[c].run.Waiting? && Fits(now, clients[c].run.request, reply)
      ensures patient ==> !canceled
    {
      Others(Publishing(c));
      Turn(Resend, c, clients[c].(run := Ready(clients[c].run.key, 1)));
      ok, reply := SendWithRetry(c);
    }

    lemma IsTwoLadders(before: seq<Reply>, first: seq<Reply>, second: seq<Reply>)
      requires before < first < second && IsLadder(first[|before|..], false) && IsLadder(second[|first|..], canceled)
      requires IsFolderGone(first[|first| - 1])
      ensures IsCreateCall(second[|before|..], canceled, true)
    {
      var all := second[|before|..];
      var i := |first| - |before|;
      assert all[..i] == first[|before|..] && all[i..] == second[|first|..];
      assert Repaired(all, i, canceled);
    }

    /** The collection's album is known: record it, then forget the key, if the catalog lets it. */
    method RecordAlbum(c: nat, reply: Reply, clearable: bool) returns (album: nat)
      requires Valid() && IsAnswerTo(now, c, reply)
      modifies this`log, this`now, this`deeds, this`places, this`requests, this`clients, this`idsUsed, this`keysUsed, db
      ensures Valid() && old(log) <= log && c in clients && reply.album == Some(album)
      ensures clients[c] == Client(if clearable then None else old(clients[c].key), Some(album), Resting)
      ensures deeds == old(deeds) + [At(c, Receive), At(c, Record), At(c, if clearable then Clear else Quit)]
    {
      album := reply.album.value;
      Turn(Receive, c, clients[c].(run := Got(album)));
      RecordId(c, album);
      ClearKey(c, clearable);
    }

    /** recordRemoteCollectionId. */
    method RecordId(c: nat, album: nat)
      requires Valid() && c in clients && clients[c].run == Got(album)
      modifies this`log, this`now, this`deeds, this`places, this`requests, this`clients, this`idsUsed, this`keysUsed, db
      ensures Valid() && old(log) <= log && c in clients && deeds == old(deeds) + [At(c, Record)]
      ensures clients[c] == Client(old(clients[c].key), Some(album), Run.Recorded)
    {
      Others(Publishing(c));
      Turn(Record, c, Client(clients[c].key, Some(album), Run.Recorded));
    }

    /** clearPendingCreateKey. */
    method ClearKey(c: nat, clearable: bool)
      requires Valid() && c in clients && clients[c].run == Run.Recorded
      modifies this`log, this`now, this`deeds, this`places, this`requests, this`clients, this`idsUsed, this`keysUsed, db
      ensures Valid() && old(log) <= log && c in clients && deeds == old(deeds) + [At(c, if clearable then Clear else Quit)]
      ensures clients[c] == old(clients[c]).(key := if clearable then None else old(clients[c].key), run := Resting)
    {
      Others(Publishing(c));
      if clearable {
        Turn(Clear, c, clients[c].(key := None, run := Resting));
      } else {
        Turn(Quit, c, clients[c].(run := Resting));
      }
    }

    /**
     createAlbum of a publish. It returns an id exactly if the last reply is a good
     one; the id is then that of the reply, and recorded, and the key is forgotten. A
     reply that is not good ended the call: nothing transient, which then is an answer
     of the handler unless the network is not reliable; or an exhausted ladder; or a
     cancel. Then the key stays for the next publish. With the key kept and no album of the
     collection deleted, what is recorded is the only row ever made for it.
     */
    method PublishAlbum(c: nat, readable: bool, writable: bool, clearable: bool, repairs: bool) returns (album: Option<nat>)
      requires !canceled && Valid() && c in clients && clients[c].run.Resting? && NeedsAlbum(now, clients[c])
      modifies this, db
      ensures Valid() && old(log) <= log && c in clients && clients[c].run == Resting
      ensures old(heard) < heard && IsCreateCall(heard[|old(heard)|..], canceled, repairs)
      ensures album.Some? <==> IsOk(heard[|heard| - 1])
      ensures album.Some? ==> heard[|heard| - 1].album == album == clients[c].remoteId && (clearable ==> clients[c].key == None)
      ensures album.None? ==> clients[c].remoteId == old(clients[c].remoteId) && (writable ==> clients[c].key.Some?)
      ensures album.None? || !clearable ==>
                (if old(clients[c].key.Some?) && (readable || !writable) then clients[c].key == old(clients[c].key)
                 else if writable then clients[c].key.Some? && clients[c].key.value !in old(keysUsed) else clients[c].key == None)
      ensures album.None? && reliable && !IsTransient(heard[|heard| - 1]) ==> exists r :: SaysFailed(now, r) && requests[r].owner == Some(c)
      ensures album.Some? && KeepsTo({OwnRowsStay(c), KeyIsKept(c)}, INITIAL, log) ==> RowsFor(now, c) == {album.value}
      ensures patient ==> !canceled
    {
      var key := PendingCreateKey(c, readable, writable);
      var ok, reply := SendCreate(c, repairs);
      if ok {
        var id := RecordTheOne(c, reply, clearable);
        album := Some(id);
      } else {
        album := None;
        StopWithError(c, reply);
      }
    }

    method RecordTheOne(c: nat, reply: Reply, clearable: bool) returns (album: nat)
      requires Valid() && IsAnswerTo(now, c, reply)
      modifies this`log, this`now, this`deeds, this`places, this`requests, this`clients, this`idsUsed, this`keysUsed, db
      ensures Valid() && old(log) <= log && c in clients && reply.album == Some(album)
      ensures clients[c] == Client(if clearable then None else old(clients[c].key), Some(album), Resting)
      ensures KeepsTo({OwnRowsStay(c), KeyIsKept(c)}, INITIAL, log) ==> RowsFor(now, c) == {album}
    {
      album := RecordAlbum(c, reply, clearable);
      if KeepsTo({OwnRowsStay(c), KeyIsKept(c)}, INITIAL, log) { OneAlbum(c); }
    }

    /** The publish stops with an error, which is an answer of the handler if it is nothing transient. */
    method StopWithError(c: nat, ghost reply: Reply)
      requires Valid() && c in clients
      requires !IsTransient(reply) ==> clients[c].run.Waiting? && !IsOk(reply) && Fits(now, clients[c].run.request, reply)
      modifies this`log, this`now, this`deeds, this`places, this`clients
      ensures Valid() && old(log) <= log && c in clients && clients[c] == old(clients[c]).(run := Resting)
      ensures reliable && !IsTransient(reply) ==> exists r :: SaysFailed(now, r) && requests[r].owner == Some(c)
    {
      ghost var r := if clients[c].run.Waiting? then clients[c].run.request else 0;
      if clients[c].run.Waiting? { OwnRequest(c); }
      Turn(Quit, c, clients[c].(run := Resting));
      assert reliable && !IsTransient(reply) ==> SaysFailed(now, r) && requests[r].owner == Some(c);
    }

    /** The request that a publish waits for is its own. */
    lemma OwnRequest(c: nat)
      requires Valid() && c in clients && clients[c].run.Waiting?
      ensures clients[c].run.request in requests && requests[clients[c].run.request].owner == Some(c)
    {
      RunKeepsSound(INITIAL, log);
      assert GoodClient(now, c, clients[c]);
    }
  }

  /** What the catalog keeps of a collection. */
  predicate SameCatalog(a: Client, b: Client) {
    a.key == b.key && a.remoteId == b.remoteId
  }

  predicate AllTransient(replies: seq<Reply>) {
    forall i :: 0 <= i < |replies| ==> IsTransient(replies[i]) && !IsOk(replies[i])
  }

  /** The replies of one create: a ladder, and if that ended with the folder gone and the repair succeeded, one more. */
  ghost predicate IsCreateCall(replies: seq<Reply>, canceled: bool, repairs: bool) {
    || (IsLadder(replies, canceled) && !(repairs && IsFolderGone(replies[|replies| - 1])))
    || (repairs && exists i :: Repaired(replies, i, canceled))
  }

  predicate Repaired(replies: seq<Reply>, i: int, canceled: bool) {
    0 < i < |replies| && IsLadder(replies[..i], false) && IsFolderGone(replies[i - 1]) && IsLadder(replies[i..], canceled)
  }
}
