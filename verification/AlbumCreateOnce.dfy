/**
 What the create machine guarantees: on the server's side one row per key, on the
 client's side one row per collection; and exactly when a collection can get a
 second one.
 */
module AlbumCreateOnce {
  import opened Base
  import opened AlbumCreate

  // ----- the hypotheses -----

  predicate MayInsert(ph: Phase) {
    ph.Looking? || ph.Inserting? || (ph.Classifying? && ph.attempt < SLUG_RETRIES)
  }

  /** A key other than this one has made a row for collection c, or may still make one. */
  predicate Exposed(s: State, c: nat, key: nat) {
    || (exists id :: id in s.albums && s.albums[id].owner == Some(c) && s.albums[id].key != Some(key))
    || (exists r :: r in s.requests && s.requests[r].owner == Some(c) && s.requests[r].key != Some(key) && MayInsert(s.requests[r].phase))
  }

  datatype Hypothesis =
    | RowsStay(key: nat)              // no row with this key is deleted
    | OwnRowsStay(collection: nat)    // no row made for this collection is deleted
    | KeyIsKept(collection: nat)      // the catalog takes the key of this collection and gives it back
    | OneKeyAtATime(collection: nat)  // no publish of it uses a key while another one of it is exposed

  predicate Holds(h: Hypothesis, s: State, e: Event)
    requires Enabled(s, e)
  {
    match h
    case RowsStay(k) => e.Server? && e.server.Delete? ==> s.albums[e.server.id].key != Some(k)
    case OwnRowsStay(c) => e.Server? && e.server.Delete? ==> s.albums[e.server.id].owner != Some(c)
    case KeyIsKept(c) =>
      e.At? && e.collection == c ==> !e.client.BeginUnstored? && (e.client.Begin? ==> s.clients[c].key.None?)
    case OneKeyAtATime(c) =>
      e.At? && e.collection == c ==>
        match e.client
        case Begin(k) => !Exposed(s, c, k)
        case BeginUnstored(k) => !Exposed(s, c, k)
        case Resume => !Exposed(s, c, s.clients[c].key.value)
        case _ => true
  }

  predicate HoldAll(hs: set<Hypothesis>, s: State, e: Event)
    requires Enabled(s, e)
  {
    forall h :: h in hs ==> Holds(h, s, e)
  }

  predicate KeepsTo(hs: set<Hypothesis>, s: State, es: seq<Event>)
    requires CanRun(s, es)
    decreases |es|
  {
    es == [] || (HoldAll(hs, s, es[0]) && KeepsTo(hs, Apply(s, es[0]), es[1..]))
  }

  // ----- what holds in every run -----

  predicate UniqueKeys(albums: map<nat, Album>) {
    forall i, j :: i in albums && j in albums && HasKey(albums[i], albums[j].key) ==> i == j
  }

  predicate Minted(s: State, c: nat, key: nat) {
    key in s.minted && s.minted[key] == c
  }

  /** The owner of a row or request goes with its key. */
  predicate Owned(s: State, key: Option<nat>, owner: Option<nat>) {
    && (key.Some? ==> key.value in s.keysUsed)
    && (owner.Some? ==> key.Some? && Minted(s, owner.value, key.value))
    && (key.Some? && key.value in s.minted ==> owner == Some(s.minted[key.value]))
  }

  predicate GoodTable(s: State) {
    UniqueKeys(s.albums) && forall id :: id in s.albums ==> id in s.idsUsed && Owned(s, s.albums[id].key, s.albums[id].owner)
  }

  predicate GoodKeys(s: State) {
    && (forall k :: k in s.minted ==> k in s.keysUsed)
    && (forall c :: c in s.keyOf ==> Minted(s, c, s.keyOf[c]))
  }

  predicate GoodClient(s: State, c: nat, cl: Client) {
    && (cl.key.Some? ==> Minted(s, c, cl.key.value))
    && match cl.run
       case Ready(key, _) => Minted(s, c, key)
       case Waiting(key, _, r) => Minted(s, c, key) && r in s.requests && s.requests[r].owner == Some(c) && s.requests[r].key == Some(key)
       case _ => true
  }

  ghost predicate Sound(s: State) {
    && GoodTable(s) && GoodKeys(s)
    && (forall r :: r in s.requests ==> Owned(s, s.requests[r].key, s.requests[r].owner))
    && (forall c :: c in s.clients ==> GoodClient(s, c, s.clients[c]))
  }

  lemma PhaseKeepsSound(s: State, r: nat, ph: Phase)
    requires Sound(s) && r in s.requests
    ensures Sound(SetPhase(s, r, ph))
  {
    var t := SetPhase(s, r, ph);
    forall c | c in t.clients ensures GoodClient(t, c, t.clients[c]) { assert GoodClient(s, c, s.clients[c]); }
    assert forall x :: x in t.requests ==> t.requests[x].key == s.requests[x].key && t.requests[x].owner == s.requests[x].owner;
    assert forall id :: id in t.albums ==> Owned(s, s.albums[id].key, s.albums[id].owner);
  }

  lemma InsertKeepsSound(s: State, r: nat, slug: nat, id: nat)
    requires Sound(s) && CanServe(s, InsertRow(r, slug, id))
    ensures Sound(Serve(s, InsertRow(r, slug, id)))
  {
    var q := s.requests[r];
    if SlugTaken(s.albums, slug) || KeyTaken(s.albums, q.key) {
      PhaseKeepsSound(s, r, Classifying(q.phase.attempt));
    } else {
      var u := s.(albums := s.albums[id := Album(slug, q.key, q.owner)], idsUsed := s.idsUsed + {id});
      assert GoodTable(u) by {
        forall i, j | i in u.albums && j in u.albums && HasKey(u.albums[i], u.albums[j].key) ensures i == j {
          if i == id && j != id { assert HasKey(s.albums[j], q.key); }
        }
        forall i | i in u.albums ensures Owned(u, u.albums[i].key, u.albums[i].owner) {
          if i != id { assert Owned(s, s.albums[i].key, s.albums[i].owner); }
        }
      }
      forall c | c in u.clients ensures GoodClient(u, c, u.clients[c]) { assert GoodClient(s, c, s.clients[c]); }
      PhaseKeepsSound(u, r, Answered(Created(id)));
    }
  }

  lemma ServeKeepsSound(s: State, e: ServerStep)
    requires Sound(s) && CanServe(s, e)
    ensures Sound(Serve(s, e))
  {
    match e
    case Accept(r, key) =>
      var t := Serve(s, e);
      forall c | c in t.clients ensures GoodClient(t, c, t.clients[c]) { assert GoodClient(s, c, s.clients[c]); }
    case Lookup(r, found) => PhaseKeepsSound(s, r, if found.Some? then Answered(Created(found.value)) else Inserting(0));
    case InsertRow(r, slug, id) => InsertKeepsSound(s, r, slug, id);
    case Classify(r) => PhaseKeepsSound(s, r, Serve(s, e).requests[r].phase);
    case Replay(r, found) => PhaseKeepsSound(s, r, Answered(if found.Some? then Created(found.value) else Failed));
    case Reject(r) => PhaseKeepsSound(s, r, Answered(Failed));
    case Delete(id) =>
      var t := Serve(s, e);
      forall c | c in t.clients ensures GoodClient(t, c, t.clients[c]) { assert GoodClient(s, c, s.clients[c]); }
  }

  lemma MintKeepsSound(s: State, c: nat, key: nat)
    requires Sound(s) && key !in s.keysUsed
    ensures Sound(Mint(s, c, key))
  {
    var t := Mint(s, c, key);
    forall d | d in t.clients ensures GoodClient(t, d, t.clients[d]) { assert GoodClient(s, d, s.clients[d]); }
    forall id | id in t.albums ensures Owned(t, t.albums[id].key, t.albums[id].owner) { assert Owned(s, s.albums[id].key, s.albums[id].owner); }
    forall r | r in t.requests ensures Owned(t, t.requests[r].key, t.requests[r].owner) { assert Owned(s, s.requests[r].key, s.requests[r].owner); }
  }

  lemma TurnKeepsSound(s: State, c: nat, cl: Client)
    requires Sound(s) && GoodClient(s, c, cl)
    ensures Sound(s.(clients := s.clients[c := cl]))
  {
    var t := s.(clients := s.clients[c := cl]);
    forall d | d in t.clients ensures GoodClient(t, d, t.clients[d]) { assert GoodClient(s, d, t.clients[d]); }
  }

  lemma SendKeepsSound(s: State, c: nat, r: nat)
    requires Sound(s) && CanAct(s, c, Send(r))
    ensures Sound(Act(s, c, Send(r)))
  {
    var run := s.clients[c].run;
    assert GoodClient(s, c, s.clients[c]);
    var u := s.(requests := s.requests[r := Request(Some(run.key), Some(c), Looking)]);
    forall d | d in u.clients ensures GoodClient(u, d, u.clients[d]) { assert GoodClient(s, d, s.clients[d]); }
    TurnKeepsSound(u, c, s.clients[c].(run := Waiting(run.key, run.send, r)));
  }

  lemma ActKeepsSound(s: State, c: nat, e: ClientStep)
    requires Sound(s) && CanAct(s, c, e)
    ensures Sound(Act(s, c, e))
  {
    if e.Install? {
      TurnKeepsSound(s, c, Client(None, None, Resting));
    } else if e.Begin? || e.BeginUnstored? {
      assert GoodClient(s, c, s.clients[c]);
      MintKeepsSound(s, c, e.key);
      TurnKeepsSound(Mint(s, c, e.key), c, Act(s, c, e).clients[c]);
    } else if e.Resume? {
      assert GoodClient(s, c, s.clients[c]);
      TurnKeepsSound(s.(keyOf := s.keyOf[c := s.clients[c].key.value]), c, Act(s, c, e).clients[c]);
    } else if e.Send? {
      SendKeepsSound(s, c, e.request);
    } else {
      assert GoodClient(s, c, s.clients[c]);
      TurnKeepsSound(s, c, Act(s, c, e).clients[c]);
    }
  }

  lemma StepKeepsSound(s: State, e: Event)
    requires Sound(s) && Enabled(s, e)
    ensures Sound(Apply(s, e))
  {
    match e
    case Server(x) => ServeKeepsSound(s, x);
    case At(c, x) => ActKeepsSound(s, c, x);
  }

  // ----- the server's side: one key -----

  ghost predicate GoodRequest(s: State, q: Request) {
    && (q.phase.Replaying? ==> KeyTaken(s.albums, q.key))
    && (q.phase.Answered? && q.phase.answer.Created? ==>
          q.phase.answer.album in s.albums && s.albums[q.phase.answer.album].key == q.key)
  }

  ghost predicate KeyInv(s: State, key: nat) {
    forall r :: r in s.requests && s.requests[r].key == Some(key) ==> GoodRequest(s, s.requests[r])
  }

  /** The rows with this key are still there. */
  predicate RowsKept(s: State, t: State, key: nat) {
    forall id :: id in s.albums && s.albums[id].key == Some(key) ==> id in t.albums && t.albums[id] == s.albums[id]
  }

  lemma StillGood(s: State, t: State, q: Request, key: nat)
    requires RowsKept(s, t, key) && q.key == Some(key) && GoodRequest(s, q)
    ensures GoodRequest(t, q)
  {
    if q.phase.Replaying? {
      var id :| id in s.albums && HasKey(s.albums[id], q.key);
      assert id in t.albums && HasKey(t.albums[id], q.key);
    }
  }

  lemma OneRequestChanged(s: State, t: State, r: nat, key: nat)
    requires KeyInv(s, key) && RowsKept(s, t, key)
    requires r in t.requests && t.requests[r].key == Some(key) ==> GoodRequest(t, t.requests[r])
    requires forall x :: x in t.requests && x != r ==> x in s.requests && t.requests[x] == s.requests[x]
    ensures KeyInv(t, key)
  {
    forall x | x in t.requests && t.requests[x].key == Some(key) ensures GoodRequest(t, t.requests[x]) {
      if x != r { StillGood(s, t, s.requests[x], key); }
    }
  }

  lemma PhaseKeepsKey(s: State, r: nat, ph: Phase, key: nat)
    requires KeyInv(s, key) && r in s.requests
    requires s.requests[r].key == Some(key) ==> GoodRequest(s, s.requests[r].(phase := ph))
    ensures KeyInv(SetPhase(s, r, ph), key)
  {
    var t := SetPhase(s, r, ph);
    if s.requests[r].key == Some(key) { StillGood(s, t, t.requests[r], key); }
    OneRequestChanged(s, t, r, key);
  }

  lemma InsertKeepsKey(s: State, r: nat, slug: nat, id: nat, key: nat)
    requires Sound(s) && KeyInv(s, key) && CanServe(s, InsertRow(r, slug, id))
    ensures KeyInv(Serve(s, InsertRow(r, slug, id)), key) && RowsKept(s, Serve(s, InsertRow(r, slug, id)), key)
  {
    var q := s.requests[r];
    if SlugTaken(s.albums, slug) || KeyTaken(s.albums, q.key) {
      PhaseKeepsKey(s, r, Classifying(q.phase.attempt), key);
    } else {
      OneRequestChanged(s, Serve(s, InsertRow(r, slug, id)), r, key);
    }
  }

  lemma DeleteKeepsKey(s: State, id: nat, key: nat)
    requires KeyInv(s, key) && id in s.albums && s.albums[id].key != Some(key)
    ensures KeyInv(Serve(s, Delete(id)), key) && RowsKept(s, Serve(s, Delete(id)), key)
  {
    var t := Serve(s, Delete(id));
    forall x | x in t.requests && t.requests[x].key == Some(key) ensures GoodRequest(t, t.requests[x]) {
      StillGood(s, t, s.requests[x], key);
    }
  }

  lemma ServeKeepsKey(s: State, e: ServerStep, key: nat)
    requires Sound(s) && KeyInv(s, key) && CanServe(s, e) && Holds(RowsStay(key), s, Server(e))
    ensures KeyInv(Serve(s, e), key) && RowsKept(s, Serve(s, e), key)
  {
    match e
    case Accept(r, _) => OneRequestChanged(s, Serve(s, e), r, key);
    case InsertRow(r, slug, id) => InsertKeepsKey(s, r, slug, id, key);
    case Delete(id) => DeleteKeepsKey(s, id, key);
    case Lookup(r, _) => PhaseKeepsKey(s, r, Serve(s, e).requests[r].phase, key);
    case Classify(r) => PhaseKeepsKey(s, r, Serve(s, e).requests[r].phase, key);
    case Replay(r, _) => PhaseKeepsKey(s, r, Serve(s, e).requests[r].phase, key);
    case Reject(r) => PhaseKeepsKey(s, r, Serve(s, e).requests[r].phase, key);
  }

  lemma ActKeepsKey(s: State, c: nat, e: ClientStep, key: nat)
    requires KeyInv(s, key) && CanAct(s, c, e)
    ensures KeyInv(Act(s, c, e), key) && RowsKept(s, Act(s, c, e), key)
  {
    var t := Act(s, c, e);
    assert t.albums == s.albums;
    if e.Send? {
      OneRequestChanged(s, t, e.request, key);
    } else {
      assert t.requests == s.requests;
      forall x | x in t.requests && t.requests[x].key == Some(key) ensures GoodRequest(t, t.requests[x]) {
        StillGood(s, t, s.requests[x], key);
      }
    }
  }

  lemma StepKeepsKey(s: State, e: Event, key: nat)
    requires Sound(s) && KeyInv(s, key) && Enabled(s, e) && Holds(RowsStay(key), s, e)
    ensures KeyInv(Apply(s, e), key)
  {
    match e
    case Server(x) => ServeKeepsKey(s, x, key);
    case At(c, x) => ActKeepsKey(s, c, x, key);
  }

  lemma {:induction false} RunKeepsKey(hs: set<Hypothesis>, s: State, es: seq<Event>, key: nat)
    requires Sound(s) && KeyInv(s, key) && CanRun(s, es) && KeepsTo(hs, s, es) && RowsStay(key) in hs
    ensures Sound(After(s, es)) && KeyInv(After(s, es), key)
    decreases |es|
  {
    if es != [] {
      StepKeepsSound(s, es[0]);
      StepKeepsKey(s, es[0], key);
      RunKeepsKey(hs, Apply(s, es[0]), es[1..], key);
    }
  }

  function RowsWith(s: State, key: nat): set<nat> {
    set id | id in s.albums && s.albums[id].key == Some(key)
  }

  lemma AtMostOneWith(s: State, key: nat)
    requires UniqueKeys(s.albums)
    ensures |RowsWith(s, key)| <= 1
    ensures forall id :: id in RowsWith(s, key) ==> RowsWith(s, key) == {id}
  {
    forall i, j | i in RowsWith(s, key) && j in RowsWith(s, key) ensures i == j {
      assert HasKey(s.albums[i], s.albums[j].key);
    }
    if id :| id in RowsWith(s, key) { assert RowsWith(s, key) == {id}; }
  }

  /** An answer of request r that names a row. */
  predicate SaysCreated(s: State, r: nat) {
    r in s.requests && s.requests[r].phase.Answered? && s.requests[r].phase.answer.Created?
  }

  lemma AnswerIsTheRow(s: State, r: nat, key: nat)
    requires Sound(s) && KeyInv(s, key) && SaysCreated(s, r) && s.requests[r].key == Some(key)
    ensures RowsWith(s, key) == {s.requests[r].phase.answer.album}
  {
    assert GoodRequest(s, s.requests[r]);
    AtMostOneWith(s, key);
    assert s.requests[r].phase.answer.album in RowsWith(s, key);
  }

  /**
   Main theorem on the server's side. However many requests carry the same key
   and however their statements interleave, with whatever slugs the rest of the
   table takes and whatever other rows are deleted: one row at most has that key,
   and every answer names it.
   */
  lemma OneRowPerKey(es: seq<Event>, key: nat)
    requires CanRun(INITIAL, es) && KeepsTo({RowsStay(key)}, INITIAL, es)
    ensures var s := After(INITIAL, es);
            && |RowsWith(s, key)| <= 1
            && forall r :: SaysCreated(s, r) && s.requests[r].key == Some(key)
                 ==> RowsWith(s, key) == {s.requests[r].phase.answer.album}
  {
    var s := After(INITIAL, es);
    RunKeepsKey({RowsStay(key)}, INITIAL, es, key);
    AtMostOneWith(s, key);
    forall r | SaysCreated(s, r) && s.requests[r].key == Some(key)
      ensures RowsWith(s, key) == {s.requests[r].phase.answer.album}
    {
      AnswerIsTheRow(s, r, key);
    }
  }

  /** A request that lost the race for its key finds the winner's row. */
  lemma LoserFindsTheRow(es: seq<Event>, r: nat, key: nat, found: Option<nat>)
    requires CanRun(INITIAL, es) && KeepsTo({RowsStay(key)}, INITIAL, es)
    requires CanServe(After(INITIAL, es), Replay(r, found)) && After(INITIAL, es).requests[r].key == Some(key)
    ensures Serve(After(INITIAL, es), Replay(r, found)).requests[r].phase.answer.Created?
  {
    RunKeepsKey({RowsStay(key)}, INITIAL, es, key);
    assert GoodRequest(After(INITIAL, es), After(INITIAL, es).requests[r]);
  }

  // ----- the client's side: one collection, one key -----

  /** Its client and the server have no more than one key of collection c. */
  ghost predicate OnlyKey(s: State, c: nat) {
    && (forall k :: Minted(s, c, k) ==> c in s.keyOf && k == s.keyOf[c])
    && (c in s.keyOf ==> c in s.clients && KeyInv(s, s.keyOf[c]))
  }

  predicate IsRowOf(s: State, c: nat, id: nat) {
    id in s.albums && s.albums[id].owner == Some(c)
  }

  predicate GoodRecord(s: State, c: nat, cl: Client) {
    && (c !in s.keyOf ==> cl == Client(None, None, Resting))
    && (c in s.keyOf && cl.remoteId.None? ==> cl.key.Some?)
    && (cl.remoteId.Some? ==> IsRowOf(s, c, cl.remoteId.value))
    && (cl.run.Got? ==> IsRowOf(s, c, cl.run.album))
    && (cl.run.Recorded? ==> cl.remoteId.Some?)
  }

  ghost predicate CollectionInv(s: State, c: nat) {
    Sound(s) && OnlyKey(s, c) && (c in s.clients ==> GoodRecord(s, c, s.clients[c]))
  }

  /** A row with a key of c is a row of c. */
  lemma OwnRowsAreRowsWith(s: State, c: nat, e: Event)
    requires CollectionInv(s, c) && c in s.keyOf && Enabled(s, e) && Holds(OwnRowsStay(c), s, e)
    ensures Holds(RowsStay(s.keyOf[c]), s, e)
  {
    if e.Server? && e.server.Delete? {
      assert Owned(s, s.albums[e.server.id].key, s.albums[e.server.id].owner);
    }
  }

  lemma ServeKeepsRows(s: State, e: ServerStep)
    requires Sound(s) && CanServe(s, e) && !e.Delete?
    ensures forall id :: id in s.albums ==> id in Serve(s, e).albums && Serve(s, e).albums[id] == s.albums[id]
  {
    if !e.InsertRow? { assert Serve(s, e).albums == s.albums; }
  }

  lemma ServeKeepsHistory(s: State, e: ServerStep)
    requires CanServe(s, e)
    ensures var t := Serve(s, e); t.minted == s.minted && t.keyOf == s.keyOf && t.clients == s.clients
  {
  }

  lemma ServeKeepsOwnRows(s: State, c: nat, e: ServerStep)
    requires Sound(s) && CanServe(s, e) && Holds(OwnRowsStay(c), s, Server(e))
    ensures var t := Serve(s, e); t.minted == s.minted && t.keyOf == s.keyOf && t.clients == s.clients
    ensures forall id :: IsRowOf(s, c, id) ==> IsRowOf(Serve(s, e), c, id)
  {
    ServeKeepsHistory(s, e);
    if !e.Delete? { ServeKeepsRows(s, e); }
  }

  lemma ServeKeepsCollection(s: State, c: nat, e: ServerStep)
    requires CollectionInv(s, c) && CanServe(s, e) && Holds(OwnRowsStay(c), s, Server(e))
    ensures CollectionInv(Serve(s, e), c)
  {
    var t := Serve(s, e);
    ServeKeepsSound(s, e);
    ServeKeepsOwnRows(s, c, e);
    if c in s.keyOf {
      OwnRowsAreRowsWith(s, c, Server(e));
      ServeKeepsKey(s, e, s.keyOf[c]);
    }
    assert forall k :: Minted(t, c, k) <==> Minted(s, c, k);
  }

  lemma OthersKeepCollection(s: State, c: nat, d: nat, e: ClientStep)
    requires CollectionInv(s, c) && CanAct(s, d, e) && d != c
    ensures CollectionInv(Act(s, d, e), c)
  {
    var t := Act(s, d, e);
    ActKeepsSound(s, d, e);
    assert t.albums == s.albums && (c in t.clients <==> c in s.clients) && (c in s.clients ==> t.clients[c] == s.clients[c]);
    assert (c in t.keyOf <==> c in s.keyOf) && (c in s.keyOf ==> t.keyOf[c] == s.keyOf[c]);
    assert forall k :: Minted(t, c, k) ==> Minted(s, c, k);
    if c in s.keyOf { ActKeepsKey(s, d, e, s.keyOf[c]); }
  }

  /** The first publish of a collection mints a key nobody has. */
  lemma BeginKeepsCollection(s: State, c: nat, key: nat)
    requires CollectionInv(s, c) && CanAct(s, c, Begin(key)) && s.clients[c].key.None?
    ensures CollectionInv(Act(s, c, Begin(key)), c)
  {
    ActKeepsSound(s, c, Begin(key));
    assert c !in s.keyOf;
    forall k | Minted(Act(s, c, Begin(key)), c, k) ensures k == key {
      if k != key { assert Minted(s, c, k); }
    }
    forall r | r in s.requests ensures s.requests[r].key != Some(key) { assert Owned(s, s.requests[r].key, s.requests[r].owner); }
  }

  lemma ReceiveKeepsRecord(s: State, c: nat)
    requires CollectionInv(s, c) && CanAct(s, c, Receive)
    ensures IsRowOf(s, c, s.requests[s.clients[c].run.request].phase.answer.album)
  {
    var q := s.requests[s.clients[c].run.request];
    assert GoodClient(s, c, s.clients[c]);
    assert GoodRequest(s, q);
    assert Owned(s, s.albums[q.phase.answer.album].key, s.albums[q.phase.answer.album].owner);
  }

  lemma OwnStepKeepsCollection(s: State, c: nat, e: ClientStep)
    requires CollectionInv(s, c) && CanAct(s, c, e) && Holds(KeyIsKept(c), s, At(c, e))
    ensures CollectionInv(Act(s, c, e), c)
  {
    if e.Begin? {
      BeginKeepsCollection(s, c, e.key);
    } else {
      var t := Act(s, c, e);
      ActKeepsSound(s, c, e);
      if c in s.clients { assert GoodClient(s, c, s.clients[c]); }
      assert t.albums == s.albums && t.minted == s.minted;
      assert t.keyOf == s.keyOf;
      assert forall k :: Minted(t, c, k) <==> Minted(s, c, k);
      if c in s.keyOf { ActKeepsKey(s, c, e, s.keyOf[c]); }
      if e.Receive? { ReceiveKeepsRecord(s, c); }
    }
  }

  lemma {:induction false} RunKeepsCollection(hs: set<Hypothesis>, s: State, es: seq<Event>, c: nat)
    requires CollectionInv(s, c) && CanRun(s, es) && KeepsTo(hs, s, es) && OwnRowsStay(c) in hs && KeyIsKept(c) in hs
    ensures CollectionInv(After(s, es), c)
    decreases |es|
  {
    if es != [] {
      match es[0] {
        case Server(x) => ServeKeepsCollection(s, c, x);
        case At(d, x) => if d == c { OwnStepKeepsCollection(s, c, x); } else { OthersKeepCollection(s, c, d, x); }
      }
      RunKeepsCollection(hs, Apply(s, es[0]), es[1..], c);
    }
  }

  /** The rows made for publishes of collection c. */
  function RowsFor(s: State, c: nat): set<nat> {
    set id | id in s.albums && s.albums[id].owner == Some(c)
  }

  lemma RowsForAreRowsWith(s: State, c: nat)
    requires CollectionInv(s, c)
    ensures RowsFor(s, c) == if c in s.keyOf then RowsWith(s, s.keyOf[c]) else {}
  {
    forall id | id in s.albums ensures s.albums[id].owner == Some(c) <==> c in s.keyOf && s.albums[id].key == Some(s.keyOf[c]) {
      assert Owned(s, s.albums[id].key, s.albums[id].owner);
    }
  }

  lemma RecordedIsTheRow(s: State, c: nat)
    requires CollectionInv(s, c) && c in s.clients && s.clients[c].remoteId.Some?
    ensures RowsFor(s, c) == {s.clients[c].remoteId.value}
  {
    RowsForAreRowsWith(s, c);
    assert s.clients[c].remoteId.value in RowsFor(s, c);
    AtMostOneWith(s, s.keyOf[c]);
  }

  /**
   Main theorem on the client's side. Whatever is lost, retried, restarted or
   delivered late, and whatever becomes of other collections and albums, the
   publishes of a collection make at most one album row, and the id recorded for
   the collection is that row's. So is the id in every answer to any of its
   requests.
   */
  lemma ExactlyOnce(es: seq<Event>, c: nat)
    requires CanRun(INITIAL, es) && KeepsTo({OwnRowsStay(c), KeyIsKept(c)}, INITIAL, es)
    ensures var s := After(INITIAL, es);
            && |RowsFor(s, c)| <= 1
            && (c in s.clients && s.clients[c].remoteId.Some? ==> RowsFor(s, c) == {s.clients[c].remoteId.value})
            && (forall r :: SaysCreated(s, r) && s.requests[r].owner == Some(c)
                  ==> RowsFor(s, c) == {s.requests[r].phase.answer.album})
  {
    var s := After(INITIAL, es);
    RunKeepsCollection({OwnRowsStay(c), KeyIsKept(c)}, INITIAL, es, c);
    RowsForAreRowsWith(s, c);
    if c in s.keyOf { AtMostOneWith(s, s.keyOf[c]); }
    if c in s.clients && s.clients[c].remoteId.Some? { RecordedIsTheRow(s, c); }
    forall r | SaysCreated(s, r) && s.requests[r].owner == Some(c)
      ensures RowsFor(s, c) == {s.requests[r].phase.answer.album}
    {
      assert Owned(s, s.requests[r].key, s.requests[r].owner);
      AnswerIsTheRow(s, r, s.keyOf[c]);
    }
  }

  // ----- one key at a time is enough for one row at a time, and exactly that -----

  /** What may still make a row for c has the key of its latest publish, and so have its rows. */
  ghost predicate LatestOnly(s: State, c: nat) {
    && (forall id :: IsRowOf(s, c, id) ==> c in s.keyOf && s.albums[id].key == Some(s.keyOf[c]))
    && (forall r :: r in s.requests && s.requests[r].owner == Some(c) && MayInsert(s.requests[r].phase) ==>
          c in s.keyOf && s.requests[r].key == Some(s.keyOf[c]))
    && (c in s.clients && (s.clients[c].run.Ready? || s.clients[c].run.Waiting?) ==> c in s.keyOf && s.clients[c].run.key == s.keyOf[c])
  }

  lemma PhaseKeepsLatest(s: State, r: nat, ph: Phase, c: nat)
    requires LatestOnly(s, c) && r in s.requests && (MayInsert(ph) ==> MayInsert(s.requests[r].phase))
    ensures LatestOnly(SetPhase(s, r, ph), c)
  {
    var t := SetPhase(s, r, ph);
    assert forall id :: IsRowOf(t, c, id) <==> IsRowOf(s, c, id);
  }

  lemma InsertKeepsLatest(s: State, r: nat, slug: nat, id: nat, c: nat)
    requires LatestOnly(s, c) && CanServe(s, InsertRow(r, slug, id))
    ensures LatestOnly(Serve(s, InsertRow(r, slug, id)), c)
  {
    var q := s.requests[r];
    if SlugTaken(s.albums, slug) || KeyTaken(s.albums, q.key) {
      PhaseKeepsLatest(s, r, Classifying(q.phase.attempt), c);
    } else {
      var u := s.(albums := s.albums[id := Album(slug, q.key, q.owner)], idsUsed := s.idsUsed + {id});
      assert forall i :: IsRowOf(u, c, i) ==> i == id || IsRowOf(s, c, i);
      PhaseKeepsLatest(u, r, Answered(Created(id)), c);
    }
  }

  lemma ServeKeepsLatest(s: State, e: ServerStep, c: nat)
    requires LatestOnly(s, c) && CanServe(s, e)
    ensures LatestOnly(Serve(s, e), c)
  {
    match e
    case Accept(_, _) => assert forall i :: IsRowOf(Serve(s, e), c, i) ==> IsRowOf(s, c, i);
    case InsertRow(r, slug, id) => InsertKeepsLatest(s, r, slug, id, c);
    case Delete(id) => assert forall i :: IsRowOf(Serve(s, e), c, i) ==> IsRowOf(s, c, i);
    case Lookup(r, _) => PhaseKeepsLatest(s, r, Serve(s, e).requests[r].phase, c);
    case Classify(r) => PhaseKeepsLatest(s, r, Serve(s, e).requests[r].phase, c);
    case Replay(r, _) => PhaseKeepsLatest(s, r, Serve(s, e).requests[r].phase, c);
    case Reject(r) => PhaseKeepsLatest(s, r, Serve(s, e).requests[r].phase, c);
  }

  lemma OthersKeepLatest(s: State, d: nat, e: ClientStep, c: nat)
    requires LatestOnly(s, c) && CanAct(s, d, e) && d != c
    ensures LatestOnly(Act(s, d, e), c)
  {
    var t := Act(s, d, e);
    assert forall id :: IsRowOf(t, c, id) <==> IsRowOf(s, c, id);
  }

  lemma ActKeepsLatest(s: State, c: nat, e: ClientStep)
    requires Sound(s) && LatestOnly(s, c) && CanAct(s, c, e) && Holds(OneKeyAtATime(c), s, At(c, e))
    ensures LatestOnly(Act(s, c, e), c)
  {
    var t := Act(s, c, e);
    assert forall id :: IsRowOf(t, c, id) <==> IsRowOf(s, c, id);
  }

  lemma {:induction false} RunKeepsLatest(hs: set<Hypothesis>, s: State, es: seq<Event>, c: nat)
    requires Sound(s) && LatestOnly(s, c) && CanRun(s, es) && KeepsTo(hs, s, es) && OneKeyAtATime(c) in hs
    ensures Sound(After(s, es)) && LatestOnly(After(s, es), c)
    decreases |es|
  {
    if es != [] {
      StepKeepsSound(s, es[0]);
      match es[0] {
        case Server(x) => ServeKeepsLatest(s, x, c);
        case At(d, x) => if d == c { ActKeepsLatest(s, c, x); } else { OthersKeepLatest(s, d, x, c); }
      }
      RunKeepsLatest(hs, Apply(s, es[0]), es[1..], c);
    }
  }

  lemma LatestIsOne(s: State, c: nat)
    requires Sound(s) && LatestOnly(s, c)
    ensures |RowsFor(s, c)| <= 1
  {
    if id :| id in RowsFor(s, c) {
      AtMostOneWith(s, s.keyOf[c]);
      SubsetSize(RowsFor(s, c), RowsWith(s, s.keyOf[c]));
    }
  }

  ghost predicate RunsTo(hs: set<Hypothesis>, s: State, es: seq<Event>, t: State) {
    CanRun(s, es) && KeepsTo(hs, s, es) && After(s, es) == t
  }

  /** Some run that keeps to hs leads from s to t. */
  ghost predicate Leads(hs: set<Hypothesis>, s: State, t: State) {
    exists es :: RunsTo(hs, s, es, t)
  }

  lemma LeadsNowhere(hs: set<Hypothesis>, s: State)
    ensures Leads(hs, s, s)
  {
    assert RunsTo(hs, s, [], s);
  }

  /** A step and then a run. */
  lemma First(hs: set<Hypothesis>, s: State, e: Event, t: State)
    requires Enabled(s, e) && HoldAll(hs, s, e) && Leads(hs, Apply(s, e), t)
    ensures Leads(hs, s, t)
  {
    var es :| RunsTo(hs, Apply(s, e), es, t);
    assert ([e] + es)[1..] == es;
    assert RunsTo(hs, s, [e] + es, t);
  }

  lemma {:induction false} AppendRun(hs: set<Hypothesis>, s: State, es: seq<Event>, t: State, u: State)
    requires RunsTo(hs, s, es, t) && Leads(hs, t, u)
    ensures Leads(hs, s, u)
    decreases |es|
  {
    if es != [] {
      AppendRun(hs, Apply(s, es[0]), es[1..], t, u);
      First(hs, s, es[0], u);
    }
  }

  lemma LeadsOn(hs: set<Hypothesis>, s: State, t: State, u: State)
    requires Leads(hs, s, t) && Leads(hs, t, u)
    ensures Leads(hs, s, u)
  {
    var es :| RunsTo(hs, s, es, t);
    AppendRun(hs, s, es, t, u);
  }

  /** t has all the rows of s, and everything but the requests is otherwise the same. */
  ghost predicate OnlyServed(s: State, t: State) {
    && Sound(t) && t.clients == s.clients && t.minted == s.minted
    && forall id :: id in s.albums ==> id in t.albums && t.albums[id] == s.albums[id]
  }

  lemma InsertMakesRow(hs: set<Hypothesis>, s: State, r: nat, key: nat) returns (t: State)
    requires Sound(s) && r in s.requests && s.requests[r].phase.Inserting? && s.requests[r].key == Some(key)
    ensures Leads(hs, s, t) && OnlyServed(s, t) && KeyTaken(t.albums, Some(key))
  {
    LeadsNowhere(hs, s);
    t := s;
    if !KeyTaken(s.albums, Some(key)) {
      var slugs := set id | id in s.albums :: s.albums[id].slug;
      AlwaysAnother(slugs);
      var slug: nat :| slug !in slugs;
      AlwaysAnother(s.idsUsed);
      var id: nat :| id !in s.idsUsed;
      assert !SlugTaken(s.albums, slug);
      var e := InsertRow(r, slug, id);
      t := Serve(s, e);
      StepKeepsSound(s, Server(e));
      LeadsNowhere(hs, t);
      First(hs, s, Server(e), t);
      assert id in t.albums && HasKey(t.albums[id], Some(key));
    }
  }

  /** A request that may still insert: left alone with the server, it makes its key have a row. */
  lemma MakesRow(hs: set<Hypothesis>, s: State, r: nat, key: nat) returns (t: State)
    requires Sound(s) && r in s.requests && MayInsert(s.requests[r].phase) && s.requests[r].key == Some(key)
    ensures Leads(hs, s, t) && OnlyServed(s, t) && KeyTaken(t.albums, Some(key))
  {
    if s.requests[r].phase.Inserting? {
      t := InsertMakesRow(hs, s, r, key);
    } else if KeyTaken(s.albums, Some(key)) {
      t := s;
      LeadsNowhere(hs, s);
    } else {
      var e := if s.requests[r].phase.Looking? then Lookup(r, None) else Classify(r);
      StepKeepsSound(s, Server(e));
      t := InsertMakesRow(hs, Serve(s, e), r, key);
      First(hs, s, Server(e), t);
    }
  }

  /** A run that keeps to hs, at the end of which c has two rows. */
  ghost predicate CanDouble(hs: set<Hypothesis>, s: State, c: nat) {
    exists t :: Leads(hs, s, t) && |RowsFor(t, c)| >= 2
  }

  lemma FirstDoubles(hs: set<Hypothesis>, s: State, e: Event, c: nat)
    requires Enabled(s, e) && HoldAll(hs, s, e) && CanDouble(hs, Apply(s, e), c)
    ensures CanDouble(hs, s, c)
  {
    var t :| Leads(hs, Apply(s, e), t) && |RowsFor(t, c)| >= 2;
    First(hs, s, e, t);
  }

  /** A publish is about to send this key, and another key of c has a row. */
  lemma SecondRow(hs: set<Hypothesis>, s: State, c: nat, id: nat)
    requires Sound(s) && c in s.clients && s.clients[c].run.Ready? && IsRowOf(s, c, id) && s.albums[id].key != Some(s.clients[c].run.key)
    ensures CanDouble(hs, s, c)
  {
    var key := s.clients[c].run.key;
    AlwaysAnother(s.requests.Keys);
    var r: nat :| r !in s.requests.Keys;
    var s1 := Act(s, c, Send(r));
    StepKeepsSound(s, At(c, Send(r)));
    var t := MakesRow(hs, s1, r, key);
    First(hs, s, At(c, Send(r)), t);
    var id' :| id' in t.albums && HasKey(t.albums[id'], Some(key));
    assert Owned(t, t.albums[id'].key, t.albums[id'].owner) && Owned(s1, s1.requests[r].key, s1.requests[r].owner);
    assert {id, id'} <= RowsFor(t, c) && id != id';
    SubsetSize({id, id'}, RowsFor(t, c));
  }

  lemma ExposedDoubles(hs: set<Hypothesis>, s: State, c: nat)
    requires Sound(s) && c in s.clients && s.clients[c].run.Ready? && Exposed(s, c, s.clients[c].run.key)
    ensures CanDouble(hs, s, c)
  {
    if id :| id in s.albums && s.albums[id].owner == Some(c) && s.albums[id].key != Some(s.clients[c].run.key) {
      SecondRow(hs, s, c, id);
    } else {
      var r :| r in s.requests && s.requests[r].owner == Some(c) && s.requests[r].key != Some(s.clients[c].run.key) && MayInsert(s.requests[r].phase);
      assert Owned(s, s.requests[r].key, s.requests[r].owner);
      var key := s.requests[r].key.value;
      var t := MakesRow(hs, s, r, key);
      var id :| id in t.albums && HasKey(t.albums[id], Some(key));
      assert Owned(t, t.albums[id].key, t.albums[id].owner);
      SecondRow(hs, t, c, id);
      var u :| Leads(hs, t, u) && |RowsFor(u, c)| >= 2;
      LeadsOn(hs, s, t, u);
    }
  }

  /** A publish that uses a key while another is exposed can end in two rows, with no more keys and no deletes. */
  lemma SecondKeyDoubles(hs: set<Hypothesis>, s: State, c: nat, e: Event)
    requires Sound(s) && Enabled(s, e) && !Holds(OneKeyAtATime(c), s, e)
    ensures CanDouble(hs, Apply(s, e), c)
  {
    StepKeepsSound(s, e);
    var t := Apply(s, e);
    assert t.albums == s.albums && t.requests == s.requests;
    ExposedDoubles(hs, t, c);
  }

  /**
   With deletes allowed and keys that get lost: as long as no publish of c uses a
   key while another key of c has a row or may still make one, c never has two
   rows. And that is exact: a publish that does so can end in two rows.
   */
  lemma TwoRowsIffTwoKeys(es: seq<Event>, c: nat, e: Event)
    requires CanRun(INITIAL, es) && KeepsTo({OneKeyAtATime(c)}, INITIAL, es) && Enabled(After(INITIAL, es), e)
    ensures |RowsFor(After(INITIAL, es), c)| <= 1
    ensures CanDouble({OneKeyAtATime(c)}, Apply(After(INITIAL, es), e), c) <==> !Holds(OneKeyAtATime(c), After(INITIAL, es), e)
  {
    var hs := {OneKeyAtATime(c)};
    var s := After(INITIAL, es);
    RunKeepsLatest(hs, INITIAL, es, c);
    LatestIsOne(s, c);
    if Holds(OneKeyAtATime(c), s, e) {
      forall t | Leads(hs, Apply(s, e), t) ensures |RowsFor(t, c)| <= 1 {
        var fs :| RunsTo(hs, Apply(s, e), fs, t);
        assert ([e] + fs)[1..] == fs;
        assert KeepsTo(hs, s, [e] + fs);
        RunKeepsLatest(hs, s, [e] + fs, c);
        LatestIsOne(t, c);
      }
    } else {
      SecondKeyDoubles(hs, s, c, e);
    }
  }

  // ----- why the hypotheses of ExactlyOnce are needed -----

  /** Collection 0, its requests and rows, after one key. */
  function Now(albums: map<nat, Album>, requests: map<nat, Request>, cl: Client): State {
    State(albums, requests, map[0 := cl], albums.Keys, {0}, map[0 := 0], map[0 := 0])
  }

  lemma Back(hs: set<Hypothesis>, s: State, e: Event, t: State)
    requires Enabled(s, e) && HoldAll(hs, s, e) && Apply(s, e) == t && CanDouble(hs, t, 0)
    ensures CanDouble(hs, s, 0)
  {
    FirstDoubles(hs, s, e, 0);
  }

  function Open(key: nat): Request {
    Request(Some(key), Some(0), Looking)
  }

  const INSTALLED := State(map[], map[], map[0 := Client(None, None, Resting)], {}, {}, map[], map[])

  /** A publish with a new key doubles, while a request with key 0 is open. */
  lemma NewKeyDoubles(hs: set<Hypothesis>, requests: map<nat, Request>, remoteId: Option<nat>, ids: set<nat>, e: ClientStep)
    requires 1 in requests && requests[1] == Open(0) && forall r :: r in requests ==> requests[r].key == Some(0) && requests[r].owner == Some(0)
    requires e == Begin(1) || e == BeginUnstored(1)
    requires var s := Now(map[], requests, Client(None, remoteId, Resting)).(idsUsed := ids); HoldAll(hs, s, At(0, e))
    ensures CanDouble(hs, Now(map[], requests, Client(None, remoteId, Resting)).(idsUsed := ids), 0)
  {
    var s := Now(map[], requests, Client(None, remoteId, Resting)).(idsUsed := ids);
    assert Exposed(s, 0, 1);
    SecondKeyDoubles(hs, s, 0, At(0, e));
    FirstDoubles(hs, s, At(0, e), 0);
  }

  lemma SendBack(hs: set<Hypothesis>, albums: map<nat, Album>, requests: map<nat, Request>, cl: Client, r: nat)
    requires cl.run.Ready? && r !in requests
    requires CanDouble(hs, Now(albums, requests[r := Request(Some(cl.run.key), Some(0), Looking)], cl.(run := Waiting(cl.run.key, cl.run.send, r))), 0)
    ensures CanDouble(hs, Now(albums, requests, cl), 0)
  {
    Back(hs, Now(albums, requests, cl), At(0, Send(r)),
         Now(albums, requests[r := Request(Some(cl.run.key), Some(0), Looking)], cl.(run := Waiting(cl.run.key, cl.run.send, r))));
  }

  /** A step of the client alone. */
  lemma TurnBack(hs: set<Hypothesis>, albums: map<nat, Album>, requests: map<nat, Request>, cl: Client, e: ClientStep, cl': Client)
    requires e.GiveUpWaiting? || e.Receive? || e.Record? || e.Clear? || e.Quit?
    requires CanAct(Now(albums, requests, cl), 0, e) && Act(Now(albums, requests, cl), 0, e).clients[0] == cl'
    requires CanDouble(hs, Now(albums, requests, cl'), 0)
    ensures CanDouble(hs, Now(albums, requests, cl), 0)
  {
    Back(hs, Now(albums, requests, cl), At(0, e), Now(albums, requests, cl'));
  }

  /** The first publish begins, with key 0. */
  lemma BeginBack(hs: set<Hypothesis>, e: ClientStep, cl: Client)
    requires (e == Begin(0) && cl == Client(Some(0), None, Ready(0, 1))) || (e == BeginUnstored(0) && cl == Client(None, None, Ready(0, 1)))
    requires HoldAll(hs, INSTALLED, At(0, e)) && CanDouble(hs, Now(map[], map[], cl), 0)
    ensures CanDouble(hs, INITIAL, 0)
  {
    assert {} + {0} == {0};
    Back(hs, INSTALLED, At(0, e), Now(map[], map[], cl));
    Back(hs, INITIAL, At(0, Install), INSTALLED);
  }

  /** Run: the catalog refuses the key, the answer is lost, and the next publish makes a second album. */
  lemma UnstoredKeyMakesTwo()
    ensures CanDouble({OwnRowsStay(0)}, INITIAL, 0)
  {
    var hs := {OwnRowsStay(0)};
    var requests := map[1 := Open(0)];
    var resting := Client(None, None, Resting);
    LostAnswerDoubles(hs, requests);
    TurnBack(hs, map[], requests, Client(None, None, Waiting(0, 1, 1)), Quit, resting);
    SendBack(hs, map[], map[], Client(None, None, Ready(0, 1)), 1);
    BeginBack(hs, BeginUnstored(0), Client(None, None, Ready(0, 1)));
  }

  lemma LostAnswerDoubles(hs: set<Hypothesis>, requests: map<nat, Request>)
    requires hs == {OwnRowsStay(0)} && 1 in requests && requests[1] == Open(0)
    requires forall r :: r in requests ==> requests[r].key == Some(0) && requests[r].owner == Some(0)
    ensures CanDouble(hs, Now(map[], requests, Client(None, None, Resting)), 0)
  {
    var resting := Client(None, None, Resting);
    NewKeyDoubles(hs, requests, None, {}, BeginUnstored(1));
    assert Now(map[], requests, resting).(idsUsed := {}) == Now(map[], requests, resting);
  }

  const ROW := map[0 := Album(0, Some(0), Some(0))]

  lemma DeleteBack(hs: set<Hypothesis>, requests: map<nat, Request>, cl: Client)
    requires hs == {KeyIsKept(0)} && CanDouble(hs, Now(map[], requests, cl).(idsUsed := {0}), 0)
    ensures CanDouble(hs, Now(ROW, requests, cl), 0)
  {
    assert ROW - {0} == map[] && ROW.Keys == {0};
    Back(hs, Now(ROW, requests, cl), Server(Delete(0)), Now(map[], requests, cl).(idsUsed := {0}));
  }

  /** The second send has made the album: it is recorded, and deleted on the server. */
  lemma DeletedDoubles(hs: set<Hypothesis>, requests: map<nat, Request>)
    requires hs == {KeyIsKept(0)} && 1 in requests && requests[1] == Open(0)
    requires 2 in requests && requests[2] == Open(0).(phase := Answered(Created(0)))
    requires forall r :: r in requests ==> requests[r].key == Some(0) && requests[r].owner == Some(0)
    ensures CanDouble(hs, Now(ROW, requests, Client(Some(0), None, Waiting(0, 2, 2))), 0)
  {
    NewKeyDoubles(hs, requests, Some(0), {0}, Begin(1));
    DeleteBack(hs, requests, Client(None, Some(0), Resting));
    TurnBack(hs, ROW, requests, Client(Some(0), Some(0), Recorded), Clear, Client(None, Some(0), Resting));
    TurnBack(hs, ROW, requests, Client(Some(0), None, Got(0)), Record, Client(Some(0), Some(0), Recorded));
    TurnBack(hs, ROW, requests, Client(Some(0), None, Waiting(0, 2, 2)), Receive, Client(Some(0), None, Got(0)));
  }

  /** Request 2 makes the album. */
  lemma SecondSendDoubles(hs: set<Hypothesis>, requests: map<nat, Request>, cl: Client)
    requires 2 in requests && requests[2] == Open(0)
    requires CanDouble(hs, Now(ROW, requests[2 := Open(0).(phase := Answered(Created(0)))], cl), 0)
    ensures CanDouble(hs, Now(map[], requests, cl), 0)
  {
    var inserting := requests[2 := Open(0).(phase := Inserting(0))];
    var answered := requests[2 := Open(0).(phase := Answered(Created(0)))];
    assert inserting[2 := Open(0).(phase := Answered(Created(0)))] == answered && {} + {0} == {0} == ROW.Keys;
    Back(hs, Now(map[], inserting, cl), Server(InsertRow(2, 0, 0)), Now(ROW, answered, cl));
    Back(hs, Now(map[], requests, cl), Server(Lookup(2, None)), Now(map[], inserting, cl));
  }

  /**
   Run: the album is recorded and deleted while an earlier send is still on its
   way; the next publish mints a new key, and both make a row.
   */
  lemma DeleteMakesTwo()
    ensures CanDouble({KeyIsKept(0)}, INITIAL, 0)
  {
    var hs := {KeyIsKept(0)};
    SlowSendDoubles(hs);
    TurnBack(hs, map[], map[1 := Open(0)], Client(Some(0), None, Waiting(0, 1, 1)), GiveUpWaiting, Client(Some(0), None, Ready(0, 2)));
    SendBack(hs, map[], map[], Client(Some(0), None, Ready(0, 1)), 1);
    BeginBack(hs, Begin(0), Client(Some(0), None, Ready(0, 1)));
  }

  /** After a first send that is slow, the second one makes the album. */
  lemma SlowSendDoubles(hs: set<Hypothesis>)
    requires hs == {KeyIsKept(0)}
    ensures CanDouble(hs, Now(map[], map[1 := Open(0)], Client(Some(0), None, Ready(0, 2))), 0)
  {
    var slow := map[1 := Open(0)];
    DeletedDoubles(hs, slow[2 := Open(0)][2 := Open(0).(phase := Answered(Created(0)))]);
    SecondSendDoubles(hs, slow[2 := Open(0)], Client(Some(0), None, Waiting(0, 2, 2)));
    SendBack(hs, map[], slow, Client(Some(0), None, Ready(0, 2)), 2);
  }
}
