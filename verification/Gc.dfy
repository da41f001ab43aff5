/**
 The gc command beside a running server. gc reads the clock, walks photos/,
 reads the photo rows, decides what is orphaned and then removes it entry by
 entry; uploads, the worker and deletes go on between any two of its steps.
 */
module Gc {
  import P = Pipeline

  type Ref = P.Ref

  /** gcGrace, in nanoseconds. */
  const GRACE := 3_600_000_000_000

  // ----- storage.Listing and gcTargets -----

  datatype PhotoDir = PhotoDir(p: Ref, modTime: int)

  /** An album directory without entries; `step` is when Walk looked, for the proofs only. */
  datatype EmptyDir = EmptyDir(album: nat, modTime: int, step: nat)

  datatype Listing = Listing(photos: seq<PhotoDir>, junk: seq<nat>, emptyDirs: seq<EmptyDir>)

  datatype Target = Photo(p: Ref) | Junk(name: nat) | Album(album: nat, step: nat) | Incoming(name: nat)

  function OrphanPhotos(photos: seq<PhotoDir>, known: set<Ref>, now: int): seq<Target> {
    if photos == [] then []
    else (if photos[0].p !in known && now - photos[0].modTime > GRACE then [Photo(photos[0].p)] else [])
         + OrphanPhotos(photos[1..], known, now)
  }

  function OrphanAlbums(emptyDirs: seq<EmptyDir>, now: int): seq<Target> {
    if emptyDirs == [] then []
    else (if now - emptyDirs[0].modTime > GRACE then [Album(emptyDirs[0].album, emptyDirs[0].step)] else [])
         + OrphanAlbums(emptyDirs[1..], now)
  }

  function JunkTargets(junk: seq<nat>): seq<Target> {
    seq(|junk|, i requires 0 <= i < |junk| => Junk(junk[i]))
  }

  function IncomingTargets(names: seq<nat>): seq<Target> {
    seq(|names|, i requires 0 <= i < |names| => Incoming(names[i]))
  }

  function Orphans(l: Listing, known: set<Ref>, now: int): seq<Target> {
    JunkTargets(l.junk) + OrphanPhotos(l.photos, known, now) + OrphanAlbums(l.emptyDirs, now)
  }

  /** What Orphans promises: junk, old unknown photo directories, and old empty album directories, nothing else. */
  lemma OrphansExactly(l: Listing, known: set<Ref>, now: int, t: Target)
    ensures t in Orphans(l, known, now) <==>
              match t
              case Junk(name) => name in l.junk
              case Photo(p) => p !in known && exists d :: d in l.photos && d.p == p && now - d.modTime > GRACE
              case Album(a, k) => exists d :: d in l.emptyDirs && d.album == a && d.step == k && now - d.modTime > GRACE
              case Incoming(_) => false
  {
    PhotosExactly(l.photos, known, now, t);
    AlbumsExactly(l.emptyDirs, now, t);
    if t.Junk? && t.name in l.junk {
      var i :| 0 <= i < |l.junk| && l.junk[i] == t.name;
      assert JunkTargets(l.junk)[i] == t;
    }
  }

  lemma PhotosExactly(photos: seq<PhotoDir>, known: set<Ref>, now: int, t: Target)
    ensures t in OrphanPhotos(photos, known, now) <==>
              t.Photo? && t.p !in known && exists d :: d in photos && d.p == t.p && now - d.modTime > GRACE
  {
    if photos != [] {
      PhotosExactly(photos[1..], known, now, t);
    }
  }

  lemma AlbumsExactly(emptyDirs: seq<EmptyDir>, now: int, t: Target)
    ensures t in OrphanAlbums(emptyDirs, now) <==>
              t.Album? && exists d :: d in emptyDirs && d.album == t.album && d.step == t.step && now - d.modTime > GRACE
  {
    if emptyDirs != [] {
      AlbumsExactly(emptyDirs[1..], now, t);
    }
  }

  lemma OrphanPhotosSnoc(photos: seq<PhotoDir>, d: PhotoDir, known: set<Ref>, now: int)
    ensures OrphanPhotos(photos + [d], known, now) == OrphanPhotos(photos, known, now) + OrphanPhotos([d], known, now)
  {
    if photos == [] {
      assert photos + [d] == [d];
    } else {
      assert (photos + [d])[1..] == photos[1..] + [d];
      OrphanPhotosSnoc(photos[1..], d, known, now);
    }
  }

  lemma OrphanAlbumsSnoc(dirs: seq<EmptyDir>, d: EmptyDir, now: int)
    ensures OrphanAlbums(dirs + [d], now) == OrphanAlbums(dirs, now) + OrphanAlbums([d], now)
  {
    if dirs == [] {
      assert dirs + [d] == [d];
    } else {
      assert (dirs + [d])[1..] == dirs[1..] + [d];
      OrphanAlbumsSnoc(dirs[1..], d, now);
    }
  }

  /** A file in incoming/. */
  datatype Staging = Staging(name: nat, modTime: int)

  function Stale(entries: seq<Staging>, now: int, maxAge: int): seq<Target> {
    if entries == [] then []
    else Stale(entries[..|entries| - 1], now, maxAge)
         + if now - entries[|entries| - 1].modTime > maxAge then [Incoming(entries[|entries| - 1].name)] else []
  }

  /** The staging files older than maxAge, and no others. */
  lemma {:induction false} StaleExactly(entries: seq<Staging>, now: int, maxAge: int, t: Target)
    ensures t in Stale(entries, now, maxAge) <==> t.Incoming? && exists e :: e in entries && e.name == t.name && now - e.modTime > maxAge
  {
    if entries != [] {
      var front, last := entries[..|entries| - 1], entries[|entries| - 1];
      StaleExactly(front, now, maxAge, t);
      assert entries == front + [last];
      assert forall e :: e in entries <==> e in front || e == last;
    }
  }

  method StaleIncoming(entries: seq<Staging>, now: int, maxAge: int) returns (out: seq<Target>)
    ensures out == Stale(entries, now, maxAge)
  {
    out := [];
    for i := 0 to |entries|
      invariant out == Stale(entries[..i], now, maxAge)
    {
      assert entries[..i + 1][..i] == entries[..i];
      if now - entries[i].modTime > maxAge {
        out := out + [Incoming(entries[i].name)];
      }
    }
    assert entries[..|entries|] == entries;
  }

  lemma OnlyPhoto(d: PhotoDir, known: set<Ref>, now: int)
    requires d.p !in known && now - d.modTime > GRACE
    ensures Orphans(Listing([d], [], []), known, now) + IncomingTargets([]) == [Photo(d.p)]
  {
    assert OrphanPhotos([d][1..], known, now) == [];
  }

  lemma OnlyAlbum(d: EmptyDir, known: set<Ref>, now: int)
    requires now - d.modTime > GRACE
    ensures Orphans(Listing([], [], [d]), known, now) + IncomingTargets([]) == [Album(d.album, d.step)]
  {
    assert OrphanAlbums([d][1..], now) == [];
  }

  /** Listing.Orphans. */
  method JudgeListing(l: Listing, known: set<Ref>, now: int) returns (targets: seq<Target>)
    ensures targets == Orphans(l, known, now)
  {
    targets := JunkTargets(l.junk);
    for i := 0 to |l.photos|
      invariant targets == JunkTargets(l.junk) + OrphanPhotos(l.photos[..i], known, now)
    {
      assert l.photos[..i + 1] == l.photos[..i] + [l.photos[i]];
      OrphanPhotosSnoc(l.photos[..i], l.photos[i], known, now);
      if l.photos[i].p !in known && now - l.photos[i].modTime > GRACE {
        targets := targets + [Photo(l.photos[i].p)];
      }
    }
    assert l.photos[..|l.photos|] == l.photos;
    ghost var photos := targets;
    for i := 0 to |l.emptyDirs|
      invariant targets == photos + OrphanAlbums(l.emptyDirs[..i], now)
    {
      assert l.emptyDirs[..i + 1] == l.emptyDirs[..i] + [l.emptyDirs[i]];
      OrphanAlbumsSnoc(l.emptyDirs[..i], l.emptyDirs[i], now);
      if now - l.emptyDirs[i].modTime > GRACE {
        targets := targets + [Album(l.emptyDirs[i].album, l.emptyDirs[i].step)];
      }
    }
    assert l.emptyDirs[..|l.emptyDirs|] == l.emptyDirs;
  }

  /** gcTargets after the walk: the rows make the known map, Listing.Orphans judges, and old staging files come last. */
  method GcTargets(l: Listing, refs: seq<Ref>, incoming: seq<Staging>, now: int) returns (targets: seq<Target>)
    ensures targets == Orphans(l, (set p | p in refs), now) + Stale(incoming, now, GRACE)
  {
    var known: set<Ref> := {};
    for i := 0 to |refs|
      invariant known == (set p | p in refs[..i])
    {
      assert refs[..i + 1] == refs[..i] + [refs[i]];
      known := known + {refs[i]};
    }
    assert refs[..|refs|] == refs;
    targets := JudgeListing(l, known, now);
    var stale := StaleIncoming(incoming, now, GRACE);
    targets := targets + stale;
  }

  // ----- the processes -----

  /** A photo directory: its modification time, and the step at which it was last created. */
  datatype Dir = Dir(modTime: int, made: nat)

  datatype Phase = Idle | Walking(now: int, listing: Listing) | Removing(targets: seq<Target>)

  datatype State = State(
    clock: int,
    step: nat,
    rows: set<Ref>,
    dirs: map<Ref, Dir>,
    albumDirs: map<nat, int>,       // modification times of the album directories
    touched: map<Ref, int>,         // history: when each photo's directory was last made or changed
    everRow: set<Ref>,              // history: photos that have had a row
    gc: Phase)

  const INITIAL := State(0, 0, {}, map[], map[], map[], {}, Idle)

  datatype Event =
    | Tick(ns: nat)
    | Begin(p: Ref)             // an upload's first Commit creates the directory
    | Remake(p: Ref)            // the worker's or a replacement's MkdirAll
    | Touch(p: Ref)             // a rename or removal inside the directory
    | Insert(p: Ref)
    | Delete(p: Ref)
    | RemoveDir(p: Ref)         // the server's RemovePhoto or RemoveAlbum, photo by photo
    | RemoveAlbumDir(album: nat) // os.Remove of an album directory, only succeeds when empty
    // gc
    | GcNow
    | SeePhoto(p: Ref)
    | SeeJunk(name: nat)
    | SeeEmpty(album: nat)
    | ReadRefs(stale: seq<nat>) // the rows, and the old files in incoming/
    | RemoveNext
    | GcEnd

  predicate HasPhotos(s: State, album: nat) {
    exists p :: p in s.dirs && p.album == album
  }

  predicate Enabled(s: State, e: Event) {
    match e
    case Tick(_) => true
    case Begin(p) => p !in s.touched
    case Remake(p) => p in s.everRow
    case Touch(p) => p in s.dirs
    case Insert(p) => p in s.touched && p !in s.everRow
    case Delete(p) => p in s.rows
    case RemoveDir(p) => p in s.dirs
    case RemoveAlbumDir(a) => a in s.albumDirs && !HasPhotos(s, a)
    case GcNow => s.gc.Idle?
    case SeePhoto(p) => s.gc.Walking? && p in s.dirs
    case SeeJunk(_) => s.gc.Walking?
    case SeeEmpty(a) => s.gc.Walking? && a in s.albumDirs && !HasPhotos(s, a)
    case ReadRefs(_) => s.gc.Walking?
    case RemoveNext => s.gc.Removing? && s.gc.targets != []
    case GcEnd => true
  }

  function Make(s: State, p: Ref): State {
    if p in s.dirs then s
    else s.(dirs := s.dirs[p := Dir(s.clock, s.step)], touched := s.touched[p := s.clock], albumDirs := s.albumDirs[p.album := s.clock])
  }

  function DropDir(s: State, p: Ref): State {
    s.(dirs := s.dirs - {p}, albumDirs := if p.album in s.albumDirs then s.albumDirs[p.album := s.clock] else s.albumDirs)
  }

  function DropAlbumDir(s: State, album: nat): State {
    s.(dirs := map p | p in s.dirs && p.album != album :: s.dirs[p], albumDirs := s.albumDirs - {album})
  }

  /** os.RemoveAll of one target. */
  function RemoveTarget(s: State, t: Target): State {
    match t
    case Photo(p) => if p in s.dirs then DropDir(s, p) else s
    case Album(a, _) => DropAlbumDir(s, a)
    case _ => s
  }

  function Effect(s: State, e: Event): State
    requires Enabled(s, e)
  {
    match e
    case Tick(ns) => s.(clock := s.clock + ns)
    case Begin(p) => Make(s, p)
    case Remake(p) => Make(s, p)
    case Touch(p) => s.(dirs := s.dirs[p := s.dirs[p].(modTime := s.clock)], touched := s.touched[p := s.clock])
    case Insert(p) => s.(rows := s.rows + {p}, everRow := s.everRow + {p})
    case Delete(p) => s.(rows := s.rows - {p})
    case RemoveDir(p) => DropDir(s, p)
    case RemoveAlbumDir(a) => s.(albumDirs := s.albumDirs - {a})
    case GcNow => s.(gc := Walking(s.clock, Listing([], [], [])))
    case SeePhoto(p) =>
      var l := s.gc.listing;
      s.(gc := Walking(s.gc.now, l.(photos := l.photos + [PhotoDir(p, s.dirs[p].modTime)])))
    case SeeJunk(n) =>
      var l := s.gc.listing;
      s.(gc := Walking(s.gc.now, l.(junk := l.junk + [n])))
    case SeeEmpty(a) =>
      var l := s.gc.listing;
      s.(gc := Walking(s.gc.now, l.(emptyDirs := l.emptyDirs + [EmptyDir(a, s.albumDirs[a], s.step)])))
    case ReadRefs(stale) => s.(gc := Removing(Orphans(s.gc.listing, s.rows, s.gc.now) + IncomingTargets(stale)))
    case RemoveNext => RemoveTarget(s, s.gc.targets[0]).(gc := Removing(s.gc.targets[1..]))
    case GcEnd => s.(gc := Idle)
  }

  function Apply(s: State, e: Event): State
    requires Enabled(s, e)
  {
    Effect(s, e).(step := s.step + 1)
  }

  // ----- the hypotheses -----

  /** The upload of p goes on within h of the last change to its directory. */
  predicate GoesOnWithin(h: nat, p: Ref, s: State, e: Event) {
    (e == Insert(p) || e == Touch(p)) && p in s.touched && p !in s.everRow ==> s.clock <= s.touched[p] + h
  }

  /** gc holds this album directory, seen empty, for removal. */
  predicate SeenEmpty(s: State, album: nat) {
    match s.gc
    case Idle => false
    case Walking(_, l) => exists d :: d in l.emptyDirs && d.album == album
    case Removing(ts) => exists t :: t in ts && t.Album? && t.album == album
  }

  /** Nothing is committed into an album directory between Walk seeing it empty and gc removing it. */
  predicate LeavesEmptyAlbums(s: State, e: Event) {
    e.Begin? || e.Remake? ==> !SeenEmpty(s, e.p.album)
  }

  predicate CanRun(s: State, es: seq<Event>)
    decreases |es|
  {
    es == [] || (Enabled(s, es[0]) && CanRun(Apply(s, es[0]), es[1..]))
  }

  function After(s: State, es: seq<Event>): State
    requires CanRun(s, es)
    decreases |es|
  {
    if es == [] then s else After(Apply(s, es[0]), es[1..])
  }

  /** The upload of p never pauses for longer than h between its first file and its row. */
  predicate PausesAtMost(h: nat, p: Ref, s: State, es: seq<Event>)
    requires CanRun(s, es)
    decreases |es|
  {
    es == [] || (GoesOnWithin(h, p, s, es[0]) && PausesAtMost(h, p, Apply(s, es[0]), es[1..]))
  }

  predicate AllLeaveEmpty(s: State, es: seq<Event>)
    requires CanRun(s, es)
    decreases |es|
  {
    es == [] || (LeavesEmptyAlbums(s, es[0]) && AllLeaveEmpty(Apply(s, es[0]), es[1..]))
  }

  // ----- photo directories -----

  /** p has no row and will not get one any more. */
  predicate Doomed(h: nat, p: Ref, s: State) {
    p !in s.rows && (p in s.everRow || (p in s.touched && s.clock > s.touched[p] + h))
  }

  /** What the walk noted of p still stands, or does not make it a target. */
  predicate NotedInTime(h: nat, p: Ref, s: State, now: int, d: PhotoDir) {
    p in s.touched && (p in s.everRow || s.touched[p] == d.modTime || now <= d.modTime + h)
  }

  predicate Inv(h: nat, p: Ref, s: State) {
    && (p in s.rows ==> p in s.everRow)
    && (p in s.everRow ==> p in s.touched)
    && (p in s.dirs ==> p in s.touched && s.dirs[p].modTime == s.touched[p])
    && match s.gc
       case Idle => true
       case Walking(now, l) => now <= s.clock && forall d :: d in l.photos && d.p == p ==> NotedInTime(h, p, s, now, d)
       case Removing(ts) => Photo(p) in ts ==> Doomed(h, p, s)
  }

  /** A step of gc itself. */
  predicate IsGcStep(e: Event) {
    e.GcNow? || e.SeePhoto? || e.SeeJunk? || e.SeeEmpty? || e.ReadRefs? || e.RemoveNext? || e.GcEnd?
  }

  lemma ServerStepKeeps(h: nat, p: Ref, s: State, e: Event)
    requires Inv(h, p, s) && Enabled(s, e) && GoesOnWithin(h, p, s, e) && !IsGcStep(e)
    ensures Inv(h, p, Apply(s, e))
  {
    var s' := Apply(s, e);
    assert s'.gc == s.gc;
    if s.gc.Walking? {
      forall d | d in s.gc.listing.photos && d.p == p ensures NotedInTime(h, p, s', s.gc.now, d) {
        assert NotedInTime(h, p, s, s.gc.now, d);
      }
    }
  }

  lemma ReadRefsKeeps(h: nat, p: Ref, s: State, stale: seq<nat>)
    requires h <= GRACE && Inv(h, p, s) && Enabled(s, ReadRefs(stale))
    ensures Inv(h, p, Apply(s, ReadRefs(stale)))
  {
    OrphansExactly(s.gc.listing, s.rows, s.gc.now, Photo(p));
  }

  lemma RemoveNextKeeps(h: nat, p: Ref, s: State)
    requires h <= GRACE && Inv(h, p, s) && Enabled(s, RemoveNext)
    ensures Inv(h, p, Apply(s, RemoveNext))
  {
    assert Photo(p) in s.gc.targets[1..] ==> Photo(p) in s.gc.targets;
  }

  lemma StepKeeps(h: nat, p: Ref, s: State, e: Event)
    requires h <= GRACE && Inv(h, p, s) && Enabled(s, e) && GoesOnWithin(h, p, s, e)
    ensures Inv(h, p, Apply(s, e))
  {
    if !IsGcStep(e) {
      ServerStepKeeps(h, p, s, e);
    } else if e.ReadRefs? {
      ReadRefsKeeps(h, p, s, e.stale);
    } else if e.RemoveNext? {
      RemoveNextKeeps(h, p, s);
    }
  }

  lemma StaysDoomed(h: nat, p: Ref, s: State, e: Event)
    requires Inv(h, p, s) && Enabled(s, e) && GoesOnWithin(h, p, s, e) && Doomed(h, p, s)
    ensures Doomed(h, p, Apply(s, e))
  {
  }

  lemma {:induction false} RunKeeps(h: nat, p: Ref, s: State, es: seq<Event>)
    requires h <= GRACE && Inv(h, p, s) && CanRun(s, es) && PausesAtMost(h, p, s, es)
    ensures Inv(h, p, After(s, es)) && (Doomed(h, p, s) ==> Doomed(h, p, After(s, es)))
    decreases |es|
  {
    if es != [] {
      StepKeeps(h, p, s, es[0]);
      if Doomed(h, p, s) { StaysDoomed(h, p, s, es[0]); }
      RunKeeps(h, p, Apply(s, es[0]), es[1..]);
    }
  }

  /** gc is about to remove the directory of p. */
  predicate Removes(s: State, p: Ref) {
    s.gc.Removing? && s.gc.targets != [] && s.gc.targets[0] == Photo(p)
  }

  /**
   If the upload of p never pauses for longer than the grace period and its id is
   not reused, then when gc removes its directory, and however the run goes on from
   there, p has no row at the removal and at no time after it. What other uploads
   do does not matter.
   */
  lemma RemovedPhotoHasNoRow(es: seq<Event>, rest: seq<Event>, p: Ref)
    requires CanRun(INITIAL, es) && PausesAtMost(GRACE, p, INITIAL, es) && Removes(After(INITIAL, es), p)
    requires CanRun(After(INITIAL, es), rest) && PausesAtMost(GRACE, p, After(INITIAL, es), rest)
    ensures p !in After(After(INITIAL, es), rest).rows
  {
    var s := After(INITIAL, es);
    RunKeeps(GRACE, p, INITIAL, es);
    assert s.gc.targets[0] in s.gc.targets;
    RunKeeps(GRACE, p, s, rest);
  }

  /** A run in which the upload of p pauses for h at most leads from s to t. */
  ghost predicate Paced(h: nat, p: Ref, s: State, t: State) {
    exists es :: CanRun(s, es) && PausesAtMost(h, p, s, es) && After(s, es) == t
  }

  lemma Nowhere(h: nat, p: Ref, s: State)
    ensures Paced(h, p, s, s)
  {
    assert CanRun(s, []) && PausesAtMost(h, p, s, []) && After(s, []) == s;
  }

  /** A step and then a run. */
  lemma First(h: nat, p: Ref, s: State, e: Event, t: State)
    requires Enabled(s, e) && GoesOnWithin(h, p, s, e) && Paced(h, p, Apply(s, e), t)
    ensures Paced(h, p, s, t)
  {
    var es :| CanRun(Apply(s, e), es) && PausesAtMost(h, p, Apply(s, e), es) && After(Apply(s, e), es) == t;
    assert ([e] + es)[1..] == es;
    assert CanRun(s, [e] + es) && PausesAtMost(h, p, s, [e] + es) && After(s, [e] + es) == t;
  }

  /** An upload of p that pauses for h at most can have its directory removed by gc and get its row all the same. */
  ghost predicate CanLoseItsFiles(h: nat, p: Ref) {
    exists s, t :: Paced(h, p, INITIAL, s) && p in s.dirs && Removes(s, p) && Paced(h, p, s, t) && p in t.rows
  }

  /** p's directory is h old, and gc has seen it. */
  lemma OldUploadSeen(h: nat, p: Ref) returns (s: State)
    ensures Paced(h, p, INITIAL, s) && p in s.dirs && s.rows == {} && s.everRow == {}
    ensures p in s.touched && s.clock == s.touched[p] + h
    ensures s.gc == Walking(h, Listing([PhotoDir(p, 0)], [], []))
  {
    var s1 := Apply(INITIAL, Begin(p));
    var s2 := Apply(s1, Tick(h));
    var s3 := Apply(s2, GcNow);
    s := Apply(s3, SeePhoto(p));
    Nowhere(h, p, s);
    First(h, p, s3, SeePhoto(p), s);
    First(h, p, s2, GcNow, s);
    First(h, p, s1, Tick(h), s);
    First(h, p, INITIAL, Begin(p), s);
    assert [] + [PhotoDir(p, 0)] == [PhotoDir(p, 0)];
  }

  lemma {:induction false} PacedOn(h: nat, p: Ref, s: State, es: seq<Event>, t: State, e: Event)
    requires CanRun(s, es) && PausesAtMost(h, p, s, es) && After(s, es) == t && Enabled(t, e) && GoesOnWithin(h, p, t, e)
    ensures Paced(h, p, s, Apply(t, e))
    decreases |es|
  {
    if es == [] {
      Nowhere(h, p, Apply(t, e));
      First(h, p, t, e, Apply(t, e));
    } else {
      PacedOn(h, p, Apply(s, es[0]), es[1..], t, e);
      First(h, p, s, es[0], Apply(t, e));
    }
  }

  lemma SlowUploadLoses(h: nat, p: Ref)
    requires h > GRACE
    ensures CanLoseItsFiles(h, p)
  {
    var s := OldUploadSeen(h, p);
    var es :| CanRun(INITIAL, es) && PausesAtMost(h, p, INITIAL, es) && After(INITIAL, es) == s;
    PacedOn(h, p, INITIAL, es, s, ReadRefs([]));
    var s1 := Apply(s, ReadRefs([]));
    OnlyPhoto(PhotoDir(p, 0), {}, h);
    var s2 := Apply(s1, RemoveNext);
    var s3 := Apply(s2, Insert(p));
    Nowhere(h, p, s3);
    First(h, p, s2, Insert(p), s3);
    First(h, p, s1, RemoveNext, s3);
  }

  /**
   The grace period is exact. An upload that pauses for h at most between the
   changes to its directory and its row can lose its files to gc if and only if h
   is longer than the grace period.
   */
  lemma UploadLostIffSlow(h: nat, p: Ref)
    ensures CanLoseItsFiles(h, p) <==> h > GRACE
  {
    if h > GRACE {
      SlowUploadLoses(h, p);
    } else {
      forall s, t | Paced(h, p, INITIAL, s) && Removes(s, p) && Paced(h, p, s, t) ensures p !in t.rows {
        var es :| CanRun(INITIAL, es) && PausesAtMost(h, p, INITIAL, es) && After(INITIAL, es) == s;
        var rest :| CanRun(s, rest) && PausesAtMost(h, p, s, rest) && After(s, rest) == t;
        RunKeeps(h, p, INITIAL, es);
        assert s.gc.targets[0] in s.gc.targets;
        RunKeeps(h, p, s, rest);
      }
    }
  }

  // ----- album directories seen empty -----

  /** Whatever is in an album directory that was seen empty was made after Walk looked. */
  ghost predicate NewerThanWalk(s: State) {
    && (forall p :: p in s.dirs ==> s.dirs[p].made < s.step)
    && match s.gc
       case Idle => true
       case Walking(_, l) =>
         && (forall d :: d in l.emptyDirs ==> d.step < s.step)
         && forall d, p :: d in l.emptyDirs && p in s.dirs && p.album == d.album ==> s.dirs[p].made > d.step
       case Removing(ts) =>
         && (forall t :: t in ts && t.Album? ==> t.step < s.step)
         && forall t, p :: t in ts && t.Album? && p in s.dirs && p.album == t.album ==> s.dirs[p].made > t.step
  }

  lemma ServerStepKeepsNewer(s: State, e: Event)
    requires NewerThanWalk(s) && Enabled(s, e) && !IsGcStep(e)
    ensures NewerThanWalk(Apply(s, e))
  {
  }

  lemma ReadRefsKeepsNewer(s: State, stale: seq<nat>)
    requires NewerThanWalk(s) && Enabled(s, ReadRefs(stale))
    ensures NewerThanWalk(Apply(s, ReadRefs(stale)))
  {
    forall t | t in Orphans(s.gc.listing, s.rows, s.gc.now) && t.Album?
      ensures exists d :: d in s.gc.listing.emptyDirs && d.album == t.album && d.step == t.step
    {
      OrphansExactly(s.gc.listing, s.rows, s.gc.now, t);
    }
  }

  lemma RemoveNextKeepsNewer(s: State)
    requires NewerThanWalk(s) && Enabled(s, RemoveNext)
    ensures NewerThanWalk(Apply(s, RemoveNext))
  {
    assert forall t :: t in s.gc.targets[1..] ==> t in s.gc.targets;
  }

  lemma StepKeepsNewer(s: State, e: Event)
    requires NewerThanWalk(s) && Enabled(s, e)
    ensures NewerThanWalk(Apply(s, e))
  {
    if !IsGcStep(e) {
      ServerStepKeepsNewer(s, e);
    } else if e.ReadRefs? {
      ReadRefsKeepsNewer(s, e.stale);
    } else if e.RemoveNext? {
      RemoveNextKeepsNewer(s);
    }
  }

  lemma {:induction false} RunKeepsNewer(s: State, es: seq<Event>)
    requires NewerThanWalk(s) && CanRun(s, es)
    ensures NewerThanWalk(After(s, es))
    decreases |es|
  {
    if es != [] {
      StepKeepsNewer(s, es[0]);
      RunKeepsNewer(Apply(s, es[0]), es[1..]);
    }
  }

  /**
   In every run, when gc removes an album directory that Walk saw empty, it takes
   away a photo directory exactly if that one is in the album and was created
   after Walk looked.
   */
  lemma AlbumRemovalTakesExactlyTheNewer(es: seq<Event>, p: Ref)
    requires CanRun(INITIAL, es)
    requires var s := After(INITIAL, es); s.gc.Removing? && s.gc.targets != [] && s.gc.targets[0].Album?
    ensures var s := After(INITIAL, es);
            var t := s.gc.targets[0];
            p in s.dirs && p !in Apply(s, RemoveNext).dirs <==> p in s.dirs && p.album == t.album && s.dirs[p].made > t.step
  {
    RunKeepsNewer(INITIAL, es);
    var s := After(INITIAL, es);
    assert s.gc.targets[0] in s.gc.targets;
  }

  /** Album directories seen empty are still empty. */
  ghost predicate StillEmpty(s: State) {
    forall p :: p in s.dirs ==> !SeenEmpty(s, p.album)
  }

  lemma StepKeepsEmpty(s: State, e: Event)
    requires StillEmpty(s) && Enabled(s, e) && LeavesEmptyAlbums(s, e)
    ensures StillEmpty(Apply(s, e))
  {
    var s' := Apply(s, e);
    forall p | p in s'.dirs ensures !SeenEmpty(s', p.album) {
      if e.ReadRefs? {
        forall t | t in s'.gc.targets && t.Album? && t.album == p.album ensures false {
          OrphansExactly(s.gc.listing, s.rows, s.gc.now, t);
        }
      } else if !e.Begin? && !e.Remake? {
        assert !SeenEmpty(s, p.album);
      }
    }
  }

  lemma {:induction false} RunKeepsEmpty(s: State, es: seq<Event>)
    requires StillEmpty(s) && CanRun(s, es) && AllLeaveEmpty(s, es)
    ensures StillEmpty(After(s, es))
    decreases |es|
  {
    if es != [] {
      StepKeepsEmpty(s, es[0]);
      RunKeepsEmpty(Apply(s, es[0]), es[1..]);
    }
  }

  /** If nothing is committed into an album between Walk and the removal, removing it takes no photo directory. */
  lemma EmptyAlbumRemovalIsHarmless(es: seq<Event>)
    requires CanRun(INITIAL, es) && AllLeaveEmpty(INITIAL, es)
    requires var s := After(INITIAL, es); s.gc.Removing? && s.gc.targets != [] && s.gc.targets[0].Album?
    ensures Apply(After(INITIAL, es), RemoveNext).dirs == After(INITIAL, es).dirs
  {
    RunKeepsEmpty(INITIAL, es);
    var s := After(INITIAL, es);
    assert s.gc.targets[0] in s.gc.targets;
    forall p | p in s.dirs ensures p.album != s.gc.targets[0].album {
      assert !SeenEmpty(s, p.album);
    }
  }

  // ----- and that hypothesis is needed -----

  const A := P.Ref(0, 0)
  const B := P.Ref(0, 1)

  /** A long time after its last photo went, album 0 is empty; Walk sees it, and an upload puts B there. */
  lemma FilledAfterWalk() returns (s: State)
    ensures Paced(GRACE, B, INITIAL, s)
    ensures s.rows == {B} && B in s.dirs && s.gc == Walking(GRACE + 1, Listing([], [], [EmptyDir(0, 0, 4)]))
  {
    var s1 := Apply(INITIAL, Begin(A));
    var s2 := Apply(s1, RemoveDir(A));
    var s3 := Apply(s2, Tick(GRACE + 1));
    var s4 := Apply(s3, GcNow);
    s := FilledAfter(s4);
    First(GRACE, B, s3, GcNow, s);
    First(GRACE, B, s2, Tick(GRACE + 1), s);
    First(GRACE, B, s1, RemoveDir(A), s);
    First(GRACE, B, INITIAL, Begin(A), s);
  }

  lemma FilledAfter(s4: State) returns (s: State)
    requires s4.step == 4 && s4.dirs == map[] && s4.albumDirs == map[0 := 0] && s4.rows == {} && B !in s4.touched && B !in s4.everRow
    requires s4.gc == Walking(GRACE + 1, Listing([], [], []))
    ensures Paced(GRACE, B, s4, s)
    ensures s.rows == {B} && B in s.dirs && s.gc == Walking(GRACE + 1, Listing([], [], [EmptyDir(0, 0, 4)]))
  {
    var s5 := Apply(s4, SeeEmpty(0));
    var s6 := Apply(s5, Begin(B));
    s := Apply(s6, Insert(B));
    assert [] + [EmptyDir(0, 0, 4)] == [EmptyDir(0, 0, 4)];
    Nowhere(GRACE, B, s);
    First(GRACE, B, s6, Insert(B), s);
    First(GRACE, B, s5, Begin(B), s);
    First(GRACE, B, s4, SeeEmpty(0), s);
  }

  /**
   B is uploaded without a pause, and still gc removes its directory although it
   has a row: its album was empty when Walk passed, and RemoveAll does not ask
   again.
   */
  lemma EmptyAlbumRace()
    ensures exists s :: Paced(GRACE, B, INITIAL, s) && Enabled(s, RemoveNext) && B in s.rows && B in s.dirs && B !in Apply(s, RemoveNext).dirs
  {
    var s := FilledAfterWalk();
    var es :| CanRun(INITIAL, es) && PausesAtMost(GRACE, B, INITIAL, es) && After(INITIAL, es) == s;
    PacedOn(GRACE, B, INITIAL, es, s, ReadRefs([]));
    FullAlbumGoes(s);
  }

  lemma FullAlbumGoes(s: State)
    requires s.rows == {B} && B in s.dirs && s.gc == Walking(GRACE + 1, Listing([], [], [EmptyDir(0, 0, 4)]))
    ensures var t := Apply(s, ReadRefs([])); Enabled(t, RemoveNext) && t.rows == s.rows && t.dirs == s.dirs && B !in Apply(t, RemoveNext).dirs
  {
    OnlyAlbum(EmptyDir(0, 0, 4), {B}, GRACE + 1);
    assert B !in DropAlbumDir(s, 0).dirs;
  }
}
