/**
 The photos table, the file tree below photos/, and every process that changes
 them: uploads, deletes, and the background worker that renders the display
 variants. One SQL statement, one rename, one directory creation or one removal
 is one step; the processes interleave between steps in any way.

 `Enabled` and `Apply` say what the code can do. The hypotheses under which a
 theorem holds are stated apart from them, next to the theorem.
 */
module Pipeline {
  import opened Base

  /** A photo, by its album and its own id; the directory photos/<album>/<photo>. */
  datatype Ref = Ref(album: nat, photo: nat)

  datatype Variant = Original | Large | Medium | Small | Thumb | Blur

  /** The variants the worker renders, in the order it renders them. */
  const DEFERRED: seq<Variant> := [Thumb, Large, Medium, Small, Blur]

  const LARGE_LONG_SIDE := 2560

  /** An uploaded file: its content hash and the dimensions read from it. */
  datatype Jpeg = Jpeg(hash: nat, width: nat, height: nat)

  /** What a stored file holds. */
  datatype File = Upload(jpeg: Jpeg) | Rendering(variant: Variant, of: Jpeg)

  type Dir = map<Variant, File>

  datatype Row = Row(lrUuid: nat, hash: nat, width: nat, height: nat, ready: bool)

  /** The file that a row describes. */
  function FileOf(row: Row): Jpeg {
    Jpeg(row.hash, row.width, row.height)
  }

  function LongSide(jpeg: Jpeg): nat {
    if jpeg.width < jpeg.height then jpeg.height else jpeg.width
  }

  /** Large is rendered only for an original bigger than it; the others always. */
  predicate Expected(v: Variant, jpeg: Jpeg) {
    v != Original && (v == Large ==> LongSide(jpeg) > LARGE_LONG_SIDE)
  }

  /** The elements of vs outside ws, in order. */
  function Without(vs: seq<Variant>, ws: set<Variant>): seq<Variant> {
    if vs == [] then []
    else if vs[0] in ws then Without(vs[1..], ws)
    else [vs[0]] + Without(vs[1..], ws)
  }

  lemma EveryVariantDeferred()
    ensures forall v: Variant :: v != Original <==> v in DEFERRED
  {
    assert DEFERRED[0] == Thumb && DEFERRED[1] == Large && DEFERRED[2] == Medium && DEFERRED[3] == Small && DEFERRED[4] == Blur;
  }

  // ----- the processes -----

  /** How far an upload request has come; the stage names the last step taken. */
  datatype Stage = Begun | Hidden | Made | Renamed | Undoing

  datatype Ingest =
    | New(jpeg: Jpeg, lrUuid: nat, stage: Stage)
    | Replace(jpeg: Jpeg, stage: Stage)
    | Metadata(seen: Row)

  /** How far the worker has come with one photo. */
  datatype Phase =
    | Deriving(todo: seq<Variant>, staged: Dir)
    | Committing(staged: Dir, made: Option<Variant>, produced: set<Variant>)
    | Pruning(todo: seq<Variant>)
    | Checking
    | TakingBack

  datatype Job = Job(p: Ref, row: Row, phase: Phase)

  /** The rest of the drain's snapshot, and the photo it is working on. */
  datatype Worker = Worker(queue: map<Ref, Row>, job: Option<Job>)

  datatype State = State(
    albums: set<nat>,
    rows: map<Ref, Row>,
    disk: map<Ref, Dir>,
    used: set<Ref>,                 // history: ids ever given out
    albumsUsed: set<nat>,           // history: album ids ever given out
    ingests: map<Ref, Ingest>,      // at most one upload request per photo
    removals: set<Ref>,             // rows deleted, RemovePhoto outstanding
    albumRemovals: set<nat>,        // album rows deleted, RemoveAlbum outstanding
    worker: Worker)

  const INITIAL := State({}, map[], map[], {}, {}, map[], {}, {}, Worker(map[], None))

  /** Steps of upload requests. */
  datatype UploadStep =
    | BeginNew(jpeg: Jpeg, lrUuid: nat)
    | BeginReplace(jpeg: Jpeg)
    | BeginMetadata
    | Hide              // MarkVariantsPending
    | MakeDir           // Commit: create the photo directory
    | RenameOriginal    // Commit: rename into place
    | Insert            // InsertPhoto
    | InsertFails       // InsertPhoto returns a storage error, or the request is cancelled
    | Update            // UpdatePhoto
    | Undo              // RemovePhoto after a failed insert
    | Abandon           // the request ends here: cancelled, or an error

  /** Steps that create or delete albums and photos, and the end of the process. */
  datatype AdminStep =
    | CreateAlbum(album: nat)
    | DeleteRow(p: Ref)
    | RemoveFiles(p: Ref)
    | DeleteAlbums(gone: set<nat>)
    | RemoveAlbumFiles(album: nat)
    | LeaveFiles(p: Ref)            // RemovePhoto fails, which is only logged
    | LeaveAlbumFiles(album: nat)   // RemoveAlbum fails, which is only logged
    | Restart

  /** Steps of the background worker. */
  datatype WorkStep =
    | List
    | Skip(p: Ref)
    | Take(p: Ref)
    | DeriveNext
    | MakeVariantDir(v: Variant)
    | RenameVariant
    | PruneNext
    | Mark              // MarkVariantsReady
    | CheckGone         // photoGone
    | TakeBack          // RemovePhoto by the worker
    | Fail              // generate returns an error here

  datatype Event =
    | Uploading(p: Ref, upload: UploadStep)
    | Administering(admin: AdminStep)
    | Working(work: WorkStep)

  predicate IngestAt(s: State, p: Ref, stages: set<Stage>) {
    p in s.ingests && !s.ingests[p].Metadata? && s.ingests[p].stage in stages
  }

  predicate CanUpload(s: State, p: Ref, e: UploadStep) {
    match e
    case BeginNew(_, _) => p !in s.used && p.album in s.albumsUsed
    case BeginReplace(_) => p in s.rows && p !in s.ingests
    case BeginMetadata => p in s.rows && p !in s.ingests
    case Hide => IngestAt(s, p, {Begun}) && s.ingests[p].Replace?
    case MakeDir => IngestAt(s, p, {Begun, Hidden}) && (s.ingests[p].New? <==> s.ingests[p].stage == Begun)
    case RenameOriginal => IngestAt(s, p, {Made})
    case Insert => IngestAt(s, p, {Renamed}) && s.ingests[p].New?
    case InsertFails => IngestAt(s, p, {Renamed}) && s.ingests[p].New?
    case Update => p in s.ingests && (s.ingests[p].Metadata? || (s.ingests[p].Replace? && s.ingests[p].stage == Renamed))
    case Undo => IngestAt(s, p, {Undoing}) && s.ingests[p].New?
    case Abandon => p in s.ingests
  }

  predicate CanAdminister(s: State, e: AdminStep) {
    match e
    case CreateAlbum(a) => a !in s.albumsUsed
    case DeleteRow(p) => p in s.rows
    case RemoveFiles(p) => p in s.removals
    case DeleteAlbums(gone) => gone <= s.albumsUsed
    case RemoveAlbumFiles(a) => a in s.albumRemovals
    case LeaveFiles(p) => p in s.removals
    case LeaveAlbumFiles(a) => a in s.albumRemovals
    case Restart => true
  }

  predicate CanWork(w: Worker, e: WorkStep) {
    match e
    case List => w == Worker(map[], None)
    case Skip(p) => p in w.queue && w.job.None?
    case Take(p) => p in w.queue && w.job.None?
    case DeriveNext => w.job.Some? && w.job.value.phase.Deriving? && w.job.value.phase.todo != []
    case MakeVariantDir(v) =>
      w.job.Some? && w.job.value.phase.Committing? && w.job.value.phase.made.None? && v in w.job.value.phase.staged
    case RenameVariant =>
      w.job.Some? && w.job.value.phase.Committing? && w.job.value.phase.made.Some?
      && w.job.value.phase.made.value in w.job.value.phase.staged
    case PruneNext => w.job.Some? && w.job.value.phase.Pruning? && w.job.value.phase.todo != []
    case Mark => w.job.Some? && w.job.value.phase == Pruning([])
    case CheckGone => w.job.Some? && w.job.value.phase.Checking?
    case TakeBack => w.job.Some? && w.job.value.phase.TakingBack?
    case Fail => w.job.Some?
  }

  /** The code can take step e in s. */
  predicate Enabled(s: State, e: Event) {
    match e
    case Uploading(p, u) => CanUpload(s, p, u)
    case Administering(a) => CanAdminister(s, a)
    case Working(w) => CanWork(s.worker, w)
  }

  function Put(disk: map<Ref, Dir>, p: Ref, v: Variant, f: File): map<Ref, Dir>
    requires p in disk
  {
    disk[p := disk[p][v := f]]
  }

  function MkdirAll(disk: map<Ref, Dir>, p: Ref): map<Ref, Dir> {
    if p in disk then disk else disk[p := map[]]
  }

  function WithoutAlbums(disk: map<Ref, Dir>, gone: set<nat>): map<Ref, Dir> {
    map p | p in disk && p.album !in gone :: disk[p]
  }

  function RowsWithoutAlbums(rows: map<Ref, Row>, gone: set<nat>): map<Ref, Row> {
    map p | p in rows && p.album !in gone :: rows[p]
  }

  /** Every row whose variants have not been generated yet. */
  function Pending(rows: map<Ref, Row>): map<Ref, Row> {
    map p | p in rows && !rows[p].ready :: rows[p]
  }

  /** The UNIQUE (album_id, lr_photo_uuid) constraint would be broken. */
  predicate LrUuidTaken(rows: map<Ref, Row>, album: nat, lrUuid: nat) {
    exists q :: q in rows && q.album == album && rows[q].lrUuid == lrUuid
  }

  function ApplyUpload(s: State, p: Ref, e: UploadStep): State
    requires CanUpload(s, p, e)
  {
    match e
    case BeginNew(jpeg, lr) =>
      s.(ingests := s.ingests[p := New(jpeg, lr, Begun)], used := s.used + {p})
    case BeginReplace(jpeg) =>
      s.(ingests := s.ingests[p := Replace(jpeg, Begun)])
    case BeginMetadata =>
      s.(ingests := s.ingests[p := Metadata(s.rows[p])])
    case Hide =>
      if p in s.rows
      then s.(rows := s.rows[p := s.rows[p].(ready := false)], ingests := s.ingests[p := Replace(s.ingests[p].jpeg, Hidden)])
      else s.(ingests := s.ingests - {p})
    case MakeDir =>
      s.(disk := MkdirAll(s.disk, p), ingests := s.ingests[p := s.ingests[p].(stage := Made)])
    case RenameOriginal =>
      if p in s.disk
      then s.(disk := Put(s.disk, p, Original, Upload(s.ingests[p].jpeg)), ingests := s.ingests[p := s.ingests[p].(stage := Renamed)])
      else s.(ingests := s.ingests - {p})
    case Insert =>
      var n := s.ingests[p];
      if p !in s.rows && p.album in s.albums && !LrUuidTaken(s.rows, p.album, n.lrUuid)
      then s.(rows := s.rows[p := Row(n.lrUuid, n.jpeg.hash, n.jpeg.width, n.jpeg.height, false)], ingests := s.ingests - {p})
      else s.(ingests := s.ingests[p := New(n.jpeg, n.lrUuid, Undoing)])
    case InsertFails =>
      var n := s.ingests[p];
      s.(ingests := s.ingests[p := New(n.jpeg, n.lrUuid, Undoing)])
    case Update =>
      var i := s.ingests[p];
      var s' := s.(ingests := s.ingests - {p});
      if p !in s.rows then s'
      else if i.Metadata?
      then s'.(rows := s.rows[p := s.rows[p].(hash := i.seen.hash, width := i.seen.width, height := i.seen.height)])
      else s'.(rows := s.rows[p := s.rows[p].(hash := i.jpeg.hash, width := i.jpeg.width, height := i.jpeg.height)])
    case Undo =>
      s.(disk := s.disk - {p}, ingests := s.ingests - {p})
    case Abandon =>
      s.(ingests := s.ingests - {p})
  }

  function ApplyAdmin(s: State, e: AdminStep): State
    requires CanAdminister(s, e)
  {
    match e
    case CreateAlbum(a) => s.(albums := s.albums + {a}, albumsUsed := s.albumsUsed + {a})
    case DeleteRow(p) => s.(rows := s.rows - {p}, removals := s.removals + {p})
    case RemoveFiles(p) => s.(disk := s.disk - {p}, removals := s.removals - {p})
    case DeleteAlbums(gone) =>
      s.(albums := s.albums - gone, rows := RowsWithoutAlbums(s.rows, gone), albumRemovals := s.albumRemovals + gone)
    case RemoveAlbumFiles(a) =>
      s.(disk := WithoutAlbums(s.disk, {a}), albumRemovals := s.albumRemovals - {a})
    case LeaveFiles(p) => s.(removals := s.removals - {p})
    case LeaveAlbumFiles(a) => s.(albumRemovals := s.albumRemovals - {a})
    case Restart =>
      s.(ingests := map[], removals := {}, albumRemovals := {}, worker := Worker(map[], None))
  }

  function SetPhase(s: State, ph: Phase): State
    requires s.worker.job.Some?
  {
    s.(worker := s.worker.(job := Some(s.worker.job.value.(phase := ph))))
  }

  function EndJob(s: State): State {
    s.(worker := s.worker.(job := None))
  }

  /** The phase after one more variant has been dealt with. */
  function AfterDerive(todo: seq<Variant>, staged: Dir): Phase {
    if todo != [] then Deriving(todo, staged)
    else if staged != map[] then Committing(staged, None, staged.Keys)
    else Pruning(Without(DEFERRED, {}))
  }

  function AfterRename(staged: Dir, produced: set<Variant>): Phase {
    if staged != map[] then Committing(staged, None, produced) else Pruning(Without(DEFERRED, produced))
  }

  /** The original stored for p, if there is one. */
  function Stored(disk: map<Ref, Dir>, p: Ref): Option<Jpeg> {
    if p in disk && Original in disk[p] && disk[p][Original].Upload? then Some(disk[p][Original].jpeg) else None
  }

  function DeriveStep(s: State): State
    requires CanWork(s.worker, DeriveNext)
  {
    var j := s.worker.job.value;
    var v := j.phase.todo[0];
    var original := Stored(s.disk, j.p);
    if !Expected(v, FileOf(j.row)) then SetPhase(s, AfterDerive(j.phase.todo[1..], j.phase.staged))
    else if original.Some?
    then SetPhase(s, AfterDerive(j.phase.todo[1..], j.phase.staged[v := Rendering(v, original.value)]))
    else EndJob(s) // derive failed; whether the photo is gone or not, nothing was committed
  }

  function MakeVariantDirStep(s: State, v: Variant): State
    requires CanWork(s.worker, MakeVariantDir(v))
  {
    var j := s.worker.job.value;
    SetPhase(s.(disk := MkdirAll(s.disk, j.p)), Committing(j.phase.staged, Some(v), j.phase.produced))
  }

  function RenameVariantStep(s: State): State
    requires CanWork(s.worker, RenameVariant)
  {
    var j := s.worker.job.value;
    var v := j.phase.made.value;
    if j.p in s.disk
    then SetPhase(s.(disk := Put(s.disk, j.p, v, j.phase.staged[v])), AfterRename(j.phase.staged - {v}, j.phase.produced))
    else EndJob(s) // rename failed: the directory was removed underneath
  }

  function RemoveVariant(disk: map<Ref, Dir>, p: Ref, v: Variant): map<Ref, Dir> {
    if p in disk then disk[p := disk[p] - {v}] else disk
  }

  function PruneStep(s: State): State
    requires CanWork(s.worker, PruneNext)
  {
    var j := s.worker.job.value;
    SetPhase(s.(disk := RemoveVariant(s.disk, j.p, j.phase.todo[0])), Pruning(j.phase.todo[1..]))
  }

  function MarkStep(s: State): State
    requires CanWork(s.worker, Mark)
  {
    var j := s.worker.job.value;
    if j.p in s.rows && s.rows[j.p].hash == j.row.hash
    then EndJob(s.(rows := s.rows[j.p := s.rows[j.p].(ready := true)]))
    else SetPhase(s, Checking)
  }

  function ApplyWork(s: State, e: WorkStep): State
    requires CanWork(s.worker, e)
  {
    match e
    case List => s.(worker := Worker(Pending(s.rows), None))
    case Skip(p) => s.(worker := Worker(s.worker.queue - {p}, None))
    case Take(p) => s.(worker := Worker(s.worker.queue - {p}, Some(Job(p, s.worker.queue[p], Deriving(DEFERRED, map[])))))
    case DeriveNext => DeriveStep(s)
    case MakeVariantDir(v) => MakeVariantDirStep(s, v)
    case RenameVariant => RenameVariantStep(s)
    case PruneNext => PruneStep(s)
    case Mark => MarkStep(s)
    case CheckGone =>
      if s.worker.job.value.p in s.rows then EndJob(s) else SetPhase(s, TakingBack)
    case TakeBack =>
      EndJob(s.(disk := s.disk - {s.worker.job.value.p}))
    case Fail => EndJob(s)
  }

  function Apply(s: State, e: Event): State
    requires Enabled(s, e)
  {
    match e
    case Uploading(p, u) => ApplyUpload(s, p, u)
    case Administering(a) => ApplyAdmin(s, a)
    case Working(w) => ApplyWork(s, w)
  }

  /** The events es can happen one after the other, starting in s. */
  predicate CanRun(s: State, es: seq<Event>)
    decreases |es|
  {
    es == [] || (Enabled(s, es[0]) && CanRun(Apply(s, es[0]), es[1..]))
  }

  /** The state that a run ends in. */
  function After(s: State, es: seq<Event>): State
    requires CanRun(s, es)
    decreases |es|
  {
    if es == [] then s else After(Apply(s, es[0]), es[1..])
  }

  /** What a visitor is given: the stored file, with large falling back to the original. */
  function Serve(s: State, p: Ref, v: Variant): Option<File> {
    if p !in s.rows || !s.rows[p].ready then None
    else if p !in s.disk then None
    else
      var w := if v == Large && v !in s.disk[p] then Original else v;
      if w in s.disk[p] then Some(s.disk[p][w]) else None
  }
}
