/**
 A photo that visitors can see is whole: its row, its original and its variants
 agree, in every interleaving of uploads, deletes, restarts and the worker that
 keeps to three hypotheses about that photo.
 */
module PipelineReady {
  import opened Base
  import opened Pipeline

  predicate JobAt(s: State, p: Ref) {
    s.worker.job.Some? && s.worker.job.value.p == p
  }

  /** A replacement has hidden the row and not yet rewritten it. */
  predicate Replacing(s: State, p: Ref) {
    p in s.ingests && s.ingests[p].Replace? && s.ingests[p].stage in {Hidden, Made, Renamed}
  }

  predicate ReplaceCommitted(s: State, p: Ref) {
    p in s.ingests && s.ingests[p].Replace? && s.ingests[p].stage == Renamed
  }

  /** The stored original is already another file than the row's. */
  predicate Ahead(s: State, p: Ref) {
    ReplaceCommitted(s, p) && p in s.rows && s.ingests[p].jpeg != FileOf(s.rows[p])
  }

  /** MarkVariantsReady would match the row of the worker's photo. */
  predicate MarkMatches(s: State) {
    && s.worker.job.Some? && s.worker.job.value.p in s.rows
    && s.rows[s.worker.job.value.p].hash == s.worker.job.value.row.hash
  }

  // ----- what a directory and a job hold -----

  ghost predicate OriginalIs(d: Dir, jpeg: Jpeg) {
    Original in d && d[Original] == Upload(jpeg)
  }

  ghost predicate Rendered(d: Dir, v: Variant, jpeg: Jpeg) {
    v in d && d[v] == Rendering(v, jpeg)
  }

  /** d holds jpeg and exactly the variants expected of it, all rendered from it. */
  ghost predicate Whole(d: Dir, jpeg: Jpeg) {
    && OriginalIs(d, jpeg)
    && forall v :: v != Original ==> if Expected(v, jpeg) then Rendered(d, v, jpeg) else v !in d
  }

  /** A photo that visitors can see and that is not whole. */
  ghost predicate Torn(s: State, p: Ref) {
    p in s.rows && s.rows[p].ready && !(p in s.disk && Whole(s.disk[p], FileOf(s.rows[p])))
  }

  /** What the job has rendered so far is of jpeg, and with it d will hold the variants of jpeg. */
  ghost predicate Fresh(j: Job, d: Dir, jpeg: Jpeg) {
    match j.phase
    case Deriving(todo, staged) => forall v :: v in staged ==> Rendered(staged, v, jpeg)
    case Committing(staged, made, produced) =>
      && (forall v :: v in staged ==> Rendered(staged, v, jpeg))
      && forall v :: v in produced && v !in staged ==> Rendered(d, v, jpeg)
    case Pruning(todo) =>
      forall v :: v != Original ==> if Expected(v, jpeg) then Rendered(d, v, jpeg) else v !in d || v in todo
    case Checking => true
    case TakingBack => true
  }

  /** The job at p is past rendering, and all it rendered is of jpeg; or it will not mark the row any more. */
  ghost predicate Harmless(j: Job, disk: map<Ref, Dir>, jpeg: Jpeg) {
    match j.phase
    case Deriving(_, _) => false
    case Committing(_, _, _) => j.p in disk && Fresh(j, disk[j.p], jpeg)
    case Pruning(_) => j.p in disk && Fresh(j, disk[j.p], jpeg)
    case Checking => true
    case TakingBack => true
  }

  // ----- the hypotheses, for one photo -----

  /** The worker holds the hash of jpeg for p and would mark it over renderings of the stored file. */
  ghost predicate HeldByWorker(s: State, p: Ref, jpeg: Jpeg) {
    || (p in s.worker.queue && s.worker.queue[p].hash == jpeg.hash)
    || (JobAt(s, p) && s.worker.job.value.row.hash == jpeg.hash && !Harmless(s.worker.job.value, s.disk, jpeg))
  }

  /**
   A file that comes back, after another one took its place, does not come back
   while the worker still holds a snapshot of its first time.
   */
  ghost predicate NoReturnBehindWorker(s: State, p: Ref, e: Event) {
    e.Uploading? && e.p == p && e.upload.BeginReplace? && p in s.rows && s.rows[p].hash != e.upload.jpeg.hash ==>
      !HeldByWorker(s, p, e.upload.jpeg)
  }

  /** A replacement by another file whose file is in place goes on to rewrite the row. */
  ghost predicate CommitReachesRow(s: State, p: Ref, e: Event) {
    e == Uploading(p, Abandon) || e == Administering(Restart) ==> !Ahead(s, p)
  }

  /**
   MarkVariantsReady does not take effect between a replacement's
   MarkVariantsPending and its UpdatePhoto, unless the file stays the same.
   */
  ghost predicate NoMarkWhileReplacing(s: State, p: Ref, e: Event) {
    e == Working(Mark) && JobAt(s, p) && MarkMatches(s) && Replacing(s, p) ==> s.ingests[p].jpeg == FileOf(s.rows[p])
  }

  datatype Hypothesis = NoReturns | CommitsReachRows | NoMarkInside

  ghost predicate Holds(h: Hypothesis, s: State, p: Ref, e: Event) {
    match h
    case NoReturns => NoReturnBehindWorker(s, p, e)
    case CommitsReachRows => CommitReachesRow(s, p, e)
    case NoMarkInside => NoMarkWhileReplacing(s, p, e)
  }

  const ALL: set<Hypothesis> := {NoReturns, CommitsReachRows, NoMarkInside}

  ghost predicate HoldAll(hs: set<Hypothesis>, s: State, p: Ref, e: Event) {
    forall h :: h in hs ==> Holds(h, s, p, e)
  }

  ghost predicate Hyp(s: State, p: Ref, e: Event) {
    NoReturnBehindWorker(s, p, e) && CommitReachesRow(s, p, e) && NoMarkWhileReplacing(s, p, e)
  }

  lemma HypIsAll(s: State, p: Ref, e: Event)
    ensures Hyp(s, p, e) <==> HoldAll(ALL, s, p, e)
  {
    assert NoReturns in ALL && CommitsReachRows in ALL && NoMarkInside in ALL;
    assert HoldAll(ALL, s, p, e) ==> Holds(NoReturns, s, p, e) && Holds(CommitsReachRows, s, p, e) && Holds(NoMarkInside, s, p, e);
  }

  /** What a content hash is for: where the table or the worker has the hash of jpeg for p, it is for jpeg. */
  ghost predicate HashNamesFile(s: State, p: Ref, jpeg: Jpeg) {
    && (p in s.rows && s.rows[p].hash == jpeg.hash ==> FileOf(s.rows[p]) == jpeg)
    && (p in s.worker.queue && s.worker.queue[p].hash == jpeg.hash ==> FileOf(s.worker.queue[p]) == jpeg)
    && (JobAt(s, p) && s.worker.job.value.row.hash == jpeg.hash ==> FileOf(s.worker.job.value.row) == jpeg)
  }

  ghost predicate HashesNameFiles(s: State, p: Ref, e: Event) {
    e.Uploading? && e.p == p && e.upload.BeginReplace? ==> HashNamesFile(s, p, e.upload.jpeg)
  }

  /** Every step of the run keeps to the hypotheses hs for p. */
  ghost predicate KeepsTo(hs: set<Hypothesis>, p: Ref, s: State, es: seq<Event>)
    requires CanRun(s, es)
    decreases |es|
  {
    es == [] || (HashesNameFiles(s, p, es[0]) && HoldAll(hs, s, p, es[0]) && KeepsTo(hs, p, Apply(s, es[0]), es[1..]))
  }

  // ----- the invariant -----

  ghost predicate SameFile(a: Row, b: Row) {
    a.hash == b.hash ==> FileOf(a) == FileOf(b)
  }

  ghost predicate GoodIds(s: State, p: Ref) {
    && (p in s.rows ==> p in s.used && p.album in s.albums)
    && (p in s.ingests ==> p in s.used && p.album in s.albumsUsed)
    && (p in s.ingests && s.ingests[p].New? ==> p !in s.rows && p !in s.worker.queue && !JobAt(s, p))
    && (p in s.removals ==> p in s.used && p !in s.rows && (p in s.ingests ==> !s.ingests[p].New?))
    && (p in s.worker.queue ==> p in s.used)
  }

  /** Once a new upload has its file in place, it stays there until the row is inserted, unless the album goes. */
  ghost predicate GoodNew(s: State, p: Ref) {
    p in s.ingests && s.ingests[p].New? && s.ingests[p].stage == Renamed && p.album in s.albums ==>
      p in s.disk && OriginalIs(s.disk[p], s.ingests[p].jpeg)
  }

  ghost predicate GoodReplace(s: State, p: Ref) {
    && (p in s.ingests && s.ingests[p].Replace? ==>
          && HashNamesFile(s, p, s.ingests[p].jpeg)
          && (p in s.rows && s.rows[p].hash != s.ingests[p].jpeg.hash ==> !HeldByWorker(s, p, s.ingests[p].jpeg)))
    && (p in s.ingests && s.ingests[p].Metadata? && p in s.rows ==>
          FileOf(s.ingests[p].seen) == FileOf(s.rows[p]))
    && (p in s.rows && Replacing(s, p) && s.ingests[p].jpeg != FileOf(s.rows[p]) ==> !s.rows[p].ready)
  }

  ghost predicate GoodFiles(s: State, p: Ref) {
    p in s.rows ==>
      && p in s.disk
      && OriginalIs(s.disk[p], if ReplaceCommitted(s, p) then s.ingests[p].jpeg else FileOf(s.rows[p]))
      && (s.rows[p].ready ==> Whole(s.disk[p], FileOf(s.rows[p])))
  }

  ghost predicate GoodQueue(s: State, p: Ref) {
    p in s.worker.queue && p in s.rows ==> !s.rows[p].ready && SameFile(s.worker.queue[p], s.rows[p])
  }

  /** What the phase of a job says by itself. */
  ghost predicate Shape(j: Job) {
    match j.phase
    case Deriving(todo, staged) =>
      && 0 < |todo| <= |DEFERRED| && todo == DEFERRED[|DEFERRED| - |todo|..]
      && forall v :: v in staged <==> v in DEFERRED[..|DEFERRED| - |todo|] && Expected(v, FileOf(j.row))
    case Committing(staged, made, produced) =>
      && staged != map[] && staged.Keys <= produced && (made.Some? ==> made.value in staged)
      && forall v :: v in produced <==> Expected(v, FileOf(j.row))
    case Pruning(todo) => forall v :: v in todo ==> v != Original && !Expected(v, FileOf(j.row))
    case Checking => true
    case TakingBack => true
  }

  ghost predicate GoodJob(s: State, p: Ref) {
    JobAt(s, p) ==>
      var j := s.worker.job.value;
      && p in s.used && p !in s.worker.queue
      && Shape(j)
      && (j.phase.TakingBack? ==> p !in s.rows)
      && (p in s.rows ==> !s.rows[p].ready && SameFile(j.row, s.rows[p]))
      && (p in s.rows && j.row.hash == s.rows[p].hash && !Ahead(s, p) ==>
            p in s.disk && Fresh(j, s.disk[p], FileOf(s.rows[p])))
  }

  ghost predicate Good(s: State, p: Ref) {
    && GoodIds(s, p) && GoodNew(s, p) && GoodReplace(s, p) && GoodFiles(s, p) && GoodQueue(s, p) && GoodJob(s, p)
  }

  ghost predicate GoodAlbums(s: State) {
    s.albums <= s.albumsUsed && s.albumRemovals <= s.albumsUsed && s.albums !! s.albumRemovals
  }

  ghost predicate Inv(s: State, p: Ref) {
    GoodAlbums(s) && Good(s, p)
  }

  // ----- every step keeps the invariant -----

  /** Nothing that Good(s, q) speaks of differs between s and s', the worker apart. */
  ghost predicate SameAt(s: State, s': State, q: Ref) {
    && (q in s.rows <==> q in s'.rows) && (q in s.rows ==> s.rows[q] == s'.rows[q])
    && (q in s.disk <==> q in s'.disk) && (q in s.disk ==> s.disk[q] == s'.disk[q])
    && (q in s.used <==> q in s'.used)
    && (q in s.ingests <==> q in s'.ingests) && (q in s.ingests ==> s.ingests[q] == s'.ingests[q])
    && s.albums == s'.albums && s.albumsUsed == s'.albumsUsed && s.removals == s'.removals
  }

  lemma SameIsGood(s: State, s': State, q: Ref)
    requires Good(s, q) && SameAt(s, s', q) && s'.worker == s.worker
    ensures Good(s', q)
  {
  }

  lemma UploadTouchesOne(s: State, p: Ref, u: UploadStep, q: Ref)
    requires CanUpload(s, p, u) && q != p
    ensures SameAt(s, ApplyUpload(s, p, u), q) && ApplyUpload(s, p, u).worker == s.worker
  {
    var s' := ApplyUpload(s, p, u);
    assert s'.(rows := s.rows, disk := s.disk, used := s.used, ingests := s.ingests) == s;
  }

  lemma BeginKeeps(s: State, p: Ref, u: UploadStep)
    requires Inv(s, p) && CanUpload(s, p, u) && Hyp(s, p, Uploading(p, u)) && HashesNameFiles(s, p, Uploading(p, u))
    requires u.BeginNew? || u.BeginReplace? || u.BeginMetadata? || u.Abandon?
    ensures Good(ApplyUpload(s, p, u), p)
  {
  }

  lemma HideKeeps(s: State, p: Ref)
    requires Inv(s, p) && CanUpload(s, p, Hide)
    ensures Good(ApplyUpload(s, p, Hide), p)
  {
  }

  lemma MakeDirKeeps(s: State, p: Ref)
    requires Inv(s, p) && CanUpload(s, p, MakeDir)
    ensures Good(ApplyUpload(s, p, MakeDir), p)
  {
  }

  /** The original is none of a job's business once it has rendered from it. */
  lemma OriginalApart(j: Job, disk: map<Ref, Dir>, jpeg: Jpeg, f: File)
    requires j.p in disk && Shape(j)
    ensures Fresh(j, disk[j.p], jpeg) ==> Fresh(j, disk[j.p][Original := f], jpeg)
    ensures Harmless(j, disk, jpeg) ==> Harmless(j, Put(disk, j.p, Original, f), jpeg)
  {
  }

  lemma RenameOriginalKeeps(s: State, p: Ref)
    requires Inv(s, p) && CanUpload(s, p, RenameOriginal)
    ensures Good(ApplyUpload(s, p, RenameOriginal), p)
  {
    if p in s.disk {
      var s' := ApplyUpload(s, p, RenameOriginal);
      assert OriginalIs(s'.disk[p], s.ingests[p].jpeg);
      if JobAt(s, p) {
        OriginalApart(s.worker.job.value, s.disk, s.ingests[p].jpeg, Upload(s.ingests[p].jpeg));
        if p in s.rows { OriginalApart(s.worker.job.value, s.disk, FileOf(s.rows[p]), Upload(s.ingests[p].jpeg)); }
      }
    }
  }

  lemma InsertKeeps(s: State, p: Ref, u: UploadStep)
    requires Inv(s, p) && CanUpload(s, p, u) && (u.Insert? || u.InsertFails? || u.Undo?)
    ensures Good(ApplyUpload(s, p, u), p)
  {
    var s' := ApplyUpload(s, p, u);
    if p in s'.rows {
      assert FileOf(s'.rows[p]) == s.ingests[p].jpeg;
    }
  }

  lemma UpdateKeeps(s: State, p: Ref)
    requires Inv(s, p) && CanUpload(s, p, Update)
    ensures Good(ApplyUpload(s, p, Update), p)
  {
  }

  lemma UploadKeeps(s: State, p: Ref, u: UploadStep, q: Ref)
    requires Inv(s, q) && CanUpload(s, p, u) && Hyp(s, q, Uploading(p, u)) && HashesNameFiles(s, q, Uploading(p, u))
    ensures Inv(ApplyUpload(s, p, u), q)
  {
    if q != p {
      UploadTouchesOne(s, p, u, q);
      SameIsGood(s, ApplyUpload(s, p, u), q);
    } else {
      match u
      case BeginNew(_, _) => BeginKeeps(s, p, u);
      case BeginReplace(_) => BeginKeeps(s, p, u);
      case BeginMetadata => BeginKeeps(s, p, u);
      case Abandon => BeginKeeps(s, p, u);
      case Hide => HideKeeps(s, p);
      case MakeDir => MakeDirKeeps(s, p);
      case RenameOriginal => RenameOriginalKeeps(s, p);
      case Insert => InsertKeeps(s, p, u);
      case InsertFails => InsertKeeps(s, p, u);
      case Undo => InsertKeeps(s, p, u);
      case Update => UpdateKeeps(s, p);
    }
  }

  lemma DeleteKeeps(s: State, e: AdminStep, p: Ref)
    requires Inv(s, p) && CanAdminister(s, e) && (e.DeleteAlbums? || e.RemoveAlbumFiles?)
    ensures Inv(ApplyAdmin(s, e), p)
  {
  }

  lemma AdminKeeps(s: State, e: AdminStep, p: Ref)
    requires Inv(s, p) && CanAdminister(s, e) && Hyp(s, p, Administering(e))
    ensures Inv(ApplyAdmin(s, e), p)
  {
    if e.DeleteAlbums? || e.RemoveAlbumFiles? { DeleteKeeps(s, e, p); }
  }

  lemma WithoutContents(vs: seq<Variant>, ws: set<Variant>)
    ensures forall v :: v in Without(vs, ws) <==> v in vs && v !in ws
  {
  }

  /** The worker still has the same queue and no photo that it did not have. */
  ghost predicate SameWork(w: Worker, w': Worker) {
    w'.queue == w.queue && (w'.job.Some? ==> w.job.Some? && w'.job.value.p == w.job.value.p)
  }

  /** Nothing that Good(s, q) speaks of differs, where the worker is busy with another photo before and after. */
  lemma JobElsewhere(s: State, s': State, q: Ref)
    requires Good(s, q) && SameAt(s, s', q)
    requires SameWork(s.worker, s'.worker) && !JobAt(s, q)
    ensures Good(s', q)
  {
  }

  lemma AllDerived(staged: Dir, jpeg: Jpeg)
    requires forall v :: v in staged <==> v in DEFERRED && Expected(v, jpeg)
    ensures staged != map[] && forall v :: v in staged.Keys <==> Expected(v, jpeg)
  {
    EveryVariantDeferred();
    assert Thumb in staged;
  }

  /** One more variant of DEFERRED dealt with: the shape of what follows. */
  lemma DeriveShape(j: Job, staged: Dir)
    requires Shape(j) && j.phase.Deriving? && j.phase.todo != []
    requires var v := j.phase.todo[0];
             staged.Keys == if Expected(v, FileOf(j.row)) then j.phase.staged.Keys + {v} else j.phase.staged.Keys
    ensures Shape(j.(phase := AfterDerive(j.phase.todo[1..], staged)))
    ensures !AfterDerive(j.phase.todo[1..], staged).Pruning?
  {
    var k := |DEFERRED| - |j.phase.todo|;
    assert j.phase.todo[1..] == DEFERRED[k + 1..];
    assert DEFERRED[..k + 1] == DEFERRED[..k] + [DEFERRED[k]];
    assert forall v :: v in staged <==> v in DEFERRED[..k + 1] && Expected(v, FileOf(j.row)) by {
      assert forall v :: v in staged <==> v in staged.Keys;
    }
    if k + 1 == |DEFERRED| {
      assert DEFERRED[..k + 1] == DEFERRED;
      AllDerived(staged, FileOf(j.row));
    }
  }

  lemma DeriveFresh(j: Job, staged: Dir, d: Dir, jpeg: Jpeg)
    requires Shape(j) && j.phase.Deriving? && j.phase.todo != [] && Fresh(j, d, jpeg)
    requires forall v :: v in staged && (v !in j.phase.staged || staged[v] != j.phase.staged[v]) ==> Rendered(staged, v, jpeg)
    requires !AfterDerive(j.phase.todo[1..], staged).Pruning?
    ensures Fresh(j.(phase := AfterDerive(j.phase.todo[1..], staged)), d, jpeg)
  {
    forall v | v in staged ensures Rendered(staged, v, jpeg) {
      if v in j.phase.staged {
        assert Rendered(j.phase.staged, v, jpeg);
      }
    }
  }

  /** A step at p that changes the job's phase and p's directory, but not the original in it. */
  lemma JobStepKeeps(s: State, p: Ref, ph: Phase, disk: map<Ref, Dir>)
    requires Good(s, p) && JobAt(s, p) && Shape(s.worker.job.value.(phase := ph)) && !ph.TakingBack?
    requires p in s.rows ==> p in disk && Original in disk[p] && disk[p][Original] == s.disk[p][Original]
    requires p in s.rows && s.worker.job.value.row.hash == s.rows[p].hash && !Ahead(s, p) ==>
               Fresh(s.worker.job.value.(phase := ph), disk[p], FileOf(s.rows[p]))
    requires forall jpeg :: p in s.rows && FileOf(s.worker.job.value.row) == jpeg && Harmless(s.worker.job.value, s.disk, jpeg) ==>
               Harmless(s.worker.job.value.(phase := ph), disk, jpeg)
    ensures Good(SetPhase(s.(disk := disk), ph), p)
  {
    var s' := SetPhase(s.(disk := disk), ph);
    assert s'.ingests == s.ingests && s'.rows == s.rows && s'.worker.queue == s.worker.queue;
    assert p !in s.ingests || !s.ingests[p].New?;
    if p in s.ingests && s.ingests[p].Replace? && p in s.rows && s.rows[p].hash != s.ingests[p].jpeg.hash
      && s.worker.job.value.row.hash == s.ingests[p].jpeg.hash
    {
      assert FileOf(s.worker.job.value.row) == s.ingests[p].jpeg;
      assert Harmless(s.worker.job.value, s.disk, s.ingests[p].jpeg);
    }
  }

  lemma DeriveKeeps(s: State, p: Ref)
    requires Inv(s, p) && CanWork(s.worker, DeriveNext) && JobAt(s, p)
    ensures Good(DeriveStep(s), p)
  {
    var j := s.worker.job.value;
    var v := j.phase.todo[0];
    var original := Stored(s.disk, p);
    if !Expected(v, FileOf(j.row)) || original.Some? {
      var staged := if Expected(v, FileOf(j.row)) then j.phase.staged[v := Rendering(v, original.value)] else j.phase.staged;
      DeriveShape(j, staged);
      if p in s.rows && j.row.hash == s.rows[p].hash && !Ahead(s, p) {
        DeriveFresh(j, staged, s.disk[p], FileOf(s.rows[p]));
      }
      JobStepKeeps(s, p, AfterDerive(j.phase.todo[1..], staged), s.disk);
    }
  }

  lemma MakeVariantDirKeeps(s: State, v: Variant, p: Ref)
    requires Inv(s, p) && CanWork(s.worker, MakeVariantDir(v)) && JobAt(s, p)
    ensures Good(MakeVariantDirStep(s, v), p)
  {
    var j := s.worker.job.value;
    JobStepKeeps(s, p, Committing(j.phase.staged, Some(v), j.phase.produced), MkdirAll(s.disk, p));
  }

  lemma RenameShape(j: Job)
    requires Shape(j) && j.phase.Committing? && j.phase.made.Some?
    ensures Shape(j.(phase := AfterRename(j.phase.staged - {j.phase.made.value}, j.phase.produced)))
  {
    WithoutContents(DEFERRED, j.phase.produced);
    EveryVariantDeferred();
  }

  /** Moving a staged rendering into place makes the outcome neither better nor worse. */
  lemma RenameFresh(j: Job, d: Dir, jpeg: Jpeg)
    requires Shape(j) && j.phase.Committing? && j.phase.made.Some? && FileOf(j.row) == jpeg
    ensures var v := j.phase.made.value;
            Fresh(j, d, jpeg) <==> Fresh(j.(phase := AfterRename(j.phase.staged - {v}, j.phase.produced)), d[v := j.phase.staged[v]], jpeg)
  {
    WithoutContents(DEFERRED, j.phase.produced);
    EveryVariantDeferred();
    var v := j.phase.made.value;
    var d' := d[v := j.phase.staged[v]];
    var rest := j.phase.staged - {v};
    assert forall w :: w in rest <==> w in j.phase.staged && w != v;
    assert Rendered(d', v, jpeg) <==> Rendered(j.phase.staged, v, jpeg);
    forall w | w != v ensures (Rendered(d', w, jpeg) <==> Rendered(d, w, jpeg)) && (w in rest ==> (Rendered(rest, w, jpeg) <==> Rendered(j.phase.staged, w, jpeg))) {
    }
  }

  lemma RenameVariantKeeps(s: State, p: Ref)
    requires Inv(s, p) && CanWork(s.worker, RenameVariant) && JobAt(s, p)
    ensures Good(RenameVariantStep(s), p)
  {
    var j := s.worker.job.value;
    RenameShape(j);
    if p in s.disk {
      var v := j.phase.made.value;
      RenameFresh(j, s.disk[p], FileOf(j.row));
      JobStepKeeps(s, p, AfterRename(j.phase.staged - {v}, j.phase.produced), Put(s.disk, p, v, j.phase.staged[v]));
    }
  }

  /** Nor does pruning one variant. */
  lemma PruneFresh(j: Job, d: Dir, jpeg: Jpeg)
    requires Shape(j) && j.phase.Pruning? && j.phase.todo != [] && FileOf(j.row) == jpeg
    ensures Fresh(j, d, jpeg) <==> Fresh(j.(phase := Pruning(j.phase.todo[1..])), d - {j.phase.todo[0]}, jpeg)
  {
    var v := j.phase.todo[0];
    var d' := d - {v};
    assert v in j.phase.todo;
    assert forall w :: w in j.phase.todo <==> w == v || w in j.phase.todo[1..];
    assert forall w :: w in d' <==> w != v && w in d;
    forall w | w != v ensures Rendered(d', w, jpeg) <==> Rendered(d, w, jpeg) {
    }
  }

  lemma PruneShape(j: Job)
    requires Shape(j) && j.phase.Pruning? && j.phase.todo != []
    ensures Shape(j.(phase := Pruning(j.phase.todo[1..])))
  {
    assert forall w :: w in j.phase.todo[1..] ==> w in j.phase.todo;
  }

  lemma PruneKeeps(s: State, p: Ref)
    requires Inv(s, p) && CanWork(s.worker, PruneNext) && JobAt(s, p)
    ensures Good(PruneStep(s), p)
  {
    var j := s.worker.job.value;
    var v := j.phase.todo[0];
    assert v in j.phase.todo;
    PruneShape(j);
    if p in s.disk { PruneFresh(j, s.disk[p], FileOf(j.row)); }
    JobStepKeeps(s, p, Pruning(j.phase.todo[1..]), RemoveVariant(s.disk, p, v));
  }

  lemma MarkKeeps(s: State, p: Ref)
    requires Inv(s, p) && CanWork(s.worker, Mark) && JobAt(s, p) && Hyp(s, p, Working(Mark))
    ensures Good(MarkStep(s), p)
  {
  }

  lemma EndKeeps(s: State, e: WorkStep, p: Ref)
    requires Inv(s, p) && CanWork(s.worker, e) && JobAt(s, p) && (e.CheckGone? || e.TakeBack? || e.Fail?)
    ensures Good(ApplyWork(s, e), p)
  {
  }

  lemma DeriveTouchesNone(s: State, q: Ref)
    requires CanWork(s.worker, DeriveNext)
    ensures SameAt(s, DeriveStep(s), q) && SameWork(s.worker, DeriveStep(s).worker)
  {
    assert DeriveStep(s).(worker := s.worker) == s;
  }

  lemma CommitTouchesOne(s: State, e: WorkStep, q: Ref)
    requires CanWork(s.worker, e) && !JobAt(s, q) && (e.MakeVariantDir? || e.RenameVariant?)
    ensures SameAt(s, ApplyWork(s, e), q) && SameWork(s.worker, ApplyWork(s, e).worker)
  {
  }

  lemma FinishTouchesOne(s: State, e: WorkStep, q: Ref)
    requires CanWork(s.worker, e) && !JobAt(s, q) && (e.PruneNext? || e.Mark?)
    ensures SameAt(s, ApplyWork(s, e), q) && SameWork(s.worker, ApplyWork(s, e).worker)
  {
  }

  lemma WorkTouchesOne(s: State, e: WorkStep, q: Ref)
    requires CanWork(s.worker, e) && s.worker.job.Some? && !JobAt(s, q)
    ensures SameAt(s, ApplyWork(s, e), q) && SameWork(s.worker, ApplyWork(s, e).worker)
  {
    match e
    case DeriveNext => DeriveTouchesNone(s, q);
    case MakeVariantDir(_) => CommitTouchesOne(s, e, q);
    case RenameVariant => CommitTouchesOne(s, e, q);
    case PruneNext => FinishTouchesOne(s, e, q);
    case Mark => FinishTouchesOne(s, e, q);
    case _ =>
  }

  lemma JobKeeps(s: State, e: WorkStep, p: Ref)
    requires Inv(s, p) && CanWork(s.worker, e) && Hyp(s, p, Working(e)) && JobAt(s, p)
    ensures Good(ApplyWork(s, e), p)
  {
    match e
    case DeriveNext => DeriveKeeps(s, p);
    case MakeVariantDir(v) => MakeVariantDirKeeps(s, v, p);
    case RenameVariant => RenameVariantKeeps(s, p);
    case PruneNext => PruneKeeps(s, p);
    case Mark => MarkKeeps(s, p);
    case CheckGone => EndKeeps(s, e, p);
    case TakeBack => EndKeeps(s, e, p);
    case Fail => EndKeeps(s, e, p);
    case _ =>
  }

  lemma QueueKeeps(s: State, e: WorkStep, p: Ref)
    requires Inv(s, p) && CanWork(s.worker, e) && (e.List? || e.Skip? || e.Take?)
    ensures Good(ApplyWork(s, e), p)
  {
  }

  lemma WorkKeeps(s: State, e: WorkStep, p: Ref)
    requires Inv(s, p) && CanWork(s.worker, e) && Hyp(s, p, Working(e))
    ensures Inv(ApplyWork(s, e), p)
  {
    assert GoodAlbums(ApplyWork(s, e));
    if s.worker.job.None? {
      QueueKeeps(s, e, p);
    } else if JobAt(s, p) {
      JobKeeps(s, e, p);
    } else {
      WorkTouchesOne(s, e, p);
      JobElsewhere(s, ApplyWork(s, e), p);
    }
  }

  lemma StepKeeps(s: State, e: Event, p: Ref)
    requires Inv(s, p) && Enabled(s, e) && Hyp(s, p, e) && HashesNameFiles(s, p, e)
    ensures Inv(Apply(s, e), p)
  {
    match e
    case Uploading(q, u) => UploadKeeps(s, q, u, p);
    case Administering(a) => AdminKeeps(s, a, p);
    case Working(w) => WorkKeeps(s, w, p);
  }

  lemma {:induction false} RunKeeps(s: State, es: seq<Event>, p: Ref)
    requires Inv(s, p) && CanRun(s, es) && KeepsTo(ALL, p, s, es)
    ensures Inv(After(s, es), p)
    decreases |es|
  {
    if es != [] {
      HypIsAll(s, p, es[0]);
      StepKeeps(s, es[0], p);
      RunKeeps(Apply(s, es[0]), es[1..], p);
    }
  }

  // ----- the theorems -----

  /**
   After any run that keeps to the hypotheses for p, if visitors can see p, it has
   an original that matches the hash and dimensions of its row, exactly the
   expected variants, all rendered from that original, and no replacement by
   another file under way.
   */
  lemma ReadyIsWhole(es: seq<Event>, p: Ref)
    requires CanRun(INITIAL, es) && KeepsTo(ALL, p, INITIAL, es)
    ensures var s := After(INITIAL, es);
            && !Torn(s, p)
            && (p in s.rows && s.rows[p].ready && Replacing(s, p) ==> s.ingests[p].jpeg == FileOf(s.rows[p]))
  {
    RunKeeps(INITIAL, es, p);
  }

  /** A step that neither hides nor deletes the row of p. */
  predicate LeavesVisible(e: Event, p: Ref) {
    match e
    case Uploading(q, u) => q == p ==> !u.Hide?
    case Administering(a) => a != DeleteRow(p) && (a.DeleteAlbums? ==> p.album !in a.gone)
    case Working(_) => true
  }

  lemma StaysVisible(s: State, e: Event, p: Ref)
    requires Inv(s, p) && Enabled(s, e) && p in s.rows && s.rows[p].ready && LeavesVisible(e, p)
    ensures p in Apply(s, e).rows && Apply(s, e).rows[p] == s.rows[p]
  {
    match e
    case Uploading(q, u) => if q != p { UploadTouchesOne(s, q, u, p); }
    case Administering(_) =>
    case Working(w) =>
      if w.DeriveNext? { DeriveTouchesNone(s, p); }
  }

  /** What a visitor of p is given does not change while its row stays visible. */
  lemma {:induction false} StaysServed(s: State, es: seq<Event>, p: Ref, v: Variant)
    requires Inv(s, p) && p in s.rows && s.rows[p].ready
    requires CanRun(s, es) && KeepsTo(ALL, p, s, es) && forall e :: e in es ==> LeavesVisible(e, p)
    ensures var jpeg := FileOf(s.rows[p]);
            Serve(After(s, es), p, v) == Some(if Expected(v, jpeg) then Rendering(v, jpeg) else Upload(jpeg))
    decreases |es|
  {
    if es != [] {
      assert es[0] in es;
      assert forall e :: e in es[1..] ==> e in es;
      HypIsAll(s, p, es[0]);
      StepKeeps(s, es[0], p);
      StaysVisible(s, es[0], p);
      StaysServed(Apply(s, es[0]), es[1..], p, v);
    }
  }

  /**
   So every request for a variant of a visible photo is answered with a file of
   the original it had when the request read the row: its rendering, or the original
   itself where large was not needed. Between reading the row and opening the file
   anything may happen but hiding or deleting the row.
   */
  lemma EveryRequestIsServed(es: seq<Event>, between: seq<Event>, p: Ref, v: Variant)
    requires CanRun(INITIAL, es) && KeepsTo(ALL, p, INITIAL, es)
    requires var s := After(INITIAL, es);
             && p in s.rows && s.rows[p].ready
             && CanRun(s, between) && KeepsTo(ALL, p, s, between) && forall e :: e in between ==> LeavesVisible(e, p)
    ensures var jpeg := FileOf(After(INITIAL, es).rows[p]);
            Serve(After(After(INITIAL, es), between), p, v) == Some(if Expected(v, jpeg) then Rendering(v, jpeg) else Upload(jpeg))
  {
    RunKeeps(INITIAL, es, p);
    StaysServed(After(INITIAL, es), between, p, v);
  }
}
