/**
 Deleting a photo or whole albums while the worker is rendering leaves nothing
 behind, whichever of them comes first at every step; and exactly which steps do
 leave a directory that nobody answers for.
 */
module PipelineOrphans {
  import opened Base
  import opened Pipeline
  import Ready = PipelineReady

  /** p's new upload has begun to touch the disk and has not reached the table. */
  predicate Arriving(s: State, p: Ref) {
    p in s.ingests && s.ingests[p].New? && s.ingests[p].stage in {Made, Renamed, Undoing}
  }

  /** The worker is at p and will look for the row before it leaves. */
  predicate WorkerAnswersFor(s: State, p: Ref) {
    Ready.JobAt(s, p) && !s.worker.job.value.phase.Deriving?
  }

  /** p has a row, or its delete is under way. */
  predicate Covered(s: State, p: Ref) {
    p in s.rows || p in s.removals || p.album in s.albumRemovals
  }

  /** Somebody is still going to remove p's directory, or give it a row. */
  predicate Accounted(s: State, p: Ref) {
    Covered(s, p) || Arriving(s, p) || WorkerAnswersFor(s, p)
  }

  predicate Leaked(s: State, p: Ref) {
    p in s.disk && !Accounted(s, p)
  }

  // ----- the hypotheses, for one photo -----

  /** A replacement's Commit creates the directory of a photo that is gone by now. */
  predicate CommitsTooLate(s: State, p: Ref, e: Event) {
    e == Uploading(p, MakeDir) && p in s.ingests && s.ingests[p].Replace? && !Accounted(s, p)
  }

  /** A request, a generation, a removal or the whole process ends without success while it alone answers for files of p. */
  predicate CutsOff(s: State, p: Ref, e: Event) {
    p in s.disk &&
    match e
    case Uploading(q, u) => q == p && u.Abandon? && Arriving(s, p) && !Covered(s, p)
    case Administering(a) =>
      || (a.Restart? && p !in s.rows)
      || (a == LeaveFiles(p) && !Accounted(s.(removals := s.removals - {p}), p))
      || (a == LeaveAlbumFiles(p.album) && !Accounted(s.(albumRemovals := s.albumRemovals - {p.album}), p))
    case Working(w) => w.Fail? && WorkerAnswersFor(s, p) && !Covered(s, p)
  }

  predicate Hyp(s: State, p: Ref, e: Event) {
    !CommitsTooLate(s, p, e) && !CutsOff(s, p, e)
  }

  predicate AllHyp(p: Ref, s: State, es: seq<Event>)
    requires CanRun(s, es)
    decreases |es|
  {
    es == [] || (Hyp(s, p, es[0]) && AllHyp(p, Apply(s, es[0]), es[1..]))
  }

  // ----- the invariant -----

  predicate Known(s: State, p: Ref) {
    p in s.disk || p in s.rows || p in s.ingests || p in s.worker.queue || Ready.JobAt(s, p)
  }

  predicate Good(s: State, p: Ref) {
    && (Known(s, p) ==> p in s.used)
    && (p in s.ingests && s.ingests[p].New? ==> p !in s.rows && p !in s.worker.queue && !Ready.JobAt(s, p))
    && !Leaked(s, p)
  }

  /** Good apart from the leak. */
  predicate Sane(s: State, p: Ref) {
    && (Known(s, p) ==> p in s.used)
    && (p in s.ingests && s.ingests[p].New? ==> p !in s.rows && p !in s.worker.queue && !Ready.JobAt(s, p))
  }

  lemma UploadLeaksIff(s: State, p: Ref, u: UploadStep, q: Ref)
    requires Good(s, q) && CanUpload(s, p, u)
    ensures Sane(ApplyUpload(s, p, u), q)
    ensures Leaked(ApplyUpload(s, p, u), q) <==> !Hyp(s, q, Uploading(p, u))
  {
    if p != q {
      Ready.UploadTouchesOne(s, p, u, q);
      assert ApplyUpload(s, p, u).albumRemovals == s.albumRemovals;
    }
  }

  lemma AdminLeaksIff(s: State, a: AdminStep, q: Ref)
    requires Good(s, q) && CanAdminister(s, a)
    ensures Sane(ApplyAdmin(s, a), q)
    ensures Leaked(ApplyAdmin(s, a), q) <==> !Hyp(s, q, Administering(a))
  {
  }

  lemma RenderLeaksNot(s: State, w: WorkStep, q: Ref)
    requires Good(s, q) && CanWork(s.worker, w) && (w.DeriveNext? || w.MakeVariantDir? || w.RenameVariant? || w.PruneNext?)
    ensures Good(ApplyWork(s, w), q)
  {
    if w.DeriveNext? { Ready.DeriveTouchesNone(s, q); }
  }

  lemma OtherWorkLeaksIff(s: State, w: WorkStep, q: Ref)
    requires Good(s, q) && CanWork(s.worker, w) && !(w.DeriveNext? || w.MakeVariantDir? || w.RenameVariant? || w.PruneNext?)
    ensures Sane(ApplyWork(s, w), q)
    ensures Leaked(ApplyWork(s, w), q) <==> !Hyp(s, q, Working(w))
  {
  }

  lemma StepLeaks(s: State, p: Ref, e: Event)
    requires Good(s, p) && Enabled(s, e)
    ensures Sane(Apply(s, e), p)
    ensures Leaked(Apply(s, e), p) <==> !Hyp(s, p, e)
  {
    match e
    case Uploading(q, u) => UploadLeaksIff(s, q, u, p);
    case Administering(a) => AdminLeaksIff(s, a, p);
    case Working(w) =>
      if w.DeriveNext? || w.MakeVariantDir? || w.RenameVariant? || w.PruneNext? {
        RenderLeaksNot(s, w, p);
      } else {
        OtherWorkLeaksIff(s, w, p);
      }
  }

  lemma {:induction false} RunKeeps(s: State, es: seq<Event>, p: Ref)
    requires Good(s, p) && CanRun(s, es) && AllHyp(p, s, es)
    ensures Good(After(s, es), p)
    decreases |es|
  {
    if es != [] {
      StepLeaks(s, p, es[0]);
      RunKeeps(Apply(s, es[0]), es[1..], p);
    }
  }

  // ----- the theorems -----

  /**
   The hypotheses are exact, step by step: after any run that keeps to them, a
   step leaves a directory of p that nobody answers for if and only if it is the
   late Commit of a replacement, or a cut-off of the one that answers for it.
   */
  lemma StepLeaksIff(es: seq<Event>, p: Ref, e: Event)
    requires CanRun(INITIAL, es) && AllHyp(p, INITIAL, es) && Enabled(After(INITIAL, es), e)
    ensures var s := After(INITIAL, es);
            Leaked(Apply(s, e), p) <==> CommitsTooLate(s, p, e) || CutsOff(s, p, e)
  {
    RunKeeps(INITIAL, es, p);
    StepLeaks(After(INITIAL, es), p, e);
  }

  /**
   Once the delete of p (or of its album) has removed the files and the worker
   has left p, no file and no directory of p remains, however they overlapped.
   */
  lemma DeletedLeavesNothing(es: seq<Event>, p: Ref)
    requires CanRun(INITIAL, es) && AllHyp(p, INITIAL, es) && !Accounted(After(INITIAL, es), p)
    ensures p !in After(INITIAL, es).disk
  {
    RunKeeps(INITIAL, es, p);
  }

  /** Nothing is under way for p. */
  predicate Quiet(s: State, p: Ref) {
    p !in s.ingests && p !in s.removals && p.album !in s.albumRemovals && !Ready.JobAt(s, p)
  }

  /**
   Under both sets of hypotheses for p, whenever nothing is under way for it, the
   table and the disk agree about it: no directory without a row, no row without
   its original.
   */
  lemma QuietMeansAgreement(es: seq<Event>, p: Ref)
    requires CanRun(INITIAL, es) && AllHyp(p, INITIAL, es) && Ready.KeepsTo(Ready.ALL, p, INITIAL, es)
    requires Quiet(After(INITIAL, es), p)
    ensures var s := After(INITIAL, es);
            && (p in s.disk <==> p in s.rows)
            && (p in s.rows ==> Stored(s.disk, p) == Some(FileOf(s.rows[p])))
  {
    RunKeeps(INITIAL, es, p);
    Ready.RunKeeps(INITIAL, es, p);
  }

  // ----- when a deleted photo can still leak -----

  /** No cut-off: what is left is the late Commit. */
  predicate Calm(p: Ref, s: State, es: seq<Event>)
    requires CanRun(s, es)
    decreases |es|
  {
    es == [] || (!CutsOff(s, p, es[0]) && Calm(p, Apply(s, es[0]), es[1..]))
  }

  ghost predicate RunsTo(p: Ref, s: State, es: seq<Event>, t: State) {
    CanRun(s, es) && Calm(p, s, es) && After(s, es) == t
  }

  ghost predicate Leads(p: Ref, s: State, t: State) {
    exists es :: RunsTo(p, s, es, t)
  }

  lemma Nowhere(p: Ref, s: State)
    ensures Leads(p, s, s)
  {
    assert RunsTo(p, s, [], s);
  }

  lemma First(p: Ref, s: State, e: Event, t: State)
    requires Enabled(s, e) && !CutsOff(s, p, e) && Leads(p, Apply(s, e), t)
    ensures Leads(p, s, t)
  {
    var es :| RunsTo(p, Apply(s, e), es, t);
    assert ([e] + es)[1..] == es;
    assert RunsTo(p, s, [e] + es, t);
  }

  /** A replacement has hidden the row and not yet made the directory for its file. */
  predicate StandsHidden(s: State, p: Ref) {
    p in s.ingests && s.ingests[p].Replace? && s.ingests[p].stage == Hidden
  }

  /** p had a row, and is deleted. */
  predicate Gone(s: State, p: Ref) {
    p in s.used && p !in s.rows && (p in s.ingests ==> !s.ingests[p].New?)
  }

  /** The worker neither makes nor removes rows, and has no part in requests. */
  lemma WorkKeepsPresence(s: State, w: WorkStep)
    requires CanWork(s.worker, w)
    ensures var t := ApplyWork(s, w); t.rows.Keys == s.rows.Keys && t.ingests == s.ingests && t.used == s.used
  {
    if w.DeriveNext? {
      assert DeriveStep(s).(worker := s.worker) == s;
    } else if w.Mark? {
      assert MarkStep(s).rows.Keys == s.rows.Keys;
    }
  }

  lemma StaysGone(s: State, p: Ref, e: Event)
    requires Good(s, p) && Enabled(s, e) && Gone(s, p)
    ensures Gone(Apply(s, e), p) && (StandsHidden(Apply(s, e), p) ==> StandsHidden(s, p))
  {
    match e
    case Uploading(q, u) => if q != p { Ready.UploadTouchesOne(s, q, u, p); }
    case Administering(_) =>
    case Working(w) => WorkKeepsPresence(s, w);
  }

  lemma {:induction false} NeverLeaks(s: State, p: Ref, es: seq<Event>)
    requires Good(s, p) && Gone(s, p) && !StandsHidden(s, p) && CanRun(s, es) && Calm(p, s, es)
    ensures !Leaked(After(s, es), p)
    decreases |es|
  {
    if es != [] {
      StaysGone(s, p, es[0]);
      StepLeaks(s, p, es[0]);
      NeverLeaks(Apply(s, es[0]), p, es[1..]);
    }
  }

  ghost predicate CanLeak(s: State, p: Ref) {
    exists t :: Leads(p, s, t) && Leaked(t, p)
  }

  /** And in the end nobody knows of the directory any more. */
  ghost predicate CanEndLeaked(s: State, p: Ref) {
    exists t :: Leads(p, s, t) && Leaked(t, p) && Quiet(t, p) && p !in t.worker.queue
  }

  lemma CommitLeaks(s: State, p: Ref)
    requires Gone(s, p) && !Accounted(s, p) && StandsHidden(s, p) && p !in s.worker.queue && !Ready.JobAt(s, p)
    ensures CanEndLeaked(s, p)
  {
    var s1 := ApplyUpload(s, p, MakeDir);
    var s2 := ApplyUpload(s1, p, RenameOriginal);
    var s3 := ApplyUpload(s2, p, Update);
    Nowhere(p, s3);
    First(p, s2, Uploading(p, Update), s3);
    First(p, s1, Uploading(p, RenameOriginal), s3);
    First(p, s, Uploading(p, MakeDir), s3);
    assert Leaked(s3, p) && Quiet(s3, p) && p !in s3.worker.queue;
  }

  lemma FirstLeaks(s: State, p: Ref, e: Event)
    requires Enabled(s, e) && !CutsOff(s, p, e) && CanEndLeaked(Apply(s, e), p)
    ensures CanEndLeaked(s, p)
  {
    var t :| Leads(p, Apply(s, e), t) && Leaked(t, p) && Quiet(t, p) && p !in t.worker.queue;
    First(p, s, e, t);
  }

  /** Whatever the worker is about: it is not in the way of the leak. */
  lemma HiddenLeaks(s: State, p: Ref)
    requires Gone(s, p) && !Accounted(s, p) && StandsHidden(s, p)
    ensures CanEndLeaked(s, p)
    decreases s.worker.job.Some?
  {
    if s.worker.job.Some? {
      HiddenLeaks(ApplyWork(s, Fail), p);
      FirstLeaks(s, p, Working(Fail));
    } else if p in s.worker.queue {
      CommitLeaks(ApplyWork(s, Skip(p)), p);
      FirstLeaks(s, p, Working(Skip(p)));
    } else {
      CommitLeaks(s, p);
    }
  }

  /**
   A photo is deleted, its files are removed, and nobody answers for it any more.
   A directory of it can still come into being, without cutting off anybody who
   answers for one, if and only if a replacement stands between MarkVariantsPending
   and its Commit; and then it can stay for good.
   */
  lemma LeakReachableIff(es: seq<Event>, p: Ref)
    requires CanRun(INITIAL, es) && AllHyp(p, INITIAL, es)
    requires Gone(After(INITIAL, es), p) && !Accounted(After(INITIAL, es), p)
    ensures CanLeak(After(INITIAL, es), p) <==> StandsHidden(After(INITIAL, es), p)
    ensures CanEndLeaked(After(INITIAL, es), p) <==> StandsHidden(After(INITIAL, es), p)
  {
    var s := After(INITIAL, es);
    RunKeeps(INITIAL, es, p);
    if StandsHidden(s, p) {
      HiddenLeaks(s, p);
    } else {
      forall t | Leads(p, s, t) ensures !Leaked(t, p) {
        var fs :| RunsTo(p, s, fs, t);
        NeverLeaks(s, p, fs);
      }
    }
  }

  const A := Jpeg(1, 800, 600)
  const B := Jpeg(2, 800, 600)
  const P := Ref(0, 0)

  /** Run: a photo is replaced, and deleted before the replacement commits its file. */
  lemma DeleteDuringReplaceLeaks()
    ensures CanEndLeaked(INITIAL, P)
  {
    var s1 := Apply(INITIAL, Administering(CreateAlbum(0)));
    var s2 := Apply(s1, Uploading(P, BeginNew(A, 0)));
    UploadedReplacedDeleted(s2);
    FirstLeaks(s1, P, Uploading(P, BeginNew(A, 0)));
    FirstLeaks(INITIAL, P, Administering(CreateAlbum(0)));
  }

  lemma UploadedReplacedDeleted(s: State)
    requires P in s.ingests && s.ingests[P] == New(A, 0, Begun) && s.rows == map[] && s.albums == {0} && P in s.used
    requires s.worker == Worker(map[], None) && s.albumRemovals == {}
    ensures CanEndLeaked(s, P)
  {
    var s1 := Apply(s, Uploading(P, MakeDir));
    var s2 := Apply(s1, Uploading(P, RenameOriginal));
    var s3 := Apply(s2, Uploading(P, Insert));
    ReplacedDeleted(s3);
    FirstLeaks(s2, P, Uploading(P, Insert));
    FirstLeaks(s1, P, Uploading(P, RenameOriginal));
    FirstLeaks(s, P, Uploading(P, MakeDir));
  }

  lemma ReplacedDeleted(s: State)
    requires P in s.rows && P !in s.ingests && P in s.used && s.worker == Worker(map[], None) && P.album !in s.albumRemovals
    ensures CanEndLeaked(s, P)
  {
    var s1 := Apply(s, Uploading(P, BeginReplace(B)));
    var s2 := Apply(s1, Uploading(P, Hide));
    var s3 := Apply(s2, Administering(DeleteRow(P)));
    var s4 := Apply(s3, Administering(RemoveFiles(P)));
    HiddenLeaks(s4, P);
    FirstLeaks(s3, P, Administering(RemoveFiles(P)));
    FirstLeaks(s2, P, Administering(DeleteRow(P)));
    FirstLeaks(s1, P, Uploading(P, Hide));
    FirstLeaks(s, P, Uploading(P, BeginReplace(B)));
  }
}
