/**
 What happens without the hypotheses of PipelineReady: a step breaks one of them
 exactly if it can end in a photo that visitors see torn. Also, exactly when a
 replacement ends with the row visible.
 */
module PipelineRaces {
  import opened Base
  import opened Pipeline
  import opened PipelineReady

  // ----- runs that keep to hypotheses -----

  ghost predicate RunsTo(hs: set<Hypothesis>, p: Ref, s: State, es: seq<Event>, t: State) {
    CanRun(s, es) && KeepsTo(hs, p, s, es) && After(s, es) == t
  }

  /** Some run that keeps to hs for p leads from s to t. */
  ghost predicate Leads(hs: set<Hypothesis>, p: Ref, s: State, t: State) {
    exists es :: RunsTo(hs, p, s, es, t)
  }

  lemma Nowhere(hs: set<Hypothesis>, p: Ref, s: State)
    ensures Leads(hs, p, s, s)
  {
    assert RunsTo(hs, p, s, [], s);
  }

  /** A step and then a run. */
  lemma First(hs: set<Hypothesis>, p: Ref, s: State, e: Event, t: State)
    requires Enabled(s, e) && HashesNameFiles(s, p, e) && HoldAll(hs, s, p, e) && Leads(hs, p, Apply(s, e), t)
    ensures Leads(hs, p, s, t)
  {
    var es :| RunsTo(hs, p, Apply(s, e), es, t);
    assert ([e] + es)[1..] == es;
    assert RunsTo(hs, p, s, [e] + es, t);
  }

  lemma {:induction false} AppendRun(hs: set<Hypothesis>, p: Ref, s: State, es: seq<Event>, t: State, u: State)
    requires RunsTo(hs, p, s, es, t) && Leads(hs, p, t, u)
    ensures Leads(hs, p, s, u)
    decreases |es|
  {
    if es != [] {
      AppendRun(hs, p, Apply(s, es[0]), es[1..], t, u);
      First(hs, p, s, es[0], u);
    }
  }

  lemma Onward(hs: set<Hypothesis>, p: Ref, s: State, t: State, u: State)
    requires Leads(hs, p, s, t) && Leads(hs, p, t, u)
    ensures Leads(hs, p, s, u)
  {
    var es :| RunsTo(hs, p, s, es, t);
    AppendRun(hs, p, s, es, t, u);
  }

  lemma Then(hs: set<Hypothesis>, p: Ref, s: State, t: State, e: Event)
    requires Leads(hs, p, s, t) && Enabled(t, e) && HashesNameFiles(t, p, e) && HoldAll(hs, t, p, e)
    ensures Leads(hs, p, s, Apply(t, e))
  {
    Nowhere(hs, p, Apply(t, e));
    First(hs, p, t, e, Apply(t, e));
    Onward(hs, p, s, t, Apply(t, e));
  }

  lemma {:induction false} Weaker(hs: set<Hypothesis>, p: Ref, s: State, es: seq<Event>)
    requires CanRun(s, es) && KeepsTo(ALL, p, s, es)
    ensures KeepsTo(hs, p, s, es)
    decreases |es|
  {
    if es != [] {
      HypIsAll(s, p, es[0]);
      Weaker(hs, p, Apply(s, es[0]), es[1..]);
    }
  }

  /** A run that keeps to all the hypotheses keeps to some. */
  lemma LeadsWeaker(hs: set<Hypothesis>, p: Ref, s: State, t: State)
    requires Leads(ALL, p, s, t)
    ensures Leads(hs, p, s, t)
  {
    var es :| RunsTo(ALL, p, s, es, t);
    Weaker(hs, p, s, es);
    assert RunsTo(hs, p, s, es, t);
  }

  // ----- the worker finishes a job -----

  /** The worker can take its job at p to the mark. */
  ghost predicate Busy(s: State, p: Ref) {
    && JobAt(s, p) && p in s.disk && Stored(s.disk, p).Some? && Shape(s.worker.job.value)
    && (s.worker.job.value.phase.Deriving? || s.worker.job.value.phase.Committing? || s.worker.job.value.phase.Pruning?)
  }

  /** What it takes there will not be the variants of the job's file. */
  ghost predicate Spoiled(s: State, p: Ref)
    requires Busy(s, p)
  {
    var j := s.worker.job.value;
    if j.phase.Deriving? then Stored(s.disk, p) != Some(FileOf(j.row)) else !Fresh(j, s.disk[p], FileOf(j.row))
  }

  /** t differs from s in the job's phase and in the variants of p. */
  ghost predicate OnlyRendered(s: State, t: State, p: Ref)
    requires Busy(s, p)
  {
    && Busy(t, p) && t == s.(disk := t.disk, worker := s.worker.(job := t.worker.job))
    && t.worker.job.value == s.worker.job.value.(phase := t.worker.job.value.phase)
    && Stored(t.disk, p) == Stored(s.disk, p)
    && (Spoiled(s, p) ==> Spoiled(t, p))
  }

  /** The worker's next step. */
  ghost function NextStep(s: State, p: Ref): WorkStep
    requires Busy(s, p)
  {
    match s.worker.job.value.phase
    case Deriving(_, _) => DeriveNext
    case Committing(staged, made, _) =>
      if made.Some? then RenameVariant else
        assert staged.Keys != {};
        var v :| v in staged; MakeVariantDir(v)
    case _ => PruneNext
  }

  /** How far the job is from its end. */
  ghost function Distance(s: State, p: Ref): (nat, nat)
    requires Busy(s, p)
  {
    match s.worker.job.value.phase
    case Deriving(todo, _) => (2, |todo|)
    case Committing(staged, made, _) => (1, 2 * |staged| - if made.Some? then 1 else 0)
    case Pruning(todo) => (0, |todo|)
  }

  predicate Less(a: (nat, nat), b: (nat, nat)) {
    a.0 < b.0 || (a.0 == b.0 && a.1 < b.1)
  }

  lemma DeriveGoesOn(s: State, p: Ref)
    requires Busy(s, p) && s.worker.job.value.phase.Deriving?
    ensures OnlyRendered(s, DeriveStep(s), p) && Less(Distance(DeriveStep(s), p), Distance(s, p))
  {
    var j := s.worker.job.value;
    var v := j.phase.todo[0];
    var original := Stored(s.disk, p);
    var staged := if Expected(v, FileOf(j.row)) then j.phase.staged[v := Rendering(v, original.value)] else j.phase.staged;
    DeriveShape(j, staged);
    if |j.phase.todo| == 1 {
      assert j.phase.todo[0] == DEFERRED[4] == Blur;
      assert original != Some(FileOf(j.row)) ==> !Rendered(staged, Blur, FileOf(j.row));
    }
  }

  lemma MakeDirGoesOn(s: State, p: Ref, v: Variant)
    requires Busy(s, p) && CanWork(s.worker, MakeVariantDir(v))
    ensures OnlyRendered(s, MakeVariantDirStep(s, v), p) && Less(Distance(MakeVariantDirStep(s, v), p), Distance(s, p))
  {
  }

  lemma RenameGoesOn(s: State, p: Ref)
    requires Busy(s, p) && CanWork(s.worker, RenameVariant)
    ensures OnlyRendered(s, RenameVariantStep(s), p) && Less(Distance(RenameVariantStep(s), p), Distance(s, p))
  {
    var j := s.worker.job.value;
    var v := j.phase.made.value;
    RenameShape(j);
    RenameFresh(j, s.disk[p], FileOf(j.row));
    assert v != Original;
    assert (j.phase.staged - {v}).Keys == j.phase.staged.Keys - {v};
    assert |j.phase.staged - {v}| == |(j.phase.staged - {v}).Keys| < |j.phase.staged.Keys| == |j.phase.staged|;
  }

  lemma PruneGoesOn(s: State, p: Ref)
    requires Busy(s, p) && CanWork(s.worker, PruneNext)
    ensures OnlyRendered(s, PruneStep(s), p) && Less(Distance(PruneStep(s), p), Distance(s, p))
  {
    var j := s.worker.job.value;
    PruneShape(j);
    PruneFresh(j, s.disk[p], FileOf(j.row));
    assert j.phase.todo[0] in j.phase.todo;
  }

  lemma GoesOn(s: State, p: Ref)
    requires Busy(s, p) && s.worker.job.value.phase != Pruning([])
    ensures var e := NextStep(s, p);
            && CanWork(s.worker, e) && !e.Mark?
            && OnlyRendered(s, ApplyWork(s, e), p) && Less(Distance(ApplyWork(s, e), p), Distance(s, p))
  {
    match NextStep(s, p)
    case DeriveNext => DeriveGoesOn(s, p);
    case MakeVariantDir(v) => MakeDirGoesOn(s, p, v);
    case RenameVariant => RenameGoesOn(s, p);
    case PruneNext => PruneGoesOn(s, p);
    case _ =>
  }

  /** Left alone, the worker comes to the mark. */
  lemma {:induction false} Finishes(s: State, p: Ref) returns (t: State)
    requires Busy(s, p)
    ensures Leads(ALL, p, s, t) && OnlyRendered(s, t, p) && t.worker.job.value.phase == Pruning([])
    decreases Distance(s, p).0, Distance(s, p).1
  {
    if s.worker.job.value.phase == Pruning([]) {
      t := s;
      Nowhere(ALL, p, s);
    } else {
      GoesOn(s, p);
      var e := NextStep(s, p);
      t := Finishes(ApplyWork(s, e), p);
      First(ALL, p, s, Working(e), t);
    }
  }

  // ----- a replacement finishes -----

  /** A replacement of p is under way, and nothing is missing for it. */
  predicate UnderWay(s: State, p: Ref) {
    p in s.ingests && s.ingests[p].Replace? && s.ingests[p].stage != Undoing && p in s.rows && p in s.disk
  }

  /** s after the replacement of p has gone through. */
  function Replaced(s: State, p: Ref): State
    requires UnderWay(s, p)
  {
    var i := s.ingests[p];
    var row := s.rows[p];
    s.(rows := s.rows[p := Row(row.lrUuid, i.jpeg.hash, i.jpeg.width, i.jpeg.height, i.stage != Begun && row.ready)],
       disk := if i.stage == Renamed then s.disk else Put(s.disk, p, Original, Upload(i.jpeg)),
       ingests := s.ingests - {p})
  }

  lemma {:induction false} ReplaceEnds(s: State, p: Ref)
    requires UnderWay(s, p)
    ensures Leads(ALL, p, s, Replaced(s, p))
    decreases if s.ingests[p].stage == Begun then 3 else if s.ingests[p].stage == Hidden then 2 else if s.ingests[p].stage == Made then 1 else 0
  {
    var i := s.ingests[p];
    var u := if i.stage == Begun then Hide else if i.stage == Hidden then MakeDir else if i.stage == Made then RenameOriginal else Update;
    var s' := ApplyUpload(s, p, u);
    if i.stage == Renamed {
      assert s' == Replaced(s, p);
      Nowhere(ALL, p, s');
    } else {
      assert s'.ingests - {p} == s.ingests - {p};
      assert s'.ingests[p] == Replace(i.jpeg, s'.ingests[p].stage);
      assert Replaced(s', p) == Replaced(s, p);
      ReplaceEnds(s', p);
    }
    First(ALL, p, s, Uploading(p, u), Replaced(s, p));
  }

  // ----- a step that breaks a hypothesis can end torn -----

  ghost predicate CanTear(s: State, p: Ref) {
    exists t :: Leads(ALL, p, s, t) && Torn(t, p)
  }

  /** The same, and nothing is under way for p in the end. */
  ghost predicate CanEndTorn(s: State, p: Ref) {
    exists t :: Leads(ALL, p, s, t) && Torn(t, p) && p !in t.ingests && !JobAt(t, p)
  }

  /** The worker drops what it is doing and takes up p. */
  lemma TakesUp(s: State, p: Ref) returns (t: State)
    requires p in s.worker.queue
    ensures Leads(ALL, p, s, t)
    ensures t == s.(worker := Worker(s.worker.queue - {p}, Some(Job(p, s.worker.queue[p], Deriving(DEFERRED, map[])))))
  {
    Nowhere(ALL, p, s);
    t := s;
    if s.worker.job.Some? {
      Then(ALL, p, s, t, Working(Fail));
      t := ApplyWork(t, Fail);
    }
    Then(ALL, p, s, t, Working(Take(p)));
    t := ApplyWork(t, Take(p));
  }

  /** A spoiled job, the replacement by the very file it was taken for, and the mark. */
  lemma SpoiledTears(s: State, p: Ref)
    requires Busy(s, p) && Spoiled(s, p) && UnderWay(s, p) && s.ingests[p] == Replace(FileOf(s.worker.job.value.row), Begun)
    ensures CanEndTorn(s, p)
  {
    var t := Finishes(s, p);
    ReplaceEnds(t, p);
    Onward(ALL, p, s, t, Replaced(t, p));
    var u := Replaced(t, p);
    Then(ALL, p, s, u, Working(Mark));
    assert Torn(MarkStep(u), p) by {
      assert !Fresh(u.worker.job.value, t.disk[p], FileOf(u.rows[p]));
    }
  }

  lemma ReturnTears(s: State, p: Ref, jpeg: Jpeg)
    requires Inv(s, p) && CanUpload(s, p, BeginReplace(jpeg)) && HashNamesFile(s, p, jpeg)
    requires s.rows[p].hash != jpeg.hash && HeldByWorker(s, p, jpeg)
    ensures CanEndTorn(ApplyUpload(s, p, BeginReplace(jpeg)), p)
  {
    var s' := ApplyUpload(s, p, BeginReplace(jpeg));
    if p in s.worker.queue && s.worker.queue[p].hash == jpeg.hash {
      var t := TakesUp(s', p);
      assert Stored(t.disk, p) == Some(FileOf(s.rows[p]));
      SpoiledTears(t, p);
      var u :| Leads(ALL, p, t, u) && Torn(u, p) && p !in u.ingests && !JobAt(u, p);
      Onward(ALL, p, s', t, u);
    } else {
      SpoiledTears(s', p);
    }
  }

  /** A restart, and the worker takes up a hidden p. */
  lemma TakesUpAfresh(s: State, p: Ref) returns (t: State)
    requires p in s.rows && !s.rows[p].ready && p !in s.ingests
    ensures Leads(ALL, p, s, t) && t.rows == s.rows && t.disk == s.disk && p !in t.ingests
    ensures t.worker.job == Some(Job(p, s.rows[p], Deriving(DEFERRED, map[])))
  {
    Nowhere(ALL, p, s);
    Then(ALL, p, s, s, Administering(Restart));
    var s1 := ApplyAdmin(s, Restart);
    Then(ALL, p, s, s1, Working(List));
    var s2 := ApplyWork(s1, List);
    Then(ALL, p, s, s2, Working(Take(p)));
    t := ApplyWork(s2, Take(p));
  }

  /** After a restart the worker finds p hidden and shows it, whatever its original is. */
  lemma CutTears(s: State, p: Ref, e: Event)
    requires Inv(s, p) && Enabled(s, e) && Ahead(s, p) && (e == Uploading(p, Abandon) || e == Administering(Restart))
    ensures CanEndTorn(Apply(s, e), p)
  {
    var s' := Apply(s, e);
    var t := TakesUpAfresh(s', p);
    assert Stored(t.disk, p) == Some(s.ingests[p].jpeg);
    var u := Finishes(t, p);
    Onward(ALL, p, s', t, u);
    Then(ALL, p, s', u, Working(Mark));
  }

  lemma MarkTears(s: State, p: Ref)
    requires Inv(s, p) && CanWork(s.worker, Mark) && JobAt(s, p) && !NoMarkWhileReplacing(s, p, Working(Mark))
    ensures CanTear(MarkStep(s), p) && (s.ingests[p].stage != Renamed ==> CanEndTorn(MarkStep(s), p))
  {
    var s' := MarkStep(s);
    if s.ingests[p].stage == Renamed {
      Nowhere(ALL, p, s');
      assert Torn(s', p);
    } else {
      ReplaceEnds(s', p);
      var t := Replaced(s', p);
      assert Rendered(s.disk[p], Thumb, FileOf(s.rows[p])) by { assert Expected(Thumb, FileOf(s.rows[p])); }
      assert !Rendered(t.disk[p], Thumb, FileOf(t.rows[p]));
      assert Torn(t, p);
    }
  }

  /**
   The hypotheses of ReadyIsWhole are exact, step by step. After any run that
   keeps to them, a step keeps to them if and only if visitors cannot see p torn
   in any continuation that keeps to them.
   */
  lemma HypothesesAreExact(es: seq<Event>, p: Ref, e: Event)
    requires CanRun(INITIAL, es) && KeepsTo(ALL, p, INITIAL, es)
    requires Enabled(After(INITIAL, es), e) && HashesNameFiles(After(INITIAL, es), p, e)
    ensures HoldAll(ALL, After(INITIAL, es), p, e) <==> !CanTear(Apply(After(INITIAL, es), e), p)
  {
    var s := After(INITIAL, es);
    RunKeeps(INITIAL, es, p);
    HypIsAll(s, p, e);
    if Hyp(s, p, e) {
      StepKeeps(s, e, p);
      forall t | Leads(ALL, p, Apply(s, e), t) ensures !Torn(t, p) {
        var fs :| RunsTo(ALL, p, Apply(s, e), fs, t);
        RunKeeps(Apply(s, e), fs, p);
      }
    } else if !NoReturnBehindWorker(s, p, e) {
      ReturnTears(s, p, e.upload.jpeg);
    } else if !CommitReachesRow(s, p, e) {
      CutTears(s, p, e);
    } else {
      MarkTears(s, p);
    }
  }

  /**
   When a request or the process ends, the stored original is the row's file
   exactly if no replacement by another file was between Commit and UpdatePhoto.
   */
  lemma CutOffAgreesIff(es: seq<Event>, p: Ref, e: Event)
    requires CanRun(INITIAL, es) && KeepsTo(ALL, p, INITIAL, es) && p in After(INITIAL, es).rows
    requires Enabled(After(INITIAL, es), e) && (e == Uploading(p, Abandon) || e == Administering(Restart))
    ensures var s := After(INITIAL, es);
            Stored(Apply(s, e).disk, p) == Some(FileOf(Apply(s, e).rows[p])) <==> !Ahead(s, p)
  {
    RunKeeps(INITIAL, es, p);
  }

  // ----- each hypothesis can be broken by itself -----

  /** Two files too small for a large variant. */
  const A := Jpeg(1, 800, 600)
  const B := Jpeg(2, 800, 600)
  const P := Ref(0, 0)

  /** The row right after the upload of A. */
  const ROW := Row(0, 1, 800, 600, false)

  /** One album with one photo. */
  const UPLOADED := State({0}, map[P := ROW], map[P := map[Original := Upload(A)]], {P}, {0}, map[], {}, {}, Worker(map[], None))

  /** Its upload has been accepted. */
  const BEGUN := State({0}, map[], map[], {P}, {0}, map[P := New(A, 0, Begun)], {}, {}, Worker(map[], None))

  lemma Arrived()
    requires Leads(ALL, P, INITIAL, BEGUN)
    ensures Leads(ALL, P, INITIAL, UPLOADED)
  {
    Then(ALL, P, INITIAL, BEGUN, Uploading(P, MakeDir));
    var s1 := Apply(BEGUN, Uploading(P, MakeDir));
    Then(ALL, P, INITIAL, s1, Uploading(P, RenameOriginal));
    var s2 := Apply(s1, Uploading(P, RenameOriginal));
    assert s2.disk == map[P := map[Original := Upload(A)]];
    Then(ALL, P, INITIAL, s2, Uploading(P, Insert));
    assert s2.ingests - {P} == map[];
    assert Apply(s2, Uploading(P, Insert)) == UPLOADED;
  }

  lemma Uploaded()
    ensures Leads(ALL, P, INITIAL, UPLOADED)
  {
    Nowhere(ALL, P, INITIAL);
    Then(ALL, P, INITIAL, INITIAL, Administering(CreateAlbum(0)));
    var s1 := Apply(INITIAL, Administering(CreateAlbum(0)));
    Then(ALL, P, INITIAL, s1, Uploading(P, BeginNew(A, 0)));
    var s2 := Apply(s1, Uploading(P, BeginNew(A, 0)));
    assert s2 == BEGUN;
    Arrived();
  }

  /** The worker has a snapshot of A, and the photo is B. */
  lemma ListedThenReplaced() returns (s: State)
    ensures Leads(ALL, P, INITIAL, s) && P in s.worker.queue && s.worker.queue[P] == ROW
    ensures P in s.rows && FileOf(s.rows[P]) == B && P !in s.ingests && s.worker.job.None?
  {
    Uploaded();
    Then(ALL, P, INITIAL, UPLOADED, Working(List));
    var s1 := Apply(UPLOADED, Working(List));
    Then(ALL, P, INITIAL, s1, Uploading(P, BeginReplace(B)));
    var s2 := Apply(s1, Uploading(P, BeginReplace(B)));
    ReplaceEnds(s2, P);
    s := Replaced(s2, P);
    Onward(ALL, P, INITIAL, s2, s);
  }

  /** A replacement by B has hidden the row. */
  lemma HiddenFor(s0: State) returns (s: State)
    requires Leads(ALL, P, INITIAL, s0) && P in s0.rows && s0.rows[P] == ROW && P !in s0.ingests && s0.worker.queue == map[]
    requires s0.worker.job.None? || s0.worker.job.value.row == ROW
    ensures Leads(ALL, P, INITIAL, s) && s == s0.(ingests := s0.ingests[P := Replace(B, Hidden)])
  {
    Then(ALL, P, INITIAL, s0, Uploading(P, BeginReplace(B)));
    var s1 := Apply(s0, Uploading(P, BeginReplace(B)));
    Then(ALL, P, INITIAL, s1, Uploading(P, Hide));
    s := Apply(s1, Uploading(P, Hide));
    assert s.rows == s0.rows;
    assert s.ingests == s0.ingests[P := Replace(B, Hidden)];
  }

  /** The file of the replacement by B is in place, and the row is not rewritten yet. */
  lemma CommittedOnly() returns (s: State)
    ensures Leads(ALL, P, INITIAL, s) && P in s.rows && s.rows[P] == ROW && P in s.ingests && s.ingests[P] == Replace(B, Renamed)
  {
    Uploaded();
    var s1 := HiddenFor(UPLOADED);
    Then(ALL, P, INITIAL, s1, Uploading(P, MakeDir));
    var s2 := Apply(s1, Uploading(P, MakeDir));
    Then(ALL, P, INITIAL, s2, Uploading(P, RenameOriginal));
    s := Apply(s2, Uploading(P, RenameOriginal));
  }

  /** The worker has everything of A in place, and a replacement by B has hidden the row. */
  lemma StockedThenHidden() returns (s: State)
    ensures Leads(ALL, P, INITIAL, s) && P in s.rows && s.rows[P] == ROW
    ensures P in s.ingests && s.ingests[P] == Replace(B, Hidden) && s.worker.job == Some(Job(P, ROW, Pruning([])))
  {
    Uploaded();
    Then(ALL, P, INITIAL, UPLOADED, Working(List));
    var s1 := Apply(UPLOADED, Working(List));
    Then(ALL, P, INITIAL, s1, Working(Take(P)));
    var s2 := Apply(s1, Working(Take(P)));
    assert s2.worker.queue == map[];
    var s3 := Finishes(s2, P);
    Onward(ALL, P, INITIAL, s2, s3);
    s := HiddenFor(s3);
  }

  /** A run, then a step that breaks h alone, then a run: one run that keeps to the others. */
  lemma BreakingOne(h: Hypothesis, s: State, e: Event)
    requires Leads(ALL, P, INITIAL, s) && Enabled(s, e) && HashesNameFiles(s, P, e) && HoldAll(ALL - {h}, s, P, e)
    requires CanEndTorn(Apply(s, e), P)
    ensures exists t :: Leads(ALL - {h}, P, INITIAL, t) && Torn(t, P) && P !in t.ingests && !JobAt(t, P)
  {
    var t :| Leads(ALL, P, Apply(s, e), t) && Torn(t, P) && P !in t.ingests && !JobAt(t, P);
    LeadsWeaker(ALL - {h}, P, INITIAL, s);
    LeadsWeaker(ALL - {h}, P, Apply(s, e), t);
    First(ALL - {h}, P, s, e, t);
    Onward(ALL - {h}, P, INITIAL, s, t);
  }

  lemma ReachedIsGood(s: State)
    requires Leads(ALL, P, INITIAL, s)
    ensures Inv(s, P)
  {
    var es :| RunsTo(ALL, P, INITIAL, es, s);
    RunKeeps(INITIAL, es, P);
  }

  /**
   Without NoReturns: the worker takes a snapshot of A, the photo becomes B, and
   A again before the worker is done; it renders B and marks A.
   */
  lemma ReturningFileTears()
    ensures exists t :: Leads(ALL - {NoReturns}, P, INITIAL, t) && Torn(t, P) && P !in t.ingests && !JobAt(t, P)
  {
    var s := ListedThenReplaced();
    ReachedIsGood(s);
    ReturnTears(s, P, A);
    BreakingOne(NoReturns, s, Uploading(P, BeginReplace(A)));
  }

  /**
   Without CommitsReachRows: a replacement ends after its file is in place and
   before the row is rewritten; the worker shows the old row over the new file.
   */
  lemma LostUpdateTears()
    ensures exists t :: Leads(ALL - {CommitsReachRows}, P, INITIAL, t) && Torn(t, P) && P !in t.ingests && !JobAt(t, P)
  {
    var s := CommittedOnly();
    ReachedIsGood(s);
    CutTears(s, P, Uploading(P, Abandon));
    BreakingOne(CommitsReachRows, s, Uploading(P, Abandon));
  }

  /**
   Without NoMarkInside: the worker marks the row between the replacement's
   MarkVariantsPending and UpdatePhoto; it ends visible with the new file and the
   variants of the old one.
   */
  lemma MarkInsideTears()
    ensures exists t :: Leads(ALL - {NoMarkInside}, P, INITIAL, t) && Torn(t, P) && P !in t.ingests && !JobAt(t, P)
  {
    var s := StockedThenHidden();
    ReachedIsGood(s);
    MarkTears(s, P);
    BreakingOne(NoMarkInside, s, Working(Mark));
  }

  /** None of the three hypotheses of ReadyIsWhole can be dropped. */
  lemma EachHypothesisIsNeeded(h: Hypothesis)
    ensures exists t :: Leads(ALL - {h}, P, INITIAL, t) && Torn(t, P) && P !in t.ingests && !JobAt(t, P)
  {
    match h
    case NoReturns => ReturningFileTears();
    case CommitsReachRows => LostUpdateTears();
    case NoMarkInside => MarkInsideTears();
  }

  // ----- when exactly a replacement ends visible -----

  /** p has a row and its replacement goes on through every state of the run. */
  ghost predicate KeepsReplacing(s: State, es: seq<Event>, p: Ref)
    requires CanRun(s, es)
    decreases |es|
  {
    p in s.rows && Replacing(s, p) && (es == [] || KeepsReplacing(Apply(s, es[0]), es[1..], p))
  }

  predicate MarksNow(s: State, e: Event, p: Ref) {
    e == Working(Mark) && MarkMatches(s) && s.worker.job.value.p == p
  }

  /** Some MarkVariantsReady of the run matches the row of p. */
  ghost predicate MarkedDuring(s: State, es: seq<Event>, p: Ref)
    requires CanRun(s, es)
    decreases |es|
  {
    es != [] && (MarksNow(s, es[0], p) || MarkedDuring(Apply(s, es[0]), es[1..], p))
  }

  lemma OnlyMarkShows(s: State, e: Event, p: Ref)
    requires Enabled(s, e) && p in s.rows && Replacing(s, p) && p in Apply(s, e).rows && Replacing(Apply(s, e), p)
    ensures Apply(s, e).rows[p].ready <==> s.rows[p].ready || MarksNow(s, e, p)
  {
    match e
    case Uploading(q, u) => if q != p { UploadTouchesOne(s, q, u, p); }
    case Administering(a) =>
    case Working(w) => if w == Mark { assert ApplyWork(s, w) == MarkStep(s); } else { assert ApplyWork(s, w).rows == s.rows; }
  }

  /**
   Whatever else happens between a replacement's MarkVariantsPending and its
   UpdatePhoto, the row comes out of it visible if and only if the worker's
   MarkVariantsReady matched that row in between.
   */
  lemma {:induction false} VisibleAfterReplaceIffMarkedInside(s: State, es: seq<Event>, p: Ref)
    requires CanRun(s, es) && KeepsReplacing(s, es, p)
    requires CanUpload(After(s, es), p, Update) && p in After(s, es).rows
    ensures p in ApplyUpload(After(s, es), p, Update).rows
    ensures ApplyUpload(After(s, es), p, Update).rows[p].ready <==> s.rows[p].ready || MarkedDuring(s, es, p)
    decreases |es|
  {
    if es != [] {
      OnlyMarkShows(s, es[0], p);
      VisibleAfterReplaceIffMarkedInside(Apply(s, es[0]), es[1..], p);
    }
  }
}
