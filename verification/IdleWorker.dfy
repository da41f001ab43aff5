/**
 The wake-up protocol over the photos table: when the worker is idle, every row that
 has been kicked for is visible or has failed; and every photo that was in the table
 at a kick has since been seen settled - visible with the hash it had, replaced or
 gone - or has failed.
 */
module IdleWorker {
  import opened Base
  import opened Pipeline
  import W = Wakeup

  datatype World = World(
    pipe: State,
    wake: W.State,
    failed: set<(Ref, nat)>,             // photo and content hash that failed in this process
    listed: bool,                        // the running drain has its snapshot
    unkicked: set<Ref>,                  // history: rows that an upload has changed, with no kick since
    owed: map<nat, map<Ref, Row>>,       // history: the table at each kick
    answered: set<(nat, Ref)>)           // history: what of it has been settled or failed since

  /** A process starts; what it finds in the table is pipe's, and nobody has kicked for it yet. */
  function Started(pipe: State): World {
    World(pipe, W.INITIAL, {}, false, pipe.rows.Keys, map[], {})
  }

  datatype Step =
    | Pipe(e: Event)
    | Wake(w: W.Step)
    | CutDrain             // the table cannot be read, or the context is cancelled

  /** Visible with this hash, replaced, gone, or failed. */
  predicate IsAnswered(w: World, p: Ref, row: Row) {
    p !in w.pipe.rows || w.pipe.rows[p].hash != row.hash || w.pipe.rows[p].ready || (p, row.hash) in w.failed
  }

  predicate AnsweredNow(w: World, k: nat, p: Ref) {
    k in w.owed && p in w.owed[k] && IsAnswered(w, p, w.owed[k][p])
  }

  function Noted(w: World): World {
    w.(answered := w.answered + set k, p | k in w.owed && p in w.owed[k] && AnsweredNow(w, k, p) :: (k, p))
  }

  /** What generate returns an error for, and drain remembers; a failed Derive is none if the row is gone. */
  function FailedBy(s: State, work: WorkStep): set<(Ref, nat)>
    requires CanWork(s.worker, work)
  {
    if s.worker.job.None? || ApplyWork(s, work).worker.job.Some? then {} else
      var j := s.worker.job.value;
      match j.phase
      case Deriving(_, _) => if j.p in s.rows then {(j.p, j.row.hash)} else {}
      case Committing(_, _, _) => {(j.p, j.row.hash)}
      case Pruning(_) => if work.Mark? then {} else {(j.p, j.row.hash)}
      case _ => {}
  }

  /** The rows that are new, have another hash, or have been hidden. */
  function Changed(s: State, t: State): set<Ref> {
    set p | p in t.rows && (p !in s.rows || t.rows[p].hash != s.rows[p].hash || (s.rows[p].ready && !t.rows[p].ready))
  }

  /** The worker works in drains only: one listing, and then photo by photo, those that failed before left out. */
  predicate InDrain(w: World, work: WorkStep)
    requires CanWork(w.pipe.worker, work)
  {
    && w.wake.loop.Draining? && (work.List? <==> !w.listed)
    && (work.Skip? ==> (work.p, w.pipe.worker.queue[work.p].hash) in w.failed)
    && (work.Take? ==> (work.p, w.pipe.worker.queue[work.p].hash) !in w.failed)
  }

  predicate CanStep(w: World, e: Step) {
    match e
    case Pipe(x) => Enabled(w.pipe, x) && x != Administering(Restart) && (x.Working? ==> InDrain(w, x.work))
    case Wake(x) => W.Enabled(w.wake, x) && (x.FinishDrain? ==> w.listed && w.pipe.worker == Worker(map[], None))
    case CutDrain => w.wake.loop.Draining? && w.pipe.worker.job.None?
  }

  function Effect(w: World, e: Step): World
    requires CanStep(w, e)
  {
    match e
    case Pipe(x) =>
      w.(pipe := Apply(w.pipe, x),
         failed := w.failed + (if x.Working? then FailedBy(w.pipe, x.work) else {}),
         listed := w.listed || x == Working(List),
         unkicked := w.unkicked + Changed(w.pipe, Apply(w.pipe, x)))
    case Wake(x) =>
      var t := w.(wake := W.Apply(w.wake, x));
      match x {
        case SetFlag(k) => t.(owed := w.owed[k := w.pipe.rows], unkicked := {})
        case Tick => t.(failed := {})
        case StartDrain => t.(listed := false)
        case _ => t
      }
    case CutDrain =>
      w.(wake := W.Apply(w.wake, W.FinishDrain), pipe := w.pipe.(worker := Worker(map[], None)))
  }

  function Next(w: World, e: Step): World
    requires CanStep(w, e)
  {
    Noted(Effect(w, e))
  }

  predicate CanGo(w: World, es: seq<Step>)
    decreases |es|
  {
    es == [] || (CanStep(w, es[0]) && CanGo(Next(w, es[0]), es[1..]))
  }

  function End(w: World, es: seq<Step>): World
    requires CanGo(w, es)
    decreases |es|
  {
    if es == [] then w else End(Next(w, es[0]), es[1..])
  }

  /** At some moment of the run, photo p of the table at kick k is answered. */
  predicate SeenAnswered(w: World, es: seq<Step>, k: nat, p: Ref)
    requires CanGo(w, es)
    decreases |es|
  {
    AnsweredNow(w, k, p) || (es != [] && SeenAnswered(Next(w, es[0]), es[1..], k, p))
  }

  // ----- the invariant -----

  /** A hidden row that has been kicked for and has not failed. */
  predicate Waiting(w: World, p: Ref) {
    p in w.pipe.rows && p !in w.unkicked && !w.pipe.rows[p].ready && (p, w.pipe.rows[p].hash) !in w.failed
  }

  /** The drain still has this photo before it. */
  predicate Carried(worker: Worker, p: Ref, hash: nat) {
    || (p in worker.queue && worker.queue[p].hash == hash)
    || (worker.job.Some? && worker.job.value.p == p && worker.job.value.row.hash == hash
        && !worker.job.value.phase.Checking? && !worker.job.value.phase.TakingBack?)
  }

  /** A drain that has yet to list the table, or carries this photo. */
  predicate InHand(w: World, p: Ref)
    requires p in w.pipe.rows
  {
    w.wake.loop.Draining? && (w.listed ==> Carried(w.pipe.worker, p, w.pipe.rows[p].hash))
  }

  /** With no kick or wake-up to come, what waits is in a drain's hands. */
  ghost predicate NoneForgotten(w: World) {
    !w.wake.kicked && !w.wake.loop.Woken? ==> forall p :: Waiting(w, p) ==> InHand(w, p)
  }

  /** What has not been answered since a kick is still waiting, with the same hash. */
  predicate UnansweredWaits(w: World) {
    forall k, p :: k in w.owed && p in w.owed[k] && (k, p) !in w.answered ==>
      Waiting(w, p) && w.pipe.rows[p].hash == w.owed[k][p].hash
  }

  predicate AllAnswered(w: World) {
    forall k, p :: k in w.owed && p in w.owed[k] ==> (k, p) in w.answered
  }

  ghost predicate Inv(w: World) {
    && (w.wake.busy <==> w.wake.loop.Draining?)
    && NoneForgotten(w) && UnansweredWaits(w)
    && (!w.wake.kicked && !w.wake.loop.Draining? ==> AllAnswered(w))
  }

  lemma NotedHas(w: World, k: nat, p: Ref)
    ensures (k, p) in Noted(w).answered <==> (k, p) in w.answered || AnsweredNow(w, k, p)
  {
  }

  lemma StaysUnanswered(w: World, e: Step)
    requires CanStep(w, e) && UnansweredWaits(w)
    ensures UnansweredWaits(Next(w, e))
  {
    var t := Effect(w, e);
    forall k, p | k in t.owed && p in t.owed[k] && (k, p) !in Next(w, e).answered
      ensures Waiting(t, p) && t.pipe.rows[p].hash == t.owed[k][p].hash
    {
      NotedHas(t, k, p);
      assert t.answered == w.answered && !AnsweredNow(t, k, p);
    }
  }

  lemma StaysAnswered(w: World, e: Step)
    requires CanStep(w, e) && AllAnswered(w) && Effect(w, e).owed == w.owed
    ensures AllAnswered(Next(w, e))
  {
    assert Effect(w, e).answered == w.answered;
  }

  /** A photo is carried on, or answered. */
  predicate CarriedOn(s: State, work: WorkStep, p: Ref, hash: nat)
    requires CanWork(s.worker, work)
  {
    var t := ApplyWork(s, work);
    || Carried(t.worker, p, hash) || p !in t.rows || t.rows[p].hash != hash || t.rows[p].ready
    || (p, hash) in FailedBy(s, work)
  }

  lemma RenderCarriesOn(s: State, work: WorkStep, p: Ref, hash: nat)
    requires CanWork(s.worker, work) && Carried(s.worker, p, hash) && (work.MakeVariantDir? || work.RenameVariant? || work.PruneNext?)
    ensures CarriedOn(s, work, p, hash)
  {
  }

  lemma WorkCarriesOn(s: State, work: WorkStep, p: Ref, hash: nat)
    requires CanWork(s.worker, work) && !work.List? && !work.Skip? && Carried(s.worker, p, hash)
    ensures CarriedOn(s, work, p, hash)
  {
    if work.MakeVariantDir? || work.RenameVariant? || work.PruneNext? { RenderCarriesOn(s, work, p, hash); }
  }

  /** The worker changes a row only by showing it. */
  lemma WorkOnlyShows(s: State, work: WorkStep, p: Ref)
    requires CanWork(s.worker, work) && p in ApplyWork(s, work).rows
    ensures p in s.rows && ApplyWork(s, work).rows[p].hash == s.rows[p].hash
    ensures !ApplyWork(s, work).rows[p].ready ==> !s.rows[p].ready
  {
    if !work.Mark? { assert ApplyWork(s, work).rows == s.rows; }
  }

  lemma WorkForgetsNone(w: World, work: WorkStep)
    requires CanStep(w, Pipe(Working(work))) && NoneForgotten(w)
    ensures NoneForgotten(Next(w, Pipe(Working(work))))
  {
    var t := Next(w, Pipe(Working(work)));
    if !w.wake.kicked {
      forall p | Waiting(t, p) ensures InHand(t, p) {
        WorkOnlyShows(w.pipe, work, p);
        assert Waiting(w, p) && InHand(w, p);
        if !work.List? && !work.Skip? { WorkCarriesOn(w.pipe, work, p, w.pipe.rows[p].hash); }
      }
    }
  }

  lemma UploadKeepsWorker(s: State, p: Ref, u: UploadStep)
    requires CanUpload(s, p, u)
    ensures ApplyUpload(s, p, u).worker == s.worker
  {
  }

  lemma RequestForgetsNone(w: World, x: Event)
    requires CanStep(w, Pipe(x)) && !x.Working? && NoneForgotten(w)
    ensures NoneForgotten(Next(w, Pipe(x)))
  {
    var t := Next(w, Pipe(x));
    if x.Uploading? { UploadKeepsWorker(w.pipe, x.p, x.upload); }
    assert t.pipe.worker == w.pipe.worker && t.wake == w.wake && t.failed == w.failed;
    if !w.wake.kicked && !w.wake.loop.Woken? {
      forall p | Waiting(t, p) ensures InHand(t, p) {
        assert p !in Changed(w.pipe, t.pipe);
        assert Waiting(w, p) && InHand(w, p);
      }
    }
  }

  lemma PipeKeeps(w: World, x: Event)
    requires Inv(w) && CanStep(w, Pipe(x))
    ensures Inv(Next(w, Pipe(x)))
  {
    StaysUnanswered(w, Pipe(x));
    if x.Working? { WorkForgetsNone(w, x.work); } else { RequestForgetsNone(w, x); }
    if !w.wake.kicked && !w.wake.loop.Draining? { StaysAnswered(w, Pipe(x)); }
  }

  lemma WakeForgetsNone(w: World, x: W.Step)
    requires Inv(w) && CanStep(w, Wake(x))
    ensures NoneForgotten(Next(w, Wake(x)))
  {
    var t := Next(w, Wake(x));
    if !t.wake.kicked && !t.wake.loop.Woken? {
      forall p | Waiting(t, p) ensures InHand(t, p) {
        if !x.StartDrain? { assert Waiting(w, p) && InHand(w, p); }
      }
    }
  }

  lemma WakeKeeps(w: World, x: W.Step)
    requires Inv(w) && CanStep(w, Wake(x))
    ensures Inv(Next(w, Wake(x)))
  {
    StaysUnanswered(w, Wake(x));
    WakeForgetsNone(w, x);
    var t := Effect(w, Wake(x));
    if !t.wake.kicked && !t.wake.loop.Draining? {
      if x.FinishDrain? { assert forall p :: !Waiting(w, p); }
      assert AllAnswered(w) && t.owed == w.owed;
      StaysAnswered(w, Wake(x));
    }
  }

  // ----- cutting a drain off -----

  /** What the worker has left to do: the rest of its list, or what a list would have. */
  function Left(w: World): map<Ref, Row> {
    if w.listed then w.pipe.worker.queue else Pending(w.pipe.rows)
  }

  /** A drain is cut off only if there has been another kick, or nothing that waits is left on its list. */
  predicate CutsLate(w: World, e: Step) {
    e.CutDrain? && !w.wake.kicked ==>
      forall p :: p in Left(w) && Waiting(w, p) ==> Left(w)[p].hash != w.pipe.rows[p].hash
  }

  predicate AllCutsLate(w: World, es: seq<Step>)
    requires CanGo(w, es)
    decreases |es|
  {
    es == [] || (CutsLate(w, es[0]) && AllCutsLate(Next(w, es[0]), es[1..]))
  }

  /** What the two flags promise of the table, unless the loop has just been woken by its ticker. */
  ghost predicate Promise(w: World) {
    !w.wake.busy && !w.wake.kicked && !w.wake.loop.Woken? ==> forall p :: !Waiting(w, p)
  }

  lemma CutWaitsForSame(w: World, p: Ref)
    requires CanStep(w, CutDrain)
    ensures Waiting(Next(w, CutDrain), p) <==> Waiting(w, p)
  {
  }

  /** At a cut, what waits is left on the list. */
  lemma WaitingIsLeft(w: World, p: Ref)
    requires Inv(w) && CanStep(w, CutDrain) && !w.wake.kicked && Waiting(w, p)
    ensures p in Left(w) && Left(w)[p].hash == w.pipe.rows[p].hash
  {
    assert InHand(w, p);
  }

  lemma CutKeepsPromiseIff(w: World)
    requires Inv(w) && CanStep(w, CutDrain)
    ensures Promise(Next(w, CutDrain)) <==> CutsLate(w, CutDrain)
  {
    if !w.wake.kicked {
      forall p ensures Waiting(Next(w, CutDrain), p) <==> Waiting(w, p) { CutWaitsForSame(w, p); }
      forall p | Waiting(w, p) ensures p in Left(w) && Left(w)[p].hash == w.pipe.rows[p].hash { WaitingIsLeft(w, p); }
    }
  }

  lemma CutKeeps(w: World)
    requires Inv(w) && CanStep(w, CutDrain) && CutsLate(w, CutDrain)
    ensures Inv(Next(w, CutDrain))
  {
    CutKeepsPromiseIff(w);
    StaysUnanswered(w, CutDrain);
  }

  lemma {:induction false} GoKeeps(w: World, es: seq<Step>)
    requires Inv(w) && CanGo(w, es) && AllCutsLate(w, es)
    ensures Inv(End(w, es))
    decreases |es|
  {
    if es != [] {
      match es[0] {
        case Pipe(x) => PipeKeeps(w, x);
        case Wake(x) => WakeKeeps(w, x);
        case CutDrain => CutKeeps(w);
      }
      GoKeeps(Next(w, es[0]), es[1..]);
    }
  }

  // ----- the theorems -----

  /**
   Whatever uploads, replacements and deletes do meanwhile, and with kicks, ticks and
   drains interleaved in any way: if drains are cut off only late, then whenever the
   worker is neither busy nor kicked and has not just been woken, every row of the
   table is visible or in failed, but for those that an upload has changed and not
   kicked for yet.
   */
  lemma IdleMeansVisible(pipe: State, es: seq<Step>, p: Ref)
    requires CanGo(Started(pipe), es) && AllCutsLate(Started(pipe), es)
    requires var w := End(Started(pipe), es); !w.wake.busy && !w.wake.kicked && !w.wake.loop.Woken?
    requires p in End(Started(pipe), es).pipe.rows && p !in End(Started(pipe), es).unkicked
    ensures var w := End(Started(pipe), es);
            w.pipe.rows[p].ready || (p, w.pipe.rows[p].hash) in w.failed
  {
    GoKeeps(Started(pipe), es);
    assert !Waiting(End(Started(pipe), es), p);
  }

  /** The history tells the truth. */
  lemma {:induction false} AnsweredWasSeen(w: World, es: seq<Step>, k: nat, p: Ref)
    requires CanGo(w, es) && (k, p) in End(w, es).answered && (k, p) !in w.answered
    ensures SeenAnswered(w, es, k, p)
    decreases |es|
  {
    if es != [] {
      var t := Effect(w, es[0]);
      NotedHas(t, k, p);
      assert t.answered == w.answered;
      if AnsweredNow(t, k, p) {
        assert AnsweredNow(Next(w, es[0]), k, p);
      } else {
        AnsweredWasSeen(Next(w, es[0]), es[1..], k, p);
      }
    }
  }

  /**
   And whenever it is neither busy nor kicked, woken or not, every photo that was in
   the table at any kick has been visible with that hash, replaced, gone or failed at
   some moment since.
   */
  lemma IdleMeansSettled(pipe: State, es: seq<Step>, k: nat, p: Ref)
    requires CanGo(Started(pipe), es) && AllCutsLate(Started(pipe), es)
    requires var w := End(Started(pipe), es); !w.wake.busy && !w.wake.kicked && k in w.owed && p in w.owed[k]
    ensures SeenAnswered(Started(pipe), es, k, p)
  {
    GoKeeps(Started(pipe), es);
    AnsweredWasSeen(Started(pipe), es, k, p);
  }

  /** From here on, as long as drains are cut off only late, the flags keep what they promise. */
  ghost predicate CanBeTrusted(w: World) {
    forall es :: CanGo(w, es) && AllCutsLate(w, es) ==> Promise(End(w, es))
  }

  /** And that is exact: a drain may be cut off, and idle still be trusted ever after, if and only if it is late. */
  lemma {:induction false} CutDrainTrustedIffLate(pipe: State, es: seq<Step>)
    requires CanGo(Started(pipe), es) && AllCutsLate(Started(pipe), es) && CanStep(End(Started(pipe), es), CutDrain)
    ensures CanBeTrusted(Next(End(Started(pipe), es), CutDrain)) <==> CutsLate(End(Started(pipe), es), CutDrain)
  {
    var w := End(Started(pipe), es);
    var t := Next(w, CutDrain);
    GoKeeps(Started(pipe), es);
    CutKeepsPromiseIff(w);
    assert CanGo(t, []) && AllCutsLate(t, []) && End(t, []) == t;
    if CutsLate(w, CutDrain) {
      CutKeeps(w);
      forall fs | CanGo(t, fs) && AllCutsLate(t, fs) ensures Promise(End(t, fs)) {
        GoKeeps(t, fs);
      }
    }
  }

  /** Run: a drain that is cut off early, and idle over a photo that nobody has looked at. */
  lemma CutDrainLies(pipe: State, p: Ref)
    requires p in pipe.rows && !pipe.rows[p].ready && pipe.worker == Worker(map[], None)
    ensures exists es :: CanGo(Started(pipe), es) && W.Idle(End(Started(pipe), es).wake) &&
              0 in End(Started(pipe), es).owed && p in End(Started(pipe), es).owed[0] && !SeenAnswered(Started(pipe), es, 0, p)
  {
    var w0 := Started(pipe);
    var w1 := Next(w0, Wake(W.SetFlag(0)));
    var w2 := Next(w1, Wake(W.PushToken(0)));
    var w3 := Next(w2, Wake(W.EnterRun));
    var w4 := Next(w3, Wake(W.TakeToken));
    var w5 := Next(w4, Wake(W.StartDrain));
    var es := FirstGoes(w5, [], CutDrain, p);
    es := FirstGoes(w4, es, Wake(W.StartDrain), p);
    es := FirstGoes(w3, es, Wake(W.TakeToken), p);
    es := FirstGoes(w2, es, Wake(W.EnterRun), p);
    es := FirstGoes(w1, es, Wake(W.PushToken(0)), p);
    es := FirstGoes(w0, es, Wake(W.SetFlag(0)), p);
  }

  lemma FirstGoes(w: World, es: seq<Step>, e: Step, p: Ref) returns (more: seq<Step>)
    requires CanStep(w, e) && CanGo(Next(w, e), es) && !AnsweredNow(w, 0, p) && !SeenAnswered(Next(w, e), es, 0, p)
    ensures more == [e] + es && CanGo(w, more) && End(w, more) == End(Next(w, e), es) && !SeenAnswered(w, more, 0, p)
  {
    more := [e] + es;
    assert more[1..] == es;
  }
}
