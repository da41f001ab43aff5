/**
 The upload, delete and file handlers and the worker's generate and drain, step by
 step over the table and the file tree. `Others` stands between any two steps for
 whatever the other processes do meanwhile, and `Fails` for an I/O error or a
 cancelled request. On a healthy server, which has neither, each method fails for a
 stated reason only. Everything goes into one log, which is a run of Pipeline, so
 what is proved about all runs holds of these methods side by side.
 */
module Handlers {
  import opened Base
  import opened Pipeline
  import opened Backend
  import opened Deeds
  import Ready = PipelineReady
  import Orphans = PipelineOrphans

  predicate NothingOf(disk: map<Ref, Dir>, album: nat) {
    forall p :: p in disk ==> p.album != album
  }

  datatype DeleteReply = Deleted | NotFound | InternalError

  datatype VariantReply = PhotoNotFound | FileMissing | Served(file: File) | ServerError

  ghost function Elements(vs: seq<Variant>): set<Variant> {
    set v | v in vs
  }

  lemma ElementsSnoc(vs: seq<Variant>, v: Variant)
    ensures Elements(vs + [v]) == Elements(vs) + {v}
  {
  }

  /** The variants among vs that a file needs. */
  ghost function Wanted(vs: seq<Variant>, file: Jpeg): set<Variant> {
    set v | v in vs && Expected(v, file)
  }

  lemma WantedSnoc(vs: seq<Variant>, v: Variant, file: Jpeg)
    ensures Wanted(vs + [v], file) == Wanted(vs, file) + if Expected(v, file) then {v} else {}
  {
  }

  /** Every photo of the list is done with since the first from events, or has failed. */
  ghost predicate AllDone(healthy: bool, from: nat, log: seq<Event>, photos: seq<(Ref, Row)>, failed: set<(Ref, nat)>)
    requires CanRun(INITIAL, log)
  {
    forall i :: 0 <= i < |photos| ==>
      (photos[i].0, photos[i].1.hash) in failed || Done(healthy, from, log, photos[i].0, photos[i].1)
  }

  lemma AllDoneLater(healthy: bool, from: nat, log: seq<Event>, log': seq<Event>, photos: seq<(Ref, Row)>, k: nat, failed: set<(Ref, nat)>, failed': set<(Ref, nat)>)
    requires CanRun(INITIAL, log) && CanRun(INITIAL, log') && log <= log' && from <= |log| && k < |photos| && failed <= failed'
    requires AllDone(healthy, from, log, photos[..k], failed)
    requires (photos[k].0, photos[k].1.hash) in failed' || Done(healthy, |log|, log', photos[k].0, photos[k].1)
    ensures AllDone(healthy, from, log', photos[..k + 1], failed')
  {
    var some := photos[..k + 1];
    forall i | 0 <= i < |some| && (some[i].0, some[i].1.hash) !in failed'
      ensures Done(healthy, from, log', some[i].0, some[i].1)
    {
      if i < k {
        assert photos[..k][i] == some[i];
        DoneLater(healthy, from, log, from, log', some[i].0, some[i].1);
      } else {
        DoneLater(healthy, |log|, log', from, log', some[i].0, some[i].1);
      }
    }
  }

  /** A generation of p at that hash has ended in an error since the first from events. */
  ghost predicate HasFailed(healthy: bool, from: nat, log: seq<Event>, f: (Ref, nat))
    requires CanRun(INITIAL, log)
  {
    exists row: Row :: row.hash == f.1 && InError(healthy, from, log, f.0, row)
  }

  /** Each of them has failed, and with reason. */
  ghost predicate AllFailed(healthy: bool, from: nat, log: seq<Event>, failures: set<(Ref, nat)>)
    requires CanRun(INITIAL, log)
  {
    forall f :: f in failures ==> HasFailed(healthy, from, log, f)
  }

  lemma HasFailedLater(healthy: bool, from: nat, log: seq<Event>, from': nat, log': seq<Event>, f: (Ref, nat))
    requires CanRun(INITIAL, log) && CanRun(INITIAL, log') && log <= log' && from' <= from && HasFailed(healthy, from, log, f)
    ensures HasFailed(healthy, from', log', f)
  {
    var row: Row :| row.hash == f.1 && InError(healthy, from, log, f.0, row);
    InErrorLater(healthy, from, log, from', log', f.0, row);
  }

  lemma AllFailedLater(healthy: bool, from: nat, log: seq<Event>, log': seq<Event>, before: set<(Ref, nat)>, after: set<(Ref, nat)>)
    requires CanRun(INITIAL, log) && CanRun(INITIAL, log') && log <= log' && from <= |log| && AllFailed(healthy, from, log, before)
    requires forall f :: f in after && f !in before ==> HasFailed(healthy, |log|, log', f)
    ensures AllFailed(healthy, from, log', after)
  {
    forall f | f in after ensures HasFailed(healthy, from, log', f) {
      if f in before {
        HasFailedLater(healthy, from, log, from, log', f);
      } else {
        HasFailedLater(healthy, |log|, log', from, log', f);
      }
    }
  }

  // ----- what a visitor is given -----

  lemma {:induction false} KeepsToPrefix(p: Ref, s: State, es: seq<Event>, k: nat)
    requires CanRun(s, es) && Ready.KeepsTo(Ready.ALL, p, s, es) && k <= |es|
    ensures CanRun(s, es[..k]) && Ready.KeepsTo(Ready.ALL, p, s, es[..k])
    decreases k
  {
    if k > 0 {
      KeepsToPrefix(p, Apply(s, es[0]), es[1..], k - 1);
      assert es[..k][1..] == es[1..][..k - 1];
    }
  }

  /** The log has kept to the hypotheses of ReadyIsWhole for p. */
  ghost predicate Kept(log: seq<Event>, p: Ref)
    requires CanRun(INITIAL, log)
  {
    Ready.KeepsTo(Ready.ALL, p, INITIAL, log)
  }

  lemma KeptIsGood(log: seq<Event>, p: Ref, k: nat)
    requires CanRun(INITIAL, log) && Kept(log, p) && k <= |log|
    ensures Ready.Inv(At(log, k), p)
  {
    KeepsToPrefix(p, INITIAL, log, k);
    Ready.RunKeeps(INITIAL, log[..k], p);
  }

  predicate Visible(s: State, p: Ref) {
    p in s.rows && s.rows[p].ready
  }

  /** Since the first from events, the row of p was neither hidden nor deleted. */
  predicate LeftVisible(log: seq<Event>, from: nat, p: Ref) {
    forall k :: from <= k < |log| ==> Ready.LeavesVisible(log[k], p)
  }

  lemma {:induction false} StaysTheSame(log: seq<Event>, from: nat, k: nat, p: Ref)
    requires CanRun(INITIAL, log) && Kept(log, p) && from <= k <= |log| && LeftVisible(log, from, p) && Visible(At(log, from), p)
    ensures p in At(log, k).rows && At(log, k).rows[p] == At(log, from).rows[p]
    decreases k
  {
    if from < k {
      StaysTheSame(log, from, k - 1, p);
      AtNext(log, k - 1);
      KeptIsGood(log, p, k - 1);
      Ready.StaysVisible(At(log, k - 1), log[k - 1], p);
    }
  }

  /** What the visitor of a visible photo is due. */
  function DueFile(v: Variant, jpeg: Jpeg): File {
    if Expected(v, jpeg) then Rendering(v, jpeg) else Upload(jpeg)
  }

  /** The file to open, given whether there is a large one. */
  function Chosen(v: Variant, large: bool): Variant {
    if v == Large && !large then Original else v
  }

  predicate HasFile(disk: map<Ref, Dir>, p: Ref, v: Variant) {
    p in disk && v in disk[p]
  }

  /** The answer for a row read after from events, a stat after k1 and an open after k2. */
  ghost predicate AnswersFor(log: seq<Event>, from: nat, k1: nat, k2: nat, p: Ref, v: Variant, reply: VariantReply)
    requires CanRun(INITIAL, log) && from <= k1 <= k2 <= |log|
  {
    var w := Chosen(v, HasFile(At(log, k1).disk, p, Large));
    var d := At(log, k2).disk;
    Visible(At(log, from), p) && reply == if HasFile(d, p, w) then Served(d[p][w]) else FileMissing
  }

  lemma AnswerIsDue(log: seq<Event>, from: nat, k1: nat, k2: nat, p: Ref, v: Variant, reply: VariantReply)
    requires CanRun(INITIAL, log) && from <= k1 <= k2 <= |log| && AnswersFor(log, from, k1, k2, p, v, reply)
    requires Kept(log, p) && LeftVisible(log, from, p)
    ensures reply == Served(DueFile(v, FileOf(At(log, from).rows[p])))
  {
    StaysTheSame(log, from, k1, p);
    StaysTheSame(log, from, k2, p);
    KeptIsGood(log, p, k1);
    KeptIsGood(log, p, k2);
    var jpeg := FileOf(At(log, from).rows[p]);
    assert Ready.Whole(At(log, k1).disk[p], jpeg) && Ready.Whole(At(log, k2).disk[p], jpeg);
  }

  /** A row read since the first from events was visible, the reply is what was found for it, and if it has stayed so, what is due. */
  ghost predicate ServedFor(from: nat, log: seq<Event>, p: Ref, v: Variant, reply: VariantReply)
    requires CanRun(INITIAL, log)
  {
    exists r, k1, k2 :: from <= r <= k1 <= k2 <= |log| && ServedAt(log, r, k1, k2, p, v, reply)
  }

  ghost predicate ServedAt(log: seq<Event>, r: nat, k1: nat, k2: nat, p: Ref, v: Variant, reply: VariantReply)
    requires CanRun(INITIAL, log) && r <= k1 <= k2 <= |log|
  {
    && AnswersFor(log, r, k1, k2, p, v, reply)
    && (Kept(log, p) && LeftVisible(log, r, p) ==> reply == Served(DueFile(v, FileOf(At(log, r).rows[p]))))
  }

  class Server {
    const db: PhotoTable
    const store: Store
    const healthy: bool                 // no I/O error happens and nothing is cancelled
    var failed: set<(Ref, nat)>         // photo and content hash that failed in this process

    ghost const alone: bool             // nobody else does anything

    ghost var log: seq<Event>           // everything that has happened, by whom ever
    ghost var deeds: seq<Event>         // what the calls here have done of it
    ghost var places: seq<nat>          // and where that is in the log

    ghost var now: State                // where that leads; its tables and files are db and store
    ghost var faults: nat               // I/O errors and cancels that the calls here have met

    constructor (healthy: bool, ghost alone: bool)
      ensures this.healthy == healthy && this.alone == alone && fresh(db) && fresh(store)
      ensures Valid() && log == [] && failed == {}
    {
      this.healthy, this.alone := healthy, alone;
      db := new PhotoTable();
      store := new Store();
      failed, log, deeds, places, now, faults := {}, [], [], [], INITIAL, 0;
    }

    ghost predicate Logged()
      reads this`log, this`deeds, this`places, this`now
    {
      CanRun(INITIAL, log) && After(INITIAL, log) == now && Recorded(log, deeds, places, alone) && (healthy ==> NoCutOff(deeds))
    }

    /** The log leads to where things are, and has the deeds in their places. */
    ghost predicate Valid()
      reads this, db, store
    {
      Logged() && now.albums == db.albums && now.rows == db.rows && now.disk == store.disk
    }

    lemma Here()
      requires Valid()
      ensures At(log, |log|) == now
    {
      assert log[..|log|] == log;
    }

    lemma SeenNow(from: nat, p: Ref, fact: Fact)
      requires Valid() && from <= |log| && Is(now, p, fact)
      ensures Seen(from, log, p, fact)
    {
      Here();
    }

    // ----- what is proved of all runs, of a server -----

    /** On a server of one's own, what has happened is what the calls here have done. */
    lemma AloneOnlyDeeds()
      requires Valid() && alone
      ensures log == deeds && now == After(INITIAL, deeds)
    {
      AloneIsAll(log, deeds, places);
    }

    /** While the log keeps to the three hypotheses for p, visitors cannot see p torn. */
    lemma NotTorn(p: Ref)
      requires Valid() && Kept(log, p)
      ensures !Ready.Torn(now, p)
    {
      Ready.ReadyIsWhole(log, p);
    }

    /** While nobody has been cut off and no replacement committed too late, what nobody answers for is not there. */
    lemma NothingLeft(p: Ref)
      requires Valid() && Orphans.AllHyp(p, INITIAL, log) && !Orphans.Accounted(now, p)
      ensures p !in store.disk
    {
      Orphans.DeletedLeavesNothing(log, p);
    }

    // ----- steps -----

    /** Any number of steps of anybody but who. */
    method Environment(ghost who: Process)
      requires Valid()
      modifies this`log, this`now, db, store
      ensures Valid() && old(log) <= log && NoneOf(who, log, |old(log)|) && (alone ==> log == old(log))
    {
    }

    /** The same, and what it leaves alone. */
    method Others(ghost who: Process)
      requires Valid()
      modifies this`log, this`now, db, store
      ensures Valid() && old(log) <= log && NoneOf(who, log, |old(log)|) && SameControl(who, old(now), now)
    {
      ghost var before := log;
      Here();
      Environment(who);
      ControlKept(who, log, |before|, |log|);
      AtEarlier(before, log, |before|);
      Here();
    }

    /** Whether an I/O error or a cancel happens here. */
    method Fails() returns (fails: bool)
      modifies this`faults
      ensures (healthy ==> !fails) && faults == old(faults) + if fails then 1 else 0
    {
      fails := *;
      if healthy { fails := false; }
      if fails { faults := faults + 1; }
    }

    /** A step of one's own goes into the log. */
    ghost method Take(e: Event)
      requires Logged() && Enabled(now, e) && (healthy ==> !IsCutOff(e))
      modifies this`log, this`now, this`deeds, this`places
      ensures Logged() && log == old(log) + [e] && now == Apply(old(now), e)
      ensures deeds == old(deeds) + [e] && places == old(places) + [|old(log)|]
    {
      RunSnoc(INITIAL, log, e);
      RecordedSnoc(log, deeds, places, alone, e);
      log, deeds, places, now := log + [e], deeds + [e], places + [|log|], Apply(now, e);
    }

    /** The same, and whether p met an obstacle. */
    ghost method TakeMet(e: Event, p: Ref, fact: Fact)
      requires Logged() && Enabled(now, e) && (healthy ==> !IsCutOff(e))
      modifies this`log, this`now, this`deeds, this`places
      ensures Logged() && old(log) <= log && now == Apply(old(now), e)
      ensures deeds == old(deeds) + [e] && |places| == |deeds|
      ensures Is(old(now), p, fact) ==> Met(log, places[|old(deeds)|], e, p, fact)
    {
      var before := log;
      Take(e);
      assert log[..|before|] == before;
    }

    /** A step of the worker with a photo, which may break off there. */
    ghost method TakeWork(w: WorkStep, p: Ref, row: Row)
      requires Logged() && CanWork(now.worker, w) && (healthy ==> w != Fail)
      requires now.worker.job.Some? && now.worker.job.value.p == p && now.worker.job.value.row == row
      modifies this`log, this`now, this`deeds, this`places
      ensures Logged() && old(log) <= log && now == ApplyWork(old(now), w) && deeds == old(deeds) + [Working(w)]
      ensures now.worker.job.None? && Breaks(w, old(now), p) ==> Stopped(healthy, |old(log)|, log, p, row)
      ensures now.worker.job.None? && Breaks(w, old(now), p) && w != DeriveNext ==> InError(healthy, |old(log)|, log, p, row)
    {
      var before, s := log, now;
      Take(Working(w));
      assert log[..|before|] == before && log[..|before| + 1] == log;
      if now.worker.job.None? && Breaks(w, s, p) {
        assert StopsAt(healthy, log, |before|, p, row);
        if w != DeriveNext { assert ErrorAt(healthy, log, |before|, |log|, p, row); }
      }
    }

    /** What makes a generation break off at a step. */
    ghost predicate Breaks(w: WorkStep, s: State, p: Ref) {
      match w
      case DeriveNext => Is(s, p, OriginalLost)
      case RenameVariant => Is(s, p, DirectoryLost)
      case Fail => !healthy
      case _ => false
    }

    // ----- image/derive.go and variants.go -----

    /** Renders one variant into a staging file, if it is wanted and the original can be read. */
    method DeriveOne(p: Ref, row: Row, ghost todo: seq<Variant>, v: Variant, staged: Dir) returns (ok: bool, staged': Dir)
      requires Valid() && now.worker.job == Some(Job(p, row, Deriving(todo, staged))) && todo != [] && todo[0] == v
      modifies this, db, store
      ensures Valid() && old(log) <= log && failed == old(failed) && now.worker.queue == old(now.worker.queue)
      ensures now.worker.job == if ok then Some(Job(p, row, AfterDerive(todo[1..], staged'))) else None
      ensures ok ==> staged'.Keys == staged.Keys + if Expected(v, FileOf(row)) then {v} else {}
      ensures !ok ==> Stopped(healthy, |old(log)|, log, p, row)
      ensures ok ==> faults == old(faults)
    {
      Others(WorkerLoop);
      var fails := Fails();
      if fails {
        GiveUp(p, row);
        return false, staged; // no staging file, or the original cannot be decoded, or the variant not saved
      }
      ok, staged' := RenderOne(p, row, todo, v, staged);
    }

    method RenderOne(p: Ref, row: Row, ghost todo: seq<Variant>, v: Variant, staged: Dir) returns (ok: bool, staged': Dir)
      requires Valid() && now.worker.job == Some(Job(p, row, Deriving(todo, staged))) && todo != [] && todo[0] == v
      modifies this`log, this`now, this`deeds, this`places
      ensures Valid() && old(log) <= log && now.worker.queue == old(now.worker.queue)
      ensures now.worker.job == if ok then Some(Job(p, row, AfterDerive(todo[1..], staged'))) else None
      ensures ok ==> staged'.Keys == staged.Keys + if Expected(v, FileOf(row)) then {v} else {}
      ensures !ok ==> Stopped(healthy, |old(log)|, log, p, row)
    {
      ok, staged' := Render(p, row, v, staged);
      DeriveTaken(p, row, todo, staged);
    }

    method Render(p: Ref, row: Row, v: Variant, staged: Dir) returns (ok: bool, staged': Dir)
      ensures ok <==> Expected(v, FileOf(row)) ==> Stored(store.disk, p).Some?
      ensures ok ==> staged' == if Expected(v, FileOf(row)) then staged[v := Rendering(v, Stored(store.disk, p).value)] else staged
    {
      ok, staged' := true, staged;
      if Expected(v, FileOf(row)) {
        var original := store.Open(p);
        ok := original.Some?;
        if ok { staged' := staged[v := Rendering(v, original.value)]; }
      }
    }

    /** The now.worker's state follows a variant that was rendered or passed over, or failed. */
    ghost method DeriveTaken(p: Ref, row: Row, todo: seq<Variant>, staged: Dir)
      requires Valid() && now.worker.job == Some(Job(p, row, Deriving(todo, staged))) && todo != []
      modifies this`log, this`now, this`deeds, this`places
      ensures Valid() && old(log) <= log && now.worker == Derived(old(now.worker), p, row, todo, staged, Stored(store.disk, p))
      ensures now.worker.job.None? && Stored(store.disk, p).None? ==> Stopped(healthy, |old(log)|, log, p, row)
    {
      DeriveOutcome(now, p, row, todo, staged);
      TakeWork(DeriveNext, p, row);
    }

    /**
     Renders the wanted variants of p into staging files, each from the original
     that is stored at that moment. What is produced depends on the dimensions in
     row alone: all that are wanted, but large only for a side of more than 2560.
     */
    method Derive(p: Ref, row: Row, want: seq<Variant>) returns (ok: bool, staged: Dir, produced: seq<Variant>)
      requires Valid() && now.worker.job == Some(Job(p, row, Deriving(want, map[]))) && want != []
      modifies this, db, store
      ensures Valid() && old(log) <= log && failed == old(failed) && now.worker.queue == old(now.worker.queue)
      ensures now.worker.job == if ok then Some(Job(p, row, AfterDerive([], staged))) else None
      ensures ok ==> staged.Keys == Elements(produced) == Wanted(want, FileOf(row))
      ensures ok ==> (Large in produced <==> Large in want && (row.width > 2560 || row.height > 2560))
      ensures ok ==> forall v :: v != Large && v != Original ==> (v in produced <==> v in want)
      ensures !ok ==> Stopped(healthy, |old(log)|, log, p, row)
      ensures ok ==> faults == old(faults)
    {
      ok, staged, produced := true, map[], [];
      var k := 0;
      while k < |want|
        invariant faults == old(faults)
        invariant 0 <= k <= |want| && Valid() && old(log) <= log && failed == old(failed) && now.worker.queue == old(now.worker.queue)
        invariant now.worker.job == Some(Job(p, row, AfterDerive(want[k..], staged)))
        invariant ok && staged.Keys == Elements(produced) == Wanted(want[..k], FileOf(row))
      {
        var v := want[k];
        assert want[k..][1..] == want[k + 1..] && want[..k + 1] == want[..k] + [v];
        WantedSnoc(want[..k], v, FileOf(row));
        ok, staged := DeriveOne(p, row, want[k..], v, staged);
        if !ok {
          return;
        }
        if Expected(v, FileOf(row)) {
          ElementsSnoc(produced, v);
          produced := produced + [v];
        }
        k := k + 1;
      }
      assert want[..|want|] == want;
      WantedIs(want, produced, row);
    }

    /** generate returns an error at this point. */
    ghost method GiveUp(p: Ref, row: Row)
      requires Valid() && now.worker.job.Some? && now.worker.job.value.p == p && now.worker.job.value.row == row && !healthy
      modifies this`log, this`now, this`deeds, this`places
      ensures Valid() && old(log) <= log && now.worker == old(now.worker).(job := None) && deeds == old(deeds) + [Working(Fail)]
      ensures Stopped(healthy, |old(log)|, log, p, row) && InError(healthy, |old(log)|, log, p, row)
    {
      TakeWork(Fail, p, row);
    }

    /** Store.Commit of one staged variant: create the directory, then rename. */
    method CommitVariant(p: Ref, row: Row, ghost staged: Dir, ghost produced: set<Variant>, v: Variant, file: File) returns (ok: bool)
      requires Valid() && now.worker.job == Some(Job(p, row, Committing(staged, None, produced))) && v in staged && staged[v] == file
      modifies this, db, store
      ensures Valid() && old(log) <= log && failed == old(failed) && now.worker.queue == old(now.worker.queue)
      ensures now.worker.job == if ok then Some(Job(p, row, AfterRename(staged - {v}, produced))) else None
      ensures !ok ==> InError(healthy, |old(log)|, log, p, row)
      ensures ok ==> faults == old(faults)
    {
      Others(WorkerLoop);
      var fails := Fails();
      if fails {
        GiveUp(p, row);
        return false;
      }
      MakeVariantDirectory(p, row, staged, produced, v);
      ok := RenameVariant(p, row, staged, produced, v, file);
    }

    method MakeVariantDirectory(p: Ref, row: Row, ghost staged: Dir, ghost produced: set<Variant>, ghost v: Variant)
      requires Valid() && now.worker.job == Some(Job(p, row, Committing(staged, None, produced))) && v in staged
      modifies this`log, this`now, this`deeds, this`places, db, store
      ensures Valid() && old(log) <= log && now.worker.queue == old(now.worker.queue)
      ensures now.worker.job == Some(Job(p, row, Committing(staged, Some(v), produced)))
    {
      Take(Working(MakeVariantDir(v)));
      store.MakeDir(p);
    }

    method RenameVariant(p: Ref, row: Row, ghost staged: Dir, ghost produced: set<Variant>, v: Variant, file: File) returns (ok: bool)
      requires Valid() && now.worker.job == Some(Job(p, row, Committing(staged, Some(v), produced))) && v in staged && staged[v] == file
      modifies this, db, store
      ensures Valid() && old(log) <= log && failed == old(failed) && now.worker.queue == old(now.worker.queue)
      ensures now.worker.job == if ok then Some(Job(p, row, AfterRename(staged - {v}, produced))) else None
      ensures !ok ==> InError(healthy, |old(log)|, log, p, row)
      ensures ok ==> faults == old(faults)
    {
      Others(WorkerLoop);
      var fails := Fails();
      if fails {
        GiveUp(p, row);
        return false;
      }
      ok := RenameVariantNow(p, row, staged, produced, v, file);
    }

    method RenameVariantNow(p: Ref, row: Row, ghost staged: Dir, ghost produced: set<Variant>, v: Variant, file: File) returns (ok: bool)
      requires Valid() && now.worker.job == Some(Job(p, row, Committing(staged, Some(v), produced))) && v in staged && staged[v] == file
      modifies this`log, this`now, this`deeds, this`places, db, store
      ensures Valid() && old(log) <= log && now.worker.queue == old(now.worker.queue)
      ensures now.worker.job == if ok then Some(Job(p, row, AfterRename(staged - {v}, produced))) else None
      ensures !ok ==> InError(healthy, |old(log)|, log, p, row)
    {
      TakeWork(WorkStep.RenameVariant, p, row);
      ok := store.Rename(p, v, file);
    }

    /** Moves the staged files into place, in any order. */
    method CommitAll(p: Ref, row: Row, all: Dir) returns (ok: bool)
      requires Valid() && now.worker.job == Some(Job(p, row, Committing(all, None, all.Keys))) && all != map[]
      modifies this, db, store
      ensures Valid() && old(log) <= log && failed == old(failed) && now.worker.queue == old(now.worker.queue)
      ensures now.worker.job == if ok then Some(Job(p, row, Pruning(Without(DEFERRED, all.Keys)))) else None
      ensures !ok ==> InError(healthy, |old(log)|, log, p, row)
      ensures ok ==> faults == old(faults)
    {
      var staged := all;
      ok := true;
      while staged != map[]
        invariant faults == old(faults)
        invariant ok && Valid() && old(log) <= log && failed == old(failed) && now.worker.queue == old(now.worker.queue)
        invariant now.worker.job == Some(Job(p, row, AfterRename(staged, all.Keys)))
        decreases |staged|
      {
        assert staged.Keys != {};
        var v :| v in staged;
        ok := CommitVariant(p, row, staged, all.Keys, v, staged[v]);
        if !ok {
          return;
        }
        staged := staged - {v};
      }
    }

    /** Removes one variant file. */
    method PruneOne(p: Ref, row: Row, ghost todo: seq<Variant>, v: Variant) returns (ok: bool)
      requires Valid() && now.worker.job == Some(Job(p, row, Pruning(todo))) && todo != [] && todo[0] == v
      modifies this, db, store
      ensures Valid() && old(log) <= log && failed == old(failed) && now.worker.queue == old(now.worker.queue)
      ensures now.worker.job == if ok then Some(Job(p, row, Pruning(todo[1..]))) else None
      ensures !ok ==> !healthy && InError(healthy, |old(log)|, log, p, row)
      ensures ok ==> faults == old(faults)
    {
      Others(WorkerLoop);
      var fails := Fails();
      if fails {
        GiveUp(p, row);
        return false;
      }
      Take(Working(PruneNext));
      store.Remove(p, v);
      ok := true;
    }

    /** Removes the wanted variants that were not produced. */
    method Prune(p: Ref, row: Row, want: seq<Variant>, produced: seq<Variant>) returns (ok: bool)
      requires Valid() && now.worker.job == Some(Job(p, row, Pruning(Without(want, Elements(produced)))))
      modifies this, db, store
      ensures Valid() && old(log) <= log && failed == old(failed) && now.worker.queue == old(now.worker.queue)
      ensures now.worker.job == if ok then Some(Job(p, row, Pruning([]))) else None
      ensures !ok ==> !healthy && InError(healthy, |old(log)|, log, p, row)
      ensures ok ==> faults == old(faults)
    {
      ok := true;
      var k := 0;
      while k < |want|
        invariant faults == old(faults)
        invariant 0 <= k <= |want| && ok && Valid() && old(log) <= log && failed == old(failed) && now.worker.queue == old(now.worker.queue)
        invariant now.worker.job == Some(Job(p, row, Pruning(Without(want[k..], Elements(produced)))))
      {
        assert want[k..][1..] == want[k + 1..];
        if want[k] !in produced {
          ok := PruneOne(p, row, Without(want[k..], Elements(produced)), want[k]);
          if !ok {
            return;
          }
        }
        k := k + 1;
      }
    }

    /** MarkVariantsReady, and what follows when no row matches. */
    method Publish(p: Ref, row: Row) returns (err: bool)
      requires Valid() && now.worker.job == Some(Job(p, row, Pruning([])))
      modifies this, db, store
      ensures Valid() && old(log) <= log && failed == old(failed) && now.worker == old(now.worker).(job := None)
      ensures if err then !healthy && InError(healthy, |old(log)|, log, p, row)
              else exists k :: |old(log)| <= k < |log| && MarkAt(log, k, p, row)
    {
      var ok;
      ghost var k;
      err, ok, k := MarkReady(p, row);
      if err {
        return;
      }
      ghost var marked := log;
      if !ok {
        TakeBack(p, row);
        AtEarlier(marked, log, k);
      }
      assert MarkAt(log, k, p, row);
    }

    method MarkReady(p: Ref, row: Row) returns (err: bool, ok: bool, ghost k: nat)
      requires Valid() && now.worker.job == Some(Job(p, row, Pruning([])))
      modifies this, db, store
      ensures Valid() && old(log) <= log && failed == old(failed) && (err <==> faults != old(faults))
      ensures if err then !healthy && InError(healthy, |old(log)|, log, p, row)
              else |old(log)| <= k < |log| && MarkAt(log, k, p, row)
      ensures now.worker == if !err && !ok then old(now.worker).(job := Some(Job(p, row, Checking))) else old(now.worker).(job := None)
    {
      Others(WorkerLoop);
      var fails := Fails();
      if fails {
        GiveUp(p, row);
        return true, false, 0;
      }
      err := false;
      k := TakeMark(p, row);
      ok := db.MarkVariantsReady(p, row.hash);
    }

    ghost method TakeMark(p: Ref, row: Row) returns (k: nat)
      requires Logged() && now.worker.job == Some(Job(p, row, Pruning([])))
      modifies this`log, this`now, this`deeds, this`places
      ensures Logged() && old(log) <= log && now == MarkStep(old(now))
      ensures |old(log)| <= k < |log| && MarkAt(log, k, p, row)
    {
      k := |log|;
      var before := log;
      Take(Working(Mark));
      assert log[..k] == before;
    }

    /** The row was not there to mark: if it is gone, the files go too. */
    method TakeBack(p: Ref, row: Row)
      requires Valid() && now.worker.job == Some(Job(p, row, Checking))
      modifies this, db, store
      ensures Valid() && old(log) <= log && failed == old(failed) && now.worker == old(now.worker).(job := None)
      ensures faults != old(faults) <==> deeds == old(deeds) + [Working(Fail)]
    {
      Others(WorkerLoop);
      var fails := Fails();
      if fails {
        GiveUp(p, row);
        return; // the files stay
      }
      var gone := IsGone(p, row);
      if gone { RemoveAgain(p, row); }
    }

    /** photoGone. */
    method IsGone(p: Ref, row: Row) returns (gone: bool)
      requires Valid() && now.worker.job == Some(Job(p, row, Checking))
      modifies this`log, this`now, this`deeds, this`places
      ensures Valid() && old(log) <= log && deeds == old(deeds) + [Working(CheckGone)] && (gone <==> p !in db.rows)
      ensures now.worker == old(now.worker).(job := if gone then Some(Job(p, row, TakingBack)) else None)
    {
      var found := db.GetPhoto(p);
      gone := found.None?;
      Take(Working(CheckGone));
    }

    /** RemovePhoto by the worker. */
    method RemoveAgain(p: Ref, row: Row)
      requires Valid() && now.worker.job == Some(Job(p, row, TakingBack))
      modifies this`log, this`now, this`deeds, this`places, db, store
      ensures Valid() && old(log) <= log && now.worker == old(now.worker).(job := None)
      ensures deeds == old(deeds) + [Working(WorkStep.TakeBack)]
    {
      Others(WorkerLoop);
      Take(Working(WorkStep.TakeBack));
      store.RemovePhoto(p);
    }

    /** Derive failed, which is no error if the row is gone. */
    method UnlessGone(ghost from: nat, p: Ref, ghost row: Row) returns (err: bool)
      requires Valid() && now.worker.job.None? && Stopped(healthy, from, log, p, row)
      modifies this, db, store
      ensures Valid() && old(log) <= log && failed == old(failed) && now.worker == old(now.worker)
      ensures if err then InError(healthy, from, log, p, row) else Done(healthy, from, log, p, row)
      ensures faults != old(faults) ==> err
    {
      ghost var stopped := log;
      ghost var k :| from <= k < |log| && StopsAt(healthy, log, k, p, row);
      Others(WorkerLoop);
      StopsLater(healthy, stopped, log, k, p, row);
      Here();
      var fails := Fails();
      if fails {
        assert ErrorAt(healthy, log, k, |log|, p, row);
        return true;
      }
      var found := db.GetPhoto(p);
      if found.None? {
        assert GoneAfter(healthy, log, k, |log|, p, row);
      } else {
        assert ErrorAt(healthy, log, k, |log|, p, row);
      }
      return found.Some?;
    }

    /**
     generate: renders, commits and prunes the variants of p, then publishes it.
     Without an error it has come to its mark, or could not read the original and
     then found the row gone; either way p was settled on the way. An error means that
     it could not read the original of a row that was still there, or could not rename
     into a directory that was gone, or that the server is not healthy.
     */
    method Generate(p: Ref, row: Row) returns (err: bool)
      requires Valid() && now.worker.job == Some(Job(p, row, Deriving(DEFERRED, map[])))
      modifies this, db, store
      ensures Valid() && old(log) <= log && failed == old(failed) && now.worker == old(now.worker).(job := None)
      ensures if err then InError(healthy, |old(log)|, log, p, row) else Done(healthy, |old(log)|, log, p, row)
      ensures !err ==> Seen(|old(log)|, log, p, Settled(row.hash))
    {
      ghost var from := |log|;
      var ok, staged, produced := Derive(p, row, DEFERRED);
      if ok {
        ThumbIsWanted(FileOf(row));
        err := CommitAndPublish(from, p, row, staged, produced);
      } else {
        err := UnlessGone(from, p, row);
      }
      if !err { DoneIsSettled(healthy, from, log, p, row); }
    }

    /** The second half of generate. */
    method CommitAndPublish(ghost from: nat, p: Ref, row: Row, staged: Dir, produced: seq<Variant>) returns (err: bool)
      requires Valid() && from <= |log| && now.worker.job == Some(Job(p, row, Committing(staged, None, staged.Keys)))
      requires staged != map[] && staged.Keys == Elements(produced)
      modifies this, db, store
      ensures Valid() && old(log) <= log && failed == old(failed) && now.worker == old(now.worker).(job := None)
      ensures if err then InError(healthy, from, log, p, row) else Done(healthy, from, log, p, row)
    {
      ghost var before := log;
      var ok := CommitAll(p, row, staged);
      if !ok {
        InErrorLater(healthy, |before|, log, from, log, p, row);
        return true;
      }
      ok := Prune(p, row, DEFERRED, produced);
      if !ok {
        return true;
      }
      err := Publish(p, row);
    }

    /** ListPhotosPendingVariants at the start of a drain. */
    method TakeSnapshot() returns (listed: bool, photos: seq<(Ref, Row)>)
      requires Valid() && now.worker == Worker(map[], None)
      modifies this, db, store
      ensures Valid() && old(log) <= log && failed == old(failed) && (listed <==> faults == old(faults)) && (healthy ==> listed)
      ensures if !listed then now.worker == old(now.worker)
              else
                && now.worker.job.None? && Lists(photos, now.worker.queue) && now.worker.queue == Pending(db.rows)
                && |log| > |old(log)| && log[|log| - 1] == Working(List)
    {
      var fails := Fails();
      if fails {
        return false, []; // the table could not be read
      }
      listed := true;
      Others(WorkerLoop);
      photos := db.ListPhotosPendingVariants();
      Take(Working(List));
    }

    /** The context is cancelled: the rest of the snapshot is dropped. */
    ghost method Cancel()
      requires Valid() && now.worker.job.None?
      modifies this`log, this`now, this`deeds, this`places
      ensures Valid() && old(log) <= log && now.worker == Worker(map[], None)
    {
      while now.worker.queue != map[]
        invariant Valid() && old(log) <= log && now.worker.job.None?
        decreases |now.worker.queue|
      {
        assert now.worker.queue.Keys != {};
        var p :| p in now.worker.queue;
        Take(Working(Skip(p)));
      }
    }

    /** The drain has listed the table: photos is what was pending after the first t events. */
    ghost predicate ListedAt(t: nat, photos: seq<(Ref, Row)>)
      requires CanRun(INITIAL, log)
      reads this`log
    {
      0 < t <= |log| && log[t - 1] == Working(List) && Lists(photos, Pending(At(log, t).rows))
    }

    /**
     drain: an uncancelled drain that can read the table takes every pending row
     of one moment, and comes to the mark with each of them, finds it gone, or
     remembers it as failed. Whatever it remembers has ended in an error since. A
     healthy server completes it.
     */
    method Drain() returns (complete: bool, photos: seq<(Ref, Row)>)
      requires Valid() && now.worker == Worker(map[], None)
      modifies this, db, store
      ensures Valid() && old(log) <= log && now.worker == Worker(map[], None) && old(failed) <= failed
      ensures complete ==> exists t :: |old(log)| <= t && ListedAt(t, photos) && AllDone(healthy, t, log, photos, failed)
      ensures AllFailed(healthy, |old(log)|, log, failed - old(failed))
      ensures healthy ==> complete
    {
      ghost var before := log;
      var listed;
      listed, photos := TakeSnapshot();
      if !listed {
        return false, [];
      }
      ghost var snapped := log;
      Here();
      complete := DrainList(photos);
      AtEarlier(snapped, log, |snapped|);
      assert ListedAt(|snapped|, photos);
      forall f | f in failed - old(failed) ensures HasFailed(healthy, |before|, log, f) {
        HasFailedLater(healthy, |snapped|, log, |before|, log, f);
      }
    }

    /** Where the drain stands after the first k photos of its snapshot; had is what had failed before. */
    ghost predicate DrainedTo(from: nat, photos: seq<(Ref, Row)>, k: nat, had: set<(Ref, nat)>)
      requires k <= |photos|
      reads this, db, store
    {
      && Valid() && from <= |log| && now.worker.job.None? && had <= failed
      && Lists(photos[k..], now.worker.queue) && AllDone(healthy, from, log, photos[..k], failed)
      && AllFailed(healthy, from, log, failed - had)
    }

    /** The drain's loop over its snapshot. */
    method DrainList(photos: seq<(Ref, Row)>) returns (complete: bool)
      requires Valid() && now.worker.job.None? && Lists(photos, now.worker.queue)
      modifies this, db, store
      ensures Valid() && old(log) <= log && now.worker == Worker(map[], None) && old(failed) <= failed
      ensures complete ==> AllDone(healthy, |old(log)|, log, photos, failed)
      ensures (healthy ==> complete) && AllFailed(healthy, |old(log)|, log, failed - old(failed))
    {
      ghost var from, had := |log|, failed;
      var k := 0;
      assert photos[0..] == photos;
      while k < |photos|
        invariant 0 <= k <= |photos| && old(log) <= log && DrainedTo(from, photos, k, had)
      {
        var fails := Fails();
        if fails {
          ghost var before := log;
          Cancel();
          AllFailedLater(healthy, from, before, log, failed - had, failed - had);
          return false;
        }
        DrainNext(from, photos, k, had);
        k := k + 1;
      }
      assert photos[..|photos|] == photos && now.worker.queue == map[];
      complete := true;
    }

    method DrainNext(ghost from: nat, photos: seq<(Ref, Row)>, k: nat, ghost had: set<(Ref, nat)>)
      requires k < |photos| && DrainedTo(from, photos, k, had)
      modifies this, db, store
      ensures old(log) <= log && DrainedTo(from, photos, k + 1, had)
    {
      ghost var before, wasFailed := log, failed;
      assert photos[k..][1..] == photos[k + 1..];
      DrainOne(photos[k].0, photos[k].1, photos[k..]);
      AllFailedLater(healthy, from, before, log, wasFailed - had, failed - had);
      AllDoneLater(healthy, from, before, log, photos, k, wasFailed, failed);
    }

    /** One turn of the drain's loop. */
    method DrainOne(p: Ref, row: Row, ghost photos: seq<(Ref, Row)>)
      requires Valid() && photos != [] && photos[0] == (p, row) && now.worker.job.None? && Lists(photos, now.worker.queue)
      modifies this, db, store
      ensures Valid() && old(log) <= log && now.worker.job.None? && Lists(photos[1..], now.worker.queue)
      ensures (p, row.hash) in failed || Done(healthy, |old(log)|, log, p, row)
      ensures failed == old(failed) || (failed == old(failed) + {(p, row.hash)} && HasFailed(healthy, |old(log)|, log, (p, row.hash)))
    {
      ghost var from := |log|;
      ListsTail(photos, now.worker.queue);
      if (p, row.hash) in failed {
        Take(Working(Skip(p)));
        return;
      }
      Take(Working(WorkStep.Take(p)));
      var err := GenerateSince(from, p, row);
      if err { failed := failed + {(p, row.hash)}; }
    }

    /** generate, of a photo that has been taken from the list. */
    method GenerateSince(ghost from: nat, p: Ref, row: Row) returns (err: bool)
      requires Valid() && from <= |log| && now.worker.job == Some(Job(p, row, Deriving(DEFERRED, map[])))
      modifies this, db, store
      ensures Valid() && old(log) <= log && failed == old(failed) && now.worker == old(now.worker).(job := None)
      ensures if err then InError(healthy, from, log, p, row) else Done(healthy, from, log, p, row)
    {
      ghost var taken := |log|;
      err := Generate(p, row);
      if err { InErrorLater(healthy, taken, log, from, log, p, row); } else { DoneLater(healthy, taken, log, from, log, p, row); }
    }

    // ----- publish_photos.go -----

    /** The request ends here with an error. */
    ghost method Drop(p: Ref)
      requires Valid() && p in now.ingests && !healthy
      modifies this`log, this`now, this`deeds, this`places
      ensures Valid() && old(log) <= log && now.ingests == old(now.ingests) - {p}
      ensures deeds == old(deeds) + [Uploading(p, Abandon)]
    {
      Take(Uploading(p, Abandon));
    }

    /** What can foil a step of an upload. */
    static function Obstacle(e: Event): Option<Fact> {
      match e
      case Uploading(_, Hide) => Some(RowGone)
      case Uploading(_, RenameOriginal) => Some(DirectoryLost)
      case Uploading(_, Update) => Some(RowGone)
      case _ => None
    }

    /** The last deed, the i-th, met its obstacle. */
    ghost predicate Foiled(i: nat, p: Ref)
      requires Logged()
      reads this`log, this`deeds, this`places, this`now
    {
      |places| == |deeds| == i + 1 && Obstacle(deeds[i]).Some? && Met(log, places[i], deeds[i], p, Obstacle(deeds[i]).value)
    }

    /** Since had, the first k of these steps were done, and the request ended there: the last was foiled, or the server is not healthy. */
    ghost predicate EndedAt(had: seq<Event>, steps: seq<Event>, k: nat, p: Ref)
      requires Logged()
      reads this`log, this`deeds, this`places, this`now
    {
      0 < k <= |steps| &&
      if healthy || |deeds| == |had| + k then deeds == had + steps[..k] && Foiled(|had| + k - 1, p)
      else deeds == had + steps[..k] + [Uploading(p, Abandon)]
    }

    /** Since had, the request ended before or during the Commit that is steps k and k + 1; with both taken, only because the directory was gone. */
    ghost predicate NotCommitted(had: seq<Event>, steps: seq<Event>, k: nat, p: Ref)
      requires Logged()
      reads this`log, this`deeds, this`places, this`now
    {
      EndedAt(had, steps, k, p) || EndedAt(had, steps, k + 1, p) || (EndedAt(had, steps, k + 2, p) && Foiled(|had| + k + 1, p))
    }

    lemma OneMore(had: seq<Event>, steps: seq<Event>, k: nat)
      requires k < |steps|
      ensures had + steps[..k] + [steps[k]] == had + steps[..k + 1]
    {
    }

    /** The request is accepted. */
    ghost method BeginUpload(p: Ref, u: UploadStep, steps: seq<Event>)
      requires Valid() && (u.BeginNew? || u.BeginReplace?) && CanUpload(now, p, u) && steps != [] && steps[0] == Uploading(p, u)
      modifies this`log, this`now, this`deeds, this`places
      ensures Valid() && old(log) <= log && deeds == old(deeds) + steps[..1] && now == ApplyUpload(old(now), p, u)
    {
      Take(steps[0]);
      assert steps[..1] == [steps[0]];
    }

    /** Store.Commit of the original. */
    method CommitOriginal(p: Ref, file: Jpeg, ghost had: seq<Event>, ghost steps: seq<Event>, ghost k: nat) returns (ok: bool)
      requires Valid() && p in now.ingests && !now.ingests[p].Metadata? && now.ingests[p].jpeg == file
      requires now.ingests[p].stage == (if now.ingests[p].New? then Begun else Hidden)
      requires 0 < k && k + 2 <= |steps| && steps[k] == Uploading(p, UploadStep.MakeDir) && steps[k + 1] == Uploading(p, RenameOriginal)
      requires deeds == had + steps[..k]
      modifies this, db, store
      ensures Valid() && old(log) <= log && failed == old(failed)
      ensures if ok then deeds == had + steps[..k + 2] && p in now.ingests && now.ingests[p] == old(now.ingests)[p].(stage := Renamed)
              else p !in now.ingests && NotCommitted(had, steps, k, p)
      ensures ok ==> faults == old(faults)
    {
      var fails := Fails();
      if fails {
        Drop(p);
        assert EndedAt(had, steps, k, p);
        return false;
      }
      MakeDirectory(p, had, steps, k);
      ok := RenameIntoPlace(p, file, had, steps, k + 1);
    }

    method MakeDirectory(p: Ref, ghost had: seq<Event>, ghost steps: seq<Event>, ghost k: nat)
      requires Valid() && p in now.ingests && !now.ingests[p].Metadata?
      requires now.ingests[p].stage == (if now.ingests[p].New? then Begun else Hidden)
      requires k < |steps| && steps[k] == Uploading(p, UploadStep.MakeDir) && deeds == had + steps[..k]
      modifies this`log, this`now, this`deeds, this`places, db, store
      ensures Valid() && old(log) <= log && deeds == had + steps[..k + 1]
      ensures p in now.ingests && now.ingests[p] == old(now.ingests)[p].(stage := Made)
    {
      Others(UploadOf(p));
      Take(steps[k]);
      store.MakeDir(p);
      OneMore(had, steps, k);
    }

    method RenameIntoPlace(p: Ref, file: Jpeg, ghost had: seq<Event>, ghost steps: seq<Event>, ghost k: nat) returns (ok: bool)
      requires Valid() && p in now.ingests && !now.ingests[p].Metadata? && now.ingests[p].jpeg == file && now.ingests[p].stage == Made
      requires 0 < k < |steps| && steps[k] == Uploading(p, RenameOriginal) && deeds == had + steps[..k]
      modifies this, db, store
      ensures Valid() && old(log) <= log && failed == old(failed)
      ensures if ok then deeds == had + steps[..k + 1] && p in now.ingests && now.ingests[p] == old(now.ingests)[p].(stage := Renamed)
              else p !in now.ingests && (EndedAt(had, steps, k, p) || (EndedAt(had, steps, k + 1, p) && Foiled(|had| + k, p)))
      ensures ok ==> faults == old(faults)
    {
      Others(UploadOf(p));
      var fails := Fails();
      if fails {
        Drop(p);
        assert EndedAt(had, steps, k, p);
        return false;
      }
      ok := RenameNow(p, file, had, steps, k);
    }

    method RenameNow(p: Ref, file: Jpeg, ghost had: seq<Event>, ghost steps: seq<Event>, ghost k: nat) returns (ok: bool)
      requires Valid() && p in now.ingests && !now.ingests[p].Metadata? && now.ingests[p].jpeg == file && now.ingests[p].stage == Made
      requires 0 < k < |steps| && steps[k] == Uploading(p, RenameOriginal) && deeds == had + steps[..k]
      modifies this`log, this`now, this`deeds, this`places, db, store
      ensures Valid() && old(log) <= log
      ensures if ok then deeds == had + steps[..k + 1] && p in now.ingests && now.ingests[p] == old(now.ingests)[p].(stage := Renamed)
              else p !in now.ingests && EndedAt(had, steps, k + 1, p) && Foiled(|had| + k, p)
    {
      TakeMet(steps[k], p, DirectoryLost);
      ok := store.Rename(p, Original, File.Upload(file));
      OneMore(had, steps, k);
    }

    // ----- a replacement -----

    /** What a replacement does, statement by statement. */
    static function ReplaceSteps(p: Ref, file: Jpeg): seq<Event> {
      [Uploading(p, BeginReplace(file)), Uploading(p, UploadStep.Hide), Uploading(p, UploadStep.MakeDir), Uploading(p, RenameOriginal),
       Uploading(p, Update)]
    }

    /**
     ingest of a replacement file. Answering ok means the row was hidden, the
     file stored and the row rewritten, in that order, with its visibility and
     lr_photo_uuid untouched by the last step. It answers otherwise only if the row or
     the directory was gone at one of these steps, which is then the last it takes, or
     the server is not healthy.
     */
    method ReplacePhoto(p: Ref, file: Jpeg) returns (ok: bool)
      requires Valid() && p in db.rows && p !in now.ingests
      modifies this, db, store
      ensures Valid() && old(log) <= log && failed == old(failed) && p !in now.ingests
      ensures if ok then deeds == old(deeds) + ReplaceSteps(p, file) && p in db.rows && FileOf(db.rows[p]) == file
              else exists k :: EndedAt(old(deeds), ReplaceSteps(p, file), k, p)
      ensures ok ==> faults == old(faults)
    {
      ghost var had, steps := deeds, ReplaceSteps(p, file);
      BeginUpload(p, BeginReplace(file), steps);
      ok := HideRow(p, file, had);
      if !ok {
        return;
      }
      ok := CommitOriginal(p, file, had, steps, 2);
      if !ok {
        return;
      }
      ok := Rewrite(p, file, had);
    }

    /** MarkVariantsPending. */
    method HideRow(p: Ref, file: Jpeg, ghost had: seq<Event>) returns (ok: bool)
      requires Valid() && p in now.ingests && now.ingests[p] == Replace(file, Begun) && deeds == had + ReplaceSteps(p, file)[..1]
      modifies this, db, store
      ensures Valid() && old(log) <= log && failed == old(failed)
      ensures if ok then deeds == had + ReplaceSteps(p, file)[..2] && p in now.ingests && now.ingests[p] == Replace(file, Hidden)
              else p !in now.ingests && exists k :: EndedAt(had, ReplaceSteps(p, file), k, p)
      ensures ok ==> faults == old(faults)
    {
      ghost var steps := ReplaceSteps(p, file);
      Others(UploadOf(p));
      var fails := Fails();
      if fails {
        Drop(p);
        assert EndedAt(had, steps, 1, p);
        return false;
      }
      TakeMet(steps[1], p, RowGone);
      ok := db.MarkVariantsPending(p);
      OneMore(had, steps, 1);
      assert !ok ==> EndedAt(had, steps, 2, p);
    }

    /** UpdatePhoto at the end of a replacement. */
    method Rewrite(p: Ref, file: Jpeg, ghost had: seq<Event>) returns (ok: bool)
      requires Valid() && p in now.ingests && now.ingests[p] == Replace(file, Renamed) && deeds == had + ReplaceSteps(p, file)[..4]
      modifies this, db, store
      ensures Valid() && old(log) <= log && failed == old(failed) && p !in now.ingests
      ensures if ok then deeds == had + ReplaceSteps(p, file) && p in db.rows && FileOf(db.rows[p]) == file
              else exists k :: EndedAt(had, ReplaceSteps(p, file), k, p)
      ensures ok ==> faults == old(faults)
    {
      ghost var steps := ReplaceSteps(p, file);
      Others(UploadOf(p));
      var fails := Fails();
      if fails {
        Drop(p);
        assert EndedAt(had, steps, 4, p);
        return false;
      }
      ok := RewriteNow(p, file, had);
    }

    method RewriteNow(p: Ref, file: Jpeg, ghost had: seq<Event>) returns (ok: bool)
      requires Valid() && p in now.ingests && now.ingests[p] == Replace(file, Renamed) && deeds == had + ReplaceSteps(p, file)[..4]
      modifies this`log, this`now, this`deeds, this`places, db, store
      ensures Valid() && old(log) <= log && p !in now.ingests
      ensures if ok then deeds == had + ReplaceSteps(p, file) && p in db.rows && FileOf(db.rows[p]) == file
              else EndedAt(had, ReplaceSteps(p, file), 5, p)
    {
      ghost var steps := ReplaceSteps(p, file);
      TakeMet(steps[4], p, RowGone);
      ok := db.UpdatePhoto(p, file);
      assert db.rows == now.rows;
      OneMore(had, steps, 4);
      assert steps[..5] == steps;
    }

    // ----- a new photo -----

    /** What the upload of a new photo does, statement by statement. */
    static function UploadSteps(p: Ref, file: Jpeg, lrUuid: nat): seq<Event> {
      [Uploading(p, BeginNew(file, lrUuid)), Uploading(p, UploadStep.MakeDir), Uploading(p, RenameOriginal), Uploading(p, UploadStep.Insert)]
    }

    /** Since had, an upload has stored its file, had its row refused or its insert fail, and taken the files back. */
    ghost predicate TakenBack(had: seq<Event>, p: Ref, file: Jpeg, lrUuid: nat)
      requires Logged()
      reads this`log, this`deeds, this`places, this`now
    {
      var steps := UploadSteps(p, file, lrUuid);
      || (deeds == had + steps + [Uploading(p, UploadStep.Undo)] && |places| == |deeds| && Met(log, places[|had| + 3], steps[3], p, Refused(lrUuid)))
      || (!healthy && deeds == had + steps[..3] + [Uploading(p, InsertFails)] + [Uploading(p, UploadStep.Undo)])
    }

    /**
     ingest of a new photo. Answering ok means that the file was stored and the
     row inserted, in that order, hidden until its variants exist. It answers otherwise
     only if the directory was gone at the rename, which is then its last step, or if the
     row was refused at the insert, because the album is gone or has the Lightroom id
     already, and the files have been taken back; or the server is not healthy. So an
     insert that takes effect is answered with ok.
     */
    method UploadPhoto(p: Ref, file: Jpeg, lrUuid: nat) returns (ok: bool)
      requires Valid() && p !in now.used && p.album in now.albumsUsed
      modifies this, db, store
      ensures Valid() && old(log) <= log && failed == old(failed) && p !in now.ingests
      ensures if ok then
                && deeds == old(deeds) + UploadSteps(p, file, lrUuid)
                && p in db.rows && db.rows[p] == Row(lrUuid, file.hash, file.width, file.height, false)
              else
                || NotCommitted(old(deeds), UploadSteps(p, file, lrUuid), 1, p)
                || TakenBack(old(deeds), p, file, lrUuid)
      ensures ok ==> faults == old(faults)
    {
      ghost var had, steps := deeds, UploadSteps(p, file, lrUuid);
      BeginUpload(p, BeginNew(file, lrUuid), steps);
      ok := CommitOriginal(p, file, had, steps, 1);
      if !ok {
        return;
      }
      ok := InsertRow(p, file, lrUuid, had);
    }

    /** InsertPhoto, and RemovePhoto when it fails. */
    method InsertRow(p: Ref, file: Jpeg, lrUuid: nat, ghost had: seq<Event>) returns (ok: bool)
      requires Valid() && p in now.ingests && now.ingests[p] == New(file, lrUuid, Renamed) && deeds == had + UploadSteps(p, file, lrUuid)[..3]
      modifies this, db, store
      ensures Valid() && old(log) <= log && failed == old(failed) && p !in now.ingests
      ensures if ok then
                && deeds == had + UploadSteps(p, file, lrUuid)
                && p in db.rows && db.rows[p] == Row(lrUuid, file.hash, file.width, file.height, false)
              else TakenBack(had, p, file, lrUuid)
      ensures ok ==> faults == old(faults)
    {
      Others(UploadOf(p));
      var fails := Fails();
      if fails {
        InsertFailed(p);
        return false;
      }
      ok := TryInsert(p, file, lrUuid, had);
      if !ok { UndoRefused(p, file, lrUuid, had); }
    }

    method InsertFailed(p: Ref)
      requires Valid() && p in now.ingests && now.ingests[p].New? && now.ingests[p].stage == Renamed && !healthy
      modifies this`log, this`now, this`deeds, this`places, db, store
      ensures Valid() && old(log) <= log && p !in now.ingests
      ensures deeds == old(deeds) + [Uploading(p, InsertFails)] + [Uploading(p, UploadStep.Undo)]
    {
      Take(Uploading(p, InsertFails));
      Undo(p);
    }

    method UndoRefused(p: Ref, ghost file: Jpeg, ghost lrUuid: nat, ghost had: seq<Event>)
      requires Valid() && p in now.ingests && now.ingests[p].New? && now.ingests[p].stage == Undoing
      requires deeds == had + UploadSteps(p, file, lrUuid) && |places| == |deeds|
      requires Met(log, places[|had| + 3], Uploading(p, UploadStep.Insert), p, Refused(lrUuid))
      modifies this`log, this`now, this`deeds, this`places, db, store
      ensures Valid() && old(log) <= log && p !in now.ingests && TakenBack(had, p, file, lrUuid)
    {
      ghost var refused, at := log, places;
      Undo(p);
      MetLater(refused, log, at[|had| + 3], Uploading(p, UploadStep.Insert), p, Refused(lrUuid));
    }

    method TryInsert(p: Ref, file: Jpeg, lrUuid: nat, ghost had: seq<Event>) returns (ok: bool)
      requires Valid() && p in now.ingests && now.ingests[p] == New(file, lrUuid, Renamed) && deeds == had + UploadSteps(p, file, lrUuid)[..3]
      modifies this`log, this`now, this`deeds, this`places, db, store
      ensures Valid() && old(log) <= log
      ensures deeds == had + UploadSteps(p, file, lrUuid) && |places| == |deeds|
      ensures if ok then p !in now.ingests && p in db.rows && db.rows[p] == Row(lrUuid, file.hash, file.width, file.height, false)
              else p in now.ingests && now.ingests[p] == New(file, lrUuid, Undoing) &&
                   Met(log, places[|had| + 3], Uploading(p, UploadStep.Insert), p, Refused(lrUuid))
    {
      ghost var steps := UploadSteps(p, file, lrUuid);
      TakeMet(steps[3], p, Refused(lrUuid));
      var result := db.InsertPhoto(p, Row(lrUuid, file.hash, file.width, file.height, false));
      ok := result.Inserted?;
      OneMore(had, steps, 3);
      assert steps[..4] == steps;
    }

    /** The insert failed: the files go. */
    method Undo(p: Ref)
      requires Valid() && p in now.ingests && now.ingests[p].New? && now.ingests[p].stage == Undoing
      modifies this`log, this`now, this`deeds, this`places, db, store
      ensures Valid() && old(log) <= log && p !in now.ingests
      ensures deeds == old(deeds) + [Uploading(p, UploadStep.Undo)] && |places| == |deeds| && old(places) <= places
    {
      Others(UploadOf(p));
      Take(Uploading(p, UploadStep.Undo));
      store.RemovePhoto(p);
    }

    // ----- publish_albums.go -----

    /**
     deletePhoto: the row goes first, then the files, and only the row counts for
     the answer. It is not found only if the row was gone at some moment of the call,
     and not by this call; otherwise, on a healthy server, row and files are removed and
     nothing of the photo is left at the end. On any server, unless somebody was cut off
     or a replacement committed too late, nothing is left once nobody answers for it.
     */
    method DeletePhoto(p: Ref) returns (reply: DeleteReply)
      requires Valid()
      modifies this, db, store
      ensures Valid() && old(log) <= log && failed == old(failed)
      ensures match reply
              case Deleted =>
                || (deeds == old(deeds) + [Administering(DeleteRow(p)), Administering(AdminStep.RemoveFiles(p))] && p !in store.disk && faults == old(faults))
                || (!healthy && faults != old(faults) && deeds == old(deeds) + [Administering(DeleteRow(p)), Administering(LeaveFiles(p))])
              case NotFound => deeds == old(deeds) && faults == old(faults) && Seen(|old(log)|, log, p, RowGone)
              case InternalError => deeds == old(deeds) && !healthy && faults != old(faults)
      ensures Orphans.AllHyp(p, INITIAL, log) && !Orphans.Accounted(now, p) ==> p !in store.disk
    {
      reply := DeleteRowAndFiles(p);
      if Orphans.AllHyp(p, INITIAL, log) && !Orphans.Accounted(now, p) { NothingLeft(p); }
    }

    method DeleteRowAndFiles(p: Ref) returns (reply: DeleteReply)
      requires Valid()
      modifies this, db, store
      ensures Valid() && old(log) <= log && failed == old(failed)
      ensures match reply
              case Deleted =>
                || (deeds == old(deeds) + [Administering(DeleteRow(p)), Administering(AdminStep.RemoveFiles(p))] && p !in store.disk && faults == old(faults))
                || (!healthy && faults != old(faults) && deeds == old(deeds) + [Administering(DeleteRow(p)), Administering(LeaveFiles(p))])
              case NotFound => deeds == old(deeds) && faults == old(faults) && Seen(|old(log)|, log, p, RowGone)
              case InternalError => deeds == old(deeds) && !healthy && faults != old(faults)
    {
      ghost var from := |log|;
      Others(DeleteOf(p));
      var fails := Fails();
      if fails {
        return InternalError;
      }
      var found := DeleteTheRow(from, p);
      if !found {
        return NotFound;
      }
      RemoveFiles(p);
      return Deleted;
    }

    /** The DELETE statement, which is no step of the machine when there is no row. */
    method DeleteTheRow(ghost from: nat, p: Ref) returns (found: bool)
      requires Valid() && from <= |log|
      modifies this`log, this`now, this`deeds, this`places, db, store
      ensures Valid() && old(log) <= log
      ensures if found then p in now.removals && deeds == old(deeds) + [Administering(DeleteRow(p))]
              else deeds == old(deeds) && Seen(from, log, p, RowGone)
    {
      if p !in db.rows { SeenNow(from, p, RowGone); }
      if p in db.rows { Take(Administering(DeleteRow(p))); }
      found := db.DeletePhoto(p);
    }

    /** RemovePhoto at the end of a delete. */
    method RemoveFiles(p: Ref)
      requires Valid() && p in now.removals
      modifies this, db, store
      ensures Valid() && old(log) <= log && failed == old(failed)
      ensures || (deeds == old(deeds) + [Administering(AdminStep.RemoveFiles(p))] && p !in store.disk && faults == old(faults))
              || (!healthy && faults != old(faults) && deeds == old(deeds) + [Administering(LeaveFiles(p))])
    {
      Others(DeleteOf(p));
      var fails := Fails();
      if fails {
        Take(Administering(LeaveFiles(p)));
      } else {
        Take(Administering(AdminStep.RemoveFiles(p)));
        store.RemovePhoto(p);
      }
    }

    /**
     deleteAlbum: the album row goes, and its photo rows by cascade, then the
     whole directory. No error, if it is gone already.
     */
    method DeleteAlbum(album: nat) returns (reply: DeleteReply)
      requires Valid() && album in now.albumsUsed
      modifies this, db, store
      ensures Valid() && old(log) <= log && failed == old(failed)
      ensures match reply
              case Deleted =>
                && album !in db.albums
                && (|| (deeds == old(deeds) + [Administering(DeleteAlbums({album})), Administering(AdminStep.RemoveAlbumFiles(album))]
                        && NothingOf(store.disk, album) && faults == old(faults))
                    || (!healthy && faults != old(faults) && deeds == old(deeds) + [Administering(DeleteAlbums({album})), Administering(LeaveAlbumFiles(album))]))
              case NotFound => false
              case InternalError => deeds == old(deeds) && !healthy && faults != old(faults)
    {
      var fails := Fails();
      if fails {
        return InternalError;
      }
      ghost var had := deeds;
      DeleteAlbumRow(album);
      RemoveAlbumFiles(album);
      assert deeds[|had|..] == [deeds[|had|], deeds[|had| + 1]];
      return Deleted;
    }

    method DeleteAlbumRow(album: nat)
      requires Valid() && album in now.albumsUsed
      modifies this`log, this`now, this`deeds, this`places, db, store
      ensures Valid() && old(log) <= log && deeds == old(deeds) + [Administering(DeleteAlbums({album}))]
      ensures album in now.albumRemovals && album in now.albumsUsed && album !in db.albums
    {
      Take(Administering(DeleteAlbums({album})));
      db.DeleteAlbum(album);
    }

    /** RemoveAlbum at the end of a delete. */
    method RemoveAlbumFiles(album: nat)
      requires Valid() && album in now.albumRemovals && album in now.albumsUsed && album !in db.albums
      modifies this, db, store
      ensures Valid() && old(log) <= log && failed == old(failed) && album !in db.albums
      ensures || (deeds == old(deeds) + [Administering(AdminStep.RemoveAlbumFiles(album))] && NothingOf(store.disk, album) && faults == old(faults))
              || (!healthy && faults != old(faults) && deeds == old(deeds) + [Administering(LeaveAlbumFiles(album))])
    {
      Others(DeleteAlbumOf(album));
      var fails := Fails();
      if fails {
        Take(Administering(LeaveAlbumFiles(album)));
      } else {
        Take(Administering(AdminStep.RemoveAlbumFiles(album)));
        store.RemoveAlbum(album);
      }
    }

    // ----- photos.go -----

    /**
     getPhotoVariant and serveVariant: the row is read, large is looked for, and a
     file is opened, with anything in between. A visitor gets what is due for the row
     that was read, as long as the log keeps to the hypotheses of ReadyIsWhole and that
     row is neither hidden nor deleted before the file is open.
     */
    method ServeVariant(p: Ref, v: Variant) returns (reply: VariantReply)
      requires Valid()
      modifies this, db, store
      ensures Valid() && old(log) <= log && failed == old(failed) && deeds == old(deeds)
      ensures match reply
              case PhotoNotFound => exists k :: |old(log)| <= k <= |log| && !Visible(At(log, k), p)
              case ServerError => !healthy
              case _ => ServedFor(|old(log)|, log, p, v, reply)
      ensures reply.ServerError? <==> faults != old(faults)
    {
      Others(Visitor);
      var fails := Fails();
      if fails {
        return ServerError;
      }
      var row := db.GetPhoto(p);
      Here();
      if row.None? || !row.value.ready {
        assert !Visible(At(log, |log|), p);
        return PhotoNotFound;
      }
      ghost var r := |log|;
      reply := OpenVariant(p, v);
      if !reply.ServerError? {
        ghost var k1, k2 :| r <= k1 <= k2 <= |log| && AnswersFor(log, r, k1, k2, p, v, reply);
        if Kept(log, p) && LeftVisible(log, r, p) { AnswerIsDue(log, r, k1, k2, p, v, reply); }
        assert ServedAt(log, r, k1, k2, p, v, reply);
      }
    }

    /** serveVariant. */
    method OpenVariant(p: Ref, v: Variant) returns (reply: VariantReply)
      requires Valid() && Visible(now, p)
      modifies this, db, store
      ensures Valid() && old(log) <= log && failed == old(failed) && reply != PhotoNotFound && deeds == old(deeds)
      ensures reply.ServerError? ==> !healthy
      ensures At(log, |old(log)|) == old(now)
      ensures !reply.ServerError? ==> exists k1, k2 :: |old(log)| <= k1 <= k2 <= |log| && AnswersFor(log, |old(log)|, k1, k2, p, v, reply)
      ensures reply.ServerError? <==> faults != old(faults)
    {
      ghost var read := log;
      Here();
      Others(Visitor);
      var large := false;
      if v == Large { large := store.Has(p, Large); }
      var w := Chosen(v, large);
      ghost var looked := log;
      Here();
      Others(Visitor);
      Here();
      AtEarlier(read, log, |read|);
      AtEarlier(looked, log, |looked|);
      var fails := Fails();
      if fails {
        return ServerError;
      }
      var file := store.Read(p, w);
      reply := if file.Some? then Served(file.value) else FileMissing;
      assert AnswersFor(log, |read|, |looked|, |log|, p, v, reply);
    }
  }

  /** The worker after DeriveNext, given the original. */
  ghost function Derived(w: Worker, p: Ref, row: Row, todo: seq<Variant>, staged: Dir, original: Option<Jpeg>): Worker
    requires todo != []
  {
    var v := todo[0];
    Worker(w.queue,
      if !Expected(v, FileOf(row)) then Some(Job(p, row, AfterDerive(todo[1..], staged)))
      else if original.Some? then Some(Job(p, row, AfterDerive(todo[1..], staged[v := Rendering(v, original.value)])))
      else None)
  }

  lemma DeriveOutcome(s: State, p: Ref, row: Row, todo: seq<Variant>, staged: Dir)
    requires s.worker.job == Some(Job(p, row, Deriving(todo, staged))) && todo != []
    ensures DeriveStep(s) == s.(worker := Derived(s.worker, p, row, todo, staged, Stored(s.disk, p)))
  {
  }

  /** What is wanted of the variants, for the dimensions of a row. */
  lemma WantedIs(want: seq<Variant>, produced: seq<Variant>, row: Row)
    requires Elements(produced) == Wanted(want, FileOf(row))
    ensures Large in produced <==> Large in want && (row.width > 2560 || row.height > 2560)
    ensures forall v :: v != Large && v != Original ==> (v in produced <==> v in want)
  {
    forall v ensures v in produced <==> v in want && Expected(v, FileOf(row)) {
      assert v in Elements(produced) <==> v in produced;
      assert v in Wanted(want, FileOf(row)) <==> v in want && Expected(v, FileOf(row));
    }
  }

  lemma ThumbIsWanted(file: Jpeg)
    ensures Thumb in Wanted(DEFERRED, file)
  {
    assert DEFERRED[0] == Thumb;
  }
}
