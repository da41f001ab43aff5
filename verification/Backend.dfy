/**
 What the code of the handlers and the worker is written with: the log of all that
 has happened, seen from one process, and the photos table and the file tree as
 objects.
 */
module Backend {
  import opened Base
  import opened Pipeline

  // ----- the log: everything that has happened since INITIAL -----

  datatype Process = WorkerLoop | UploadOf(p: Ref) | DeleteOf(p: Ref) | DeleteAlbumOf(album: nat) | Visitor

  /** e is a step of process who, or ends it. */
  predicate Involves(who: Process, e: Event) {
    e == Administering(Restart) ||
    match who
    case WorkerLoop => e.Working?
    case UploadOf(p) => e.Uploading? && e.p == p
    case DeleteOf(p) => e == Administering(RemoveFiles(p)) || e == Administering(LeaveFiles(p))
    case DeleteAlbumOf(a) => e == Administering(RemoveAlbumFiles(a)) || e == Administering(LeaveAlbumFiles(a))
    case Visitor => false
  }

  lemma {:induction false} RunPrefix(s: State, es: seq<Event>, k: nat)
    requires CanRun(s, es) && k <= |es|
    ensures CanRun(s, es[..k])
    decreases k
  {
    if k > 0 {
      RunPrefix(Apply(s, es[0]), es[1..], k - 1);
      assert es[..k][1..] == es[1..][..k - 1];
    }
  }

  /** The state after the first k events. */
  ghost function At(log: seq<Event>, k: nat): State
    requires CanRun(INITIAL, log) && k <= |log|
  {
    RunPrefix(INITIAL, log, k);
    After(INITIAL, log[..k])
  }

  lemma {:induction false} RunSnoc(s: State, es: seq<Event>, e: Event)
    requires CanRun(s, es) && Enabled(After(s, es), e)
    ensures CanRun(s, es + [e]) && After(s, es + [e]) == Apply(After(s, es), e)
    decreases |es|
  {
    if es == [] {
      assert CanRun(Apply(s, e), []) && After(Apply(s, e), []) == Apply(s, e);
      assert (es + [e])[0] == e && (es + [e])[1..] == [];
    } else {
      RunSnoc(Apply(s, es[0]), es[1..], e);
      assert (es + [e])[1..] == es[1..] + [e];
    }
  }

  lemma {:induction false} LastStep(s: State, es: seq<Event>, e: Event)
    requires CanRun(s, es + [e])
    ensures CanRun(s, es) && Enabled(After(s, es), e) && After(s, es + [e]) == Apply(After(s, es), e)
    decreases |es|
  {
    if es == [] {
      assert CanRun(Apply(s, e), []) && After(Apply(s, e), []) == Apply(s, e);
      assert (es + [e])[0] == e && (es + [e])[1..] == [];
    } else {
      assert (es + [e])[1..] == es[1..] + [e];
      LastStep(Apply(s, es[0]), es[1..], e);
    }
  }

  lemma AfterNext(s: State, es: seq<Event>, k: nat)
    requires CanRun(s, es) && k < |es|
    ensures CanRun(s, es[..k]) && CanRun(s, es[..k + 1])
    ensures Enabled(After(s, es[..k]), es[k]) && After(s, es[..k + 1]) == Apply(After(s, es[..k]), es[k])
  {
    RunPrefix(s, es, k + 1);
    assert es[..k + 1] == es[..k] + [es[k]];
    LastStep(s, es[..k], es[k]);
  }

  /** One event on. */
  lemma AtNext(log: seq<Event>, k: nat)
    requires CanRun(INITIAL, log) && k < |log|
    ensures Enabled(At(log, k), log[k]) && At(log, k + 1) == Apply(At(log, k), log[k])
  {
    AfterNext(INITIAL, log, k);
  }

  /** What has happened stays as it was. */
  lemma AtEarlier(log: seq<Event>, log': seq<Event>, k: nat)
    requires CanRun(INITIAL, log) && CanRun(INITIAL, log') && log <= log' && k <= |log|
    ensures At(log', k) == At(log, k)
  {
    assert log'[..k] == log[..k];
  }

  /** No event since the first from is one of who's. */
  predicate NoneOf(who: Process, log: seq<Event>, from: nat) {
    forall k :: from <= k < |log| ==> !Involves(who, log[k])
  }

  /** The control state that belongs to who. */
  ghost predicate SameControl(who: Process, s: State, s': State) {
    match who
    case WorkerLoop => s'.worker == s.worker
    case UploadOf(p) => (p in s.ingests <==> p in s'.ingests) && (p in s.ingests ==> s.ingests[p] == s'.ingests[p])
    case DeleteOf(p) => p in s.removals ==> p in s'.removals
    case DeleteAlbumOf(a) =>
      && (a in s.albumRemovals ==> a in s'.albumRemovals)
      && (a in s.albumsUsed ==> a in s'.albumsUsed && (a !in s.albums ==> a !in s'.albums))
    case Visitor => true
  }

  /** As long as who takes no step, its control state stays. */
  lemma {:induction false} ControlKept(who: Process, log: seq<Event>, from: nat, k: nat)
    requires CanRun(INITIAL, log) && from <= k <= |log| && NoneOf(who, log, from)
    ensures SameControl(who, At(log, from), At(log, k))
    decreases k
  {
    if from < k {
      ControlKept(who, log, from, k - 1);
      AtNext(log, k - 1);
      StepKeepsControl(who, At(log, k - 1), log[k - 1]);
    }
  }

  lemma StepKeepsControl(who: Process, s: State, e: Event)
    requires Enabled(s, e) && !Involves(who, e)
    ensures SameControl(who, s, Apply(s, e))
  {
    match e
    case Uploading(p, u) => UploadKeepsControl(who, s, p, u);
    case Administering(a) => AdminKeepsControl(who, s, a);
    case Working(w) => WorkKeepsOthers(s, w);
  }

  lemma AdminKeepsControl(who: Process, s: State, a: AdminStep)
    requires CanAdminister(s, a) && !Involves(who, Administering(a))
    ensures SameControl(who, s, ApplyAdmin(s, a))
  {
  }

  /** The worker has no hand in the control state of requests. */
  ghost predicate SameRequests(s: State, s': State) {
    s'.ingests == s.ingests && s'.removals == s.removals && s'.albumRemovals == s.albumRemovals
  }

  lemma WorkKeepsOthers(s: State, w: WorkStep)
    requires CanWork(s.worker, w)
    ensures SameRequests(s, ApplyWork(s, w))
  {
    if w.DeriveNext? {
      DeriveKeepsOthers(s);
    }
  }

  lemma DeriveKeepsOthers(s: State)
    requires CanWork(s.worker, DeriveNext)
    ensures SameRequests(s, DeriveStep(s))
  {
    assert DeriveStep(s).(worker := s.worker) == s;
  }

  lemma UploadKeepsControl(who: Process, s: State, p: Ref, u: UploadStep)
    requires CanUpload(s, p, u) && who != UploadOf(p)
    ensures SameControl(who, s, ApplyUpload(s, p, u))
  {
    var s' := ApplyUpload(s, p, u);
    assert s'.(rows := s.rows, disk := s.disk, used := s.used, ingests := s.ingests) == s;
  }

  // ----- what is true at some moment of the log -----

  /** Something that may be true of a photo at some moment. */
  datatype Fact =
    | Settled(hash: nat)     // visible with this hash, gone, or its file has been replaced
    | OriginalLost           // its original is not there
    | DirectoryLost          // nor is its directory
    | RowGone
    | RowThere
    | Refused(lrUuid: nat)   // a row for it would not be inserted

  predicate Is(s: State, p: Ref, fact: Fact) {
    match fact
    case Settled(hash) => p !in s.rows || s.rows[p].hash != hash || s.rows[p].ready
    case OriginalLost => Stored(s.disk, p).None?
    case DirectoryLost => p !in s.disk
    case RowGone => p !in s.rows
    case RowThere => p in s.rows
    case Refused(lrUuid) => p in s.rows || p.album !in s.albums || LrUuidTaken(s.rows, p.album, lrUuid)
  }

  /** At some moment since the first from events it was true. */
  ghost predicate Seen(from: nat, log: seq<Event>, p: Ref, fact: Fact)
    requires CanRun(INITIAL, log)
  {
    exists k :: from <= k <= |log| && Is(At(log, k), p, fact)
  }

  lemma SeenLater(from: nat, log: seq<Event>, from': nat, log': seq<Event>, p: Ref, fact: Fact)
    requires CanRun(INITIAL, log) && CanRun(INITIAL, log') && log <= log' && from' <= from && Seen(from, log, p, fact)
    ensures Seen(from', log', p, fact)
  {
    var k :| from <= k <= |log| && Is(At(log, k), p, fact);
    AtEarlier(log, log', k);
  }

  /** The k-th event is e, and when it came this was true of p. */
  ghost predicate Met(log: seq<Event>, k: nat, e: Event, p: Ref, fact: Fact)
    requires CanRun(INITIAL, log)
  {
    k < |log| && log[k] == e && Is(At(log, k), p, fact)
  }

  lemma MetLater(log: seq<Event>, log': seq<Event>, k: nat, e: Event, p: Ref, fact: Fact)
    requires CanRun(INITIAL, log) && CanRun(INITIAL, log') && log <= log' && Met(log, k, e, p, fact)
    ensures Met(log', k, e, p, fact)
  {
    AtEarlier(log, log', k);
  }

  // ----- how a generation ends -----

  /** The k-th event is the mark of a generation of p for row that has rendered, committed and pruned. */
  ghost predicate MarkAt(log: seq<Event>, k: nat, p: Ref, row: Row)
    requires CanRun(INITIAL, log) && k < |log|
  {
    log[k] == Working(Mark) && At(log, k).worker.job == Some(Job(p, row, Pruning([])))
  }

  /** It breaks off a generation: the original or the directory was not there, or, unless the server is healthy, for any reason. */
  ghost predicate StopsAt(healthy: bool, log: seq<Event>, k: nat, p: Ref, row: Row)
    requires CanRun(INITIAL, log) && k < |log|
  {
    var s := At(log, k);
    && s.worker.job.Some? && s.worker.job.value.p == p && s.worker.job.value.row == row && At(log, k + 1).worker.job.None?
    && (Met(log, k, Working(DeriveNext), p, OriginalLost) || Met(log, k, Working(RenameVariant), p, DirectoryLost) ||
        (!healthy && log[k] == Working(Fail)))
  }

  lemma StopsLater(healthy: bool, log: seq<Event>, log': seq<Event>, k: nat, p: Ref, row: Row)
    requires CanRun(INITIAL, log) && CanRun(INITIAL, log') && log <= log' && k < |log| && StopsAt(healthy, log, k, p, row)
    ensures StopsAt(healthy, log', k, p, row)
  {
    AtEarlier(log, log', k);
    AtEarlier(log, log', k + 1);
  }

  ghost predicate Stopped(healthy: bool, from: nat, log: seq<Event>, p: Ref, row: Row)
    requires CanRun(INITIAL, log)
  {
    exists k :: from <= k < |log| && StopsAt(healthy, log, k, p, row)
  }

  /** It broke off, and after that the row was gone. */
  ghost predicate GoneAfter(healthy: bool, log: seq<Event>, k: nat, m: nat, p: Ref, row: Row)
    requires CanRun(INITIAL, log)
  {
    k < m <= |log| && StopsAt(healthy, log, k, p, row) && Is(At(log, m), p, RowGone)
  }

  /** Since the first from events a generation of p for row has come to its mark, or has broken off and found the row gone. */
  ghost predicate Done(healthy: bool, from: nat, log: seq<Event>, p: Ref, row: Row)
    requires CanRun(INITIAL, log)
  {
    (exists k :: from <= k < |log| && MarkAt(log, k, p, row)) || exists k, m :: from <= k && GoneAfter(healthy, log, k, m, p, row)
  }

  lemma DoneLater(healthy: bool, from: nat, log: seq<Event>, from': nat, log': seq<Event>, p: Ref, row: Row)
    requires CanRun(INITIAL, log) && CanRun(INITIAL, log') && log <= log' && from' <= from && Done(healthy, from, log, p, row)
    ensures Done(healthy, from', log', p, row)
  {
    if k :| from <= k < |log| && MarkAt(log, k, p, row) {
      AtEarlier(log, log', k);
      assert MarkAt(log', k, p, row);
    } else {
      var k, m :| from <= k && GoneAfter(healthy, log, k, m, p, row);
      StopsLater(healthy, log, log', k, p, row);
      AtEarlier(log, log', m);
      assert GoneAfter(healthy, log', k, m, p, row);
    }
  }

  /** And then p was settled: the mark showed it, or found it replaced or gone. */
  lemma DoneIsSettled(healthy: bool, from: nat, log: seq<Event>, p: Ref, row: Row)
    requires CanRun(INITIAL, log) && Done(healthy, from, log, p, row)
    ensures Seen(from, log, p, Settled(row.hash))
  {
    if k :| from <= k < |log| && MarkAt(log, k, p, row) {
      AtNext(log, k);
      assert Is(At(log, k + 1), p, Settled(row.hash));
    } else {
      var k, m :| from <= k && GoneAfter(healthy, log, k, m, p, row);
      assert Is(At(log, m), p, Settled(row.hash));
    }
  }

  /** Since the first from events it broke off, and if that was for want of the original, the row was still there after. */
  ghost predicate InError(healthy: bool, from: nat, log: seq<Event>, p: Ref, row: Row)
    requires CanRun(INITIAL, log)
  {
    exists k, m :: from <= k < m <= |log| && ErrorAt(healthy, log, k, m, p, row)
  }

  ghost predicate ErrorAt(healthy: bool, log: seq<Event>, k: nat, m: nat, p: Ref, row: Row)
    requires CanRun(INITIAL, log) && k < m <= |log|
  {
    StopsAt(healthy, log, k, p, row) && (healthy && log[k] == Working(DeriveNext) ==> Is(At(log, m), p, RowThere))
  }

  lemma InErrorLater(healthy: bool, from: nat, log: seq<Event>, from': nat, log': seq<Event>, p: Ref, row: Row)
    requires CanRun(INITIAL, log) && CanRun(INITIAL, log') && log <= log' && from' <= from && InError(healthy, from, log, p, row)
    ensures InError(healthy, from', log', p, row)
  {
    var k, m :| from <= k < m <= |log| && ErrorAt(healthy, log, k, m, p, row);
    StopsLater(healthy, log, log', k, p, row);
    AtEarlier(log, log', m);
    assert ErrorAt(healthy, log', k, m, p, row);
  }

  // ----- what the calls here have done -----

  /** A step that only an I/O error or a cancel makes the code take. */
  predicate IsCutOff(e: Event) {
    match e
    case Uploading(_, u) => u == Abandon || u == InsertFails
    case Administering(a) => a.LeaveFiles? || a.LeaveAlbumFiles?
    case Working(w) => w == Fail
  }

  /** None of them is. */
  ghost predicate NoCutOff(deeds: seq<Event>) {
    forall i :: 0 <= i < |deeds| ==> !IsCutOff(deeds[i])
  }

  // ----- the table -----

  ghost predicate Named(photos: seq<(Ref, Row)>, p: Ref) {
    exists i :: 0 <= i < |photos| && photos[i].0 == p
  }

  /** photos names every entry of q once. */
  ghost predicate Lists(photos: seq<(Ref, Row)>, q: map<Ref, Row>) {
    && (forall i :: 0 <= i < |photos| ==> photos[i].0 in q && q[photos[i].0] == photos[i].1)
    && (forall i, j :: 0 <= i < j < |photos| ==> photos[i].0 != photos[j].0)
    && (forall p :: p in q ==> Named(photos, p))
  }

  lemma ListsSnoc(photos: seq<(Ref, Row)>, q: map<Ref, Row>, p: Ref, row: Row)
    requires Lists(photos, q) && p !in q
    ensures Lists(photos + [(p, row)], q[p := row])
  {
    var more := photos + [(p, row)];
    forall r | r in q[p := row] ensures Named(more, r) {
      if r == p {
        assert more[|photos|].0 == r;
      } else {
        var i :| 0 <= i < |photos| && photos[i].0 == r;
        assert more[i].0 == r;
      }
    }
  }

  lemma ListsTail(photos: seq<(Ref, Row)>, q: map<Ref, Row>)
    requires Lists(photos, q) && photos != []
    ensures Lists(photos[1..], q - {photos[0].0})
  {
    forall r | r in q - {photos[0].0} ensures Named(photos[1..], r) {
      var i :| 0 <= i < |photos| && photos[i].0 == r;
      assert photos[1..][i - 1].0 == r;
    }
  }

  datatype InsertResult = Inserted | PhotoExists | IdTaken | AlbumMissing

  /** The albums and photos tables, as far as photos go. */
  class PhotoTable {
    var albums: set<nat>
    var rows: map<Ref, Row>

    constructor ()
      ensures albums == {} && rows == map[]
    {
      albums, rows := {}, map[];
    }

    method MarkVariantsPending(p: Ref) returns (found: bool)
      modifies this`rows
      ensures found <==> p in old(rows)
      ensures rows == if found then old(rows)[p := old(rows)[p].(ready := false)] else old(rows)
    {
      found := p in rows;
      if found {
        rows := rows[p := rows[p].(ready := false)];
      }
    }

    method MarkVariantsReady(p: Ref, contentHash: nat) returns (updated: bool)
      modifies this`rows
      ensures updated <==> p in old(rows) && old(rows)[p].hash == contentHash
      ensures rows == if updated then old(rows)[p := old(rows)[p].(ready := true)] else old(rows)
    {
      updated := p in rows && rows[p].hash == contentHash;
      if updated {
        rows := rows[p := rows[p].(ready := true)];
      }
    }

    /** Rewrites the file columns; lr_photo_uuid and variants_ready stay as they are. */
    method UpdatePhoto(p: Ref, file: Jpeg) returns (found: bool)
      modifies this`rows
      ensures found <==> p in old(rows)
      ensures rows.Keys == old(rows).Keys && forall q :: q in rows && q != p ==> rows[q] == old(rows)[q]
      ensures found ==> FileOf(rows[p]) == file && rows[p].ready == old(rows)[p].ready && rows[p].lrUuid == old(rows)[p].lrUuid
    {
      found := p in rows;
      if found {
        rows := rows[p := rows[p].(hash := file.hash, width := file.width, height := file.height)];
      }
    }

    method InsertPhoto(p: Ref, row: Row) returns (result: InsertResult)
      modifies this`rows
      ensures result.Inserted? <==> p !in old(rows) && p.album in albums && !LrUuidTaken(old(rows), p.album, row.lrUuid)
      ensures rows == if result.Inserted? then old(rows)[p := row] else old(rows)
    {
      if exists q :: q in rows && q.album == p.album && rows[q].lrUuid == row.lrUuid {
        result := PhotoExists;
      } else if p in rows {
        result := IdTaken;
      } else if p.album !in albums {
        result := AlbumMissing;
      } else {
        rows := rows[p := row];
        result := Inserted;
      }
    }

    method GetPhoto(p: Ref) returns (row: Option<Row>)
      ensures row == if p in rows then Some(rows[p]) else None
    {
      row := if p in rows then Some(rows[p]) else None;
    }

    method DeletePhoto(p: Ref) returns (found: bool)
      modifies this`rows
      ensures (found <==> p in old(rows)) && rows == if found then old(rows) - {p} else old(rows)
    {
      found := p in rows;
      if found {
        rows := rows - {p};
      }
    }

    /** The album, and by cascade its photos. */
    method DeleteAlbum(album: nat)
      modifies this
      ensures albums == old(albums) - {album} && rows == RowsWithoutAlbums(old(rows), {album})
    {
      albums := albums - {album};
      rows := map p | p in rows && p.album != album :: rows[p];
    }

    /** Every pending row once. */
    method ListPhotosPendingVariants() returns (photos: seq<(Ref, Row)>)
      ensures Lists(photos, Pending(rows))
    {
      photos := [];
      var all := Pending(rows);
      var left := all.Keys;
      while left != {}
        invariant left <= all.Keys && Lists(photos, all - left)
        decreases left
      {
        var p :| p in left;
        ListsSnoc(photos, all - left, p, all[p]);
        assert all - (left - {p}) == (all - left)[p := all[p]];
        photos := photos + [(p, all[p])];
        left := left - {p};
      }
      assert all - {} == all;
    }
  }

  // ----- the files -----

  /** The tree below photos/. */
  class Store {
    var disk: map<Ref, Dir>

    constructor ()
      ensures disk == map[]
    {
      disk := map[];
    }

    /** os.MkdirAll of the photo directory. */
    method MakeDir(p: Ref)
      modifies this
      ensures disk == MkdirAll(old(disk), p)
    {
      if p !in disk {
        disk := disk[p := map[]];
      }
    }

    /** os.Rename of a staged file into the photo directory, replacing what was there. */
    method Rename(p: Ref, v: Variant, file: File) returns (ok: bool)
      modifies this
      ensures ok <==> p in old(disk)
      ensures disk == if ok then Put(old(disk), p, v, file) else old(disk)
    {
      ok := p in disk;
      if ok {
        disk := disk[p := disk[p][v := file]];
      }
    }

    /** Deletes one variant file if present. */
    method Remove(p: Ref, v: Variant)
      modifies this
      ensures disk == RemoveVariant(old(disk), p, v)
    {
      if p in disk {
        disk := disk[p := disk[p] - {v}];
      }
    }

    method RemovePhoto(p: Ref)
      modifies this
      ensures disk == old(disk) - {p}
    {
      disk := disk - {p};
    }

    method RemoveAlbum(album: nat)
      modifies this
      ensures disk == WithoutAlbums(old(disk), {album})
    {
      disk := map p | p in disk && p.album != album :: disk[p];
    }

    method Has(p: Ref, v: Variant) returns (there: bool)
      ensures there <==> p in disk && v in disk[p]
    {
      there := p in disk && v in disk[p];
    }

    method Read(p: Ref, v: Variant) returns (file: Option<File>)
      ensures file == if p in disk && v in disk[p] then Some(disk[p][v]) else None
    {
      file := if p in disk && v in disk[p] then Some(disk[p][v]) else None;
    }

    /** The original, opened for reading. */
    method Open(p: Ref) returns (original: Option<Jpeg>)
      ensures original == Stored(disk, p)
    {
      original := if p in disk && Original in disk[p] && disk[p][Original].Upload? then Some(disk[p][Original].jpeg) else None;
    }
  }
}
