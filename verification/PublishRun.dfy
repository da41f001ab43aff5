/**
 One publish of the Lightroom plugin (processRenderedPhotos): the album is made,
 or made again if the server has lost it, and each rendition is uploaded. What the
 plugin records, lists as failed and lists as left in a deleted album accounts for
 every rendition it processed, whatever the server answers.
 */
module PublishRun {
  import opened Base

  /** A photo to publish; existingId is the id an earlier publish recorded. */
  datatype Rendition = Rendition(filename: string, existingId: Option<nat>)

  /** What waitForRender gives, or a cancel. */
  datatype Render = Rendered | RenderFailed(message: string) | Canceled

  /** The reply to an upload: 404 album_not_found, 404 photo_not_found, another failure, or a body with an id or without. */
  datatype Reply = AlbumGone(message: string) | PhotoGone(message: string) | OtherError(message: string) | Stored(id: nat) | NoId(message: string)

  /** What became of a processed rendition: the album it was uploaded into, and whether that was before the album was made again. */
  datatype Outcome =
    | Recorded(id: nat, album: nat, early: bool)
    | NotRendered(message: string)
    | NotUploaded(reason: string)

  /** What the dialog says of a rendition that failed: what the renderer said, or the file and the reason. */
  function Line(r: Rendition, o: Outcome): string
    requires !o.Recorded?
  {
    match o
    case NotRendered(message) => message
    case NotUploaded(reason) => r.filename + ": " + reason
  }

  /** The dialog's list of failures. */
  function Failures(renditions: seq<Rendition>, outcomes: seq<Outcome>): seq<string>
    requires |outcomes| <= |renditions|
    decreases |outcomes|
  {
    if outcomes == [] then [] else
      var n := |outcomes| - 1;
      var rest := Failures(renditions, outcomes[..n]);
      if outcomes[n].Recorded? then rest else rest + [Line(renditions[n], outcomes[n])]
  }

  /** The files of the renditions recorded before the album was made again. */
  function Early(renditions: seq<Rendition>, outcomes: seq<Outcome>): seq<string>
    requires |outcomes| <= |renditions|
    decreases |outcomes|
  {
    if outcomes == [] then [] else
      var n := |outcomes| - 1;
      var rest := Early(renditions, outcomes[..n]);
      if outcomes[n].Recorded? && outcomes[n].early then rest + [renditions[n].filename] else rest
  }

  lemma ListsSnoc(renditions: seq<Rendition>, outcomes: seq<Outcome>, o: Outcome)
    requires |outcomes| < |renditions|
    ensures Failures(renditions, outcomes + [o]) == Failures(renditions, outcomes) + if o.Recorded? then [] else [Line(renditions[|outcomes|], o)]
    ensures Early(renditions, outcomes + [o]) ==
            Early(renditions, outcomes) + if o.Recorded? && o.early then [renditions[|outcomes|].filename] else []
  {
    assert (outcomes + [o])[..|outcomes|] == outcomes;
  }

  lemma {:induction false} EarlyHas(renditions: seq<Rendition>, outcomes: seq<Outcome>, i: nat)
    requires i < |outcomes| <= |renditions| && outcomes[i].Recorded? && outcomes[i].early
    ensures renditions[i].filename in Early(renditions, outcomes)
    decreases |outcomes|
  {
    var n := |outcomes| - 1;
    if i < n { EarlyHas(renditions, outcomes[..n], i); }
  }

  lemma {:induction false} FailuresHas(renditions: seq<Rendition>, outcomes: seq<Outcome>, i: nat)
    requires i < |outcomes| <= |renditions| && !outcomes[i].Recorded?
    ensures Line(renditions[i], outcomes[i]) in Failures(renditions, outcomes)
    decreases |outcomes|
  {
    var n := |outcomes| - 1;
    if i < n { FailuresHas(renditions, outcomes[..n], i); }
  }

  /** One upload: into which album, as which photo if not as a new one, and what was replied. */
  datatype Try = Try(album: nat, existing: Option<nat>, reply: Reply)

  /** How an upload follows another: as a new photo, because that one is gone, or because its album is and has been made again. */
  predicate Follows(a: Try, b: Try) {
    b.existing.None? && ((a.reply.PhotoGone? && b.album == a.album) || a.reply.AlbumGone?)
  }

  /** The uploads of one rendition: the first as what it was, the others because of what the one before was told, the last with nothing more to try. */
  predicate AreTries(r: Rendition, tries: seq<Try>) {
    && 1 <= |tries| <= 3 && tries[0].existing == r.existingId && !tries[|tries| - 1].reply.PhotoGone?
    && forall i :: 1 <= i < |tries| ==> Follows(tries[i - 1], tries[i])
  }

  /** An outcome is what the last upload was told, or why there was nothing to upload. */
  predicate Explains(r: Rendition, render: Render, tries: seq<Try>, o: Outcome) {
    match o
    case NotRendered(message) => render == RenderFailed(message) && tries == []
    case Recorded(id, album, _) =>
      render == Rendered && AreTries(r, tries) && tries[|tries| - 1].reply == Stored(id) && tries[|tries| - 1].album == album
    case NotUploaded(reason) =>
      render == Rendered && AreTries(r, tries) && !tries[|tries| - 1].reply.Stored? && tries[|tries| - 1].reply.message == reason
  }

  /** Every outcome is explained by the uploads of its rendition. */
  predicate AllExplained(renditions: seq<Rendition>, renders: nat -> Render, attempts: seq<seq<Try>>, outcomes: seq<Outcome>) {
    && |attempts| == |outcomes| <= |renditions|
    && forall i :: 0 <= i < |outcomes| ==> Explains(renditions[i], renders(i), attempts[i], outcomes[i])
  }

  lemma AllExplainedSnoc(renditions: seq<Rendition>, renders: nat -> Render, attempts: seq<seq<Try>>, outcomes: seq<Outcome>, made: seq<Try>, o: Outcome)
    requires AllExplained(renditions, renders, attempts, outcomes) && |outcomes| < |renditions|
    requires Explains(renditions[|outcomes|], renders(|outcomes|), made, o)
    ensures AllExplained(renditions, renders, attempts + [made], outcomes + [o])
  {
  }

  function Flat(attempts: seq<seq<Try>>): seq<Try> {
    if attempts == [] then [] else Flat(attempts[..|attempts| - 1]) + attempts[|attempts| - 1]
  }

  lemma FlatSnoc(before: seq<seq<Try>>, attempts: seq<seq<Try>>)
    requires |attempts| == |before| + 1 && attempts[..|before|] == before
    ensures Flat(attempts) == Flat(before) + attempts[|before|]
  {
  }

  /** The server, as far as a publish sees it: what it has accepted, and the albums it has made. */
  class Api {
    ghost var accepted: set<(nat, nat)>     // (album, photo id)
    ghost var saidGone: set<nat>            // albums it has said it does not have
    ghost var made: seq<nat>                // the albums it has made
    ghost var tries: seq<Try>               // every upload

    constructor ()
      ensures accepted == {} && saidGone == {} && made == [] && tries == []
    {
      accepted, saidGone, made, tries := {}, {}, [], [];
    }

    method UploadPhoto(album: nat, existing: Option<nat>) returns (reply: Reply)
      modifies this`accepted, this`saidGone, this`tries
      ensures tries == old(tries) + [Try(album, existing, reply)]
      ensures accepted == old(accepted) + (if reply.Stored? then {(album, reply.id)} else {})
      ensures saidGone == old(saidGone) + (if reply.AlbumGone? then {album} else {})
      ensures reply.PhotoGone? ==> existing.Some?
    {
      var message: string := *;
      var photoGone: bool := *;
      if * {
        var id: nat := *;
        accepted := accepted + {(album, id)};
        reply := Stored(id);
      } else if * {
        reply := NoId(message);
      } else if * {
        saidGone := saidGone + {album};
        reply := AlbumGone(message);
      } else if existing.Some? && photoGone {
        reply := PhotoGone(message);
      } else {
        reply := OtherError(message);
      }
      tries := tries + [Try(album, existing, reply)];
    }

    /** createAlbum; an error stops the run. */
    method CreateAlbum() returns (album: Option<nat>)
      modifies this`made
      ensures made == old(made) + if album.Some? then [album.value] else []
    {
      if * { return None; }
      var id: nat := *;
      made := made + [id];
      return Some(id);
    }

    /** updateAlbum: whether the album is gone; other errors are only logged. */
    method UpdateAlbum(album: nat) returns (gone: bool)
      modifies this`saidGone
      ensures saidGone == old(saidGone) + (if gone then {album} else {})
    {
      gone := *;
      if gone { saidGone := saidGone + {album}; }
    }
  }

  /** The run's album before and after: the same, or made again because the server said that it is gone. */
  ghost predicate AlbumMoved(was: seq<nat>, made: seq<nat>, gone: set<nat>, recreated: bool, album: nat, recreated': bool, album': nat) {
    if recreated == recreated' then made == was && album' == album
    else recreated' && album in gone && made == was + [album']
  }

  lemma AlbumMovedOn(was: seq<nat>, made: seq<nat>, gone: set<nat>, r0: bool, a0: nat, r1: bool, a1: nat, made': seq<nat>, gone': set<nat>, r2: bool, a2: nat)
    requires AlbumMoved(was, made, gone, r0, a0, r1, a1) && AlbumMoved(made, made', gone', r1, a1, r2, a2) && gone <= gone'
    ensures AlbumMoved(was, made', gone', r0, a0, r2, a2)
  {
  }

  /** The state of a run. */
  class Publish {
    const api: Api
    const renditions: seq<Rendition>
    const renders: nat -> Render          // what waitForRender gives for each
    var albumId: nat
    var albumRecreated: bool
    var failures: seq<string>
    var landedInOldAlbum: seq<string>
    var recorded: map<nat, nat>           // by rendition: the id Lightroom was told
    ghost var outcomes: seq<Outcome>      // of the renditions processed so far
    ghost var attempts: seq<seq<Try>>     // and their uploads
    ghost var oldAlbum: nat               // the run's album before it was made again

    /** Every rendition processed so far is accounted for. */
    ghost predicate Accounted()
      reads this, api
    {
      && AllExplained(renditions, renders, attempts, outcomes)
      && failures == Failures(renditions, outcomes)
      && landedInOldAlbum == Early(renditions, outcomes)
      && (forall i :: i in recorded <==> 0 <= i < |outcomes| && outcomes[i].Recorded?)
      && (forall i :: i in recorded ==> InPlace(i))
    }

    /** A recorded rendition is in the run's album, or was in the one before. */
    ghost predicate InPlace(i: nat)
      reads this, api
    {
      && i < |outcomes| && outcomes[i].Recorded? && i in recorded && recorded[i] == outcomes[i].id
      && (outcomes[i].album, outcomes[i].id) in api.accepted
      && outcomes[i].album == (if albumRecreated && outcomes[i].early then oldAlbum else albumId)
      && (!albumRecreated ==> outcomes[i].early)
    }

    constructor (api: Api, renditions: seq<Rendition>, renders: nat -> Render, album: nat, recreated: bool)
      ensures this.api == api && this.renditions == renditions && this.renders == renders && Accounted() && outcomes == [] && attempts == []
      ensures albumId == album && albumRecreated == recreated
    {
      this.api, this.renditions, this.renders, albumId, albumRecreated := api, renditions, renders, album, recreated;
      failures, landedInOldAlbum, recorded, outcomes, attempts, oldAlbum := [], [], map[], [], [], album;
    }

    /** The uploads of one rendition, up to the one after the album is made again. */
    method Upload(r: Rendition) returns (stopped: bool, reply: Reply, ghost made: seq<Try>)
      requires Accounted()
      modifies this`albumId, this`albumRecreated, this`oldAlbum, api
      ensures Accounted() && old(api.accepted) <= api.accepted && old(api.saidGone) <= api.saidGone
      ensures albumRecreated && !old(albumRecreated) ==> old(albumId) in api.saidGone
      ensures old(albumRecreated) ==> albumRecreated && albumId == old(albumId)
      ensures !old(albumRecreated) && !albumRecreated ==> albumId == old(albumId)
      ensures !stopped && reply.Stored? ==> (albumId, reply.id) in api.accepted
      ensures api.made == old(api.made) + if albumRecreated && !old(albumRecreated) && !stopped then [albumId] else []
      ensures !stopped && reply.AlbumGone? ==> albumRecreated
      ensures api.tries == old(api.tries) + made && AreTries(r, made) && made[0].album == old(albumId)
      ensures reply == made[|made| - 1].reply && (!stopped ==> made[|made| - 1].album == albumId)
      ensures stopped ==> !old(albumRecreated) && albumRecreated && reply.AlbumGone?
    {
      stopped := false;
      reply, made := UploadIntoAlbum(r);
      if reply.AlbumGone? && !albumRecreated {
        stopped, reply := UploadAnew(reply);
        if !stopped { made := made + [Try(albumId, None, reply)]; }
      }
    }

    /** As the photo it was, and as a new one if that is gone. */
    method UploadIntoAlbum(r: Rendition) returns (reply: Reply, ghost made: seq<Try>)
      requires Accounted()
      modifies api
      ensures Accounted() && old(api.accepted) <= api.accepted && api.made == old(api.made)
      ensures api.saidGone == old(api.saidGone) + if reply.AlbumGone? then {albumId} else {}
      ensures reply.Stored? ==> (albumId, reply.id) in api.accepted
      ensures api.tries == old(api.tries) + made && AreTries(r, made) && |made| <= 2 && made[0].album == albumId
      ensures made[|made| - 1].reply == reply && made[|made| - 1].album == albumId
    {
      reply := api.UploadPhoto(albumId, r.existingId);
      made := [Try(albumId, r.existingId, reply)];
      if reply.PhotoGone? {
        reply := api.UploadPhoto(albumId, None);
        made := made + [Try(albumId, None, reply)];
      }
      StaysAccounted();
    }

    /** What the server accepts more changes nothing of what is booked. */
    twostate lemma StaysAccounted()
      requires old(Accounted()) && old(api.accepted) <= api.accepted && unchanged(this)
      ensures Accounted()
    {
      forall i | i in recorded ensures InPlace(i) { assert old(InPlace(i)); }
    }

    /** The album is made again, and the photo uploaded into it. */
    method UploadAnew(last: Reply) returns (stopped: bool, reply: Reply)
      requires Accounted() && !albumRecreated
      modifies this`albumId, this`albumRecreated, this`oldAlbum, api
      ensures Accounted() && albumRecreated && old(api.accepted) <= api.accepted && old(api.saidGone) <= api.saidGone
      ensures !stopped && reply.Stored? ==> (albumId, reply.id) in api.accepted
      ensures api.made == old(api.made) + if stopped then [] else [albumId]
      ensures !stopped ==> !reply.PhotoGone?
      ensures if stopped then reply == last && api.tries == old(api.tries) else api.tries == old(api.tries) + [Try(albumId, None, reply)]
    {
      assert forall i :: i in recorded ==> InPlace(i);
      oldAlbum, albumRecreated := albumId, true;
      var album := api.CreateAlbum();
      if album.None? { return true, last; }
      albumId := album.value;
      reply := api.UploadPhoto(albumId, None);
      stopped := false;
    }

    /** Books rendition i: uploaded into the run's album, or failed. */
    method Book(i: nat, outcome: Outcome, ghost made: seq<Try>)
      requires Accounted() && i == |outcomes| < |renditions|
      requires Explains(renditions[i], renders(i), made, outcome)
      requires outcome.Recorded? ==> outcome.album == albumId && outcome.early == !albumRecreated && (albumId, outcome.id) in api.accepted
      modifies this`failures, this`landedInOldAlbum, this`recorded, this`outcomes, this`attempts
      ensures Accounted() && outcomes == old(outcomes) + [outcome] && attempts == old(attempts) + [made]
    {
      Note(i, outcome);
      ListsSnoc(renditions, outcomes, outcome);
      AllExplainedSnoc(renditions, renders, attempts, outcomes, made, outcome);
      outcomes, attempts := outcomes + [outcome], attempts + [made];
      StaysInPlace(i);
    }

    /** recordPublishedPhotoId and the two lists. */
    method Note(i: nat, outcome: Outcome)
      requires i < |renditions|
      modifies this`failures, this`landedInOldAlbum, this`recorded
      ensures recorded == if outcome.Recorded? then old(recorded)[i := outcome.id] else old(recorded)
      ensures landedInOldAlbum == old(landedInOldAlbum) + if outcome.Recorded? && !albumRecreated then [renditions[i].filename] else []
      ensures failures == old(failures) + if outcome.Recorded? then [] else [Line(renditions[i], outcome)]
    {
      if outcome.Recorded? {
        recorded := recorded[i := outcome.id];
        if !albumRecreated { landedInOldAlbum := landedInOldAlbum + [renditions[i].filename]; }
      } else {
        failures := failures + [Line(renditions[i], outcome)];
      }
    }

    /** What was in place before rendition i was booked still is, and so is i. */
    twostate lemma StaysInPlace(i: nat)
      requires old(Accounted()) && i == old(|outcomes|) && |outcomes| == i + 1 && outcomes[..i] == old(outcomes)
      requires recorded == if outcomes[i].Recorded? then old(recorded)[i := outcomes[i].id] else old(recorded)
      requires unchanged(api) && albumId == old(albumId) && albumRecreated == old(albumRecreated) && oldAlbum == old(oldAlbum)
      requires outcomes[i].Recorded? ==>
                 outcomes[i].album == albumId && outcomes[i].early == !albumRecreated && (albumId, outcomes[i].id) in api.accepted
      ensures forall k :: k in recorded <==> 0 <= k < |outcomes| && outcomes[k].Recorded?
      ensures forall k :: k in recorded ==> InPlace(k)
    {
      forall k ensures k in recorded <==> 0 <= k < |outcomes| && outcomes[k].Recorded? {
        if 0 <= k < i { assert outcomes[k] == outcomes[..i][k]; }
      }
      forall k | k in recorded ensures InPlace(k) {
        if k != i { assert old(InPlace(k)) && outcomes[k] == outcomes[..i][k]; }
      }
    }

    /** One rendered rendition. */
    method UploadAndBook(i: nat) returns (stop: bool)
      requires Accounted() && i == |outcomes| < |renditions| && renders(i) == Rendered
      modifies this, api
      ensures Accounted() && old(api.accepted) <= api.accepted && old(api.saidGone) <= api.saidGone
      ensures if stop then api.made == old(api.made) && old(albumId) in api.saidGone && !old(albumRecreated)
              else AlbumMoved(old(api.made), api.made, api.saidGone, old(albumRecreated), old(albumId), albumRecreated, albumId)
      ensures if stop then outcomes == old(outcomes) && attempts == old(attempts) && old(api.tries) <= api.tries && Ended(true, false)
              else |outcomes| == i + 1 && |attempts| == i + 1 && attempts[..i] == old(attempts) && api.tries == old(api.tries) + attempts[i]
    {
      var reply;
      ghost var made;
      stop, reply, made := Upload(renditions[i]);
      if !stop {
        Book(i, if reply.Stored? then Recorded(reply.id, albumId, !albumRecreated) else NotUploaded(reply.message), made);
      }
    }

    /** The dialogs at the end name what is not in the run's album. */
    lemma EndOfRun()
      requires Accounted()
      ensures forall i :: i in recorded ==> InAlbum(i) || (albumRecreated && renditions[i].filename in landedInOldAlbum)
      ensures forall i :: 0 <= i < |outcomes| && i !in recorded ==> Explained(i)
    {
      forall i | i in recorded ensures InAlbum(i) || (albumRecreated && renditions[i].filename in landedInOldAlbum) {
        assert InPlace(i);
        if outcomes[i].early { EarlyHas(renditions, outcomes, i); }
      }
      forall i | 0 <= i < |outcomes| && i !in recorded ensures Explained(i) {
        FailuresHas(renditions, outcomes, i);
      }
    }

    /** The failures say why, and name the file unless it was not even rendered. */
    ghost predicate Explained(i: nat)
      requires i < |outcomes| <= |renditions|
      reads this
    {
      !outcomes[i].Recorded? && Line(renditions[i], outcomes[i]) in failures
    }

    /** Lightroom was told an id that the run's album has accepted. */
    ghost predicate InAlbum(i: nat)
      requires i in recorded
      reads this, api
    {
      (albumId, recorded[i]) in api.accepted
    }

    /** The loop over the renditions, which a cancel ends early and a failed create stops. */
    method PublishAll() returns (stopped: bool, canceled: bool)
      requires Accounted() && outcomes == [] && attempts == []
      modifies this, api
      ensures Accounted() && Ended(stopped, canceled)
      ensures old(api.tries) + Flat(attempts) <= api.tries && (!stopped ==> api.tries == old(api.tries) + Flat(attempts))
      ensures old(api.saidGone) <= api.saidGone && (old(albumRecreated) ==> albumRecreated)
      ensures if stopped then api.made == old(api.made) && old(albumId) in api.saidGone && !old(albumRecreated)
              else AlbumMoved(old(api.made), api.made, api.saidGone, old(albumRecreated), old(albumId), albumRecreated, albumId)
    {
      ghost var tried, made, did, last := api.tries, api.made, albumRecreated, albumId;
      var i := 0;
      while i < |renditions|
        invariant i == |outcomes| <= |renditions| && Accounted()
        invariant old(api.saidGone) <= api.saidGone && api.tries == tried + Flat(attempts)
        invariant AlbumMoved(made, api.made, api.saidGone, did, last, albumRecreated, albumId)
      {
        if renders(i) == Canceled { return false, true; }
        stopped := Turn(i, tried, made, did, last);
        if stopped { return true, false; }
        i := i + 1;
      }
      return false, false;
    }

    /** Every rendition was processed, or one came back canceled, or the album could not be made again. */
    ghost predicate Ended(stopped: bool, canceled: bool)
      reads this, api
    {
      if canceled then !stopped && |outcomes| < |renditions| && renders(|outcomes|) == Canceled
      else if stopped then albumRecreated && api.tries != [] && api.tries[|api.tries| - 1].reply.AlbumGone?
      else |outcomes| == |renditions|
    }

    /** One turn of the loop, in a run that began with these uploads and this album. */
    method Turn(i: nat, ghost tried: seq<Try>, ghost made: seq<nat>, ghost did: bool, ghost last: nat) returns (stop: bool)
      requires Accounted() && i == |outcomes| < |renditions| && renders(i) != Canceled
      requires api.tries == tried + Flat(attempts) && AlbumMoved(made, api.made, api.saidGone, did, last, albumRecreated, albumId)
      modifies this, api
      ensures Accounted() && old(api.saidGone) <= api.saidGone
      ensures if stop then attempts == old(attempts) && tried + Flat(attempts) <= api.tries && Ended(true, false)
              else |outcomes| == i + 1 && api.tries == tried + Flat(attempts)
      ensures if stop then api.made == made && last in api.saidGone && !did
              else AlbumMoved(made, api.made, api.saidGone, did, last, albumRecreated, albumId)
    {
      ghost var before, hadMade, hadGone, hadDone, hadLast := attempts, api.made, api.saidGone, albumRecreated, albumId;
      stop := Process(i);
      if !stop {
        FlatSnoc(before, attempts);
        AlbumMovedOn(made, hadMade, hadGone, did, last, hadDone, hadLast, api.made, api.saidGone, albumRecreated, albumId);
      }
    }

    /** One rendition. */
    method Process(i: nat) returns (stop: bool)
      requires Accounted() && i == |outcomes| < |renditions| && renders(i) != Canceled
      modifies this, api
      ensures Accounted() && old(api.saidGone) <= api.saidGone
      ensures if stop then api.made == old(api.made) && old(albumId) in api.saidGone && !old(albumRecreated)
              else AlbumMoved(old(api.made), api.made, api.saidGone, old(albumRecreated), old(albumId), albumRecreated, albumId)
      ensures if stop then attempts == old(attempts) && old(api.tries) <= api.tries && Ended(true, false)
              else |outcomes| == |attempts| == i + 1 && attempts[..i] == old(attempts) && api.tries == old(api.tries) + attempts[i]
    {
      match renders(i) {
        case RenderFailed(message) =>
          Book(i, NotRendered(message), []);
          stop := false;
        case Rendered => stop := UploadAndBook(i);
      }
    }
  }

  /** n albums were made, and the run's album is the last of them, or else the given one. */
  ghost predicate MadeIs(was: seq<nat>, made: seq<nat>, given: Option<nat>, album: nat, n: nat) {
    was <= made && |made| == |was| + n && if n > 0 then made[|made| - 1] == album else given == Some(album)
  }

  /**
   processRenderedPhotos. The album is made again at most once, and only after
   the server has said that it is gone; every recorded
   rendition is in the run's album, or is named in the list of those left in the
   deleted one; every other processed rendition is among the failures, by its file
   name if it was rendered.
   */
  method ProcessRenderedPhotos(api: Api, renditions: seq<Rendition>, renders: nat -> Render, albumId: Option<nat>)
    returns (run: Publish?, stopped: bool, canceled: bool)
    modifies api
    ensures run != null ==> fresh(run) && run.api == api && run.renditions == renditions && run.renders == renders && run.Accounted()
    ensures run == null ==> stopped && api.tries == old(api.tries)
    ensures run != null && !stopped ==> api.tries == old(api.tries) + Flat(run.attempts)
    ensures run != null ==> run.Ended(stopped, canceled)
    ensures run != null ==> forall i :: i in run.recorded ==>
              run.InAlbum(i) || (run.albumRecreated && renditions[i].filename in run.landedInOldAlbum)
    ensures run != null ==> forall i :: 0 <= i < |run.outcomes| && i !in run.recorded ==>
              |run.outcomes| <= |renditions| && run.Explained(i)
    ensures run != null && !stopped ==>
              MadeIs(old(api.made), api.made, albumId, run.albumId, (if albumId.None? then 1 else 0) + (if run.albumRecreated then 1 else 0))
    ensures old(api.made) <= api.made && |api.made| <= |old(api.made)| + 1 + if albumId.None? then 1 else 0
    ensures run == null ==> stopped && !canceled
    ensures run != null && run.albumRecreated && albumId.Some? ==> albumId.value in api.saidGone
  {
    var album;
    var recreated := false;
    if albumId.None? {
      var made := api.CreateAlbum();
      if made.None? { return null, true, false; }
      album := made.value;
    } else {
      album := albumId.value;
      var gone := api.UpdateAlbum(album);
      if gone {
        recreated := true;
        var made := api.CreateAlbum();
        if made.None? { return null, true, false; }
        album := made.value;
      }
    }
    var p := new Publish(api, renditions, renders, album, recreated);
    stopped, canceled := p.PublishAll();
    p.EndOfRun();
    run := p;
  }
}
