/**
 The plugin's resolveParent: it walks a chain of published sets root first, makes
 or verifies a folder for each, and ends with the innermost folder's id. In repair
 mode it restores the chain on the server, whatever has been moved or deleted there,
 exactly if no create is answered with an existing folder that is somewhere else.
 */
module FolderRepair {
  import opened Base
  import opened Forest
  import opened Folders

  /** A published set: the folder id stored for it, and the key a create for it would carry. */
  datatype PublishedSet = PublishedSet(remoteId: Option<nat>, key: nat)

  datatype Resolved = Parent(id: Option<nat>) | Failed(reply: Reply)

  /** The server's chain down to parent is ids. */
  ghost predicate Mirrors(t: Table, parent: Option<nat>, ids: seq<nat>) {
    && (parent.Some? ==> parent.value in t && HasChain(t, parent.value))
    && ChainTo(t, parent) == ids
  }

  /** The folder stored for a set is still there. */
  predicate StillThere(t: Table, s: PublishedSet) {
    s.remoteId.Some? && s.remoteId.value in t
  }

  ghost function Holder(t: Table, key: nat): (f: nat)
    requires KeyTaken(t, Some(key))
    ensures f in t && t[f].key == Some(key)
  {
    var f :| f in t && t[f].key == Some(key);
    f
  }

  /** The folder a set comes by without a new one: its own, or the one a create with its key is answered with. */
  ghost function Existing(t: Table, s: PublishedSet): Option<nat> {
    if StillThere(t, s) then s.remoteId
    else if KeyTaken(t, Some(s.key)) then Some(Holder(t, s.key))
    else None
  }

  lemma ExistingIs(t: Table, s: PublishedSet, f: nat)
    requires UniqueKeys(t) && !StillThere(t, s) && f in t && t[f].key == Some(s.key)
    ensures Existing(t, s) == Some(f)
  {
    assert KeyTaken(t, Some(s.key));
  }

  // ----- when repair restores the chain -----

  ghost predicate DistinctFolders(sets: seq<PublishedSet>, t: Table) {
    forall j, k :: 0 <= j < k < |sets| && Existing(t, sets[k]).Some? ==> Existing(t, sets[j]) != Existing(t, sets[k])
  }

  ghost predicate DistinctNewKeys(sets: seq<PublishedSet>, t: Table) {
    forall j, k :: 0 <= j < k < |sets| && Existing(t, sets[j]).None? && Existing(t, sets[k]).None? ==> sets[j].key != sets[k].key
  }

  /** If the create for set k is answered with an existing folder, that one is below the folder of the set before. */
  ghost predicate InPlace(sets: seq<PublishedSet>, t: Table, k: nat)
    requires k < |sets|
  {
    Existing(t, sets[k]).Some? && !StillThere(t, sets[k]) ==>
      && (k > 0 ==> Existing(t, sets[k - 1]).Some?)
      && t[Existing(t, sets[k]).value].parent == if k == 0 then None else Existing(t, sets[k - 1])
  }

  /** No two sets come by the same folder, and a replayed create finds its folder in place. */
  ghost predicate Repairable(sets: seq<PublishedSet>, t: Table) {
    && DistinctFolders(sets, t) && DistinctNewKeys(sets, t)
    && forall k :: 0 <= k < |sets| ==> InPlace(sets, t, k)
  }

  /** The stored ids came from this server, which never gives an id out twice. */
  ghost predicate KnownIds(sets: seq<PublishedSet>, idsUsed: set<nat>) {
    forall i :: 0 <= i < |sets| && sets[i].remoteId.Some? ==> sets[i].remoteId.value in idsUsed
  }

  lemma NotRefused(t: Table, parent: Option<nat>, ids: seq<nat>, id: nat)
    requires IsForest(t) && Mirrors(t, parent, ids) && id in t && id !in ids
    ensures IsForest(Move(t, id, parent))
  {
    MoveIffNotBelow(t, id, parent);
  }

  /**
   When a create is answered with an existing folder x instead (a replayed key),
   the step mirrors exactly if x is already where it was to be made.
   */
  lemma ReplayMirrorsIff(t: Table, parent: Option<nat>, ids: seq<nat>, x: nat)
    requires IsForest(t) && x in t && (parent.None? <==> ids == []) && (parent.Some? ==> parent.value in t && Last(ids) == parent.value)
    ensures Mirrors(t, Some(x), ids + [x]) <==> Mirrors(t, parent, ids) && t[x].parent == parent
  {
    ChainStep(t, x);
    if parent.Some? { ForestIffChains(t); }
    var up := ChainTo(t, t[x].parent);
    if up + [x] == ids + [x] {
      assert up == (up + [x])[..|up|] && ids == (ids + [x])[..|ids|];
    }
  }

  predicate AllStored(sets: seq<PublishedSet>) {
    forall i :: 0 <= i < |sets| ==> sets[i].remoteId.Some?
  }

  function Ids(sets: seq<PublishedSet>): (ids: seq<nat>)
    requires AllStored(sets)
    ensures |ids| == |sets| && forall i :: 0 <= i < |sets| ==> ids[i] == sets[i].remoteId.value
  {
    seq(|sets|, i requires 0 <= i < |sets| => sets[i].remoteId.value)
  }

  function ParentOf(sets: seq<PublishedSet>): Option<nat>
    requires AllStored(sets)
  {
    if sets == [] then None else sets[|sets| - 1].remoteId
  }

  /** What one step does: the stored folder moves below parent, the key is answered with its folder, or a new one is made. */
  predicate Stepped(t: Table, t': Table, used: set<nat>, parent: Option<nat>, s: PublishedSet, id: nat) {
    if StillThere(t, s) then id == s.remoteId.value && t' == Move(t, id, parent)
    else if KeyTaken(t, Some(s.key)) then id in t && t[id].key == Some(s.key) && t' == t
    else id !in used && (parent.Some? ==> parent.value in t) && t' == t[id := Folder(parent, Some(s.key))]
  }

  /** One set of the chain, below parent. */
  method ResolveOne(server: FolderTable, s: PublishedSet, parent: Option<nat>, repair: bool) returns (result: Resolved)
    requires server.Valid()
    modifies server`folders, server`idsUsed, server`faults
    ensures server.Valid() && old(server.idsUsed) <= server.idsUsed
    ensures result.Parent? ==> result.id.Some?
    ensures s.remoteId.Some? && !repair ==> result == Parent(s.remoteId) && server.folders == old(server.folders)
    ensures !(s.remoteId.Some? && !repair) && result.Parent? ==> result.id.value in server.folders
    ensures result.Parent? && (repair || s.remoteId.None?) ==>
              Stepped(old(server.folders), server.folders, old(server.idsUsed), parent, s, result.id.value)
    ensures result.Failed? ==> server.folders == old(server.folders)
    ensures result.Failed? ==>
              match result.reply
              case ParentGone => parent.Some? && parent.value !in server.folders
              case InvalidParent => StillThere(server.folders, s) && !IsForest(Move(server.folders, s.remoteId.value, parent))
              case InternalError => !server.healthy
              case _ => false
  {
    var id := s.remoteId;
    if id.Some? && repair {
      var reply := server.UpdateFolder(id.value, Some(parent));
      if reply.FolderGone? {
        id := None;
      } else if !reply.Ok? {
        return Failed(reply);
      }
    }
    if id.None? {
      var reply := server.CreateFolder(parent, Some(s.key));
      if !reply.Ok? { return Failed(reply); }
      id := Some(reply.id);
    }
    return Parent(id);
  }

  function Store(sets: seq<PublishedSet>, i: nat, id: Option<nat>): seq<PublishedSet>
    requires i < |sets|
  {
    sets[i := sets[i].(remoteId := id)]
  }

  /** The first i sets have their folders. */
  predicate HaveFolders(sets: seq<PublishedSet>, t: Table, i: nat)
    requires i <= |sets|
  {
    forall j :: 0 <= j < i ==> StillThere(t, sets[j])
  }

  /** The first i sets are mirrored, and the others can be. */
  ghost predicate OnTrack(sets: seq<PublishedSet>, t: Table, i: nat)
    requires i <= |sets| && HaveFolders(sets, t, i)
  {
    Repairable(sets, t) && Mirrors(t, ParentOf(sets[..i]), Ids(sets[..i]))
  }

  /** What every step of a repair starts from. */
  ghost predicate Ready(sets: seq<PublishedSet>, t: Table, used: set<nat>, i: nat) {
    && i < |sets| && IsForest(t) && UniqueKeys(t) && t.Keys <= used && KnownIds(sets, used) && HaveFolders(sets, t, i)
  }

  /** The chain after a step, set by set. */
  lemma IdsOneMore(sets: seq<PublishedSet>, t: Table, i: nat, id: nat)
    requires i < |sets| && HaveFolders(sets, t, i)
    ensures var more := Store(sets, i, Some(id))[..i + 1];
            AllStored(more) && ParentOf(more) == Some(id) && Ids(more) == Ids(sets[..i]) + [id]
  {
  }

  lemma PrefixEnds(sets: seq<PublishedSet>, t: Table, i: nat)
    requires i <= |sets| && HaveFolders(sets, t, i)
    ensures AllStored(sets[..i])
    ensures var parent, ids := ParentOf(sets[..i]), Ids(sets[..i]);
            && (parent.None? <==> ids == []) && (parent.Some? ==> parent.value in t && Last(ids) == parent.value)
    ensures forall j :: 0 <= j < i ==> Existing(t, sets[j]) == Some(Ids(sets[..i])[j])
  {
  }

  // The stored folder is moved.

  lemma MoveKeepsExisting(t: Table, f: nat, parent: Option<nat>, s: PublishedSet)
    requires f in t && UniqueKeys(t)
    ensures UniqueKeys(Move(t, f, parent))
    ensures Existing(Move(t, f, parent), s) == Existing(t, s) && (StillThere(Move(t, f, parent), s) <==> StillThere(t, s))
  {
    var t' := Move(t, f, parent);
    assert forall g :: g in t <==> g in t';
    assert forall g :: g in t ==> t'[g].key == t[g].key;
    if !StillThere(t, s) && KeyTaken(t, Some(s.key)) {
      ExistingIs(t', s, Holder(t, s.key));
    }
  }

  lemma MoveRepairableIff(sets: seq<PublishedSet>, t: Table, i: nat, parent: Option<nat>)
    requires i < |sets| && UniqueKeys(t) && StillThere(t, sets[i])
    ensures Repairable(sets, Move(t, sets[i].remoteId.value, parent)) <==> Repairable(sets, t)
  {
    var id := sets[i].remoteId.value;
    var t' := Move(t, id, parent);
    forall k | 0 <= k < |sets|
      ensures Existing(t', sets[k]) == Existing(t, sets[k]) && (StillThere(t', sets[k]) <==> StillThere(t, sets[k]))
    {
      MoveKeepsExisting(t, id, parent, sets[k]);
    }
    if DistinctFolders(sets, t) {
      forall k | 0 <= k < |sets| ensures InPlace(sets, t', k) <==> InPlace(sets, t, k) {
        if Existing(t, sets[k]).Some? && !StillThere(t, sets[k]) {
          assert Existing(t, sets[i]) == Some(id) && Existing(t, sets[k]) != Some(id);
        }
      }
    }
  }

  lemma MoveMirrorsIff(t: Table, id: nat, parent: Option<nat>, ids: seq<nat>)
    requires IsForest(t) && id in t && (parent.Some? ==> parent.value in t) && IsForest(Move(t, id, parent))
    ensures Mirrors(Move(t, id, parent), Some(id), ids + [id]) <==> Mirrors(t, parent, ids)
  {
    MoveIffNotBelow(t, id, parent);
    MovedChain(t, id, parent);
    var up := ChainTo(t, parent);
    if up + [id] == ids + [id] { assert up == (up + [id])[..|up|] && ids == (ids + [id])[..|ids|]; }
  }

  // A new folder is made.

  lemma NewMirrorsIff(t: Table, id: nat, row: Folder, ids: seq<nat>)
    requires IsForest(t) && id !in t && (row.parent.Some? ==> row.parent.value in t)
    ensures Mirrors(t[id := row], Some(id), ids + [id]) <==> Mirrors(t, row.parent, ids)
  {
    Added(t, id, row);
    var up := ChainTo(t, row.parent);
    if up + [id] == ids + [id] { assert up == (up + [id])[..|up|] && ids == (ids + [id])[..|ids|]; }
  }

  /** Another set, when a folder with this key is made. */
  lemma NewKeepsExisting(t: Table, id: nat, row: Folder, s: PublishedSet)
    requires UniqueKeys(t) && UniqueKeys(t[id := row]) && id !in t && row.key.Some? && !KeyTaken(t, row.key) && s.remoteId != Some(id)
    ensures StillThere(t[id := row], s) <==> StillThere(t, s)
    ensures Existing(t[id := row], s) == if !StillThere(t, s) && Some(s.key) == row.key then Some(id) else Existing(t, s)
  {
    var t' := t[id := row];
    if !StillThere(t, s) {
      if Some(s.key) == row.key {
        ExistingIs(t', s, id);
      } else if KeyTaken(t, Some(s.key)) {
        ExistingIs(t', s, Holder(t, s.key));
      }
    }
  }

  /** The sets and the table before and after a new folder is made for set i. */
  ghost predicate Made(sets: seq<PublishedSet>, t: Table, used: set<nat>, i: nat, parent: Option<nat>, id: nat) {
    && Ready(sets, t, used, i) && !StillThere(t, sets[i]) && !KeyTaken(t, Some(sets[i].key)) && id !in used
    && (parent.Some? ==> parent.value in t) && UniqueKeys(t[id := Folder(parent, Some(sets[i].key))])
  }

  lemma MadeExisting(sets: seq<PublishedSet>, t: Table, used: set<nat>, i: nat, parent: Option<nat>, id: nat, k: nat)
    requires Made(sets, t, used, i, parent, id) && k < |sets| && k != i
    ensures var t', sets' := t[id := Folder(parent, Some(sets[i].key))], Store(sets, i, Some(id));
            && sets'[k] == sets[k] && (StillThere(t', sets[k]) <==> StillThere(t, sets[k]))
            && Existing(t', sets'[k]) == (if !StillThere(t, sets[k]) && sets[k].key == sets[i].key then Some(id) else Existing(t, sets[k]))
  {
    NewKeepsExisting(t, id, Folder(parent, Some(sets[i].key)), sets[k]);
  }

  /** Each of the two says that no other set without a folder has the key. */
  lemma OnlyKey(sets: seq<PublishedSet>, t: Table, used: set<nat>, i: nat, parent: Option<nat>, id: nat, k: nat)
    requires Made(sets, t, used, i, parent, id) && k < |sets| && k != i
    requires DistinctNewKeys(sets, t) || DistinctFolders(Store(sets, i, Some(id)), t[id := Folder(parent, Some(sets[i].key))])
    ensures !StillThere(t, sets[k]) ==> sets[k].key != sets[i].key
    ensures Existing(t[id := Folder(parent, Some(sets[i].key))], Store(sets, i, Some(id))[k]) == Existing(t, sets[k])
  {
    var t', sets' := t[id := Folder(parent, Some(sets[i].key))], Store(sets, i, Some(id));
    MadeExisting(sets, t, used, i, parent, id, k);
    assert Existing(t', sets'[i]) == Some(id) && Existing(t, sets[i]) == None;
  }

  lemma NewRepairableIff(sets: seq<PublishedSet>, t: Table, used: set<nat>, i: nat, parent: Option<nat>, id: nat)
    requires Made(sets, t, used, i, parent, id)
    ensures Repairable(Store(sets, i, Some(id)), t[id := Folder(parent, Some(sets[i].key))]) <==> Repairable(sets, t)
  {
    var t', sets' := t[id := Folder(parent, Some(sets[i].key))], Store(sets, i, Some(id));
    if DistinctNewKeys(sets, t) || DistinctFolders(sets', t') {
      forall k | 0 <= k < |sets| && k != i
        ensures Existing(t', sets'[k]) == Existing(t, sets[k]) && (StillThere(t', sets'[k]) <==> StillThere(t, sets[k]))
        ensures !StillThere(t, sets[k]) ==> sets[k].key != sets[i].key
      {
        MadeExisting(sets, t, used, i, parent, id, k);
        OnlyKey(sets, t, used, i, parent, id, k);
      }
      assert Existing(t', sets'[i]) == Some(id) && Existing(t, sets[i]) == None;
      forall k | 0 <= k < |sets| ensures InPlace(sets', t', k) <==> InPlace(sets, t, k) {
        if k != i { NewInPlaceIff(sets, t, used, i, parent, id, k); }
      }
      assert forall k :: 0 <= k < |sets| && k != i && Existing(t, sets[k]).Some? ==> Existing(t, sets[k]).value in t;
    }
  }

  /** No folder of t is below the new one. */
  lemma NewInPlaceIff(sets: seq<PublishedSet>, t: Table, used: set<nat>, i: nat, parent: Option<nat>, id: nat, k: nat)
    requires Made(sets, t, used, i, parent, id) && k < |sets| && k != i
    requires var t', sets' := t[id := Folder(parent, Some(sets[i].key))], Store(sets, i, Some(id));
             && Existing(t', sets'[i]) == Some(id) && Existing(t, sets[i]) == None
             && forall j :: 0 <= j < |sets| && j != i ==>
                  Existing(t', sets'[j]) == Existing(t, sets[j]) && (StillThere(t', sets'[j]) <==> StillThere(t, sets[j]))
    ensures InPlace(Store(sets, i, Some(id)), t[id := Folder(parent, Some(sets[i].key))], k) <==> InPlace(sets, t, k)
  {
    if Existing(t, sets[k]).Some? && !StillThere(t, sets[k]) {
      var x := Existing(t, sets[k]).value;
      assert x in t && x != id && t[x].parent != Some(id);
    }
  }

  // A create is answered with an existing folder.

  lemma ReplayRepairableIff(sets: seq<PublishedSet>, t: Table, i: nat, x: nat)
    requires i < |sets| && UniqueKeys(t) && HaveFolders(sets, t, i) && !StillThere(t, sets[i]) && x in t && t[x].key == Some(sets[i].key)
    ensures Repairable(sets, t) <==> Repairable(Store(sets, i, Some(x)), t) && t[x].parent == ParentOf(sets[..i])
  {
    var sets' := Store(sets, i, Some(x));
    ExistingIs(t, sets[i], x);
    assert forall k :: 0 <= k < |sets| ==> Existing(t, sets'[k]) == Existing(t, sets[k]) && sets'[k].key == sets[k].key;
    PrefixEnds(sets, t, i);
    assert DistinctFolders(sets', t) <==> DistinctFolders(sets, t);
    assert DistinctNewKeys(sets', t) <==> DistinctNewKeys(sets, t);
    forall k | 0 <= k < |sets| && k != i ensures InPlace(sets', t, k) <==> InPlace(sets, t, k) {
      assert sets'[k] == sets[k];
    }
    assert InPlace(sets', t, i);
    assert i > 0 ==> Existing(t, sets[i - 1]) == ParentOf(sets[..i]);
    assert InPlace(sets, t, i) <==> t[x].parent == ParentOf(sets[..i]);
    if Repairable(sets, t) {
      forall k | 0 <= k < |sets| ensures InPlace(sets', t, k) {
        assert InPlace(sets, t, k);
      }
    }
    if Repairable(sets', t) && t[x].parent == ParentOf(sets[..i]) {
      forall k | 0 <= k < |sets| ensures InPlace(sets, t, k) {
        assert InPlace(sets', t, k);
      }
    }
  }

  /** A step keeps to the track, or goes back to it, exactly if it was on it. */
  lemma StepOnTrackIff(sets: seq<PublishedSet>, t: Table, used: set<nat>, i: nat, t': Table, id: nat)
    requires Ready(sets, t, used, i) && Stepped(t, t', used, ParentOf(sets[..i]), sets[i], id) && IsForest(t') && UniqueKeys(t')
    ensures HaveFolders(Store(sets, i, Some(id)), t', i + 1)
    ensures OnTrack(Store(sets, i, Some(id)), t', i + 1) <==> OnTrack(sets, t, i)
  {
    var parent, ids := ParentOf(sets[..i]), Ids(sets[..i]);
    PrefixEnds(sets, t, i);
    IdsOneMore(sets, t, i, id);
    if StillThere(t, sets[i]) {
      assert Store(sets, i, Some(id)) == sets;
      MoveRepairableIff(sets, t, i, parent);
      MoveMirrorsIff(t, id, parent, ids);
    } else if KeyTaken(t, Some(sets[i].key)) {
      ReplayRepairableIff(sets, t, i, id);
      ReplayMirrorsIff(t, parent, ids, id);
    } else {
      NewRepairableIff(sets, t, used, i, parent, id);
      NewMirrorsIff(t, id, Folder(parent, Some(sets[i].key)), ids);
    }
  }

  /** On track, a step fails for no reason but an internal error. */
  lemma OnTrackNotRefused(sets: seq<PublishedSet>, t: Table, used: set<nat>, i: nat)
    requires Ready(sets, t, used, i) && OnTrack(sets, t, i)
    ensures var parent := ParentOf(sets[..i]);
            && (parent.Some? ==> parent.value in t)
            && (StillThere(t, sets[i]) ==> IsForest(Move(t, sets[i].remoteId.value, parent)))
  {
    PrefixEnds(sets, t, i);
    if StillThere(t, sets[i]) {
      var ids := Ids(sets[..i]);
      forall j | 0 <= j < i ensures ids[j] != sets[i].remoteId.value {
        assert Existing(t, sets[j]) != Existing(t, sets[i]);
      }
      NotRefused(t, ParentOf(sets[..i]), ids, sets[i].remoteId.value);
    }
  }

  /** At the end, a mirrored chain is all there is to ask. */
  lemma MirroredIsOnTrack(sets: seq<PublishedSet>, t: Table)
    requires IsForest(t) && HaveFolders(sets, t, |sets|) && AllStored(sets) && Mirrors(t, ParentOf(sets), Ids(sets))
    ensures Repairable(sets, t)
  {
    if sets != [] { ChainRepeatFree(t, Ids(sets), ParentOf(sets).value); }
    forall j, k | 0 <= j < k < |sets| ensures Existing(t, sets[j]) != Existing(t, sets[k]) {
      assert Ids(sets)[j] != Ids(sets)[k];
    }
  }

  lemma StoreEnds(sets: seq<PublishedSet>, i: nat, id: nat)
    requires i < |sets| && AllStored(sets[..i])
    ensures var more := Store(sets, i, Some(id))[..i + 1]; AllStored(more) && ParentOf(more) == Some(id)
  {
  }

  /** What the walk knows after a step. */
  lemma Advances(sets: seq<PublishedSet>, t: Table, used: set<nat>, i: nat, t': Table, used': set<nat>, id: nat)
    requires Ready(sets, t, used, i) && Stepped(t, t', used, ParentOf(sets[..i]), sets[i], id) && IsForest(t') && UniqueKeys(t')
    requires used <= used' && t'.Keys <= used'
    ensures var more := Store(sets, i, Some(id));
            && KnownIds(more, used') && HaveFolders(more, t', i + 1)
            && (OnTrack(more, t', i + 1) <==> OnTrack(sets, t, i))
  {
    StepOnTrackIff(sets, t, used, i, t', id);
  }

  // ----- the normal path -----

  /** The folder a set has, or that a create with its key would be answered with; nothing is asked about a stored one. */
  ghost function Held(t: Table, s: PublishedSet): Option<nat> {
    if s.remoteId.Some? then s.remoteId
    else if KeyTaken(t, Some(s.key)) then Some(Holder(t, s.key))
    else None
  }

  /** If set k has a folder, it is on the server and below that of the set before. */
  ghost predicate InOrder(sets: seq<PublishedSet>, t: Table, k: nat)
    requires k < |sets|
  {
    Held(t, sets[k]).Some? ==>
      && Held(t, sets[k]).value in t && (k > 0 ==> Held(t, sets[k - 1]).Some?)
      && t[Held(t, sets[k]).value].parent == if k == 0 then None else Held(t, sets[k - 1])
  }

  /** The folders that sets have are in order, and no two of the others have one key. */
  ghost predicate Undisturbed(sets: seq<PublishedSet>, t: Table) {
    && (forall k :: 0 <= k < |sets| ==> InOrder(sets, t, k))
    && forall j, k :: 0 <= j < k < |sets| && Held(t, sets[j]).None? && Held(t, sets[k]).None? ==> sets[j].key != sets[k].key
  }

  function Before(sets: seq<PublishedSet>, k: nat): Option<nat>
    requires k <= |sets|
  {
    if k == 0 then None else sets[k - 1].remoteId
  }

  /** Set k has made folder f, below the set before it. */
  ghost predicate MadeFor(was: seq<PublishedSet>, now: seq<PublishedSet>, t: Table, k: nat, f: nat) {
    k < |was| == |now| && was[k].remoteId.None? && now[k].remoteId == Some(f) && f in t && t[f].parent == Before(now, k)
  }

  /** What became of set k: a stored id is kept; otherwise it has the folder with its key. */
  predicate Settled(was: seq<PublishedSet>, now: seq<PublishedSet>, t: Table, k: nat)
    requires k < |was| == |now|
  {
    if was[k].remoteId.Some? then now[k] == was[k]
    else now[k].key == was[k].key && now[k].remoteId.Some? && now[k].remoteId.value in t && t[now[k].remoteId.value].key == Some(was[k].key)
  }

  /** Nothing on the server is changed, and what is new has a new id and was made for one of the first i sets. */
  ghost predicate OnlyAdds(was: seq<PublishedSet>, t0: Table, used: set<nat>, now: seq<PublishedSet>, t: Table, i: nat) {
    && (forall f :: f in t0 ==> f in t && t[f] == t0[f])
    && (forall f :: f in t && f !in t0 ==> f !in used && exists k :: 0 <= k < i && MadeFor(was, now, t, k, f))
  }

  /** Where the normal path stands after i sets. */
  ghost predicate Walked(was: seq<PublishedSet>, t0: Table, used: set<nat>, now: seq<PublishedSet>, t: Table, i: nat) {
    && i <= |was| == |now| && OnlyAdds(was, t0, used, now, t, i)
    && (forall k :: i <= k < |was| ==> now[k] == was[k])
    && (forall k :: 0 <= k < i ==> Settled(was, now, t, k))
  }

  lemma WalksOn(was: seq<PublishedSet>, t0: Table, used: set<nat>, now: seq<PublishedSet>, t: Table, usedNow: set<nat>, i: nat, t': Table, id: nat)
    requires Walked(was, t0, used, now, t, i) && i < |was| && t.Keys <= usedNow && used <= usedNow
    requires if was[i].remoteId.Some? then id == was[i].remoteId.value && t' == t
             else Stepped(t, t', usedNow, Before(now, i), now[i], id)
    ensures Walked(was, t0, used, Store(now, i, Some(id)), t', i + 1)
  {
    var now' := Store(now, i, Some(id));
    assert forall k :: 0 <= k <= i ==> Before(now', k) == Before(now, k);
    forall k | 0 <= k < i ensures Settled(was, now', t', k) { assert Settled(was, now, t, k); }
    forall f | f in t' && f !in t0 ensures f !in used && exists k :: 0 <= k < i + 1 && MadeFor(was, now', t', k, f) {
      if f in t {
        var k :| 0 <= k < i && MadeFor(was, now, t, k, f);
        assert MadeFor(was, now', t', k, f);
      } else {
        assert MadeFor(was, now', t', i, f);
      }
    }
  }

  /** At the end, a set has the folder it had or could have had. */
  lemma SettledHeld(was: seq<PublishedSet>, t0: Table, used: set<nat>, now: seq<PublishedSet>, t: Table, k: nat)
    requires Walked(was, t0, used, now, t, |was|) && UniqueKeys(t) && k < |was|
    ensures now[k].remoteId.Some?
    ensures Held(t0, was[k]).Some? ==> now[k].remoteId == Held(t0, was[k])
    ensures Held(t0, was[k]).None? ==> now[k].remoteId.value !in t0
  {
    assert Settled(was, now, t, k);
  }

  /** Set k's folder is there, below that of the set before. */
  predicate Linked(sets: seq<PublishedSet>, t: Table, k: nat)
    requires k < |sets| && AllStored(sets)
  {
    sets[k].remoteId.value in t && t[sets[k].remoteId.value].parent == Before(sets, k)
  }

  lemma LinkedIsChain(sets: seq<PublishedSet>, t: Table)
    requires AllStored(sets) && sets != []
    ensures (forall k :: 0 <= k < |sets| ==> Linked(sets, t, k)) <==> IsChain(t, Ids(sets), ParentOf(sets).value)
  {
    var ids := Ids(sets);
    if IsChain(t, ids, ParentOf(sets).value) {
      forall k | 0 <= k < |sets| ensures Linked(sets, t, k) { assert Link(t, ids, k); }
    }
    if forall k :: 0 <= k < |sets| ==> Linked(sets, t, k) {
      forall k | 0 <= k < |ids| ensures Link(t, ids, k) {
        assert Linked(sets, t, k);
      }
      assert Linked(sets, t, 0);
    }
  }

  /** The chain is that of the sets exactly if each of their folders is linked. */
  lemma MirrorsIffLinked(sets: seq<PublishedSet>, t: Table)
    requires IsForest(t) && AllStored(sets)
    ensures Mirrors(t, ParentOf(sets), Ids(sets)) <==> forall k :: 0 <= k < |sets| ==> Linked(sets, t, k)
  {
    if sets != [] {
      LinkedIsChain(sets, t);
      var f := ParentOf(sets).value;
      if IsChain(t, Ids(sets), f) {
        assert Link(t, Ids(sets), |sets| - 1) && HasChain(t, f);
        ChainUnique(t, Chain(t, f), Ids(sets), f);
      }
    }
  }

  /** In order before, linked after. */
  lemma UndisturbedLinks(was: seq<PublishedSet>, t0: Table, used: set<nat>, now: seq<PublishedSet>, t: Table, k: nat)
    requires Walked(was, t0, used, now, t, |was|) && UniqueKeys(t) && k < |was| && Undisturbed(was, t0)
    ensures now[k].remoteId.Some? && now[k].remoteId.value in t && t[now[k].remoteId.value].parent == Before(now, k)
  {
    SettledHeld(was, t0, used, now, t, k);
    if k > 0 { SettledHeld(was, t0, used, now, t, k - 1); }
    assert InOrder(was, t0, k) && Settled(was, now, t, k);
    if Held(t0, was[k]).None? {
      var f := now[k].remoteId.value;
      var m :| 0 <= m < |was| && MadeFor(was, now, t, m, f);
      assert Settled(was, now, t, m);
      assert was[m].key == was[k].key;
    }
  }

  /** Linked after, in order before. */
  lemma LinkedWasInOrder(was: seq<PublishedSet>, t0: Table, used: set<nat>, now: seq<PublishedSet>, t: Table, k: nat)
    requires Walked(was, t0, used, now, t, |was|) && UniqueKeys(t) && ParentsExist(t0) && k < |was| && KnownIds(was, used)
    requires now[k].remoteId.Some? && now[k].remoteId.value in t && t[now[k].remoteId.value].parent == Before(now, k)
    ensures InOrder(was, t0, k)
  {
    SettledHeld(was, t0, used, now, t, k);
    if Held(t0, was[k]).Some? {
      var f := now[k].remoteId.value;
      assert f in t0;
      if k > 0 {
        SettledHeld(was, t0, used, now, t, k - 1);
        assert now[k - 1].remoteId.value in t0;
      }
    }
  }

  /** The normal path ends with the chain of the sets exactly if they were undisturbed. */
  lemma NormalPathIff(was: seq<PublishedSet>, t0: Table, used: set<nat>, now: seq<PublishedSet>, t: Table)
    requires Walked(was, t0, used, now, t, |was|) && IsForest(t) && UniqueKeys(t) && ParentsExist(t0) && KnownIds(was, used) && AllStored(now)
    ensures Mirrors(t, ParentOf(now), Ids(now)) <==> Undisturbed(was, t0)
  {
    MirrorsIffLinked(now, t);
    if Undisturbed(was, t0) {
      forall k | 0 <= k < |now| ensures Linked(now, t, k) { UndisturbedLinks(was, t0, used, now, t, k); }
    }
    if Mirrors(t, ParentOf(now), Ids(now)) {
      forall k | 0 <= k < |was| ensures InOrder(was, t0, k) {
        assert Linked(now, t, k);
        LinkedWasInOrder(was, t0, used, now, t, k);
      }
      if was != [] { ChainRepeatFree(t, Ids(now), ParentOf(now).value); }
      forall j, k | 0 <= j < k < |was| && Held(t0, was[j]).None? && Held(t0, was[k]).None? ensures was[j].key != was[k].key {
        assert Settled(was, now, t, j) && Settled(was, now, t, k);
        assert Ids(now)[j] != Ids(now)[k];
      }
    }
  }

  /** The first k sets have their folders, and set k could not get one. */
  ghost predicate StoppedAt(was: seq<PublishedSet>, t0: Table, used: set<nat>, now: seq<PublishedSet>, t: Table, healthy: bool, k: nat, reply: Reply) {
    && k < |was| && Walked(was, t0, used, now, t, k) && was[k].remoteId.None?
    && match reply
       case ParentGone => k > 0 && was[k - 1].remoteId.Some? && was[k - 1].remoteId.value !in t
       case InternalError => !healthy
       case _ => false
  }

  lemma StopsThere(was: seq<PublishedSet>, t0: Table, used: set<nat>, now: seq<PublishedSet>, t: Table, healthy: bool, k: nat, reply: Reply)
    requires k < |was| && Walked(was, t0, used, now, t, k) && was[k].remoteId.None?
    requires match reply
             case ParentGone => Before(now, k).Some? && Before(now, k).value !in t
             case InternalError => !healthy
             case _ => false
    ensures StoppedAt(was, t0, used, now, t, healthy, k, reply)
  {
    if k > 0 { assert Settled(was, now, t, k - 1); }
  }

  class Plugin {
    var sets: seq<PublishedSet>    // root first; the remote ids live in the catalog

    constructor (sets: seq<PublishedSet>)
      ensures this.sets == sets
    {
      this.sets := sets;
    }

    /** Where the walk stands after the first i sets; a repair is on track exactly if it was to begin with. */
    ghost predicate Along(server: FolderTable, known: bool, i: nat, parent: Option<nat>, repairable: bool)
      reads this, server
    {
      && server.Valid() && i <= |sets| && AllStored(sets[..i]) && parent == ParentOf(sets[..i])
      && (known ==> KnownIds(sets, server.idsUsed) && HaveFolders(sets, server.folders, i) &&
                    (OnTrack(sets, server.folders, i) <==> repairable))
    }

    /** One set of the walk. */
    method ResolveNext(server: FolderTable, repair: bool, i: nat, parent: Option<nat>, ghost known: bool, ghost repairable: bool)
      returns (result: Resolved)
      requires Along(server, known, i, parent, repairable) && i < |sets| && (known ==> repair)
      modifies this, server`folders, server`idsUsed, server`faults
      ensures result.Parent? ==> result.id.Some? && sets == Store(old(sets), i, result.id) && Along(server, known, i + 1, result.id, repairable)
      ensures old(server.idsUsed) <= server.idsUsed && (result.Failed? ==> server.folders == old(server.folders))
      ensures old(sets[i].remoteId.Some?) && !repair ==> result == Parent(old(sets[i].remoteId)) && server.folders == old(server.folders)
      ensures old(sets[i].remoteId.None?) && result.Parent? ==>
                Stepped(old(server.folders), server.folders, old(server.idsUsed), parent, old(sets[i]), result.id.value)
      ensures result.Failed? && !repair ==> old(sets[i].remoteId.None?) && match result.reply
              case ParentGone => parent.Some? && parent.value !in server.folders
              case InternalError => !server.healthy
              case _ => false
      ensures result.Failed? ==> server.Valid() && sets == old(sets)
      ensures result.Failed? && known ==> match result.reply
              case InvalidParent => !repairable && old(sets[i].remoteId.Some?)
              case InternalError => !server.healthy
              case _ => false
    {
      ghost var t, used := server.folders, server.idsUsed;
      if known {
        PrefixEnds(sets, t, i);
        if repairable { OnTrackNotRefused(sets, t, used, i); }
      }
      result := ResolveOne(server, sets[i], parent, repair);
      if result.Parent? {
        ghost var more := Store(sets, i, result.id);
        assert AllStored(more[..i + 1]) && ParentOf(more[..i + 1]) == result.id by { StoreEnds(sets, i, result.id.value); }
        assert known ==> KnownIds(more, server.idsUsed) && HaveFolders(more, server.folders, i + 1) &&
                         (OnTrack(more, server.folders, i + 1) <==> repairable) by {
          if known { Advances(sets, t, used, i, server.folders, server.idsUsed, result.id.value); }
        }
        sets := Store(sets, i, result.id);
      }
    }

    /**
     resolveParent. In repair mode, whatever forest the server has: if no two sets
     come by the same folder and no replayed create finds its folder elsewhere, nothing
     stops it but a storage error, which a healthy server does not have, and the
     server's chain of the folder it returns is the chain of sets, set by set. And
     otherwise it is not: the condition is exact. On the normal path stored ids are
     taken as they are, and a set without one gets the folder with its key, or a new one
     below the set before; the chain is then that of the sets exactly if the folders that
     were there are in order. It stops only below a stored folder that is gone.
     */
    method ResolveParent(server: FolderTable, repair: bool) returns (result: Resolved)
      requires server.Valid()
      modifies this, server`folders, server`idsUsed, server`faults
      ensures server.Valid() && |sets| == |old(sets)|
      ensures result.Parent? ==> AllStored(sets) && result.id == ParentOf(sets)
      ensures repair && old(KnownIds(sets, server.idsUsed)) && result.Parent? ==>
                (Mirrors(server.folders, result.id, Ids(sets)) <==> old(Repairable(sets, server.folders)))
      ensures repair && old(KnownIds(sets, server.idsUsed)) && result.Failed? ==> match result.reply
              case InvalidParent => !old(Repairable(sets, server.folders)) && exists j :: 0 <= j < |old(sets)| && old(sets)[j].remoteId.Some?
              case InternalError => !server.healthy
              case _ => false
      ensures !repair && result.Parent? ==> Walked(old(sets), old(server.folders), old(server.idsUsed), sets, server.folders, |sets|)
      ensures !repair && old(KnownIds(sets, server.idsUsed)) && result.Parent? ==>
                (Mirrors(server.folders, result.id, Ids(sets)) <==> old(Undisturbed(sets, server.folders)))
      ensures !repair && result.Failed? ==> exists k :: 0 <= k < |sets| && StoppedAt(old(sets), old(server.folders), old(server.idsUsed), sets, server.folders, server.healthy, k, result.reply)
    {
      ghost var was, t0, used := sets, server.folders, server.idsUsed;
      ghost var known := repair && KnownIds(sets, server.idsUsed);
      ghost var repairable := Repairable(sets, server.folders);
      result := Parent(None);
      var i := 0;
      assert sets[..0] == [];
      while i < |sets|
        invariant |sets| == |old(sets)| && (forall j :: i <= j < |sets| ==> sets[j] == old(sets)[j])
        invariant result.Parent? && Along(server, known, i, result.id, repairable)
        invariant used <= server.idsUsed && (!repair ==> Walked(was, t0, used, sets, server.folders, i))
      {
        ghost var now, t, usedNow := sets, server.folders, server.idsUsed;
        assert result.id == Before(sets, i);
        result := ResolveNext(server, repair, i, result.id, known, repairable);
        if result.Failed? {
          if !repair { StopsThere(was, t0, used, sets, server.folders, server.healthy, i, result.reply); }
          return;
        }
        if !repair { WalksOn(was, t0, used, now, t, usedNow, i, server.folders, result.id.value); }
        i := i + 1;
      }
      assert sets[..i] == sets;
      if !repair && KnownIds(was, used) { NormalPathIff(was, t0, used, sets, server.folders); }
      if known && Mirrors(server.folders, result.id, Ids(sets)) { MirroredIsOnTrack(sets, server.folders); }
    }
  }

  /** Run: a create that an earlier run made elsewhere is answered again, and the chain ends up elsewhere. */
  method ReplayGoesAstray() returns (server: FolderTable, plugin: Plugin, result: Resolved)
    ensures server.Valid() && server.healthy && |plugin.sets| == 1 && AllStored(plugin.sets)
    ensures result.Parent? && !Mirrors(server.folders, result.id, Ids(plugin.sets))
  {
    server := new FolderTable(true);
    var y := server.CreateFolder(None, None);
    var x := server.CreateFolder(Some(y.id), Some(7));
    plugin := new Plugin([PublishedSet(None, 7)]);
    ExistingIs(server.folders, plugin.sets[0], x.id);
    assert !InPlace(plugin.sets, server.folders, 0);
    result := plugin.ResolveParent(server, true);
  }
}
