/**
 The folder requests, one at a time, against the folders and albums tables: every
 request keeps the forest, the queries up and down the tree agree, a delete takes
 the files of exactly the albums whose rows vanish, and the plugin's repair
 restores its chain of published sets on the server.
 */
module Folders {
  import opened Base
  import opened Forest

  datatype Reply =
    | Ok(id: nat)
    | FolderGone        // 404 folder_not_found, for the folder in the path
    | ParentGone        // 400 folder_not_found, for the parent in the body
    | InvalidParent     // 400 invalid_parent
    | InternalError     // 500

  predicate UniqueKeys(t: Table) {
    forall f, g :: f in t && g in t && t[f].key.Some? && t[f].key == t[g].key ==> f == g
  }

  predicate KeyTaken(t: Table, key: Option<nat>) {
    key.Some? && exists f :: f in t && t[f].key == key
  }

  /** The albums in f or beneath it, by looking up from each album. */
  ghost function AlbumsUnder(t: Table, albums: map<nat, Option<nat>>, f: nat): set<nat>
    requires IsForest(t)
  {
    set a | a in albums && albums[a].Some? && albums[a].value in Subtree(t, f)
  }

  lemma {:induction false} ClosedHoldsSubtree(t: Table, f: nat, s: set<nat>, g: nat)
    requires IsForest(t) && g in Subtree(t, f) && f in s
    requires forall h :: h in t && t[h].parent.Some? && t[h].parent.value in s ==> h in s
    requires HasChain(t, g)
    ensures g in s
    decreases |Chain(t, g)|
  {
    SubtreeClosed(t, f, g);
    ChainStep(t, g);
    if g != f {
      ClosedHoldsSubtree(t, f, s, t[g].parent.value);
    }
  }

  /** No chain is longer than the table. */
  lemma ChainFits(t: Table, f: nat)
    requires f in t && HasChain(t, f)
    ensures |Chain(t, f)| <= |t.Keys|
  {
    var c := Chain(t, f);
    ChainRepeatFree(t, c, f);
    RepeatFreeSize(c);
    PathInTable(t, c);
    SubsetSize(Elements(c), t.Keys);
  }

  ghost predicate DepthIs(t: Table, g: nat, n: nat) {
    g in t && HasChain(t, g) && |Chain(t, g)| == n
  }

  lemma ChildDepth(t: Table, g: nat, n: nat)
    requires IsForest(t) && g in t && t[g].parent.Some? && DepthIs(t, t[g].parent.value, n)
    ensures DepthIs(t, g, n + 1)
  {
    ChainStep(t, g);
  }

  /** WITH RECURSIVE up: the folder, its parent, and so on. */
  method Up(t: Table, f: nat) returns (chain: seq<nat>)
    requires IsForest(t)
    ensures f in t ==> HasChain(t, f) && chain == Chain(t, f)
    ensures f !in t ==> chain == []
  {
    if f !in t { return []; }
    ForestIffChains(t);
    ghost var c := Chain(t, f);
    ghost var k := |c|;
    chain := [];
    var at := Some(f);
    while at.Some? && at.value in t
      invariant 0 <= k <= |c| && chain == c[k..]
      invariant at == (if k == 0 then None else Some(c[k - 1])) && (at.Some? ==> at.value in t)
      decreases k
    {
      assert Link(t, c, k - 1) && (k > 1 ==> Link(t, c, k - 2));
      chain := [at.value] + chain;
      at := t[at.value].parent;
      k := k - 1;
    }
  }

  ghost predicate AllAtDepth(t: Table, s: set<nat>, n: nat) {
    forall g :: g in s ==> DepthIs(t, g, n)
  }

  ghost function Children(t: Table, s: set<nat>): set<nat> {
    set g | g in t && t[g].parent.Some? && t[g].parent.value in s
  }

  lemma LevelBelow(t: Table, f: nat, level: set<nat>, n: nat)
    requires IsForest(t) && level <= Subtree(t, f) && AllAtDepth(t, level, n)
    ensures Children(t, level) <= Subtree(t, f) && AllAtDepth(t, Children(t, level), n + 1)
  {
    forall g | g in Children(t, level) ensures DepthIs(t, g, n + 1) && g in Subtree(t, f) {
      assert DepthIs(t, t[g].parent.value, n);
      ChildDepth(t, g, n);
      SubtreeClosed(t, f, g);
    }
  }

  lemma ClosedIsSubtree(t: Table, f: nat, s: set<nat>)
    requires IsForest(t) && s <= Subtree(t, f) && (f in t ==> f in s) && Children(t, s) <= s
    ensures s == Subtree(t, f)
  {
    ForestIffChains(t);
    forall g | g in Subtree(t, f) ensures g in s {
      ChainHead(t, f, g);
      ClosedHoldsSubtree(t, f, s, g);
    }
  }

  /** A subtree with something in it has its root. */
  lemma ChainHead(t: Table, f: nat, g: nat)
    requires IsForest(t) && g in Subtree(t, f)
    ensures f in t
  {
    ForestIffChains(t);
    PathInTable(t, Chain(t, g));
  }

  /** WITH RECURSIVE sub: the folder, then its children, and so on down, level by level. */
  method Down(t: Table, f: nat) returns (sub: set<nat>)
    requires IsForest(t)
    ensures sub == Subtree(t, f)
  {
    sub := {};
    var level := if f in t then {f} else {};
    ghost var n := 1;
    if f in t {
      SubtreeClosed(t, f, f);
      ForestIffChains(t);
      n := |Chain(t, f)|;
    }
    while level != {}
      invariant sub <= Subtree(t, f) && level <= Subtree(t, f) && (f in t ==> f in sub + level)
      invariant AllAtDepth(t, level, n) && Children(t, sub) <= sub + level
      decreases |t.Keys| + 1 - n
    {
      ghost var g :| g in level;
      assert DepthIs(t, g, n);
      ChainFits(t, g);
      LevelBelow(t, f, level, n);
      var next := set h | h in t && t[h].parent.Some? && t[h].parent.value in level;
      sub, level, n := sub + level, next, n + 1;
    }
    ClosedIsSubtree(t, f, sub);
  }

  method Mentions(chain: seq<nat>, f: nat) returns (found: bool)
    ensures found <==> f in chain
  {
    for i := 0 to |chain|
      invariant f !in chain[..i]
    {
      if chain[i] == f { return true; }
    }
    return false;
  }

  predicate Dangling(t: Table, g: nat) {
    g in t && t[g].parent.Some? && t[g].parent.value !in t
  }

  /** DELETE of row f, and ON DELETE CASCADE: rows whose parent is gone go too, one by one, until none is left. */
  method Cascade(t: Table, f: nat) returns (rest: Table)
    requires IsForest(t) && f in t
    ensures rest == t - Subtree(t, f)
  {
    ghost var gone := {f};
    rest := t - {f};
    SubtreeClosed(t, f, f);
    while exists g :: g in rest && Dangling(rest, g)
      invariant f in gone && gone <= Subtree(t, f) && rest == t - gone
      decreases t.Keys - gone
    {
      var g :| g in rest && Dangling(rest, g);
      CascadeStep(t, f, gone, g);
      rest := rest - {g};
      gone := gone + {g};
    }
    NoneDangling(t, gone);
    ClosedIsSubtree(t, f, gone);
  }

  lemma CascadeStep(t: Table, f: nat, gone: set<nat>, g: nat)
    requires IsForest(t) && gone <= Subtree(t, f) && Dangling(t - gone, g)
    ensures g in Subtree(t, f) && t - gone - {g} == t - (gone + {g})
    ensures t.Keys - (gone + {g}) < t.Keys - gone
  {
    SubtreeClosed(t, f, g);
    assert g in t.Keys - gone;
  }

  lemma NoneDangling(t: Table, gone: set<nat>)
    requires ParentsExist(t) && forall g :: !Dangling(t - gone, g)
    ensures Children(t, gone) <= gone
  {
    forall g | g in Children(t, gone) ensures g in gone {
      assert !Dangling(t - gone, g);
    }
  }

  class FolderTable {
    var folders: Table
    var albums: map<nat, Option<nat>>   // the folder of each album
    var files: set<nat>                 // albums with a directory on disk
    var idsUsed: set<nat>               // every folder id ever given out
    const healthy: bool                 // no storage error happens, and a free slug is found
    ghost var faults: nat               // storage errors met

    ghost predicate Valid()
      reads this
    {
      && IsForest(folders) && UniqueKeys(folders) && folders.Keys <= idsUsed
      && forall a :: a in albums && albums[a].Some? ==> albums[a].value in folders
    }

    constructor (healthy: bool)
      ensures this.healthy == healthy && Valid() && folders == map[] && albums == map[] && files == {}
    {
      this.healthy := healthy;
      folders, albums, files, idsUsed, faults := map[], map[], {}, {}, 0;
      new;
      ForestIffChains(folders);
    }

    // ----- backend/internal/db/folders.go -----

    method FolderChain(f: Option<nat>) returns (chain: seq<nat>)
      requires Valid()
      ensures f.Some? && f.value in folders ==> HasChain(folders, f.value) && chain == Chain(folders, f.value)
      ensures f.None? || f.value !in folders ==> chain == []
    {
      if f.None? { return []; }
      chain := Up(folders, f.value);
    }

    method SubtreeAlbumIDs(f: nat) returns (ids: set<nat>)
      requires Valid()
      ensures ids == AlbumsUnder(folders, albums, f)
    {
      var sub := Down(folders, f);
      ids := set a | a in albums && albums[a].Some? && albums[a].value in sub;
    }

    method DeleteFolderRow(f: nat)
      requires Valid() && f in folders
      modifies this`folders, this`albums
      ensures Valid() && folders == old(folders - Subtree(folders, f))
      ensures albums == old(albums - AlbumsUnder(folders, albums, f))
    {
      ghost var t := folders;
      Deleted(t, f);
      folders := Cascade(folders, f);
      albums := map a | a in albums && (albums[a].Some? ==> albums[a].value in folders) :: albums[a];
    }

    /** Whether a storage error happens here. */
    method Fails() returns (fails: bool)
      modifies this`faults
      ensures (healthy ==> !fails) && faults == old(faults) + if fails then 1 else 0
    {
      fails := *;
      if healthy { fails := false; }
      if fails { faults := faults + 1; }
    }

    // ----- backend/internal/api/publish_folders.go -----

    /** resolveParentFolder: "" is the root. */
    method ResolveParentFolder(parent: Option<nat>) returns (ok: bool)
      ensures ok <==> parent.Some? ==> parent.value in folders
    {
      ok := parent.None? || parent.value in folders;
    }

    /** POST /api/publish/folders. */
    method CreateFolder(parent: Option<nat>, key: Option<nat>) returns (reply: Reply)
      requires Valid()
      modifies this`folders, this`idsUsed, this`faults
      ensures Valid() && old(idsUsed) <= idsUsed
      ensures match reply
              case Ok(id) =>
                if old(KeyTaken(folders, key)) then
                  folders == old(folders) && id in folders && folders[id].key == key
                else
                  && id !in old(idsUsed) && (parent.Some? ==> parent.value in old(folders))
                  && folders == old(folders)[id := Folder(parent, key)]
              case ParentGone => folders == old(folders) && parent.Some? && parent.value !in folders && !KeyTaken(folders, key)
              case InternalError => folders == old(folders) && !healthy
              case _ => false
      ensures reply.InternalError? <==> faults != old(faults)
    {
      var fails := Fails();
      if fails { return InternalError; }
      if key.Some? && exists f :: f in folders && folders[f].key == key {
        var f :| f in folders && folders[f].key == key;
        return Ok(f);
      }
      var ok := ResolveParentFolder(parent);
      if !ok { return ParentGone; }
      var insertFails := Fails();
      if insertFails { return InternalError; }
      AlwaysAnother(idsUsed);
      var id: nat :| id !in idsUsed;
      Added(folders, id, Folder(parent, key));
      idsUsed := idsUsed + {id};
      folders := folders[id := Folder(parent, key)];
      return Ok(id);
    }

    /**
     PUT /api/publish/folders/{id}; parent is None when the body does not mention
     it. A move is refused with invalid_parent exactly when it would make a cycle.
     */
    method UpdateFolder(f: nat, parent: Option<Option<nat>>) returns (reply: Reply)
      requires Valid()
      modifies this`folders, this`faults
      ensures Valid()
      ensures match reply
              case Ok(id) => id == f && f in old(folders) && folders == if parent.None? then old(folders) else Move(old(folders), f, parent.value)
              case FolderGone => folders == old(folders) && f !in folders
              case ParentGone => folders == old(folders) && f in folders && parent.Some? && parent.value.Some? && parent.value.value !in folders
              case InvalidParent =>
                && folders == old(folders) && f in folders && parent.Some? && parent.value.Some? && parent.value.value in folders
                && !IsForest(Move(folders, f, parent.value))
              case InternalError => folders == old(folders) && !healthy
      ensures reply.InternalError? <==> faults != old(faults)
    {
      var fails := Fails();
      if fails { return InternalError; }
      if f !in folders { return FolderGone; }
      if parent.Some? {
        var p := parent.value;
        if p == Some(f) {
          MoveIffNotBelow(folders, f, p);
          assert f == Last(ChainTo(folders, p));
          return InvalidParent;
        }
        var ok := ResolveParentFolder(p);
        if !ok { return ParentGone; }
        MoveIffNotBelow(folders, f, p);
        if p.Some? {
          var chain := FolderChain(p);
          var below := Mentions(chain, f);
          if below { return InvalidParent; }
        }
        var updateFails := Fails();
        if updateFails { return InternalError; }
        assert IsForest(Move(folders, f, p));
        folders := Move(folders, f, p);
      }
      return Ok(f);
    }

    /** The parent_id of an album create or update. */
    method PlaceAlbum(a: nat, parent: Option<nat>) returns (reply: Reply)
      requires Valid()
      modifies this`albums, this`faults
      ensures Valid()
      ensures if reply.Ok? then (parent.Some? ==> parent.value in folders) && albums == old(albums)[a := parent]
              else albums == old(albums) && ((reply.InternalError? && !healthy) || (reply.ParentGone? && parent.Some? && parent.value !in folders))
      ensures reply.InternalError? <==> faults != old(faults)
    {
      var fails := Fails();
      if fails { return InternalError; }
      var ok := ResolveParentFolder(parent);
      if !ok { return ParentGone; }
      albums := albums[a := parent];
      return Ok(a);
    }

    /** The files of each album; one that cannot be removed is left for gc. */
    method RemoveAlbums(ids: set<nat>) returns (left: set<nat>)
      modifies this`files, this`faults
      ensures left <= ids && files == old(files) - (ids - left) && (healthy ==> left == {})
      ensures left == {} <==> faults == old(faults)
    {
      left := {};
      var todo := ids;
      while todo != {}
        invariant faults >= old(faults) && (left == {} <==> faults == old(faults))
        invariant todo <= ids && left <= ids - todo && files == old(files) - (ids - todo - left) && (healthy ==> left == {})
        decreases |todo|
      {
        var a :| a in todo;
        var fails := Fails();
        if fails { left := left + {a}; } else { files := files - {a}; }
        todo := todo - {a};
      }
    }

    /** DELETE /api/publish/folders/{id}: the ids first, then the rows, then the files. */
    method DeleteFolder(f: nat) returns (reply: Reply, left: set<nat>)
      requires Valid()
      modifies this`folders, this`albums, this`files, this`faults
      ensures Valid()
      ensures reply.Ok? ==> f in old(folders) && folders == old(folders - Subtree(folders, f))
      ensures reply.Ok? ==> albums == old(albums - AlbumsUnder(folders, albums, f))
      ensures reply.Ok? ==> files == old(files) - (old(albums).Keys - albums.Keys - left) && left <= old(albums).Keys - albums.Keys
      ensures !reply.Ok? ==> folders == old(folders) && albums == old(albums) && files == old(files)
      ensures reply.Ok? || (reply.FolderGone? && f !in folders) || (reply.InternalError? && !healthy)
      ensures healthy ==> left == {}
      ensures faults != old(faults) <==> reply.InternalError? || left != {}
    {
      left := {};
      var fails := Fails();
      if fails { return InternalError, left; }
      if f !in folders { return FolderGone, left; }
      left := DeleteRowsAndFiles(f);
      return Ok(f), left;
    }

    method DeleteRowsAndFiles(f: nat) returns (left: set<nat>)
      requires Valid() && f in folders
      modifies this`folders, this`albums, this`files, this`faults
      ensures Valid() && folders == old(folders - Subtree(folders, f)) && albums == old(albums - AlbumsUnder(folders, albums, f))
      ensures files == old(files) - (old(albums).Keys - albums.Keys - left) && left <= old(albums).Keys - albums.Keys
      ensures (healthy ==> left == {}) && (left == {} <==> faults == old(faults))
    {
      var ids := SubtreeAlbumIDs(f);
      DeleteFolderRow(f);
      left := RemoveAlbums(ids);
    }
  }
}
