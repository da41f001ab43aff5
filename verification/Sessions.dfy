/**
 Visitor sessions and album passwords: what a session remembers of its unlocks,
 how password versions follow the history of an album's password, and when a
 grant therefore opens an album. Checking a password against a hash is comparing
 passwords here.
 */
module Sessions {
  import opened Base

  const MAX_GRANTS := 20

  datatype Grant = Grant(album: nat, version: nat)

  // ----- what a session remembers -----

  /** The grants for other albums than a, in order. */
  function Others(grants: seq<Grant>, a: nat): seq<Grant>
    decreases |grants|
  {
    if grants == [] then []
    else
      var front, g := grants[..|grants| - 1], grants[|grants| - 1];
      if g.album == a then Others(front, a) else Others(front, a) + [g]
  }

  function LastN<T>(s: seq<T>, n: nat): seq<T> {
    if |s| > n then s[|s| - n..] else s
  }

  /** Each album's last unlock, in the order of those. */
  function Latest(unlocks: seq<Grant>): seq<Grant>
    decreases |unlocks|
  {
    if unlocks == [] then []
    else
      var front, g := unlocks[..|unlocks| - 1], unlocks[|unlocks| - 1];
      Others(Latest(front), g.album) + [g]
  }

  /** The MAX_GRANTS most recently unlocked distinct albums, at the versions of their last unlocks. */
  function Remembered(unlocks: seq<Grant>): seq<Grant> {
    LastN(Latest(unlocks), MAX_GRANTS)
  }

  predicate DistinctAlbums(grants: seq<Grant>) {
    forall i, j :: 0 <= i < j < |grants| ==> grants[i].album != grants[j].album
  }

  lemma {:induction false} OthersIs(grants: seq<Grant>, a: nat)
    ensures forall g :: g in Others(grants, a) <==> g in grants && g.album != a
    ensures |Others(grants, a)| <= |grants|
    decreases |grants|
  {
    if grants != [] {
      var front := grants[..|grants| - 1];
      OthersIs(front, a);
      assert grants == front + [grants[|grants| - 1]];
    }
  }

  lemma {:induction false} OthersDistinct(grants: seq<Grant>, a: nat)
    requires DistinctAlbums(grants)
    ensures DistinctAlbums(Others(grants, a)) && |Others(grants, a)| >= |grants| - 1
    ensures (forall g :: g in grants ==> g.album != a) ==> |Others(grants, a)| == |grants|
    decreases |grants|
  {
    if grants != [] {
      var front, last := grants[..|grants| - 1], grants[|grants| - 1];
      OthersDistinct(front, a);
      OthersIs(front, a);
      if last.album == a {
        assert forall g :: g in front ==> g.album != a;
      } else {
        var rest := Others(front, a);
        assert forall i :: 0 <= i < |rest| ==> rest[i] in front;
      }
    }
  }

  lemma {:induction false} LatestDistinct(unlocks: seq<Grant>)
    ensures DistinctAlbums(Latest(unlocks))
    decreases |unlocks|
  {
    if unlocks != [] {
      var front, g := unlocks[..|unlocks| - 1], unlocks[|unlocks| - 1];
      LatestDistinct(front);
      OthersDistinct(Latest(front), g.album);
      OthersIs(Latest(front), g.album);
      var rest := Others(Latest(front), g.album);
      assert forall i :: 0 <= i < |rest| ==> rest[i] in rest;
    }
  }

  lemma {:induction false} OthersConcat(x: seq<Grant>, y: seq<Grant>, a: nat)
    ensures Others(x + y, a) == Others(x, a) + Others(y, a)
    decreases |y|
  {
    if y == [] {
      assert x + y == x;
    } else {
      OthersConcat(x, y[..|y| - 1], a);
      assert (x + y)[..|x + y| - 1] == x + y[..|y| - 1];
    }
  }

  function Added(grants: seq<Grant>, g: Grant): seq<Grant> {
    LastN(Others(grants, g.album) + [g], MAX_GRANTS)
  }

  lemma LastNOfConcat<T>(x: seq<T>, y: seq<T>, n: nat)
    requires |y| >= n
    ensures LastN(x + y, n) == LastN(y, n)
  {
  }

  lemma LatestNext(unlocks: seq<Grant>, g: Grant)
    ensures Latest(unlocks + [g]) == Others(Latest(unlocks), g.album) + [g]
  {
    assert (unlocks + [g])[..|unlocks|] == unlocks;
  }

  lemma DistinctBehind(x: seq<Grant>, y: seq<Grant>)
    requires DistinctAlbums(x + y)
    ensures DistinctAlbums(y)
  {
    forall i, j | 0 <= i < j < |y| ensures y[i].album != y[j].album {
      assert y[i] == (x + y)[|x| + i] && y[j] == (x + y)[|x| + j];
    }
  }

  lemma OthersBehind(x: seq<Grant>, y: seq<Grant>, g: Grant)
    requires DistinctAlbums(x + y) && |y| == MAX_GRANTS
    ensures Added(x + y, g) == Added(y, g)
  {
    DistinctBehind(x, y);
    OthersDistinct(y, g.album);
    OthersConcat(x, y, g.album);
    var before, rest := Others(x, g.album), Others(y, g.album) + [g];
    assert Others(x + y, g.album) + [g] == before + rest;
    LastNOfConcat(before, rest, MAX_GRANTS);
  }

  /** Forgetting early loses nothing: adding to what is remembered is remembering one unlock more. */
  lemma AddRemembers(unlocks: seq<Grant>, g: Grant)
    ensures Added(Remembered(unlocks), g) == Remembered(unlocks + [g])
  {
    var all := Latest(unlocks);
    assert Remembered(unlocks + [g]) == Added(all, g) by { LatestNext(unlocks, g); }
    if |all| > MAX_GRANTS {
      var x, y := all[..|all| - MAX_GRANTS], all[|all| - MAX_GRANTS..];
      assert all == x + y;
      LatestDistinct(unlocks);
      OthersBehind(x, y, g);
    }
  }

  predicate IsLastUnlock(unlocks: seq<Grant>, i: int) {
    0 <= i < |unlocks| && forall j :: i < j < |unlocks| ==> unlocks[j].album != unlocks[i].album
  }

  /** The albums unlocked after the i-th unlock. */
  ghost function AlbumsAfter(unlocks: seq<Grant>, i: nat): set<nat> {
    set j | i < j < |unlocks| :: unlocks[j].album
  }

  ghost function Albums(grants: seq<Grant>): set<nat> {
    set i | 0 <= i < |grants| :: grants[i].album
  }

  lemma {:induction false} AlbumsCount(grants: seq<Grant>)
    requires DistinctAlbums(grants)
    ensures |Albums(grants)| == |grants|
    decreases |grants|
  {
    if grants == [] {
      assert Albums(grants) == {};
    } else {
      var front, g := grants[..|grants| - 1], grants[|grants| - 1];
      AlbumsCount(front);
      assert Albums(grants) == Albums(front) + {g.album};
      assert g.album !in Albums(front);
    }
  }

  lemma AlbumsOfOthers(grants: seq<Grant>, g: Grant)
    ensures Albums(Others(grants, g.album) + [g]) == Albums(grants) + {g.album}
  {
    OthersIs(grants, g.album);
    var kept := Others(grants, g.album);
    var all := kept + [g];
    forall a | a in Albums(grants) + {g.album} ensures a in Albums(all) {
      if a == g.album {
        assert all[|kept|] == g;
      } else {
        var i :| 0 <= i < |grants| && grants[i].album == a;
        var j :| 0 <= j < |kept| && kept[j] == grants[i];
        assert all[j].album == a;
      }
    }
    forall i | 0 <= i < |all| ensures all[i].album in Albums(grants) + {g.album} {
      if i < |kept| {
        assert kept[i] in kept;
        var j :| 0 <= j < |grants| && grants[j] == kept[i];
      }
    }
  }

  lemma AlbumsAfterNext(unlocks: seq<Grant>, n: nat, i: nat)
    requires |unlocks| == n + 1 && i < n
    ensures AlbumsAfter(unlocks, i) == AlbumsAfter(unlocks[..n], i) + {unlocks[n].album}
  {
    assert unlocks[n].album in AlbumsAfter(unlocks, i);
  }

  lemma OthersAround(x: seq<Grant>, g: Grant, y: seq<Grant>, a: nat)
    requires g.album != a
    ensures Others(x + [g] + y, a) == Others(x, a) + [g] + Others(y, a)
  {
    OthersConcat(x + [g], y, a);
    assert (x + [g])[..|x|] == x;
  }

  /** Behind an album's last unlock come the last unlocks of the albums unlocked after it. */
  lemma {:induction false} LatestSplit(unlocks: seq<Grant>, i: nat) returns (x: seq<Grant>, y: seq<Grant>)
    requires IsLastUnlock(unlocks, i)
    ensures Latest(unlocks) == x + [unlocks[i]] + y && Albums(y) == AlbumsAfter(unlocks, i)
    decreases |unlocks|
  {
    var n := |unlocks| - 1;
    var front, g := unlocks[..n], unlocks[n];
    if i == n {
      x, y := Others(Latest(front), g.album), [];
      assert x + [g] + y == Latest(unlocks);
      assert Albums(y) == {} && AlbumsAfter(unlocks, i) == {};
    } else {
      var x0, y0 := LatestSplit(front, i);
      OthersAround(x0, unlocks[i], y0, g.album);
      x, y := Others(x0, g.album), Others(y0, g.album) + [g];
      assert Latest(unlocks) == Others(Latest(front), g.album) + [g] == x + [unlocks[i]] + y;
      AlbumsOfOthers(y0, g);
      AlbumsAfterNext(unlocks, n, i);
    }
  }

  /** Main theorem on sessions: an album's last unlock is remembered exactly while fewer than 20 other albums have been unlocked since. */
  lemma RememberedIff(unlocks: seq<Grant>, i: nat)
    requires IsLastUnlock(unlocks, i)
    ensures unlocks[i] in Remembered(unlocks) <==> |AlbumsAfter(unlocks, i)| < 20
  {
    var x, y := LatestSplit(unlocks, i);
    var all := Latest(unlocks);
    LatestDistinct(unlocks);
    assert DistinctAlbums(y) by {
      assert forall k :: 0 <= k < |y| ==> y[k] == all[|x| + 1 + k];
    }
    AlbumsCount(y);
    assert all[|x|] == unlocks[i];
    var r := Remembered(unlocks);
    if |y| < MAX_GRANTS {
      assert r[|r| - 1 - |y|] == unlocks[i];
    }
  }

  lemma StaysLastUnlock(unlocks: seq<Grant>, n: nat, i: nat)
    requires |unlocks| == n + 1 && IsLastUnlock(unlocks[..n], i) && unlocks[n].album != unlocks[i].album
    ensures IsLastUnlock(unlocks, i)
  {
    forall j | i < j < |unlocks| ensures unlocks[j].album != unlocks[i].album {
      if j < n { assert unlocks[..n][j] == unlocks[j] && unlocks[..n][i] == unlocks[i]; }
    }
  }

  /** And nothing else is. */
  lemma {:induction false} RememberedIsLastUnlock(unlocks: seq<Grant>, g: Grant)
    requires g in Latest(unlocks)
    ensures exists i :: IsLastUnlock(unlocks, i) && unlocks[i] == g
    decreases |unlocks|
  {
    var n := |unlocks| - 1;
    if g == unlocks[n] {
      assert IsLastUnlock(unlocks, n);
    } else {
      var front, last := unlocks[..n], unlocks[n];
      assert Latest(unlocks) == Others(Latest(front), last.album) + [last];
      OthersIs(Latest(front), last.album);
      RememberedIsLastUnlock(front, g);
      var i :| IsLastUnlock(front, i) && front[i] == g;
      StaysLastUnlock(unlocks, n, i);
    }
  }

  class Session {
    var grants: seq<Grant>
    ghost var unlocks: seq<Grant>    // all unlocks since the cookie was new

    ghost predicate Valid()
      reads this
    {
      grants == Remembered(unlocks)
    }

    constructor ()
      ensures Valid() && unlocks == []
    {
      grants, unlocks := [], [];
    }

    method Granted(album: nat, version: nat) returns (yes: bool)
      ensures yes <==> Grant(album, version) in grants
    {
      for i := 0 to |grants|
        invariant Grant(album, version) !in grants[..i]
      {
        if grants[i].album == album && grants[i].version == version { return true; }
      }
      return false;
    }

    method Add(album: nat, version: nat)
      requires Valid()
      modifies this
      ensures Valid() && unlocks == old(unlocks) + [Grant(album, version)]
    {
      var kept: seq<Grant> := [];
      for i := 0 to |grants|
        invariant grants == old(grants) && unlocks == old(unlocks) && kept == Others(grants[..i], album)
      {
        assert grants[..i + 1][..i] == grants[..i];
        if grants[i].album != album { kept := kept + [grants[i]]; }
      }
      assert grants[..|grants|] == grants;
      kept := kept + [Grant(album, version)];
      if |kept| > MAX_GRANTS { kept := kept[|kept| - MAX_GRANTS..]; }
      grants := kept;
      unlocks := unlocks + [Grant(album, version)];
      AddRemembers(old(unlocks), Grant(album, version));
    }
  }
}
