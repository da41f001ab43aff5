/**
 Album passwords and their versions, against the history of each album: a grant
 opens an album exactly while it is remembered and the password has not been
 touched since the unlock.
 */
module Passwords {
  import opened Base
  import opened Sessions

  const MAX_PASSWORD_LEN := 72
  const MAX_UNLOCK_PASSWORD_LEN := 256

  /** The password columns of a row; a hash stands for its password. */
  datatype Album = Album(password: Option<string>, version: nat)

  datatype Status = Done | NotFound | InvalidPassword | Refused

  /** From one write to the next, the version says whether the password may have changed. */
  predicate Follows(a: Album, b: Album) {
    b == a || b.version == a.version + 1
  }

  predicate FollowsAt(h: seq<Album>, i: nat)
    requires i + 1 < |h|
  {
    Follows(h[i], h[i + 1])
  }

  predicate IsHistory(h: seq<Album>) {
    h != [] && forall i :: 0 <= i < |h| - 1 ==> FollowsAt(h, i)
  }

  lemma {:induction false} VersionsGrow(h: seq<Album>, i: nat, j: nat)
    requires IsHistory(h) && i <= j < |h|
    ensures h[i].version <= h[j].version
    decreases j
  {
    if i < j {
      VersionsGrow(h, i, j - 1);
      assert FollowsAt(h, j - 1);
    }
  }

  /** Equal versions: the same password, then, now and at every moment between. */
  lemma {:induction false} SameVersionSamePassword(h: seq<Album>, i: nat, j: nat, k: nat)
    requires IsHistory(h) && i <= k <= j < |h| && h[i].version == h[j].version
    ensures h[k] == h[i]
    decreases k
  {
    VersionsGrow(h, i, k);
    VersionsGrow(h, k, j);
    if i < k {
      VersionsGrow(h, i, k - 1);
      VersionsGrow(h, k - 1, k);
      SameVersionSamePassword(h, i, j, k - 1);
      assert FollowsAt(h, k - 1);
    }
  }

  lemma HistorySnoc(h: seq<Album>, a: Album)
    requires IsHistory(h) && Follows(h[|h| - 1], a)
    ensures IsHistory(h + [a])
  {
    forall i | 0 <= i < |h| ensures FollowsAt(h + [a], i) {
      if i < |h| - 1 { assert FollowsAt(h, i); }
    }
  }

  /** Whether an update with this password field leaves the password alone. */
  predicate LeavesAlone(a: Album, pw: Option<string>) {
    pw.None? || (pw.value == "" && a.password.None?) || (pw.value != "" && a.password == pw)
  }

  class AlbumTable {
    var rows: map<nat, Album>
    ghost var history: map<nat, seq<Album>>    // an album's states, one per write; kept when it is deleted

    ghost predicate Valid()
      reads this
    {
      && (forall a :: a in history ==> IsHistory(history[a]))
      && (forall a :: a in rows ==> a in history && rows[a] == history[a][|history[a]| - 1])
    }

    constructor ()
      ensures Valid() && rows == map[] && history == map[]
    {
      rows, history := map[], map[];
    }

    method Write(a: nat, row: Album)
      requires Valid() && a in rows && Follows(rows[a], row)
      modifies this
      ensures Valid() && rows == old(rows)[a := row] && history == old(history)[a := old(history)[a] + [row]]
    {
      HistorySnoc(history[a], row);
      rows := rows[a := row];
      history := history[a := history[a] + [row]];
    }

    /** createAlbum; a is a fresh id. */
    method CreateAlbum(a: nat, pw: Option<string>) returns (status: Status)
      requires Valid() && a !in history
      modifies this
      ensures Valid()
      ensures if pw.Some? && |pw.value| > MAX_PASSWORD_LEN then status == InvalidPassword && rows == old(rows) && history == old(history)
              else status == Done && rows == old(rows)[a := if pw.Some? && pw.value != "" then Album(pw, 1) else Album(None, 0)]
                   && history == old(history)[a := [rows[a]]]
    {
      var row := Album(None, 0);
      if pw.Some? && pw.value != "" {
        if |pw.value| > MAX_PASSWORD_LEN { return InvalidPassword; }
        row := Album(pw, 1);
      }
      rows := rows[a := row];
      history := history[a := [row]];
      return Done;
    }

    /** The password field of updateAlbum. The version stays exactly when the password does. */
    method UpdateAlbum(a: nat, pw: Option<string>) returns (status: Status)
      requires Valid()
      modifies this
      ensures Valid() && (status != Done ==> rows == old(rows) && history == old(history))
      ensures status == NotFound <==> a !in old(rows)
      ensures status == InvalidPassword <==> a in old(rows) && pw.Some? && |pw.value| > 72
      ensures status == Done ==> a in rows && rows == old(rows)[a := rows[a]] && history == old(history)[a := old(history)[a] + [rows[a]]]
      ensures status == Done ==> if LeavesAlone(old(rows)[a], pw) then rows[a] == old(rows)[a]
                                 else rows[a] == Album(if pw.value == "" then None else pw, old(rows)[a].version + 1) && rows[a].password != old(rows)[a].password
    {
      if a !in rows { return NotFound; }
      var row := rows[a];
      if pw.Some? {
        if pw.value == "" && row.password.Some? {
          row := Album(None, row.version + 1);
        } else if pw.value == "" {
        } else if |pw.value| > MAX_PASSWORD_LEN {
          return InvalidPassword;
        } else if row.password.Some? && row.password.value == pw.value {
        } else {
          row := Album(pw, row.version + 1);
        }
      }
      Write(a, row);
      return Done;
    }

    /** smugbox admin set-password, or with --clear (None): always a new version. */
    method SetPassword(a: nat, pw: Option<string>) returns (status: Status)
      requires Valid()
      modifies this
      ensures Valid() && (status != Done ==> rows == old(rows) && history == old(history))
      ensures status == NotFound <==> a !in old(rows)
      ensures status == Done <==> a in old(rows) && (pw.Some? ==> 1 <= |pw.value| <= 72)
      ensures status == Done ==> rows == old(rows)[a := Album(pw, old(rows)[a].version + 1)] && history == old(history)[a := old(history)[a] + [rows[a]]]
    {
      if a !in rows { return NotFound; }
      if pw.Some? && (pw.value == "" || |pw.value| > MAX_PASSWORD_LEN) { return InvalidPassword; }
      Write(a, Album(pw, rows[a].version + 1));
      return Done;
    }

    method DeleteAlbum(a: nat)
      requires Valid()
      modifies this`rows
      ensures Valid() && rows == old(rows) - {a} && history == old(history)
    {
      rows := rows - {a};
    }
  }

  /** One unlock: what the session was given, and the album's history at that time was up to index at. */
  ghost predicate Happened(history: map<nat, seq<Album>>, g: Grant, at: nat) {
    g.album in history && at < |history[g.album]| && history[g.album][at].version == g.version && history[g.album][at].password.Some?
  }

  /** A visitor: the session, and when each of its unlocks was. */
  class Visitor {
    const session: Session
    ghost var times: seq<nat>

    ghost predicate Valid(history: map<nat, seq<Album>>)
      reads this, session
    {
      && session.Valid() && |times| == |session.unlocks|
      && forall i :: 0 <= i < |times| ==> Happened(history, session.unlocks[i], times[i])
    }

    /** A cookie that is new or has expired. */
    constructor (ghost history: map<nat, seq<Album>>)
      ensures Valid(history) && fresh(session) && times == []
    {
      session := new Session();
      times := [];
    }

    /** unlockAlbum, past the limiter; the slug names album a, or none. */
    method Unlock(table: AlbumTable, a: Option<nat>, given: string) returns (status: Status)
      requires table.Valid() && Valid(table.history)
      modifies this, session
      ensures Valid(table.history)
      ensures status == (if a.Some? && a.value in table.rows && (table.rows[a.value].password.None? || table.rows[a.value].password == Some(Kept(given)))
                         then Done else Refused)
      ensures session.unlocks == old(session.unlocks) +
                (if status == Done && table.rows[a.value].password.Some? then [Grant(a.value, table.rows[a.value].version)] else [])
    {
      var pw := Kept(given);
      var found := a.Some? && a.value in table.rows;
      if found && table.rows[a.value].password.None? { return Done; }
      if !found || table.rows[a.value].password != Some(pw) { return Refused; }
      var row := table.rows[a.value];
      session.Add(a.value, row.version);
      times := times + [|table.history[a.value]| - 1];
      return Done;
    }

    /**
     albumAccess. A protected album is open exactly if its last unlock is still
     remembered and its version is the same, and then the password is the one it
     was unlocked with and has not been touched since.
     */
    method AlbumAccess(table: AlbumTable, a: nat) returns (ok: bool)
      requires table.Valid() && Valid(table.history) && a in table.rows
      ensures ok <==> table.rows[a].password.None? || Remembers(session.unlocks, a, table.rows[a].version)
      ensures ok && table.rows[a].password.Some? ==> UnchangedSince(table.history, session.unlocks, times, a)
    {
      var row := table.rows[a];
      if row.password.None? { return true; }
      ok := session.Granted(a, row.version);
      if Remembers(session.unlocks, a, row.version) { OpenIsRemembered(session.unlocks, a, row.version); }
      if ok { Opens(table.history, session.unlocks, times, a, row); }
    }
  }

  /** The start of what was typed, 256 bytes at most. */
  function Kept(given: string): (kept: string)
    ensures kept <= given && |kept| == if |given| > 256 then 256 else |given|
  {
    if |given| > MAX_UNLOCK_PASSWORD_LEN then given[..MAX_UNLOCK_PASSWORD_LEN] else given
  }

  /** The i-th unlock is the last one of a, of this version, with fewer than MAX_GRANTS other albums after it. */
  ghost predicate IsOpenUnlock(unlocks: seq<Grant>, i: nat, a: nat, version: nat) {
    IsLastUnlock(unlocks, i) && unlocks[i] == Grant(a, version) && |AlbumsAfter(unlocks, i)| < MAX_GRANTS
  }

  ghost predicate Remembers(unlocks: seq<Grant>, a: nat, version: nat) {
    exists i :: IsOpenUnlock(unlocks, i, a, version)
  }

  /** From the last unlock of a on, its row has been what it is now. */
  ghost predicate UnchangedSince(history: map<nat, seq<Album>>, unlocks: seq<Grant>, times: seq<nat>, a: nat)
    requires |times| == |unlocks|
  {
    exists i :: IsLastUnlock(unlocks, i) && unlocks[i].album == a && SameFrom(history, a, times[i])
  }

  ghost predicate SameFrom(history: map<nat, seq<Album>>, a: nat, t: nat) {
    a in history && t < |history[a]| && forall k :: t <= k < |history[a]| ==> history[a][k] == history[a][t]
  }

  lemma OpenIsRemembered(unlocks: seq<Grant>, a: nat, version: nat)
    requires Remembers(unlocks, a, version)
    ensures Grant(a, version) in Remembered(unlocks)
  {
    var i: nat :| IsOpenUnlock(unlocks, i, a, version);
    RememberedIff(unlocks, i);
  }

  lemma SameSince(history: map<nat, seq<Album>>, g: Grant, at: nat)
    requires Happened(history, g, at) && IsHistory(history[g.album])
    requires g.version == history[g.album][|history[g.album]| - 1].version
    ensures SameFrom(history, g.album, at)
  {
    var h := history[g.album];
    forall k | at <= k < |h| ensures h[k] == h[at] {
      SameVersionSamePassword(h, at, |h| - 1, k);
    }
  }

  lemma Opens(history: map<nat, seq<Album>>, unlocks: seq<Grant>, times: seq<nat>, a: nat, row: Album)
    requires |times| == |unlocks| && forall i :: 0 <= i < |times| ==> Happened(history, unlocks[i], times[i])
    requires a in history && IsHistory(history[a]) && row == history[a][|history[a]| - 1]
    requires Grant(a, row.version) in Remembered(unlocks)
    ensures Remembers(unlocks, a, row.version) && UnchangedSince(history, unlocks, times, a)
  {
    var i := RememberedUnlock(unlocks, Grant(a, row.version));
    assert IsOpenUnlock(unlocks, i, a, row.version);
    SameSince(history, unlocks[i], times[i]);
  }

  lemma RememberedUnlock(unlocks: seq<Grant>, g: Grant) returns (i: nat)
    requires g in Remembered(unlocks)
    ensures IsLastUnlock(unlocks, i) && unlocks[i] == g && |AlbumsAfter(unlocks, i)| < MAX_GRANTS
  {
    assert g in Latest(unlocks);
    RememberedIsLastUnlock(unlocks, g);
    i :| IsLastUnlock(unlocks, i) && unlocks[i] == g;
    RememberedIff(unlocks, i);
  }

  /** Every history of h goes on in h'. */
  predicate Extends(h: map<nat, seq<Album>>, h': map<nat, seq<Album>>) {
    forall a :: a in h ==> a in h' && h[a] <= h'[a]
  }

  /** What a visitor did stays true while albums are written. */
  lemma VisitorStaysValid(v: Visitor, h: map<nat, seq<Album>>, h': map<nat, seq<Album>>)
    requires v.Valid(h) && Extends(h, h')
    ensures v.Valid(h')
  {
    forall i | 0 <= i < |v.times| ensures Happened(h', v.session.unlocks[i], v.times[i]) {
      assert Happened(h, v.session.unlocks[i], v.times[i]);
    }
  }

  datatype TableWrite =
    | Creating(a: nat, pw: Option<string>)
    | Updating(a: nat, pw: Option<string>)
    | Setting(a: nat, pw: Option<string>)
    | Deleting(a: nat)

  /** The albums and a visitor side by side. */
  class Site {
    const table: AlbumTable
    const visitor: Visitor

    ghost predicate Valid()
      reads table, visitor, visitor.session
    {
      table.Valid() && visitor.Valid(table.history)
    }

    constructor ()
      ensures Valid() && fresh(table) && fresh(visitor) && fresh(visitor.session)
    {
      table := new AlbumTable();
      visitor := new Visitor(map[]);
    }

    /** Whatever is written to the albums, what the visitor unlocked keeps its meaning. */
    method Administer(w: TableWrite) returns (status: Status)
      requires Valid() && (w.Creating? ==> w.a !in table.history)
      modifies table
      ensures Valid() && Extends(old(table.history), table.history)
    {
      ghost var before := table.history;
      match w {
        case Creating(a, pw) => status := table.CreateAlbum(a, pw);
        case Updating(a, pw) => status := table.UpdateAlbum(a, pw);
        case Setting(a, pw) => status := table.SetPassword(a, pw);
        case Deleting(a) => table.DeleteAlbum(a); status := Done;
      }
      VisitorStaysValid(visitor, before, table.history);
    }
  }
}
