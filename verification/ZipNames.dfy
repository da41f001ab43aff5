/**
 The file names inside a zip download: every name once, ignoring case, whatever
 the photos are called. Letters are lowered by a given map on characters, of which
 only its leaving digits and dashes alone matters.
 */
module ZipNames {
  import opened Base

  type Case = char -> char

  ghost predicate KeepsSuffixes(lower: Case) {
    lower('-') == '-' && forall c :: '0' <= c <= '9' ==> lower(c) == c
  }

  function Lower(lower: Case, s: string): (r: string)
    ensures |r| == |s| && forall i :: 0 <= i < |s| ==> r[i] == lower(s[i])
  {
    seq(|s|, i requires 0 <= i < |s| => lower(s[i]))
  }

  // ----- decimal numbers -----

  const DIGITS := "0123456789"

  /** fmt's %d. */
  function Decimal(n: nat): (s: string)
    ensures s != [] && forall i :: 0 <= i < |s| ==> '0' <= s[i] <= '9'
  {
    if n < 10 then [DIGITS[n]] else Decimal(n / 10) + [DIGITS[n % 10]]
  }

  function DigitValue(c: char): nat {
    if '0' <= c <= '9' then c as nat - '0' as nat else 0
  }

  function Value(s: string): nat {
    if s == [] then 0 else 10 * Value(s[..|s| - 1]) + DigitValue(s[|s| - 1])
  }

  lemma {:induction false} ValueOfDecimal(n: nat)
    ensures Value(Decimal(n)) == n
  {
    if n < 10 {
      assert [DIGITS[n]][..0] == [];
      assert DigitValue(DIGITS[n]) == n;
    } else {
      var s := Decimal(n / 10);
      ValueOfDecimal(n / 10);
      assert (s + [DIGITS[n % 10]])[..|s|] == s;
      assert DigitValue(DIGITS[n % 10]) == n % 10;
    }
  }

  // ----- candidates -----

  /** path.Ext: from the last dot of the last path element. */
  method Ext(name: string) returns (ext: string)
    ensures IsExt(name, ext)
  {
    var i := |name|;
    while i > 0 && name[i - 1] != '/'
      invariant 0 <= i <= |name| && forall k :: i <= k < |name| ==> name[k] != '/' && name[k] != '.'
    {
      i := i - 1;
      if name[i] == '.' { return name[i..]; }
    }
    return "";
  }

  /** ext is where name's last dot after its last slash starts, or empty. */
  predicate IsExt(name: string, ext: string) {
    var k := |name| - |ext|;
    k >= 0 && name[k..] == ext && (forall i :: 0 < i < |ext| ==> ext[i] != '.') && (forall i :: 0 <= i < |ext| ==> ext[i] != '/') &&
    if ext == "" then forall i :: 0 <= i < |name| && name[i] == '.' ==> exists j :: i < j < |name| && name[j] == '/' else ext[0] == '.'
  }

  function Candidate(base: string, i: nat, ext: string): string {
    base + "-" + Decimal(i) + ext
  }

  /** Different numbers make names that differ ignoring case. */
  lemma CandidatesDiffer(lower: Case, base: string, ext: string, i: nat, j: nat)
    requires KeepsSuffixes(lower) && Lower(lower, Candidate(base, i, ext)) == Lower(lower, Candidate(base, j, ext))
    ensures i == j
  {
    var x, y := Lower(lower, Candidate(base, i, ext)), Lower(lower, Candidate(base, j, ext));
    var n := |base| + 1;
    assert |x| == n + |Decimal(i)| + |ext| && |y| == n + |Decimal(j)| + |ext|;
    forall k | 0 <= k < |Decimal(i)| ensures Decimal(i)[k] == Decimal(j)[k] {
      assert Candidate(base, i, ext)[n + k] == Decimal(i)[k] && Candidate(base, j, ext)[n + k] == Decimal(j)[k];
      assert x[n + k] == y[n + k];
    }
    assert Decimal(i) == Decimal(j);
    ValueOfDecimal(i);
    ValueOfDecimal(j);
  }

  ghost function Keys(lower: Case, base: string, ext: string, lo: nat, hi: nat): (keys: set<string>)
    requires lo <= hi
  {
    set i: nat | lo <= i < hi :: Lower(lower, Candidate(base, i, ext))
  }

  lemma {:induction false} KeysCount(lower: Case, base: string, ext: string, lo: nat, hi: nat)
    requires KeepsSuffixes(lower) && lo <= hi
    ensures |Keys(lower, base, ext, lo, hi)| == hi - lo
    decreases hi
  {
    if lo == hi {
      assert Keys(lower, base, ext, lo, hi) == {};
    } else {
      var key := Lower(lower, Candidate(base, hi - 1, ext));
      KeysCount(lower, base, ext, lo, hi - 1);
      if key in Keys(lower, base, ext, lo, hi - 1) {
        var i :| lo <= i < hi - 1 && Lower(lower, Candidate(base, i, ext)) == key;
        CandidatesDiffer(lower, base, ext, i, hi - 1);
      }
      assert Keys(lower, base, ext, lo, hi) == Keys(lower, base, ext, lo, hi - 1) + {key};
    }
  }

  function Named(name: string): string {
    if name == "" then "photo.jpg" else name
  }

  /** out is name with "-i" before its extension, and i is the first number from `from` on that gives a free name. */
  ghost predicate NumberedAt(lower: Case, taken: set<string>, name: string, from: nat, out: string, i: nat, ext: string) {
    && from <= i && IsExt(name, ext)
    && IsFirstFree(lower, taken, name[..|name| - |ext|], ext, from, i)
    && out == Candidate(name[..|name| - |ext|], i, ext)
  }

  ghost predicate Numbered(lower: Case, taken: set<string>, name: string, from: nat, out: string) {
    exists i, ext :: NumberedAt(lower, taken, name, from, out, i, ext)
  }

  ghost predicate IsFirstFree(lower: Case, taken: set<string>, base: string, ext: string, from: nat, i: nat) {
    && Lower(lower, Candidate(base, i, ext)) !in taken
    && forall j :: from <= j < i ==> Lower(lower, Candidate(base, j, ext)) in taken
  }

  /** A photo's entry keeps the photo's name exactly when that is not taken, ignoring case; otherwise it is numbered, from one more than its uses on. */
  ghost predicate Fits(lower: Case, taken: set<string>, name: string, uses: nat, out: string) {
    && (out == name <==> Lower(lower, name) !in taken)
    && (out != name ==> Numbered(lower, taken, name, uses + 1, out))
  }

  lemma NewFits(lower: Case, taken: set<string>, name: string, uses: nat, out: string)
    requires if Lower(lower, name) !in taken then out == name else Numbered(lower, taken, name, uses + 1, out)
    ensures Fits(lower, taken, name, uses, out)
  {
    if Lower(lower, name) in taken { NumberedDiffers(lower, taken, name, uses + 1, out); }
  }

  lemma NumberedDiffers(lower: Case, taken: set<string>, name: string, from: nat, out: string)
    requires Numbered(lower, taken, name, from, out)
    ensures out != name
  {
    var i, ext :| NumberedAt(lower, taken, name, from, out, i, ext);
    assert |out| > |name|;
  }

  function CountIn(seen: map<string, nat>, key: string): nat {
    if key in seen then seen[key] else 0
  }

  /** One more use of the name, and the first of the numbered one, if it was numbered. */
  ghost predicate Tallied(was: map<string, nat>, seen: map<string, nat>, lower: Case, name: string, out: string) {
    forall k :: CountIn(seen, k) == CountIn(was, k) + (if k == Lower(lower, name) then 1 else 0) + (if out != name && k == Lower(lower, out) then 1 else 0)
  }

  class Names {
    const lower: Case
    var seen: map<string, nat>     // by lowered name

    ghost predicate Valid()
      reads this
    {
      KeepsSuffixes(lower) && forall k :: k in seen ==> seen[k] > 0
    }

    constructor (lower: Case)
      requires KeepsSuffixes(lower)
      ensures Valid() && seen == map[] && this.lower == lower
    {
      this.lower := lower;
      seen := map[];
    }

    function Count(key: string): nat
      reads this
    {
      CountIn(seen, key)
    }

    /** uniqueZipName. */
    method UniqueZipName(given: string) returns (out: string)
      requires Valid()
      modifies this
      ensures Valid()
      ensures Fits(lower, old(seen).Keys, Named(given), old(Count(Lower(lower, Named(given)))), out)
      ensures Lower(lower, out) !in old(seen) && seen.Keys == old(seen).Keys + {Lower(lower, out)}
      ensures given != "" && Lower(lower, given) !in old(seen) ==> out == given
      ensures Tallied(old(seen), seen, lower, Named(given), out)
    {
      var name := Named(given);
      var key := Lower(lower, name);
      var n := Count(key);
      ghost var taken := seen.Keys;
      seen := seen[key := n + 1];
      if n == 0 { return name; }
      var ext := Ext(name);
      ghost var i;
      out, i := FirstFree(name[..|name| - |ext|], n + 1, ext);
      assert NumberedAt(lower, taken, name, n + 1, out, i, ext);
      NewFits(lower, taken, name, n, out);
      seen := seen[Lower(lower, out) := 1];
    }

    /** The search for a number, which ends because seen is finite. */
    method FirstFree(base: string, start: nat, ext: string) returns (out: string, ghost found: nat)
      requires Valid()
      ensures start <= found && out == Candidate(base, found, ext) && IsFirstFree(lower, seen.Keys, base, ext, start, found)
    {
      var i := start;
      while true
        invariant start <= i && Keys(lower, base, ext, start, i) <= seen.Keys
        invariant forall j :: start <= j < i ==> Lower(lower, Candidate(base, j, ext)) in seen.Keys
        decreases |seen.Keys| + start - i
      {
        out := Candidate(base, i, ext);
        var ck := Lower(lower, out);
        if Count(ck) == 0 { return out, i; }
        KeysBounded(lower, base, ext, start, i + 1, seen.Keys);
        i := i + 1;
      }
    }
  }

  /** A finite table holds finitely many numbers of one name. */
  lemma KeysBounded(lower: Case, base: string, ext: string, lo: nat, hi: nat, taken: set<string>)
    requires KeepsSuffixes(lower) && lo <= hi && forall j :: lo <= j < hi ==> Lower(lower, Candidate(base, j, ext)) in taken
    ensures Keys(lower, base, ext, lo, hi) <= taken && hi - lo <= |taken|
  {
    KeysCount(lower, base, ext, lo, hi);
    SubsetSize(Keys(lower, base, ext, lo, hi), taken);
  }

  // ----- extensions -----

  lemma ExtUnique(name: string, a: string, b: string)
    requires IsExt(name, a) && IsExt(name, b)
    ensures a == b
  {
  }

  lemma CandidateKeepsExt(base: string, i: nat, ext: string)
    requires IsExt(base + ext, ext)
    ensures IsExt(Candidate(base, i, ext), ext)
  {
    var out, name := Candidate(base, i, ext), base + ext;
    var mid := "-" + Decimal(i);
    assert out == base + mid + ext;
    if ext == "" {
      assert name == base;
      assert forall m :: |base| <= m < |out| ==> out[m] == mid[m - |base|];
      forall m | 0 <= m < |out| && out[m] == '.' ensures exists j :: m < j < |out| && out[j] == '/' {
        assert name[m] == '.';
        var j :| m < j < |name| && name[j] == '/';
        assert out[j] == '/';
      }
    }
  }

  /** A renamed entry keeps the extension of its photo. */
  lemma RenamedKeepsExt(lower: Case, taken: set<string>, name: string, start: nat, out: string, ext: string)
    requires Numbered(lower, taken, name, start, out) && IsExt(name, ext)
    ensures IsExt(out, ext)
  {
    var i, e :| NumberedAt(lower, taken, name, start, out, i, e);
    ExtUnique(name, e, ext);
    assert name[..|name| - |ext|] + ext == name;
    CandidateKeepsExt(name[..|name| - |ext|], i, ext);
  }

  // ----- the whole download -----

  /** A photo of the album, and whether its original can be opened. */
  datatype Photo = Photo(filename: string, opens: bool)

  function Opened(photos: seq<Photo>): seq<string> {
    if photos == [] then []
    else
      var rest := Opened(photos[..|photos| - 1]);
      if photos[|photos| - 1].opens then rest + [Named(photos[|photos| - 1].filename)] else rest
  }

  ghost function Lowered(lower: Case, names: seq<string>): set<string> {
    set i | 0 <= i < |names| :: Lower(lower, names[i])
  }

  ghost predicate Distinct(lower: Case, names: seq<string>) {
    forall i, j :: 0 <= i < j < |names| ==> Lower(lower, names[i]) != Lower(lower, names[j])
  }

  /** How often a name has been used by the first i photos: by those that are called so, and by entries numbered into it. */
  function Uses(lower: Case, names: seq<string>, entries: seq<string>, i: nat, key: string): nat
    requires i <= |entries| <= |names|
  {
    if i == 0 then 0
    else
      Uses(lower, names, entries, i - 1, key)
      + (if key == Lower(lower, names[i - 1]) then 1 else 0)
      + (if entries[i - 1] != names[i - 1] && key == Lower(lower, entries[i - 1]) then 1 else 0)
  }

  ghost predicate EntryOk(lower: Case, names: seq<string>, entries: seq<string>, i: nat)
    requires i < |entries| <= |names|
  {
    Fits(lower, Lowered(lower, entries[..i]), names[i], Uses(lower, names, entries, i, Lower(lower, names[i])), entries[i])
  }

  lemma {:induction false} UsesLocal(lower: Case, names: seq<string>, entries: seq<string>, more: seq<string>, all: seq<string>, i: nat, key: string)
    requires i <= |entries| <= |names| && names <= more && entries <= all && |all| <= |more|
    ensures Uses(lower, more, all, i, key) == Uses(lower, names, entries, i, key)
  {
    if i > 0 { UsesLocal(lower, names, entries, more, all, i - 1, key); }
  }

  /** A name that has been used once, and only by the photo that is called so, is numbered from 2 on. */
  lemma {:induction false} UnusedIsZero(lower: Case, names: seq<string>, entries: seq<string>, i: nat, key: string)
    requires i <= |entries| <= |names|
    requires forall j :: 0 <= j < i ==> Lower(lower, names[j]) != key && Lower(lower, entries[j]) != key
    ensures Uses(lower, names, entries, i, key) == 0
  {
    if i > 0 { UnusedIsZero(lower, names, entries, i - 1, key); }
  }

  /** The first repeat of a name is numbered from 2 on. */
  lemma FirstRepeat(lower: Case, names: seq<string>, entries: seq<string>, i: nat, j: nat)
    requires |entries| <= |names| && i < j < |entries| && Lower(lower, names[i]) == Lower(lower, names[j]) && EntryOk(lower, names, entries, j)
    requires entries[i] == names[i]
    requires forall k :: 0 <= k < j && k != i ==> Lower(lower, names[k]) != Lower(lower, names[j]) && Lower(lower, entries[k]) != Lower(lower, names[j])
    ensures Numbered(lower, Lowered(lower, entries[..j]), names[j], 2, entries[j])
  {
    var key := Lower(lower, names[j]);
    assert entries[..j][i] == names[i];
    UnusedIsZero(lower, names, entries, i, key);
    UsesBetween(lower, names, entries, i + 1, j, key);
  }

  lemma {:induction false} UsesBetween(lower: Case, names: seq<string>, entries: seq<string>, i: nat, j: nat, key: string)
    requires i <= j <= |entries| <= |names|
    requires forall k :: i <= k < j ==> Lower(lower, names[k]) != key && Lower(lower, entries[k]) != key
    ensures Uses(lower, names, entries, j, key) == Uses(lower, names, entries, i, key)
    decreases j
  {
    if i < j { UsesBetween(lower, names, entries, i, j - 1, key); }
  }

  ghost predicate EntriesOk(lower: Case, names: seq<string>, entries: seq<string>)
    requires |entries| <= |names|
  {
    forall i :: 0 <= i < |entries| ==> EntryOk(lower, names, entries, i)
  }

  lemma EntriesOkExtend(lower: Case, names: seq<string>, more: seq<string>, entries: seq<string>)
    requires |entries| <= |names| && names <= more && EntriesOk(lower, names, entries)
    ensures EntriesOk(lower, more, entries)
  {
    forall i | 0 <= i < |entries| ensures EntryOk(lower, more, entries, i) {
      assert EntryOk(lower, names, entries, i);
      UsesLocal(lower, names, entries, more, entries, i, Lower(lower, names[i]));
    }
  }

  /** What uniqueZipName makes of a photo is a good next entry. */
  lemma NextEntryOk(lower: Case, names: seq<string>, entries: seq<string>, out: string)
    requires |entries| < |names|
    requires Fits(lower, Lowered(lower, entries), names[|entries|], Uses(lower, names, entries, |entries|, Lower(lower, names[|entries|])), out)
    ensures EntryOk(lower, names, entries + [out], |entries|)
  {
    UsesLocal(lower, names, entries, names, entries + [out], |entries|, Lower(lower, names[|entries|]));
    assert (entries + [out])[..|entries|] == entries;
  }

  lemma EntrySnoc(lower: Case, names: seq<string>, more: seq<string>, entries: seq<string>, out: string)
    requires |entries| <= |names| && EntriesOk(lower, names, entries) && Distinct(lower, entries)
    requires names <= more && |entries| < |more| && Lower(lower, out) !in Lowered(lower, entries)
    requires EntryOk(lower, more, entries + [out], |entries|)
    ensures EntriesOk(lower, more, entries + [out]) && Distinct(lower, entries + [out])
    ensures Lowered(lower, entries + [out]) == Lowered(lower, entries) + {Lower(lower, out)}
  {
    var all := entries + [out];
    forall i | 0 <= i < |all| ensures EntryOk(lower, more, all, i) {
      if i < |entries| {
        assert EntryOk(lower, names, entries, i) && all[..i] == entries[..i];
        UsesLocal(lower, names, entries, more, all, i, Lower(lower, names[i]));
      }
    }
    forall k | k in Lowered(lower, entries) ensures k in Lowered(lower, all) {
      var i :| 0 <= i < |entries| && Lower(lower, entries[i]) == k;
      assert all[i] == entries[i];
    }
    assert all[|entries|] == out;
  }

  /** The table counts the uses of each name. */
  ghost predicate Counts(names: Names, photos: seq<string>, entries: seq<string>)
    requires |entries| <= |photos|
    reads names
  {
    forall k :: CountIn(names.seen, k) == Uses(names.lower, photos, entries, |entries|, k)
  }

  /** One turn of the zip loop, up to the header of the entry. */
  method NextEntry(names: Names, ghost before: seq<string>, filename: string, ghost entries: seq<string>) returns (out: string)
    requires names.Valid() && names.seen.Keys == Lowered(names.lower, entries)
    requires |entries| == |before| && EntriesOk(names.lower, before, entries) && Distinct(names.lower, entries) && Counts(names, before, entries)
    modifies names
    ensures names.Valid() && names.seen.Keys == Lowered(names.lower, entries + [out])
    ensures EntriesOk(names.lower, before + [Named(filename)], entries + [out]) && Distinct(names.lower, entries + [out])
    ensures Counts(names, before + [Named(filename)], entries + [out])
  {
    ghost var more, was := before + [Named(filename)], names.seen;
    UsesLocal(names.lower, before, entries, more, entries, |entries|, Lower(names.lower, Named(filename)));
    out := names.UniqueZipName(filename);
    NextEntryOk(names.lower, more, entries, out);
    EntrySnoc(names.lower, before, more, entries, out);
    CountsOn(names.lower, was, names.seen, before, Named(filename), entries, out);
  }

  lemma CountsOn(lower: Case, was: map<string, nat>, seen: map<string, nat>, before: seq<string>, name: string, entries: seq<string>, out: string)
    requires |entries| == |before| && Tallied(was, seen, lower, name, out)
    requires forall k :: CountIn(was, k) == Uses(lower, before, entries, |entries|, k)
    ensures forall k :: CountIn(seen, k) == Uses(lower, before + [name], entries + [out], |entries + [out]|, k)
  {
    var more, all := before + [name], entries + [out];
    forall k ensures CountIn(seen, k) == Uses(lower, more, all, |all|, k) {
      UsesLocal(lower, before, entries, more, all, |entries|, k);
      assert CountIn(was, k) == Uses(lower, before, entries, |entries|, k);
      assert more[|entries|] == name && all[|entries|] == out;
    }
  }

  /** Name i is that of photo k, which opens. */
  predicate NameOf(photos: seq<Photo>, k: nat, name: string) {
    k < |photos| && photos[k].opens && name == if photos[k].filename == "" then "photo.jpg" else photos[k].filename
  }

  predicate Increasing(at: seq<nat>) {
    forall i, j :: 0 <= i < j < |at| ==> at[i] < at[j]
  }

  /** at gives, for each name, the photo it is of: those that open, all of them, in order. */
  ghost predicate OfPhotos(photos: seq<Photo>, names: seq<string>, at: seq<nat>) {
    && |at| == |names| && Increasing(at)
    && (forall i :: 0 <= i < |at| ==> NameOf(photos, at[i], names[i]))
    && (forall k :: 0 <= k < |photos| && photos[k].opens ==> k in at)
  }

  lemma {:induction false} OpenedAre(photos: seq<Photo>) returns (at: seq<nat>)
    ensures OfPhotos(photos, Opened(photos), at)
    decreases |photos|
  {
    if photos == [] { return []; }
    var n := |photos| - 1;
    var names := Opened(photos[..n]);
    at := OpenedAre(photos[..n]);
    if photos[n].opens {
      OneMoreOpens(photos, names, at);
      at := at + [n];
    } else {
      OneMoreNamed(photos, names, at);
      OneMoreFound(photos, names, at);
    }
  }

  lemma OneMoreOpens(photos: seq<Photo>, names: seq<string>, front: seq<nat>)
    requires photos != [] && photos[|photos| - 1].opens && OfPhotos(photos[..|photos| - 1], names, front)
    ensures OfPhotos(photos, names + [Named(photos[|photos| - 1].filename)], front + [|photos| - 1])
  {
    var n := |photos| - 1;
    var at, all := front + [n], names + [Named(photos[n].filename)];
    assert Increasing(at) by { OneMoreNamed(photos, names, front); }
    assert forall k :: 0 <= k < |photos| && photos[k].opens ==> k in at by { OneMoreFound(photos, names, front); }
    forall i | 0 <= i < |at| ensures NameOf(photos, at[i], all[i]) {
      if i < |front| { OneMoreNamed(photos, names, front); }
    }
  }

  lemma OneMoreNamed(photos: seq<Photo>, names: seq<string>, front: seq<nat>)
    requires photos != [] && OfPhotos(photos[..|photos| - 1], names, front)
    ensures var n := |photos| - 1;
            (forall i :: 0 <= i < |front| ==> front[i] < n && NameOf(photos, front[i], names[i])) && Increasing(front + [n])
  {
    forall i | 0 <= i < |front| ensures front[i] < |photos| - 1 && NameOf(photos, front[i], names[i]) {
      assert NameOf(photos[..|photos| - 1], front[i], names[i]);
    }
  }

  lemma OneMoreFound(photos: seq<Photo>, names: seq<string>, front: seq<nat>)
    requires photos != [] && OfPhotos(photos[..|photos| - 1], names, front)
    ensures forall k :: 0 <= k < |photos| && photos[k].opens ==> k in front + [|photos| - 1]
    ensures forall k :: 0 <= k < |photos| - 1 && photos[k].opens ==> k in front
  {
    forall k | 0 <= k < |photos| - 1 && photos[k].opens ensures k in front {
      assert photos[..|photos| - 1][k].opens;
    }
  }

  /** Writing breaks off at an entry, the first that cannot be written, or not at all. */
  predicate BrokenOff(breaks: nat -> bool, entries: nat, all: nat, complete: bool) {
    && entries <= all && (forall i :: 0 <= i < entries - 1 ==> !breaks(i))
    && if complete then entries == all && (all > 0 ==> !breaks(all - 1)) else entries > 0 && breaks(entries - 1)
  }

  /**
   The zip loop. The names it writes are distinct ignoring case, one for each photo
   that opens, in order; it breaks off exactly at the first entry that cannot be
   written.
   */
  method ZipEntries(lower: Case, photos: seq<Photo>, breaks: nat -> bool) returns (entries: seq<string>, complete: bool, ghost at: seq<nat>)
    requires KeepsSuffixes(lower)
    ensures Distinct(lower, entries) && OfPhotos(photos, Opened(photos), at)
    ensures BrokenOff(breaks, |entries|, |Opened(photos)|, complete) && EntriesOk(lower, Opened(photos), entries)
  {
    at := OpenedAre(photos);
    var names := new Names(lower);
    entries := [];
    for k := 0 to |photos|
      invariant fresh(names) && names.Valid() && names.lower == lower && names.seen.Keys == Lowered(lower, entries)
      invariant |entries| == |Opened(photos[..k])| && EntriesOk(lower, Opened(photos[..k]), entries) && Distinct(lower, entries)
      invariant Counts(names, Opened(photos[..k]), entries) && forall i :: 0 <= i < |entries| ==> !breaks(i)
    {
      assert photos[..k + 1][..k] == photos[..k];
      if photos[k].opens {
        var out := NextEntry(names, Opened(photos[..k]), photos[k].filename, entries);
        entries := entries + [out];
        if breaks(|entries| - 1) {
          OpenedPrefix(photos, k + 1);
          EntriesOkExtend(lower, Opened(photos[..k + 1]), Opened(photos), entries);
          return entries, false, at;
        }
      }
    }
    assert photos[..|photos|] == photos;
    complete := true;
  }

  lemma {:induction false} OpenedPrefix(photos: seq<Photo>, k: nat)
    requires k <= |photos|
    ensures Opened(photos[..k]) <= Opened(photos)
    decreases |photos|
  {
    if k < |photos| {
      OpenedPrefix(photos[..|photos| - 1], k);
      assert photos[..|photos| - 1][..k] == photos[..k];
    } else {
      assert photos[..k] == photos;
    }
  }
}
