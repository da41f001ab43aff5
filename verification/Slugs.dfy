/**
 URL slugs: what slugify makes of a name, which strings it can make, and the slugs
 withUniqueSlug tries. Unicode enters as two parameters: compatibility
 decomposition, and which characters are combining marks.
 */
module Slugs {
  import opened Base

  const MAX_SLUG_LEN := 80
  const SLUG_RETRIES := 10

  predicate IsLower(c: char) { 'a' <= c <= 'z' || '0' <= c <= '9' }

  predicate IsUpper(c: char) { 'A' <= c <= 'Z' }

  function ToLower(c: char): char {
    if IsUpper(c) then (c as int - 'A' as int + 'a' as int) as char else c
  }

  predicate IsWord(w: string) {
    w != "" && forall i :: 0 <= i < |w| ==> IsLower(w[i])
  }

  function Join(words: seq<string>): string {
    if words == [] then "" else if |words| == 1 then words[0] else Join(words[..|words| - 1]) + "-" + words[|words| - 1]
  }

  predicate AreWords(words: seq<string>) {
    forall i :: 0 <= i < |words| ==> IsWord(words[i])
  }

  /** The slug pattern: words of lowercase letters and digits, joined by single dashes. */
  ghost predicate Matches(s: string) {
    exists words :: words != [] && AreWords(words) && s == Join(words)
  }

  predicate LetterOrDash(s: string, i: nat)
    requires i < |s|
  {
    IsLower(s[i]) || IsDash(s, i)
  }

  /** The same, letter by letter. */
  predicate NoStrayDash(s: string) {
    forall i :: 0 <= i < |s| ==> LetterOrDash(s, i)
  }

  /** A dash with a letter or digit before it. */
  predicate IsDash(s: string, i: nat)
    requires i < |s|
  {
    s[i] == '-' && i > 0 && s[i - 1] != '-'
  }

  predicate LooksLikeSlug(s: string) {
    s != "" && NoStrayDash(s) && s[|s| - 1] != '-'
  }

  lemma {:induction false} JoinLooks(words: seq<string>)
    requires words != [] && AreWords(words)
    ensures LooksLikeSlug(Join(words))
  {
    var w, s := words[|words| - 1], Join(words);
    assert IsWord(w);
    if |words| > 1 {
      var rest := Join(words[..|words| - 1]);
      JoinLooks(words[..|words| - 1]);
      assert s == rest + "-" + w;
      forall i | 0 <= i < |s| ensures LetterOrDash(s, i) {
        if i < |rest| { assert LetterOrDash(rest, i); }
        if i > |rest| { assert s[i] == w[i - |rest| - 1]; }
      }
    }
  }

  lemma PrefixNoStrayDash(s: string, n: nat)
    requires NoStrayDash(s) && n <= |s|
    ensures NoStrayDash(s[..n])
  {
    forall i | 0 <= i < n ensures LetterOrDash(s[..n], i) { assert LetterOrDash(s, i); }
  }

  lemma {:induction false} LooksSplits(s: string) returns (words: seq<string>)
    requires LooksLikeSlug(s)
    ensures words != [] && AreWords(words) && s == Join(words)
  {
    assert LetterOrDash(s, 0);
    if |s| == 1 {
      words := [s];
      return;
    }
    var c, rest := s[|s| - 1], s[..|s| - 1];
    PrefixNoStrayDash(s, |s| - 1);
    assert LetterOrDash(s, |s| - 1);
    if rest[|rest| - 1] == '-' {
      assert LetterOrDash(s, |s| - 2);
      var front := rest[..|rest| - 1];
      PrefixNoStrayDash(rest, |rest| - 1);
      words := LooksSplits(front);
      NewWord(words, c);
      words := words + [[c]];
      assert s == front + "-" + [c];
    } else {
      words := LooksSplits(rest);
      LongerWord(words, c);
      words := words[..|words| - 1] + [words[|words| - 1] + [c]];
      assert s == rest + [c];
    }
  }

  /** A dash and a letter start a new word. */
  lemma NewWord(words: seq<string>, c: char)
    requires words != [] && AreWords(words) && IsLower(c)
    ensures AreWords(words + [[c]]) && Join(words + [[c]]) == Join(words) + "-" + [c]
  {
    assert (words + [[c]])[..|words|] == words;
  }

  /** A letter makes the last word longer. */
  lemma LongerWord(words: seq<string>, c: char)
    requires words != [] && AreWords(words) && IsLower(c)
    ensures var n := |words| - 1; var more := words[..n] + [words[n] + [c]]; AreWords(more) && Join(more) == Join(words) + [c]
  {
    var n := |words| - 1;
    var more := words[..n] + [words[n] + [c]];
    assert more[..n] == words[..n] && IsWord(words[n]);
  }

  lemma MatchesIffLooks(s: string)
    ensures Matches(s) <==> LooksLikeSlug(s)
  {
    if LooksLikeSlug(s) {
      var words := LooksSplits(s);
    }
    if Matches(s) {
      var words :| words != [] && AreWords(words) && s == Join(words);
      JoinLooks(words);
    }
  }

  // ----- slugify -----

  /** What separates words: everything but letters, digits and marks. */
  predicate Separates(isMark: char -> bool, c: char) {
    !IsLower(c) && !IsUpper(c) && !isMark(c)
  }

  /** The builder after s. */
  function Fold(isMark: char -> bool, s: string): string {
    if s == "" then ""
    else
      var b, c := Fold(isMark, s[..|s| - 1]), s[|s| - 1];
      if IsLower(c) || IsUpper(c) then b + [ToLower(c)]
      else if !Separates(isMark, c) || EndsInDash(b) then b
      else b + "-"
  }

  predicate EndsInDash(b: string) {
    b == "" || b[|b| - 1] == '-'
  }

  /** strings.Trim(s, "-") */
  function Trim(s: string): string {
    if s == "" then ""
    else if s[0] == '-' then Trim(s[1..])
    else if s[|s| - 1] == '-' then Trim(s[..|s| - 1])
    else s
  }

  function Cut(s: string): string {
    if |s| > MAX_SLUG_LEN then Trim(s[..MAX_SLUG_LEN]) else s
  }

  function OrAlbum(s: string): string {
    if s == "" then "album" else s
  }

  function SlugOf(isMark: char -> bool, runes: string): string {
    OrAlbum(Cut(Trim(Fold(isMark, runes))))
  }

  // ----- what it means: the words of the name, joined by dashes -----

  /** The pieces of s between separators, lowered and without marks. */
  function Pieces(isMark: char -> bool, s: string): (p: seq<string>)
    ensures p != []
  {
    if s == "" then [""]
    else
      var p, c := Pieces(isMark, s[..|s| - 1]), s[|s| - 1];
      if Separates(isMark, c) then p + [""]
      else if IsLower(c) || IsUpper(c) then p[..|p| - 1] + [p[|p| - 1] + [ToLower(c)]]
      else p
  }

  function NonEmpty(p: seq<string>): seq<string> {
    if p == [] then [] else
      var rest := NonEmpty(p[..|p| - 1]);
      if p[|p| - 1] == "" then rest else rest + [p[|p| - 1]]
  }

  /** The words of a decomposed name. */
  function Words(isMark: char -> bool, s: string): seq<string> {
    NonEmpty(Pieces(isMark, s))
  }

  lemma {:induction false} NonEmptyAreWords(p: seq<string>)
    requires forall i :: 0 <= i < |p| ==> p[i] == "" || IsWord(p[i])
    ensures AreWords(NonEmpty(p))
  {
    if p != [] { NonEmptyAreWords(p[..|p| - 1]); }
  }

  lemma {:induction false} PiecesAreWords(isMark: char -> bool, s: string)
    ensures forall i :: 0 <= i < |Pieces(isMark, s)| ==> Pieces(isMark, s)[i] == "" || IsWord(Pieces(isMark, s)[i])
  {
    if s != "" { PiecesAreWords(isMark, s[..|s| - 1]); }
  }

  lemma WordsAreWords(isMark: char -> bool, s: string)
    ensures AreWords(Words(isMark, s))
  {
    PiecesAreWords(isMark, s);
    NonEmptyAreWords(Pieces(isMark, s));
  }

  /** The builder holds the words so far, and a dash if the last of them is over. */
  ghost function Built(p: seq<string>): string
    requires p != []
  {
    var words := NonEmpty(p);
    if words != [] && p[|p| - 1] == "" then Join(words) + "-" else Join(words)
  }

  lemma {:induction false} FoldIsBuilt(isMark: char -> bool, s: string)
    ensures Fold(isMark, s) == Built(Pieces(isMark, s))
  {
    if s == "" {
      assert NonEmpty([""]) == [] by { assert [""][..0] == []; }
    } else {
      var p, c := Pieces(isMark, s[..|s| - 1]), s[|s| - 1];
      FoldIsBuilt(isMark, s[..|s| - 1]);
      WordsAreWords(isMark, s[..|s| - 1]);
      if NonEmpty(p) != [] { JoinLooks(NonEmpty(p)); }
      if Separates(isMark, c) {
        assert (p + [""])[..|p|] == p;
      } else if IsLower(c) || IsUpper(c) {
        BuiltLetter(p, ToLower(c));
      }
    }
  }

  lemma BuiltLetter(p: seq<string>, c: char)
    requires p != []
    ensures Built(p[..|p| - 1] + [p[|p| - 1] + [c]]) == Built(p) + [c]
  {
    var front, last := p[..|p| - 1], p[|p| - 1];
    var q := front + [last + [c]];
    assert q[..|q| - 1] == front && q[|q| - 1] == last + [c];
    assert NonEmpty(q) == NonEmpty(front) + [last + [c]];
    var ws := NonEmpty(front);
    assert (ws + [last + [c]])[..|ws|] == ws;
    if last != "" { assert (ws + [last])[..|ws|] == ws; }
  }

  lemma TrimLooks(s: string)
    requires LooksLikeSlug(s)
    ensures Trim(s) == s && Trim(s + "-") == s && Trim("") == ""
  {
    assert LetterOrDash(s, 0);
    assert (s + "-")[..|s|] == s;
  }

  /** Trimmed, the builder is the words of the name joined by dashes. */
  lemma TrimmedIsJoined(isMark: char -> bool, s: string)
    ensures Trim(Fold(isMark, s)) == Join(Words(isMark, s))
  {
    FoldIsBuilt(isMark, s);
    WordsAreWords(isMark, s);
    if Words(isMark, s) != [] {
      JoinLooks(Words(isMark, s));
      TrimLooks(Join(Words(isMark, s)));
    }
  }

  predicate InRange(s: string) {
    LooksLikeSlug(s) && |s| <= MAX_SLUG_LEN
  }

  /** cut is s if that is short enough, and otherwise the longest slug it begins with that is. */
  ghost predicate IsCutOf(s: string, cut: string) {
    && cut <= s && InRange(cut) && (|s| <= MAX_SLUG_LEN ==> cut == s)
    && forall n :: |cut| < n <= |s| ==> !InRange(s[..n])
  }

  lemma CutLooks(s: string)
    requires LooksLikeSlug(s)
    ensures IsCutOf(s, Cut(s))
  {
    if |s| > MAX_SLUG_LEN {
      var t, n := s[..MAX_SLUG_LEN], MAX_SLUG_LEN - 1;
      PrefixNoStrayDash(s, MAX_SLUG_LEN);
      PrefixNoStrayDash(s, n);
      assert LetterOrDash(s, n);
      assert LetterOrDash(s, n - 1);
      if s[n] == '-' {
        TrimLooks(s[..n]);
        assert s[..n] + "-" == t;
      } else {
        TrimLooks(t);
      }
    }
  }

  /** What slugify promises of its result. */
  ghost predicate IsSlugFor(words: seq<string>, slug: string) {
    if words == [] then slug == "album" else IsCutOf(Join(words), slug)
  }

  lemma SlugOfMeans(isMark: char -> bool, s: string)
    ensures IsSlugFor(Words(isMark, s), SlugOf(isMark, s)) && InRange(SlugOf(isMark, s))
  {
    TrimmedIsJoined(isMark, s);
    WordsAreWords(isMark, s);
    if Words(isMark, s) != [] {
      JoinLooks(Words(isMark, s));
      CutLooks(Join(Words(isMark, s)));
    } else {
      assert LooksLikeSlug("album");
    }
  }

  lemma {:induction false} FoldIdentity(isMark: char -> bool, s: string)
    requires NoStrayDash(s) && !isMark('-')
    ensures Fold(isMark, s) == s
  {
    if s != "" {
      var n := |s| - 1;
      PrefixNoStrayDash(s, n);
      FoldIdentity(isMark, s[..n]);
      assert LetterOrDash(s, n);
      assert s == s[..n] + [s[n]];
    }
  }

  /** Decomposition and the mark table leave slugs alone. */
  ghost predicate PlainOnSlugs(nfkd: string -> string, isMark: char -> bool) {
    !isMark('-') && forall s :: InRange(s) ==> nfkd(s) == s
  }

  /** A slug is its own slug. */
  lemma SlugifyIdentity(nfkd: string -> string, isMark: char -> bool, s: string)
    requires PlainOnSlugs(nfkd, isMark) && InRange(s)
    ensures SlugOf(isMark, nfkd(s)) == s
  {
    FoldIdentity(isMark, s);
    TrimLooks(s);
  }

  /** slugify makes exactly the strings of at most 80 bytes that match the pattern. */
  lemma RangeExactly(nfkd: string -> string, isMark: char -> bool, s: string)
    requires PlainOnSlugs(nfkd, isMark)
    ensures (exists name :: SlugOf(isMark, nfkd(name)) == s) <==> Matches(s) && |s| <= 80
  {
    MatchesIffLooks(s);
    if InRange(s) { SlugifyIdentity(nfkd, isMark, s); }
    if name :| SlugOf(isMark, nfkd(name)) == s { SlugOfMeans(isMark, nfkd(name)); }
  }

  method Slugify(nfkd: string -> string, isMark: char -> bool, name: string) returns (slug: string)
    ensures slug == SlugOf(isMark, nfkd(name))
    ensures IsSlugFor(Words(isMark, nfkd(name)), slug)
    ensures Matches(slug) && |slug| <= MAX_SLUG_LEN
  {
    var b := "";
    var lastDash := true;
    var runes := nfkd(name);
    for k := 0 to |runes|
      invariant b == Fold(isMark, runes[..k]) && lastDash == EndsInDash(b)
    {
      var r := runes[k];
      assert runes[..k + 1][..k] == runes[..k];
      if IsLower(r) {
        b := b + [r];
        lastDash := false;
      } else if IsUpper(r) {
        b := b + [ToLower(r)];
        lastDash := false;
      } else if isMark(r) {
      } else if !lastDash {
        b := b + "-";
        lastDash := true;
      }
    }
    assert runes[..|runes|] == runes;
    SlugOfMeans(isMark, runes);
    MatchesIffLooks(SlugOf(isMark, runes));
    var s := Trim(b);
    if |s| > MAX_SLUG_LEN { s := Trim(s[..MAX_SLUG_LEN]); }
    if s == "" { return "album"; }
    return s;
  }

  // ----- suffixes and retries -----

  const SUFFIX_LEN := 4
  const ALPHABET := "abcdefghijklmnopqrstuvwxyz0123456789"

  /** access.go's validSlug. */
  ghost predicate ValidSlug(s: string) {
    |s| <= MAX_SLUG_LEN + 5 && Matches(s)
  }

  function SuffixChar(c: char): (r: char)
    ensures IsLower(r)
  {
    ALPHABET[c as int % |ALPHABET|]
  }

  /** Each of the 36 letters and digits is made from some byte, so suffixes do differ. */
  lemma EverySuffixChar(r: char)
    requires IsLower(r)
    ensures exists c: char :: c as int < 256 && SuffixChar(c) == r
  {
    var i := if r <= '9' then 26 + (r as int - '0' as int) else r as int - 'a' as int;
    AlphabetInOrder(i);
    var c := i as char;
    assert c as int == i && c as int % |ALPHABET| == i;
    assert SuffixChar(c) == ALPHABET[i] && ALPHABET[i] as int == r as int;
    assert SuffixChar(c) == r;
  }

  lemma AlphabetInOrder(i: int)
    requires 0 <= i < 36
    ensures |ALPHABET| == 36 && ALPHABET[i] as int == if i < 26 then 'a' as int + i else '0' as int + i - 26
  {
    if i < 9 {
    } else if i < 18 {
    } else if i < 27 {
    } else {
    }
  }

  /** slugSuffix: buf holds random bytes, rewritten in place. */
  method SlugSuffix(buf: array<char>) returns (suffix: string)
    modifies buf
    ensures |suffix| == buf.Length && forall i :: 0 <= i < |suffix| ==> suffix[i] == SuffixChar(old(buf[i]))
  {
    for i := 0 to buf.Length
      invariant forall j :: 0 <= j < i ==> buf[j] == SuffixChar(old(buf[j]))
      invariant forall j :: i <= j < buf.Length ==> buf[j] == old(buf[j])
    {
      buf[i] := SuffixChar(buf[i]);
    }
    suffix := buf[..];
  }

  /** A suffix: SUFFIX_LEN letters or digits. */
  predicate IsSuffix(w: string) {
    IsWord(w) && |w| == SUFFIX_LEN
  }

  lemma SuffixedMatches(base: string, w: string)
    requires InRange(base) && IsSuffix(w)
    ensures ValidSlug(base + "-" + w) && IsTried(base + "-" + w)
  {
    MatchesIffLooks(base);
    var words :| words != [] && AreWords(words) && base == Join(words);
    assert (words + [w])[..|words|] == words;
    assert Join(words + [w]) == base + "-" + w;
  }

  /** What withUniqueSlug may try for some name. */
  ghost predicate IsTried(s: string) {
    InRange(s) || exists base, w :: InRange(base) && IsSuffix(w) && s == base + "-" + w
  }

  /** The end of a suffixed slug. */
  predicate EndsInSuffix(s: string) {
    |s| > SUFFIX_LEN && s[|s| - SUFFIX_LEN - 1] == '-' && IsSuffix(s[|s| - SUFFIX_LEN..])
  }

  /** validSlug accepts more than can have been made: beyond 80 bytes a slug made here ends in a suffix. */
  lemma TriedExactly(s: string)
    ensures IsTried(s) <==> ValidSlug(s) && (|s| <= MAX_SLUG_LEN || EndsInSuffix(s))
  {
    MatchesIffLooks(s);
    if base, w :| InRange(base) && IsSuffix(w) && s == base + "-" + w {
      SuffixedMatches(base, w);
      assert s[|s| - SUFFIX_LEN..] == w;
    }
    if LooksLikeSlug(s) && MAX_SLUG_LEN < |s| <= MAX_SLUG_LEN + 5 && EndsInSuffix(s) {
      var n := |s| - SUFFIX_LEN - 1;
      PrefixNoStrayDash(s, n);
      assert LetterOrDash(s, n);
      assert s == s[..n] + "-" + s[n + 1..];
    }
  }

  lemma ValidButNeverTried()
    ensures exists s :: ValidSlug(s) && !IsTried(s)
  {
    var s := seq(MAX_SLUG_LEN + 1, _ => 'a');
    assert forall i :: 0 <= i < |s| ==> LetterOrDash(s, i);
    MatchesIffLooks(s);
    TriedExactly(s);
  }

  // ----- withUniqueSlug -----

  /** slug is base with the suffix that these random bytes make. */
  predicate IsSuffixed(slug: string, base: string, random: string) {
    && |slug| == |base| + 1 + |random| && base + "-" <= slug
    && forall i :: 0 <= i < |random| ==> slug[|base| + 1 + i] == SuffixChar(random[i])
  }

  method Resuffixed(base: string, random: string) returns (slug: string)
    requires InRange(base) && |random| == SUFFIX_LEN
    ensures ValidSlug(slug) && IsTried(slug) && IsSuffixed(slug, base, random)
  {
    var buf := new char[SUFFIX_LEN](i requires 0 <= i < SUFFIX_LEN => random[i]);
    var suffix := SlugSuffix(buf);
    SuffixedMatches(base, suffix);
    slug := base + "-" + suffix;
  }

  datatype Outcome = Created | SlugTaken | Failed

  /** What the source of randomness and the table do at each attempt. */
  datatype World = World(random: nat -> Option<string>, create: (nat, string) -> Outcome)

  ghost predicate MayTry(s: string) {
    ValidSlug(s) && IsTried(s)
  }

  ghost predicate AllTried(slugs: seq<string>) {
    forall i :: 0 <= i < |slugs| ==> MayTry(slugs[i])
  }

  lemma AllTriedSnoc(slugs: seq<string>, s: string)
    requires AllTried(slugs) && MayTry(s)
    ensures AllTried(slugs + [s])
  {
  }

  /** Each of these was taken at its attempt. */
  ghost predicate AllTaken(world: World, slugs: seq<string>) {
    forall i :: 0 <= i < |slugs| ==> world.create(i, slugs[i]) == SlugTaken
  }

  lemma AllTakenSnoc(world: World, slugs: seq<string>, s: string)
    requires slugs != [] && AllTaken(world, slugs[..|slugs| - 1]) && world.create(|slugs| - 1, slugs[|slugs| - 1]) == SlugTaken
    ensures AllTaken(world, (slugs + [s])[..|slugs|])
  {
    assert (slugs + [s])[..|slugs|] == slugs[..|slugs| - 1] + [slugs[|slugs| - 1]];
  }

  /** There are no random bytes for a suffix. */
  predicate NoSuffix(random: Option<string>) {
    random.None? || |random.value| != SUFFIX_LEN
  }

  /** Slug i + 1 is the first with the suffix drawn after attempt i. */
  predicate SuffixedAfter(world: World, slugs: seq<string>, i: nat)
    requires i + 1 < |slugs|
  {
    !NoSuffix(world.random(i)) && IsSuffixed(slugs[i + 1], slugs[0], world.random(i).value)
  }

  /** Every slug but the first is the first with the suffix drawn after the one before was taken. */
  ghost predicate AllSuffixed(world: World, slugs: seq<string>) {
    forall i :: 0 <= i < |slugs| - 1 ==> SuffixedAfter(world, slugs, i)
  }

  lemma AllSuffixedSnoc(world: World, slugs: seq<string>, s: string)
    requires slugs != [] && AllSuffixed(world, slugs)
    requires !NoSuffix(world.random(|slugs| - 1)) && IsSuffixed(s, slugs[0], world.random(|slugs| - 1).value)
    ensures AllSuffixed(world, slugs + [s])
  {
    var more := slugs + [s];
    forall i | 0 <= i < |slugs| ensures SuffixedAfter(world, more, i) {
      if i < |slugs| - 1 {
        assert SuffixedAfter(world, slugs, i) && more[i + 1] == slugs[i + 1];
      } else {
        assert i == |slugs| - 1 && more[i + 1] == s;
      }
    }
  }

  method FirstSlug(nfkd: string -> string, isMark: char -> bool, name: string) returns (slug: string)
    ensures slug == SlugOf(isMark, nfkd(name)) && InRange(slug) && MayTry(slug)
  {
    slug := Slugify(nfkd, isMark, name);
    MatchesIffLooks(slug);
  }

  /**
   withUniqueSlug. It creates under the name's own slug if that is free and goes
   on to another only after a collision, at most 11 times in all; every slug it
   tries is one that validSlug accepts.
   */
  method WithUniqueSlug(nfkd: string -> string, isMark: char -> bool, name: string, world: World)
    returns (outcome: Outcome, slugs: seq<string>)
    ensures 1 <= |slugs| <= 11 && slugs[0] == SlugOf(isMark, nfkd(name)) && AllTried(slugs)
    ensures AllTaken(world, slugs[..|slugs| - 1])
    ensures AllSuffixed(world, slugs)
    ensures var n := |slugs| - 1;
            if world.create(n, slugs[n]) == SlugTaken && n < 10 then outcome == Failed && NoSuffix(world.random(n))
            else outcome == world.create(n, slugs[n])
  {
    var base := FirstSlug(nfkd, isMark, name);
    slugs := [base];
    var attempt := 0;
    while true
      invariant attempt <= SLUG_RETRIES && |slugs| == attempt + 1 && slugs[0] == base && AllTried(slugs)
      invariant AllTaken(world, slugs[..attempt]) && AllSuffixed(world, slugs)
      decreases SLUG_RETRIES - attempt
    {
      outcome := world.create(attempt, slugs[attempt]);
      if outcome != SlugTaken || attempt >= SLUG_RETRIES { return; }
      var random := world.random(attempt);
      if NoSuffix(random) { return Failed, slugs; }
      var slug := Resuffixed(base, random.value);
      AllTriedSnoc(slugs, slug);
      AllTakenSnoc(world, slugs, slug);
      AllSuffixedSnoc(world, slugs, slug);
      slugs := slugs + [slug];
      attempt := attempt + 1;
    }
  }
}
