/**
 Strings in the plugin's JSON library: quotestring escapes a byte string in
 several passes, and scanstring reads it back. Lua's tonumber(s, 16) is a
 parameter, of which only its reading four hexadecimal digits matters.
 */
module JsonStrings {
  import opened Base

  type Byte = b: int | 0 <= b < 256

  type Bytes = seq<Byte>

  const QUOTE: Byte := 34
  const BACKSLASH: Byte := 92
  const LETTER_U: Byte := 117

  /** The bytes of a text in ASCII. */
  function Text(s: string): Bytes
    requires forall i :: 0 <= i < |s| ==> s[i] as int < 128
  {
    seq(|s|, i requires 0 <= i < |s| => s[i] as int)
  }

  // ----- hexadecimal -----

  function HexDigit(d: int): (b: Byte)
    requires 0 <= d < 16
    ensures 32 < b < 127 && b != QUOTE && b != BACKSLASH && HexValue(b) == Some(d)
  {
    if d < 10 then 48 + d else 97 + d - 10
  }

  /** The value of a hexadecimal digit, in either case. */
  function HexValue(b: Byte): Option<int> {
    if 48 <= b <= 57 then Some(b - 48)
    else if 97 <= b <= 102 then Some(b - 87)
    else if 65 <= b <= 70 then Some(b - 55)
    else None
  }

  lemma TheCharacters()
    ensures QUOTE == '"' as int && BACKSLASH == '\\' as int && LETTER_U == 'u' as int
    ensures HexValue('0' as int) == Some(0) && HexValue('9' as int) == Some(9)
    ensures HexValue('a' as int) == HexValue('A' as int) == Some(10) && HexValue('f' as int) == HexValue('F' as int) == Some(15)
    ensures HexValue('g' as int) == HexValue('G' as int) == HexValue('@' as int) == None
  {
  }

  predicate IsHex4(t: Bytes) {
    |t| == 4 && forall i :: 0 <= i < 4 ==> HexValue(t[i]).Some?
  }

  function HexNumber(t: Bytes): int
    requires IsHex4(t)
  {
    ((HexValue(t[0]).value * 16 + HexValue(t[1]).value) * 16 + HexValue(t[2]).value) * 16 + HexValue(t[3]).value
  }

  /** "%.4x" */
  function Hex4(v: int): (s: Bytes)
    requires 0 <= v <= 0xffff
    ensures |s| == 4
  {
    [HexDigit(v / 4096), HexDigit(v / 256 % 16), HexDigit(v / 16 % 16), HexDigit(v % 16)]
  }

  type Reader = Bytes -> Option<int>

  /** It reads four hexadecimal digits as their number. */
  ghost predicate ReadsHex(hex: Reader) {
    forall t :: IsHex4(t) ==> hex(t) == Some(HexNumber(t))
  }

  lemma HexRoundTrip(v: int)
    requires 0 <= v <= 0xffff
    ensures IsHex4(Hex4(v)) && HexNumber(Hex4(v)) == v
  {
    assert v == v / 16 * 16 + v % 16 && v / 16 == v / 256 * 16 + v / 16 % 16 && v / 256 == v / 4096 * 16 + v / 256 % 16;
  }

  // ----- code points -----

  /** unichar: the UTF-8 bytes of a code point, or none. */
  function Unichar(v: int): (s: Option<Bytes>)
    ensures s.None? <==> v < 0 || v > 0x10ffff
  {
    if v < 0 then None
    else if v <= 0x7f then Some([v])
    else if v <= 0x7ff then Some([0xc0 + v / 0x40, 0x80 + v % 0x40])
    else if v <= 0xffff then Some([0xe0 + v / 0x1000, 0x80 + v / 0x40 % 0x40, 0x80 + v % 0x40])
    else if v <= 0x10ffff then Some([0xf0 + v / 0x40000, 0x80 + v / 0x1000 % 0x40, 0x80 + v / 0x40 % 0x40, 0x80 + v % 0x40])
    else None
  }

  function Escape4(v: int): (s: Bytes)
    requires 0 <= v <= 0xffff
    ensures |s| == 6 && s[0] == BACKSLASH && s[1] == LETTER_U && s[2..] == Hex4(v)
  {
    [BACKSLASH, LETTER_U] + Hex4(v)
  }

  /** The letter of a two-character escape for b, or none. */
  function EscapeCode(b: Byte): Option<Byte> {
    if b == QUOTE || b == BACKSLASH then Some(b)
    else if b == 8 then Some(98)
    else if b == 12 then Some(102)
    else if b == 10 then Some(110)
    else if b == 13 then Some(114)
    else if b == 9 then Some(116)
    else None
  }

  function At(u: Bytes, i: nat): Byte {
    if i < |u| then u[i] else 0
  }

  /** The code point that escapeutf8 reads from u, or none. */
  function CodePoint(u: Bytes): Option<int> {
    var a, b, c, d := At(u, 0), At(u, 1), At(u, 2), At(u, 3);
    if a <= 0x7f then Some(a)
    else if 0xc0 <= a <= 0xdf && b >= 0x80 then Some((a - 0xc0) * 0x40 + b - 0x80)
    else if 0xe0 <= a <= 0xef && b >= 0x80 && c >= 0x80 then Some(((a - 0xe0) * 0x40 + b - 0x80) * 0x40 + c - 0x80)
    else if 0xf0 <= a <= 0xf7 && b >= 0x80 && c >= 0x80 && d >= 0x80 then
      Some((((a - 0xf0) * 0x40 + b - 0x80) * 0x40 + c - 0x80) * 0x40 + d - 0x80)
    else None
  }

  function EscapeUtf8(u: Bytes): Bytes {
    if |u| == 1 && EscapeCode(u[0]).Some? then [BACKSLASH, EscapeCode(u[0]).value]
    else
      match CodePoint(u)
      case None => []
      case Some(v) =>
        if v <= 0xffff then Escape4(v)
        else if v <= 0x10ffff then Escape4(0xD800 + (v - 0x10000) / 0x400) + Escape4(0xDC00 + (v - 0x10000) % 0x400)
        else []
  }

  // ----- scanstring -----

  predicate IsHigh(v: int) { 0xD800 <= v <= 0xDBFF }

  predicate IsLow(v: int) { 0xDC00 <= v <= 0xDFFF }

  /** strsub, from position i up to but not including j. */
  function Sub(s: Bytes, i: nat, j: nat): Bytes
    requires i <= j
  {
    if i >= |s| then [] else if j > |s| then s[i..] else s[i..j]
  }

  /** escapechars[c] or c */
  function Unescape(c: Byte): Byte {
    if c == 98 then 8
    else if c == 102 then 12
    else if c == 110 then 10
    else if c == 114 then 13
    else if c == 116 then 9
    else c
  }

  /** What a backslash at p stands for, and the position after it. */
  function ReadEscape(hex: Reader, s: Bytes, p: nat): (r: (Bytes, nat))
    ensures r.1 > p
  {
    var u := if Sub(s, p + 1, p + 2) == [LETTER_U] then ReadUnicode(hex, s, p) else None;
    if u.Some? then u.value
    else if p + 1 < |s| then ([Unescape(s[p + 1])], p + 2)
    else ([], p + 2)
  }

  /** \uXXXX, with the low surrogate after a high one. */
  function ReadUnicode(hex: Reader, s: Bytes, p: nat): (r: Option<(Bytes, nat)>)
    ensures r.Some? ==> r.value.1 > p
  {
    match hex(Sub(s, p + 2, p + 6))
    case None => None
    case Some(v) =>
      var low := if IsHigh(v) && Sub(s, p + 6, p + 8) == [BACKSLASH, LETTER_U] then hex(Sub(s, p + 8, p + 12)) else None;
      if low.Some? && IsLow(low.value) then
        var w := (v - 0xD800) * 0x400 + (low.value - 0xDC00) + 0x10000;
        if Unichar(w).Some? then Some((Unichar(w).value, p + 12)) else None
      else if Unichar(v).Some? then Some((Unichar(v).value, p + 6)) else None
  }

  /** What scanstring reads at p, and where it goes on. */
  function Take(hex: Reader, s: Bytes, p: nat): (r: (Bytes, nat))
    requires p < |s|
    ensures r.1 > p
  {
    if s[p] == BACKSLASH then ReadEscape(hex, s, p) else ([s[p]], p + 1)
  }

  /** From inside a string at p up to its closing quote: the bytes, and the position after the quote. */
  function Scan(hex: Reader, s: Bytes, p: nat): (r: Option<(Bytes, nat)>)
    ensures r.Some? ==> p < r.value.1 <= |s|
    decreases |s| - p
  {
    if p >= |s| then None
    else if s[p] == QUOTE then Some(([], p + 1))
    else
      var rest := Scan(hex, s, Take(hex, s, p).1);
      if rest.Some? then Some((Take(hex, s, p).0 + rest.value.0, rest.value.1)) else None
  }

  // ----- escapes of other encoders -----

  /** unichar makes UTF-8: the code point can be read back. */
  lemma UnicharIsUtf8(v: int)
    requires 0 <= v <= 0x10ffff
    ensures CodePoint(Unichar(v).value) == Some(v)
    ensures |Unichar(v).value| == if v < 0x80 then 1 else if v < 0x800 then 2 else if v < 0x10000 then 3 else 4
  {
    assert v == v / 0x40 * 0x40 + v % 0x40;
    assert v / 0x40 == v / 0x1000 * 0x40 + v / 0x40 % 0x40;
    assert v / 0x1000 == v / 0x40000 * 0x40 + v / 0x1000 % 0x40;
  }

  /** \u and four hexadecimal digits that make v. */
  predicate IsEscape(e: Bytes, v: int) {
    |e| == 6 && e[..2] == [BACKSLASH, LETTER_U] && IsHex4(e[2..]) && HexNumber(e[2..]) == v
  }

  /** The escape of a code point, as any encoder may write it: one \u, or two for a surrogate pair. */
  predicate IsEscapeOf(e: Bytes, v: int) {
    || (IsEscape(e, v) && !IsHigh(v) && !IsLow(v))
    || (|e| == 12 && 0x10000 <= v <= 0x10ffff && IsEscape(e[..6], 0xD800 + (v - 0x10000) / 0x400) && IsEscape(e[6..], 0xDC00 + (v - 0x10000) % 0x400))
  }

  lemma EscapeHex(hex: Reader, s: Bytes, p: nat, e: Bytes, v: int)
    requires ReadsHex(hex) && IsEscape(e, v) && StandsAt(s, p, e)
    ensures 0 <= v <= 0xffff && Sub(s, p, p + 2) == [BACKSLASH, LETTER_U] && Sub(s, p + 1, p + 2) == [LETTER_U] && hex(Sub(s, p + 2, p + 6)) == Some(v)
  {
    StandsSplit(s, p, e, 2);
    StandsSplit(s, p, e[..2], 1);
    StandsIsSub(s, p, e[..2]);
    StandsIsSub(s, p + 1, e[..2][1..]);
    StandsIsSub(s, p + 2, e[2..]);
  }

  lemma StandsIsSub(s: Bytes, p: nat, t: Bytes)
    requires StandsAt(s, p, t)
    ensures Sub(s, p, p + |t|) == t
  {
    assert s[p..p + |t|] == t;
  }

  lemma OneEscapeReads(hex: Reader, s: Bytes, p: nat, e: Bytes, v: int)
    requires ReadsHex(hex) && IsEscape(e, v) && !IsHigh(v) && StandsAt(s, p, e)
    ensures p < |s| && 0 <= v <= 0xffff && Take(hex, s, p) == (Unichar(v).value, p + 6)
  {
    EscapeHex(hex, s, p, e, v);
    assert s[p] == BACKSLASH by { assert s[p] == e[0] == e[..2][0]; }
  }

  /** The code point of a surrogate pair. */
  function Paired(high: int, low: int): int {
    (high - 0xD800) * 0x400 + (low - 0xDC00) + 0x10000
  }

  lemma PairedIs(v: int)
    requires 0x10000 <= v <= 0x10ffff
    ensures var high, low := 0xD800 + (v - 0x10000) / 0x400, 0xDC00 + (v - 0x10000) % 0x400;
            IsHigh(high) && IsLow(low) && Paired(high, low) == v
  {
  }

  lemma PairReads(hex: Reader, s: Bytes, p: nat, e: Bytes, f: Bytes, high: int, low: int)
    requires ReadsHex(hex) && IsEscape(e, high) && IsEscape(f, low) && IsHigh(high) && IsLow(low) && StandsAt(s, p, e) && StandsAt(s, p + 6, f)
    ensures p < |s| && Unichar(Paired(high, low)).Some? && Take(hex, s, p) == (Unichar(Paired(high, low)).value, p + 12)
  {
    EscapeHex(hex, s, p, e, high);
    EscapeHex(hex, s, p + 6, f, low);
    assert s[p] == BACKSLASH by { assert s[p] == e[0] == e[..2][0]; }
  }

  /** What is read of it, and where it ends. */
  lemma EscapeTaken(hex: Reader, s: Bytes, p: nat, e: Bytes, v: int)
    requires ReadsHex(hex) && IsEscapeOf(e, v) && StandsAt(s, p, e)
    ensures p < |s| && 0 <= v <= 0x10ffff && Take(hex, s, p) == (Unichar(v).value, p + |e|)
  {
    if |e| == 6 {
      OneEscapeReads(hex, s, p, e, v);
    } else {
      PairedIs(v);
      StandsSplit(s, p, e, 6);
      PairReads(hex, s, p, e[..6], e[6..], 0xD800 + (v - 0x10000) / 0x400, 0xDC00 + (v - 0x10000) % 0x400);
    }
  }

  /** scanstring reads it as the code point's UTF-8, and a character of ASCII as that one byte. */
  lemma EscapeReads(hex: Reader, s: Bytes, p: nat, e: Bytes, v: int)
    requires ReadsHex(hex) && IsEscapeOf(e, v) && StandsAt(s, p, e)
    ensures p < |s| && Take(hex, s, p).1 == p + |e|
    ensures CodePoint(Take(hex, s, p).0) == Some(v) && (v < 0x80 ==> Take(hex, s, p).0 == [v])
  {
    EscapeTaken(hex, s, p, e, v);
    UnicharIsUtf8(v);
  }

  // ----- what a quoted text stands for -----

  predicate Plain(b: Byte) { b != QUOTE && b != BACKSLASH }

  predicate Ascii(t: Bytes) {
    forall i :: 0 <= i < |t| ==> t[i] < 128
  }

  /** One piece of a text: its length, and the bytes it stands for. */
  datatype Piece = Piece(len: nat, bytes: Bytes)

  /** The first piece of a quoted text: a byte that stands for itself, a short escape, or one code point. */
  function Lex(hex: Reader, t: Bytes): (piece: Option<Piece>)
    ensures piece.Some? ==> 0 < piece.value.len <= |t|
  {
    if t == [] || t[0] == QUOTE then None
    else if t[0] != BACKSLASH then Some(Piece(1, [t[0]]))
    else if |t| >= 6 && t[1] == LETTER_U then LexUnicode(hex, t[..6])
    else if |t| >= 2 && t[1] != LETTER_U && t[1] < 128 then Some(Piece(2, [Unescape(t[1])]))
    else None
  }

  function LexUnicode(hex: Reader, e: Bytes): (piece: Option<Piece>)
    requires |e| == 6
    ensures piece.Some? ==> piece.value.len == 6
  {
    match hex(e[2..])
    case None => None
    case Some(v) => if Ascii(e) && !IsHigh(v) && Unichar(v).Some? then Some(Piece(6, Unichar(v).value)) else None
  }

  /** The bytes a whole text stands for. */
  function Meaning(hex: Reader, t: Bytes): Option<Bytes>
    decreases |t|
  {
    if t == [] then Some([])
    else
      match Lex(hex, t)
      case None => None
      case Some(piece) =>
        var rest := Meaning(hex, t[piece.len..]);
        if rest.Some? then Some(piece.bytes + rest.value) else None
  }

  /** t stands in s at p. */
  predicate StandsAt(s: Bytes, p: nat, t: Bytes) {
    p + |t| <= |s| && forall i :: 0 <= i < |t| ==> s[p + i] == t[i]
  }

  lemma StandsSplit(s: Bytes, p: nat, t: Bytes, n: nat)
    requires StandsAt(s, p, t) && n <= |t|
    ensures StandsAt(s, p, t[..n]) && StandsAt(s, p + n, t[n..])
  {
  }

  /** scanstring takes a text piece by piece. */
  lemma TakesPiece(hex: Reader, s: Bytes, p: nat, t: Bytes)
    requires StandsAt(s, p, t) && Lex(hex, t).Some?
    ensures s[p] != QUOTE && Take(hex, s, p) == (Lex(hex, t).value.bytes, p + Lex(hex, t).value.len)
  {
    assert s[p] == t[0];
    if t[0] == BACKSLASH {
      assert s[p + 1] == t[1];
      assert Sub(s, p + 1, p + 2) == [t[1]];
      if t[1] == LETTER_U { assert Sub(s, p + 2, p + 6) == t[..6][2..]; }
    }
  }

  lemma ScanStep(hex: Reader, s: Bytes, p: nat, bytes: Bytes, q: nat, rest: Bytes, end: nat)
    requires p < |s| && s[p] != QUOTE && Take(hex, s, p) == (bytes, q) && Scan(hex, s, q) == Some((rest, end))
    ensures Scan(hex, s, p) == Some((bytes + rest, end))
  {
  }

  /** One piece, and then what the rest is known to give. */
  lemma ScanPiece(hex: Reader, s: Bytes, p: nat, t: Bytes, piece: Piece, rest: Bytes, end: nat)
    requires StandsAt(s, p, t) && Lex(hex, t) == Some(piece)
    requires Scan(hex, s, p + piece.len) == Some((rest, end))
    ensures Scan(hex, s, p) == Some((piece.bytes + rest, end))
  {
    TakesPiece(hex, s, p, t);
    ScanStep(hex, s, p, piece.bytes, p + piece.len, rest, end);
  }

  lemma FirstPiece(hex: Reader, t: Bytes, b: Bytes) returns (piece: Piece, rest: Bytes)
    requires Meaning(hex, t) == Some(b) && t != []
    ensures Lex(hex, t) == Some(piece) && 0 < piece.len <= |t|
    ensures Meaning(hex, t[piece.len..]) == Some(rest) && b == piece.bytes + rest
  {
    piece := Lex(hex, t).value;
    rest := Meaning(hex, t[piece.len..]).value;
  }

  /** t stands before a quote at end. */
  predicate QuotedAt(s: Bytes, p: nat, t: Bytes, end: nat) {
    StandsAt(s, p, t) && end == p + |t| < |s| && s[end] == QUOTE
  }

  lemma QuotedSplit(s: Bytes, p: nat, t: Bytes, end: nat, n: nat)
    requires QuotedAt(s, p, t, end) && n <= |t|
    ensures QuotedAt(s, p + n, t[n..], end)
  {
    StandsSplit(s, p, t, n);
  }

  lemma ScanEnd(hex: Reader, s: Bytes, p: nat)
    requires p < |s| && s[p] == QUOTE
    ensures Scan(hex, s, p) == Some(([], p + 1))
  {
  }

  /** scanstring reads a text up to the quote behind it as the bytes it stands for. */
  lemma {:induction false} ScanMeaning(hex: Reader, s: Bytes, p: nat, t: Bytes, b: Bytes, end: nat)
    requires Meaning(hex, t) == Some(b) && QuotedAt(s, p, t, end)
    ensures Scan(hex, s, p) == Some((b, end + 1))
    decreases |t|
  {
    if t == [] {
      ScanEnd(hex, s, p);
    } else {
      var piece, rest := FirstPiece(hex, t, b);
      QuotedSplit(s, p, t, end, piece.len);
      ScanMeaning(hex, s, p + piece.len, t[piece.len..], rest, end);
      ScanPiece(hex, s, p, t, piece, rest, end + 1);
    }
  }

  // ----- gsub -----

  /** A fixed-length pattern: the bytes allowed at each place. */
  type Pattern = seq<set<Byte>>

  predicate MatchesAt(p: Pattern, t: Bytes) {
    p != [] && |p| <= |t| && forall i :: 0 <= i < |p| ==> t[i] in p[i]
  }

  /** gsub(t, p, escapeutf8) */
  function Gsub(p: Pattern, t: Bytes): Bytes
    decreases |t|
  {
    if t == [] then []
    else if MatchesAt(p, t) then EscapeUtf8(t[..|p|]) + Gsub(p, t[|p|..])
    else [t[0]] + Gsub(p, t[1..])
  }

  /** The piece that a pass writes for what stands first, and how much it covers. */
  function Rewrite(p: Pattern, t: Bytes): (r: (Bytes, nat))
    requires t != []
    ensures 0 < r.1 <= |t|
  {
    if MatchesAt(p, t) then (EscapeUtf8(t[..|p|]), |p|) else ([t[0]], 1)
  }

  lemma GsubStep(p: Pattern, t: Bytes, r: Bytes)
    requires t != []
    ensures r + Gsub(p, t) == (r + Rewrite(p, t).0) + Gsub(p, t[Rewrite(p, t).1..])
  {
    var x, y := Rewrite(p, t).0, Gsub(p, t[Rewrite(p, t).1..]);
    assert Gsub(p, t) == x + y;
    assert r + (x + y) == (r + x) + y;
  }

  method Fsub(p: Pattern, t: Bytes) returns (r: Bytes)
    ensures r == Gsub(p, t)
  {
    r := [];
    var rest := t;
    assert [] + Gsub(p, t) == Gsub(p, t);
    while rest != []
      invariant r + Gsub(p, rest) == Gsub(p, t)
      decreases |rest|
    {
      var piece := Rewrite(p, rest);
      GsubStep(p, rest, r);
      r := r + piece.0;
      rest := rest[piece.1..];
    }
    assert r + [] == r;
  }

  /** The bytes escaped one by one: controls, the quote, the backslash and DEL. */
  const CONTROLS: Pattern := [set b: Byte | IsControl(b)]

  predicate IsControl(b: Byte) {
    b < 32 || b == QUOTE || b == BACKSLASH || b == 127
  }

  /** A pattern for characters that are escaped as the one code point they encode. */
  ghost predicate EscapesWell(p: Pattern) {
    && (forall i, b :: 0 <= i < |p| && b in p[i] ==> b >= 128)
    && (forall u: Bytes :: |u| == |p| && MatchesAt(p, u) ==> EncodesOne(u))
  }

  predicate EncodesOne(u: Bytes) {
    && |u| > 1 && CodePoint(u).Some?
    && var v := CodePoint(u).value; 0 <= v <= 0xffff && !IsHigh(v) && Unichar(v) == Some(u)
  }

  lemma Escape4Means(hex: Reader, v: int, t: Bytes)
    requires ReadsHex(hex) && 0 <= v <= 0xffff && !IsHigh(v)
    ensures Lex(hex, Escape4(v) + t) == Some(Piece(6, Unichar(v).value))
  {
    var e := Escape4(v);
    assert (e + t)[..6] == e && e[2..] == Hex4(v);
    assert forall i :: 2 <= i < 6 ==> e[i] == Hex4(v)[i - 2];
    HexRoundTrip(v);
  }

  /** One piece in front of a text. */
  lemma MeaningCons(hex: Reader, e: Bytes, t: Bytes, bytes: Bytes)
    requires Lex(hex, e + t) == Some(Piece(|e|, bytes)) && Meaning(hex, t).Some?
    ensures Meaning(hex, e + t) == Some(bytes + Meaning(hex, t).value)
  {
    assert (e + t)[|e|..] == t;
  }

  lemma ControlMeans(hex: Reader, b: Byte, t: Bytes)
    requires ReadsHex(hex) && IsControl(b)
    ensures Lex(hex, EscapeUtf8([b]) + t) == Some(Piece(|EscapeUtf8([b])|, [b]))
  {
    if EscapeCode(b).None? { Escape4Means(hex, b, t); }
  }

  /** The first pass: what it writes stands for what it was given. */
  lemma {:induction false} FirstPass(hex: Reader, b: Bytes)
    requires ReadsHex(hex)
    ensures Meaning(hex, Gsub(CONTROLS, b)) == Some(b)
    decreases |b|
  {
    if b != [] {
      FirstPass(hex, b[1..]);
      var rest := Gsub(CONTROLS, b[1..]);
      assert [b[0]] + b[1..] == b;
      if MatchesAt(CONTROLS, b) {
        assert b[..1] == [b[0]];
        ControlMeans(hex, b[0], rest);
        MeaningCons(hex, EscapeUtf8(b[..1]), rest, [b[0]]);
      } else {
        MeaningCons(hex, [b[0]], rest, [b[0]]);
      }
    }
  }

  /** A pass leaves ASCII alone. */
  lemma {:induction false} GsubSkips(p: Pattern, e: Bytes, t: Bytes)
    requires EscapesWell(p) && Ascii(e)
    ensures Gsub(p, e + t) == e + Gsub(p, t)
    decreases |e|
  {
    if e == [] {
      assert e + t == t;
    } else {
      GsubSkips(p, e[1..], t);
      assert (e + t)[0] == e[0];
      assert (e + t)[1..] == e[1..] + t;
      assert [e[0]] + (e[1..] + Gsub(p, t)) == e + Gsub(p, t);
    }
  }

  /** The first piece depends on its own text alone. */
  lemma LexLocal(hex: Reader, e: Bytes, t: Bytes, t': Bytes)
    requires Lex(hex, e + t).Some? && Lex(hex, e + t).value.len == |e|
    ensures Lex(hex, e + t') == Lex(hex, e + t)
  {
    if e[0] == BACKSLASH && |e| == 6 { assert (e + t)[..6] == e == (e + t')[..6]; }
  }

  lemma EscapesAreAscii(hex: Reader, t: Bytes)
    requires Lex(hex, t).Some? && t[0] == BACKSLASH
    ensures Ascii(t[..Lex(hex, t).value.len])
  {
  }

  lemma SplitFirst(t: Bytes, n: nat, m: Bytes)
    requires 0 < n <= |t|
    ensures t[1..][n - 1..] == t[n..] && [t[0]] + (t[1..][..n - 1] + m) == t[..n] + m
  {
  }

  /** Bytes that stand for themselves. */
  lemma {:induction false} RawPrefix(hex: Reader, t: Bytes, n: nat)
    requires n <= |t| && Meaning(hex, t).Some? && forall i :: 0 <= i < n ==> Plain(t[i])
    ensures Meaning(hex, t[n..]).Some? && Meaning(hex, t) == Some(t[..n] + Meaning(hex, t[n..]).value)
    decreases n
  {
    if n == 0 {
      assert t[0..] == t && t[..0] + Meaning(hex, t).value == Meaning(hex, t).value;
    } else {
      assert Plain(t[0]);
      RawPrefix(hex, t[1..], n - 1);
      SplitFirst(t, n, Meaning(hex, t[1..][n - 1..]).value);
    }
  }

  lemma PassAtMatch(hex: Reader, p: Pattern, t: Bytes)
    requires ReadsHex(hex) && EscapesWell(p) && Meaning(hex, t).Some? && MatchesAt(p, t)
    requires Meaning(hex, Gsub(p, t[|p|..])) == Meaning(hex, t[|p|..])
    ensures Meaning(hex, Gsub(p, t)) == Meaning(hex, t)
  {
    var u := t[..|p|];
    assert MatchesAt(p, u) && EncodesOne(u);
    RawPrefix(hex, t, |p|);
    var v := CodePoint(u).value;
    Escape4Means(hex, v, Gsub(p, t[|p|..]));
    MeaningCons(hex, Escape4(v), Gsub(p, t[|p|..]), u);
  }

  /** Main step: every later pass keeps what the text stands for. */
  lemma {:induction false} PassKeeps(hex: Reader, p: Pattern, t: Bytes)
    requires ReadsHex(hex) && EscapesWell(p) && Meaning(hex, t).Some?
    ensures Meaning(hex, Gsub(p, t)) == Meaning(hex, t)
    decreases |t|
  {
    if t != [] {
      var piece := Lex(hex, t).value;
      if MatchesAt(p, t) {
        RawPrefix(hex, t, |p|);
        PassKeeps(hex, p, t[|p|..]);
        PassAtMatch(hex, p, t);
      } else {
        var e, rest := t[..piece.len], t[piece.len..];
        assert t == e + rest;
        PassKeeps(hex, p, rest);
        if t[0] == BACKSLASH {
          EscapesAreAscii(hex, t);
          GsubSkips(p, e, rest);
        } else {
          assert e == [t[0]];
        }
        LexLocal(hex, e, rest, Gsub(p, rest));
        MeaningCons(hex, e, Gsub(p, rest), piece.bytes);
      }
    }
  }

  // ----- what is never in a quoted text -----

  predicate Printable(b: Byte) { b >= 32 && b != 127 }

  predicate AllPrintable(t: Bytes) {
    forall i :: 0 <= i < |t| ==> Printable(t[i])
  }

  lemma EscapePrintable(u: Bytes)
    ensures AllPrintable(EscapeUtf8(u))
  {
    match CodePoint(u)
    case None =>
    case Some(v) => if v <= 0xffff { HexPrintable(v); } else if v <= 0x10ffff { PairPrintable(v); }
  }

  lemma PairPrintable(v: int)
    requires 0x10000 <= v <= 0x10ffff
    ensures AllPrintable(Escape4(0xD800 + (v - 0x10000) / 0x400) + Escape4(0xDC00 + (v - 0x10000) % 0x400))
  {
    HexPrintable(0xD800 + (v - 0x10000) / 0x400);
    HexPrintable(0xDC00 + (v - 0x10000) % 0x400);
  }

  lemma HexPrintable(v: int)
    requires 0 <= v <= 0xffff
    ensures AllPrintable(Escape4(v))
  {
    var e := Escape4(v);
    forall i | 0 <= i < |e| ensures Printable(e[i]) {
      if i >= 2 { assert e[i] == e[2..][i - 2]; }
    }
  }

  /** A pass leaves no control byte, if it escapes them or there is none. */
  lemma {:induction false} GsubPrintable(p: Pattern, t: Bytes)
    requires p == CONTROLS || AllPrintable(t)
    ensures AllPrintable(Gsub(p, t))
    decreases |t|
  {
    if t != [] {
      if MatchesAt(p, t) {
        EscapePrintable(t[..|p|]);
        GsubPrintable(p, t[|p|..]);
      } else {
        GsubPrintable(p, t[1..]);
        assert p == CONTROLS ==> t[0] !in p[0];
      }
    }
  }

  lemma {:induction false} PassesPrintable(k: nat, t: Bytes)
    requires k <= |PASSES| && AllPrintable(t)
    ensures AllPrintable(LaterPasses(k, t))
    decreases |PASSES| - k
  {
    if k < |PASSES| {
      GsubPrintable(PASSES[k], t);
      PassesPrintable(k + 1, Gsub(PASSES[k], t));
    }
  }

  /** What quotestring writes has no control byte, whatever it is given. */
  lemma QuotedIsPrintable(b: Bytes)
    ensures AllPrintable(Quoted(b))
  {
    GsubPrintable(CONTROLS, b);
    PassesPrintable(0, Gsub(CONTROLS, b));
  }

  /** The code points beyond ASCII that a JavaScript reader may trip over. */
  predicate MustEscape(v: int) {
    || 0x80 <= v <= 0x9f || v == 0xad || 0x600 <= v <= 0x604 || v == 0x70f || v == 0x17b4 || v == 0x17b5 || 0x200c <= v <= 0x200f
    || 0x2028 <= v <= 0x202f || 0x2060 <= v <= 0x206f || v == 0xfeff || 0xfff0 <= v <= 0xffff
  }

  predicate PassEscapes(k: nat, u: Bytes)
    requires k < |PASSES|
  {
    |u| == |PASSES[k]| && MatchesAt(PASSES[k], u)
  }

  /** The later passes escape exactly those. */
  lemma PassesAreExact(v: int)
    requires 0x80 <= v <= 0xffff
    ensures (exists k :: 0 <= k < |PASSES| && PassEscapes(k, Unichar(v).value)) <==> MustEscape(v)
  {
    var u := Unichar(v).value;
    if v < 0x800 { TwoByteMatches(v); } else { ThreeByteMatches(v); }
    if MustEscape(v) {
      var k := if v < 0xae then 0 else if v < 0x605 then 1 else if v < 0x710 then 2 else if v < 0x17b6 then 3
               else if v < 0x2030 then 4 else if v < 0x2070 then 5 else if v == 0xfeff then 6 else 7;
      assert PassEscapes(k, u);
    }
  }

  lemma TwoByteMatches(v: int)
    requires 0x80 <= v < 0x800
    ensures var u := Unichar(v).value;
            && (PassEscapes(0, u) <==> 0x80 <= v <= 0x9f || v == 0xad) && (PassEscapes(1, u) <==> 0x600 <= v <= 0x604)
            && (PassEscapes(2, u) <==> v == 0x70f) && forall k :: 3 <= k < 8 ==> !PassEscapes(k, u)
  {
    var u := Unichar(v).value;
    assert v == v / 0x40 * 0x40 + v % 0x40;
    Matches2(SOFT_HYPHEN, u);
    Matches2(ARABIC, u);
    Matches2(SYRIAC, u);
  }

  lemma Matches2(p: Pattern, u: Bytes)
    requires |p| == 2 == |u|
    ensures MatchesAt(p, u) <==> u[0] in p[0] && u[1] in p[1]
  {
    if MatchesAt(p, u) { assert u[0] in p[0] && u[1] in p[1]; }
  }

  lemma Matches3(p: Pattern, u: Bytes)
    requires |p| == 3 == |u|
    ensures MatchesAt(p, u) <==> u[0] in p[0] && u[1] in p[1] && u[2] in p[2]
  {
    if MatchesAt(p, u) { assert u[0] in p[0] && u[1] in p[1] && u[2] in p[2]; }
  }

  lemma ThreeByteMatches(v: int)
    requires 0x800 <= v <= 0xffff
    ensures var u := Unichar(v).value;
            && (PassEscapes(3, u) <==> v == 0x17b4 || v == 0x17b5)
            && (PassEscapes(4, u) <==> 0x200c <= v <= 0x200f || 0x2028 <= v <= 0x202f) && (PassEscapes(5, u) <==> 0x2060 <= v <= 0x206f)
            && (PassEscapes(6, u) <==> v == 0xfeff) && (PassEscapes(7, u) <==> 0xfff0 <= v <= 0xffff)
            && forall k :: 0 <= k < 3 ==> !PassEscapes(k, u)
  {
    var u := Unichar(v).value;
    assert v == v / 0x40 * 0x40 + v % 0x40 && v / 0x40 == v / 0x1000 * 0x40 + v / 0x40 % 0x40;
    Matches3(KHMER, u);
    Matches3(JOINERS, u);
    Matches3(INVISIBLE, u);
    Matches3(BYTE_ORDER_MARK, u);
    Matches3(SPECIALS, u);
  }

  // ----- quotestring -----

  predicate Between(lo: Byte, b: Byte, hi: Byte) {
    lo <= b <= hi
  }

  function Range(lo: Byte, hi: Byte): set<Byte> {
    set b: Byte | Between(lo, b, hi)
  }

  const SOFT_HYPHEN: Pattern := [{194}, Range(128, 159) + {173}]
  const ARABIC: Pattern := [{216}, Range(128, 132)]
  const SYRIAC: Pattern := [{220}, {143}]
  const KHMER: Pattern := [{225}, {158}, {180, 181}]
  const JOINERS: Pattern := [{226}, {128}, Range(140, 143) + Range(168, 175)]
  const INVISIBLE: Pattern := [{226}, {129}, Range(160, 175)]
  const BYTE_ORDER_MARK: Pattern := [{239}, {187}, {191}]
  const SPECIALS: Pattern := [{239}, {191}, Range(176, 191)]

  /** The lead bytes of those patterns. */
  const LEADS: set<Byte> := {194, 216, 220, 225, 226, 239}

  /** The passes after the first, in order. */
  const PASSES: seq<Pattern> := [SOFT_HYPHEN, ARABIC, SYRIAC, KHMER, JOINERS, INVISIBLE, BYTE_ORDER_MARK, SPECIALS]

  /** The text after the passes from the k-th on. */
  function LaterPasses(k: nat, t: Bytes): Bytes
    requires k <= |PASSES|
    decreases |PASSES| - k
  {
    if k == |PASSES| then t else LaterPasses(k + 1, Gsub(PASSES[k], t))
  }

  function Escaped(b: Bytes): Bytes {
    var t := Gsub(CONTROLS, b);
    if exists i :: 0 <= i < |t| && t[i] in LEADS then LaterPasses(0, t) else t
  }

  function Quoted(b: Bytes): Bytes {
    [QUOTE] + Escaped(b) + [QUOTE]
  }

  method QuoteString(b: Bytes) returns (r: Bytes)
    ensures r == Quoted(b)
  {
    var value := Fsub(CONTROLS, b);
    if exists i :: 0 <= i < |value| && value[i] in LEADS {
      for k := 0 to |PASSES|
        invariant LaterPasses(k, value) == LaterPasses(0, Gsub(CONTROLS, b))
      {
        value := Fsub(PASSES[k], value);
      }
    }
    r := [QUOTE] + value + [QUOTE];
  }

  lemma TwoByteEncodes(u: Bytes)
    requires |u| == 2 && 0xc2 <= u[0] <= 0xdf && 0x80 <= u[1] < 0xc0
    ensures EncodesOne(u)
  {
    assert Unichar(CodePoint(u).value).value == u;
  }

  lemma ThreeByteEncodes(u: Bytes)
    requires |u| == 3 && 0xe1 <= u[0] <= 0xef && u[0] != 0xed && 0x80 <= u[1] < 0xc0 && 0x80 <= u[2] < 0xc0
    ensures EncodesOne(u)
  {
    var high := (u[0] as int - 0xe0) * 0x40 + (u[1] as int - 0x80);
    assert CodePoint(u).value == high * 0x40 + (u[2] as int - 0x80);
    assert Unichar(CodePoint(u).value).value == u;
  }

  lemma TwoBytePattern(p: Pattern)
    requires |p| == 2 && (forall b :: b in p[0] ==> 0xc2 <= b <= 0xdf) && (forall b :: b in p[1] ==> 0x80 <= b < 0xc0)
    ensures EscapesWell(p)
  {
    forall u: Bytes | |u| == |p| && MatchesAt(p, u) ensures EncodesOne(u) { TwoByteEncodes(u); }
  }

  lemma ThreeBytePattern(p: Pattern)
    requires |p| == 3 && (forall b :: b in p[0] ==> 0xe1 <= b <= 0xef && b != 0xed)
    requires (forall b :: b in p[1] ==> 0x80 <= b < 0xc0) && (forall b :: b in p[2] ==> 0x80 <= b < 0xc0)
    ensures EscapesWell(p)
  {
    forall u: Bytes | |u| == |p| && MatchesAt(p, u) ensures EncodesOne(u) { ThreeByteEncodes(u); }
  }

  lemma TwoBytePatterns()
    ensures EscapesWell(SOFT_HYPHEN) && EscapesWell(ARABIC) && EscapesWell(SYRIAC)
  {
    TwoBytePattern(SOFT_HYPHEN);
    TwoBytePattern(ARABIC);
    TwoBytePattern(SYRIAC);
  }

  lemma ThreeBytePatterns()
    ensures EscapesWell(KHMER) && EscapesWell(JOINERS) && EscapesWell(INVISIBLE)
    ensures EscapesWell(BYTE_ORDER_MARK) && EscapesWell(SPECIALS)
  {
    ThreeBytePattern(KHMER);
    ThreeBytePattern(JOINERS);
    ThreeBytePattern(INVISIBLE);
    ThreeBytePattern(BYTE_ORDER_MARK);
    ThreeBytePattern(SPECIALS);
  }

  lemma PassEscapesWell(k: nat)
    requires k < |PASSES|
    ensures EscapesWell(PASSES[k])
  {
    if k < 3 { TwoBytePatterns(); } else { ThreeBytePatterns(); }
  }

  lemma {:induction false} LaterPassesKeep(hex: Reader, k: nat, t: Bytes)
    requires ReadsHex(hex) && Meaning(hex, t).Some? && k <= |PASSES|
    ensures Meaning(hex, LaterPasses(k, t)) == Meaning(hex, t)
    decreases |PASSES| - k
  {
    if k < |PASSES| {
      PassEscapesWell(k);
      PassKeeps(hex, PASSES[k], t);
      LaterPassesKeep(hex, k + 1, Gsub(PASSES[k], t));
    }
  }

  lemma EscapedMeans(hex: Reader, b: Bytes)
    requires ReadsHex(hex)
    ensures Meaning(hex, Escaped(b)) == Some(b)
  {
    FirstPass(hex, b);
    LaterPassesKeep(hex, 0, Gsub(CONTROLS, b));
  }

  lemma BetweenQuotes(s: Bytes, p: nat, t: Bytes)
    requires StandsAt(s, p, [QUOTE] + t + [QUOTE])
    ensures StandsAt(s, p + 1, t) && p + |t| + 2 <= |s| && s[p] == QUOTE && s[p + 1 + |t|] == QUOTE
  {
    var q := [QUOTE] + t + [QUOTE];
    assert q[0] == QUOTE && q[|t| + 1] == QUOTE && forall i :: 0 <= i < |t| ==> q[i + 1] == t[i];
  }

  lemma ScanQuoted(hex: Reader, s: Bytes, p: nat, t: Bytes, b: Bytes)
    requires Meaning(hex, t) == Some(b) && StandsAt(s, p, [QUOTE] + t + [QUOTE])
    ensures Scan(hex, s, p + 1) == Some((b, p + |t| + 2))
  {
    BetweenQuotes(s, p, t);
    ScanMeaning(hex, s, p + 1, t, b, p + 1 + |t|);
  }

  /**
   Main theorem on strings: whatever the bytes, scanstring gives back what was
   quoted, and ends right behind the closing quote.
   */
  lemma QuoteRoundTrip(hex: Reader, b: Bytes, s: Bytes, p: nat)
    requires ReadsHex(hex) && StandsAt(s, p, Quoted(b))
    ensures Scan(hex, s, p + 1) == Some((b, p + |Quoted(b)|))
  {
    var t := Escaped(b);
    assert Meaning(hex, t) == Some(b) by { EscapedMeans(hex, b); }
    ScanQuoted(hex, s, p, t, b);
  }

  // ----- scanstring, as the code has it -----

  function Prepend(b: Bytes, r: Option<(Bytes, nat)>): Option<(Bytes, nat)> {
    if r.Some? then Some((b + r.value.0, r.value.1)) else None
  }

  /** strfind(s, "[\"\\\\]", start) */
  method FindSpecial(s: Bytes, start: nat) returns (next: Option<nat>)
    ensures next.Some? ==> start <= next.value < |s| && !Plain(s[next.value]) && forall i :: start <= i < next.value ==> Plain(s[i])
    ensures next.None? ==> forall i :: start <= i < |s| ==> Plain(s[i])
  {
    var i := start;
    while i < |s|
      invariant start <= i && forall k :: start <= k < i && k < |s| ==> Plain(s[k])
    {
      if !Plain(s[i]) { return Some(i); }
      i := i + 1;
    }
    return None;
  }

  lemma PrependTwice(a: Bytes, b: Bytes, r: Option<(Bytes, nat)>)
    ensures Prepend(a, Prepend(b, r)) == Prepend(a + b, r)
  {
    if r.Some? { assert a + (b + r.value.0) == (a + b) + r.value.0; }
  }

  /** A stretch without quotes and backslashes is taken as it is. */
  lemma {:induction false} ScanChunk(hex: Reader, s: Bytes, p: nat, n: nat, r: Option<(Bytes, nat)>)
    requires p <= n <= |s| && (forall i :: p <= i < n ==> Plain(s[i])) && r == Scan(hex, s, n)
    ensures Scan(hex, s, p) == Prepend(s[p..n], r)
    decreases n - p
  {
    if p == n {
      assert s[p..n] == [] && (r.Some? ==> [] + r.value.0 == r.value.0);
    } else {
      ScanChunk(hex, s, p + 1, n, r);
      PrependTwice([s[p]], s[p + 1..n], r);
      assert s[p..n] == [s[p]] + s[p + 1..n];
    }
  }

  /** scanstring: chunks up to a quote or backslash, each followed by what the backslash stands for. */
  method ScanString(hex: Reader, s: Bytes, pos: nat) returns (r: Option<(Bytes, nat)>)
    ensures r == Scan(hex, s, pos + 1)
  {
    var lastpos := pos + 1;
    var buffer: Bytes := [];
    ghost var whole := Scan(hex, s, pos + 1);
    assert whole.Some? ==> [] + whole.value.0 == whole.value.0;
    while true
      invariant Prepend(buffer, Scan(hex, s, lastpos)) == whole
      decreases |s| - lastpos
    {
      var next := FindSpecial(s, lastpos);
      if next.None? {
        if lastpos <= |s| { ScanChunk(hex, s, lastpos, |s|, None); }
        return None;
      }
      var n := next.value;
      ScanChunk(hex, s, lastpos, n, Scan(hex, s, n));
      PrependTwice(buffer, s[lastpos..n], Scan(hex, s, n));
      buffer := buffer + s[lastpos..n];
      if s[n] == QUOTE {
        assert buffer + [] == buffer;
        return Some((buffer, n + 1));
      }
      var piece := ReadEscape(hex, s, n);
      PrependTwice(buffer, piece.0, Scan(hex, s, piece.1));
      buffer := buffer + piece.0;
      lastpos := piece.1;
    }
  }
}
