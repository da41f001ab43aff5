/**
 Values in the plugin's JSON library: encode2 writes strings, booleans, arrays and
 objects without white space, and scanvalue reads them back.
 */
module JsonValues {
  import opened Base
  import opened JsonStrings

  /** An object's fields are in the order pairs gives them; a Nil among the items of an array is a hole of the table. */
  datatype Value = Nil | Bool(b: bool) | Str(s: Bytes) | Arr(items: seq<Value>) | Obj(fields: seq<(Bytes, Value)>)

  const COMMA: Byte := 44
  const COLON: Byte := 58
  const SLASH: Byte := 47
  const STAR: Byte := 42
  const OPEN_ARRAY: Byte := 91
  const CLOSE_ARRAY: Byte := 93
  const OPEN_OBJECT: Byte := 123
  const CLOSE_OBJECT: Byte := 125

  const TRUE: Bytes := [116, 114, 117, 101]
  const FALSE: Bytes := [102, 97, 108, 115, 101]
  const NULL: Bytes := [110, 117, 108, 108]

  // ----- encode2 -----

  /** Texts with commas between them. */
  function Joined(texts: seq<Bytes>): Bytes {
    if texts == [] then []
    else if |texts| == 1 then texts[0]
    else texts[0] + [COMMA] + Joined(texts[1..])
  }

  function Encoded(v: Value): Bytes
    decreases v
  {
    match v
    case Nil => NULL
    case Bool(b) => if b then TRUE else FALSE
    case Str(s) => Quoted(s)
    case Arr(items) => [OPEN_ARRAY] + Joined(ItemTexts(items)) + [CLOSE_ARRAY]
    case Obj(fields) => [OPEN_OBJECT] + Joined(FieldTexts(fields)) + [CLOSE_OBJECT]
  }

  function ItemTexts(items: seq<Value>): (texts: seq<Bytes>)
    ensures |texts| == |items| && forall i :: 0 <= i < |items| ==> texts[i] == Encoded(items[i])
    decreases items
  {
    seq(|items|, i requires 0 <= i < |items| => Encoded(items[i]))
  }

  function FieldTexts(fields: seq<(Bytes, Value)>): (texts: seq<Bytes>)
    ensures |texts| == |fields| && forall i :: 0 <= i < |fields| ==> texts[i] == EncodedField(fields[i])
    decreases fields
  {
    seq(|fields|, i requires 0 <= i < |fields| => EncodedField(fields[i]))
  }

  function EncodedField(f: (Bytes, Value)): Bytes
    decreases f
  {
    FieldText(f.0, Encoded(f.1))
  }

  function FieldText(key: Bytes, value: Bytes): Bytes {
    Quoted(key) + [COLON] + value
  }

  // ----- scanwhite -----

  const LINE_FEED: Byte := 10
  const RETURN: Byte := 13

  /** A blank, or a tab, line feed, vertical tab, form feed or carriage return. */
  predicate IsSpace(c: Byte) { c == 32 || 9 <= c <= 13 }

  predicate IsAlpha(c: Byte) { 65 <= c <= 90 || 97 <= c <= 122 }

  predicate IsDigit(c: Byte) { 48 <= c <= 57 }

  lemma TheClasses(c: Byte)
    ensures IsSpace(c) <==> c as char in {' ', '\t', '\n', '\r'} || c in {0x0b, 0x0c}
    ensures IsAlpha(c) <==> 'A' <= c as char <= 'Z' || 'a' <= c as char <= 'z'
    ensures IsDigit(c) <==> '0' <= c as char <= '9'
    ensures IsNumeric(c) <==> IsDigit(c) || c as char == '.'
    ensures LINE_FEED == '\n' as int && RETURN == '\r' as int
  {
  }

  predicate IsAlnum(c: Byte) { IsAlpha(c) || IsDigit(c) }

  predicate IsPair(s: Bytes, p: nat, a: Byte, b: Byte) {
    At(s, p) == a && At(s, p + 1) == b
  }

  /** U+FEFF in UTF-8. */
  const MARK: Bytes := Unichar(0xfeff).value

  predicate IsByteOrderMark(s: Bytes, p: nat) {
    IsPair(s, p, 239, 187) && At(s, p + 2) == 191
  }

  /** The first line end from p on. */
  function LineEnd(s: Bytes, p: nat): (r: Option<nat>)
    ensures match r
            case None => forall i :: p <= i < |s| ==> s[i] !in {LINE_FEED, RETURN}
            case Some(q) => p <= q < |s| && s[q] in {LINE_FEED, RETURN} && forall i :: p <= i < q ==> s[i] !in {LINE_FEED, RETURN}
    decreases |s| - p
  {
    if p >= |s| then None else if s[p] == LINE_FEED || s[p] == RETURN then Some(p) else LineEnd(s, p + 1)
  }

  /** The first end of a comment from p on. */
  function CommentEnd(s: Bytes, p: nat): (r: Option<nat>)
    ensures match r
            case None => forall i :: p <= i < |s| - 1 ==> !(s[i] == STAR && s[i + 1] == SLASH)
            case Some(q) =>
              && p <= q && q + 2 <= |s| && s[q] == STAR && s[q + 1] == SLASH
              && forall i :: p <= i < q ==> !(s[i] == STAR && s[i + 1] == SLASH)
    decreases |s| - p
  {
    if p + 2 > |s| then None else if s[p] == STAR && s[p + 1] == SLASH then Some(p) else CommentEnd(s, p + 1)
  }

  /** Past white space, byte order marks and comments, or none at the end of the text. */
  function White(s: Bytes, p: nat): (r: Option<nat>)
    ensures r.Some? ==> p <= r.value < |s|
    decreases |s| - p
  {
    if p >= |s| then None
    else if IsSpace(s[p]) then White(s, p + 1)
    else if IsByteOrderMark(s, p) then White(s, p + 3)
    else if IsPair(s, p, SLASH, SLASH) then
      var q := LineEnd(s, p + 2);
      if q.None? then None else White(s, q.value)
    else if IsPair(s, p, SLASH, STAR) then
      var q := CommentEnd(s, p + 2);
      if q.None? then None else White(s, q.value + 2)
    else Some(p)
  }

  /** One thing that scanwhite skips. */
  datatype Blank = Space | Mark | LineComment(len: nat) | BlockComment(len: nat)

  function Length(b: Blank): nat {
    match b
    case Space => 1
    case Mark => 3
    case LineComment(len) => 2 + len
    case BlockComment(len) => 2 + len + 2
  }

  /** It stands in s at p: a comment ends at its first end. */
  predicate Stands(b: Blank, s: Bytes, p: nat) {
    match b
    case Space => p < |s| && IsSpace(s[p])
    case Mark => StandsAt(s, p, MARK)
    case LineComment(len) =>
      && StandsAt(s, p, [SLASH, SLASH]) && p + 2 + len < |s| && s[p + 2 + len] in {LINE_FEED, RETURN}
      && forall i :: p + 2 <= i < p + 2 + len ==> s[i] !in {LINE_FEED, RETURN}
    case BlockComment(len) =>
      && StandsAt(s, p, [SLASH, STAR]) && StandsAt(s, p + 2 + len, [STAR, SLASH])
      && forall i :: p + 2 <= i < p + 2 + len ==> !(s[i] == STAR && s[i + 1] == SLASH)
  }

  /** Each of them is skipped. */
  lemma BlankSkipped(b: Blank, s: Bytes, p: nat)
    requires Stands(b, s, p)
    ensures White(s, p) == White(s, p + Length(b))
  {
    match b
    case Space =>
    case Mark => assert s[p + 0] == MARK[0] && s[p + 1] == MARK[1] && s[p + 2] == MARK[2];
    case LineComment(len) =>
      assert s[p + 0] == [SLASH, SLASH][0] && s[p + 1] == [SLASH, SLASH][1];
    case BlockComment(len) =>
      assert s[p + 0] == [SLASH, STAR][0] && s[p + 1] == [SLASH, STAR][1];
      assert s[p + 2 + len + 0] == [STAR, SLASH][0] && s[p + 2 + len + 1] == [STAR, SLASH][1];
  }

  /** And nothing else: where scanwhite stops, none of them stands. */
  lemma StopsAtNoBlank(s: Bytes, p: nat, q: nat, b: Blank)
    requires White(s, p) == Some(q)
    ensures !Stands(b, s, q)
    decreases |s| - p
  {
    WhiteStays(s, p, q);
    if Stands(b, s, q) { BlankSkipped(b, s, q); }
  }

  lemma {:induction false} WhiteStays(s: Bytes, p: nat, q: nat)
    requires White(s, p) == Some(q)
    ensures White(s, q) == Some(q)
    decreases |s| - p
  {
    if IsSpace(s[p]) { WhiteStays(s, p + 1, q); }
    else if IsByteOrderMark(s, p) { WhiteStays(s, p + 3, q); }
    else if IsPair(s, p, SLASH, SLASH) { WhiteStays(s, LineEnd(s, p + 2).value, q); }
    else if IsPair(s, p, SLASH, STAR) { WhiteStays(s, CommentEnd(s, p + 2).value + 2, q); }
  }

  // ----- scanvalue and scantable -----

  /** Beyond: a number, or a table that is not an array or an object with string keys. */
  datatype Parsed = Parsed(v: Value, pos: nat) | Failed(at: nat) | Beyond

  /** A table being read. */
  datatype Table = Table(isObject: bool, items: seq<Value>, fields: seq<(Bytes, Value)>)

  function IndexOf(fields: seq<(Bytes, Value)>, k: Bytes): (i: nat)
    ensures i <= |fields| && (i < |fields| ==> fields[i].0 == k)
    ensures forall j :: 0 <= j < i ==> fields[j].0 != k
  {
    if fields == [] || fields[0].0 == k then 0 else 1 + IndexOf(fields[1..], k)
  }

  /** tbl[k] = v */
  function Put(fields: seq<(Bytes, Value)>, k: Bytes, v: Value): seq<(Bytes, Value)> {
    var i := IndexOf(fields, k);
    if v.Nil? then (if i < |fields| then fields[..i] + fields[i + 1..] else fields)
    else if i < |fields| then fields[i := (k, v)] else fields + [(k, v)]
  }

  /** What a table has of its positions: nothing behind the last value that is not nil. */
  function Trimmed(items: seq<Value>): (r: seq<Value>)
    ensures r <= items && (r != [] ==> !r[|r| - 1].Nil?) && forall i :: |r| <= i < |items| ==> items[i].Nil?
  {
    if items == [] || !items[|items| - 1].Nil? then items else Trimmed(items[..|items| - 1])
  }

  function Finished(t: Table, pos: nat): Parsed {
    if t.isObject && Trimmed(t.items) == [] then Parsed(Obj(t.fields), pos)
    else if !t.isObject && t.fields == [] then Parsed(Arr(Trimmed(t.items)), pos)
    else Beyond
  }

  function CloseOf(t: Table): Byte {
    if t.isObject then CLOSE_OBJECT else CLOSE_ARRAY
  }

  /** The end of the run of letters and digits from p on. */
  function NameEnd(s: Bytes, p: nat): (q: nat)
    requires p <= |s|
    ensures p <= q <= |s| && (forall i :: p <= i < q ==> IsAlnum(s[i])) && (q < |s| ==> !IsAlnum(s[q]))
    decreases |s| - p
  {
    if p < |s| && IsAlnum(s[p]) then NameEnd(s, p + 1) else p
  }

  predicate IsNumeric(c: Byte) { IsDigit(c) || c == 46 }

  predicate StartsNumber(s: Bytes, p: nat)
    requires p < |s|
  {
    IsNumeric(s[p]) || (s[p] == 45 && p + 1 < |s| && IsNumeric(s[p + 1]))
  }

  function ScanName(s: Bytes, p: nat): (r: Parsed)
    requires p < |s|
    ensures r.Parsed? ==> p < r.pos <= |s|
  {
    if !IsAlpha(s[p]) then Failed(p)
    else
      var q := NameEnd(s, p);
      var name := s[p..q];
      if name == TRUE then Parsed(Bool(true), q)
      else if name == FALSE then Parsed(Bool(false), q)
      else if name == NULL then Parsed(Nil, q)
      else Failed(p)
  }

  /** What scanvalue and scantable ask of the text: where white space ends, and the string, or name or number, at a place. */
  datatype Lexer = Lexer(s: Bytes, white: nat -> Option<nat>, str: nat -> Parsed, name: nat -> Parsed)

  function LexerFor(hex: Reader, s: Bytes): Lexer {
    Lexer(s, (p: nat) => White(s, p), (p: nat) => LexString(hex, s, p), (p: nat) => LexName(s, p))
  }

  function LexString(hex: Reader, s: Bytes, p: nat): (r: Parsed)
    ensures r.Parsed? ==> p < r.pos <= |s|
  {
    var r := Scan(hex, s, p + 1);
    if r.Some? then Parsed(Str(r.value.0), r.value.1) else Failed(|s|)
  }

  function LexName(s: Bytes, p: nat): (r: Parsed)
    ensures r.Parsed? ==> p < r.pos <= |s|
  {
    if p >= |s| then Failed(p) else if StartsNumber(s, p) then Beyond else ScanName(s, p)
  }

  /** A lexer moves on, within the text. */
  ghost predicate Advances(lex: Lexer) {
    && (forall p: nat :: WhiteAdvances(lex, p))
    && (forall p: nat :: lex.str(p).Parsed? ==> p < lex.str(p).pos <= |lex.s|)
    && (forall p: nat :: lex.name(p).Parsed? ==> p < lex.name(p).pos <= |lex.s|)
  }

  ghost predicate WhiteAdvances(lex: Lexer, p: nat) {
    lex.white(p).Some? ==> p <= lex.white(p).value < |lex.s|
  }

  lemma LexerAdvances(hex: Reader, s: Bytes)
    ensures Advances(LexerFor(hex, s))
  {
  }

  function ScanValue(lex: Lexer, p: nat): (r: Parsed)
    requires Advances(lex)
    ensures r.Parsed? ==> p < r.pos <= |lex.s|
    decreases |lex.s| - p, 0
  {
    match lex.white(p)
    case None => Failed(|lex.s|)
    case Some(q) =>
      assert WhiteAdvances(lex, p);
      var c := lex.s[q];
      if c == OPEN_OBJECT then ScanTable(lex, q + 1, Table(true, [], []))
      else if c == OPEN_ARRAY then ScanTable(lex, q + 1, Table(false, [], []))
      else if c == QUOTE then lex.str(q)
      else lex.name(q)
  }

  /** The rest of a table from p on, t being what has been read of it. */
  function ScanTable(lex: Lexer, p: nat, t: Table): (r: Parsed)
    requires Advances(lex)
    ensures r.Parsed? ==> p < r.pos <= |lex.s|
    decreases |lex.s| - p, 1
  {
    match lex.white(p)
    case None => Failed(|lex.s|)
    case Some(q) =>
      assert WhiteAdvances(lex, p);
      if lex.s[q] == CloseOf(t) then Finished(t, q + 1)
      else
        match ScanValue(lex, q)
        case Failed(at) => Failed(at)
        case Beyond => Beyond
        case Parsed(v, p1) =>
          match lex.white(p1)
          case None => Failed(|lex.s|)
          case Some(q1) =>
            assert WhiteAdvances(lex, p1);
            if lex.s[q1] == COLON then ScanField(lex, q1, t, v) else ScanTable(lex, Next(lex.s, q1), t.(items := t.items + [v]))
  }

  /** The value of a field, after the colon at c. */
  function ScanField(lex: Lexer, c: nat, t: Table, key: Value): (r: Parsed)
    requires Advances(lex)
    ensures r.Parsed? ==> c < r.pos <= |lex.s|
    decreases |lex.s| - c, 1
  {
    if key.Nil? then Failed(c)
    else
      match lex.white(c + 1)
      case None => Failed(|lex.s|)
      case Some(q) =>
        assert WhiteAdvances(lex, c + 1);
        match ScanValue(lex, q)
        case Failed(at) => Failed(at)
        case Beyond => Beyond
        case Parsed(v, p1) =>
          match lex.white(p1)
          case None => Failed(|lex.s|)
          case Some(q1) =>
            assert WhiteAdvances(lex, p1);
            if key.Str? then ScanTable(lex, Next(lex.s, q1), t.(fields := Put(t.fields, key.s, v))) else Beyond
  }

  /** Past a comma, if there is one, to the next entry. */
  function Next(s: Bytes, p1: nat): nat
    requires p1 < |s|
  {
    if s[p1] == COMMA then p1 + 1 else p1
  }

  // ----- the round trip -----

  predicate DistinctKeys(fields: seq<(Bytes, Value)>) {
    forall i, j :: 0 <= i < j < |fields| ==> fields[i].0 != fields[j].0
  }

  /** Values whose encoding says everything: no null inside, and no key twice. */
  predicate Faithful(v: Value)
    decreases v
  {
    match v
    case Nil => false
    case Bool(_) => true
    case Str(_) => true
    case Arr(items) => forall i :: 0 <= i < |items| ==> Faithful(items[i])
    case Obj(fields) => DistinctKeys(fields) && forall i :: 0 <= i < |fields| ==> Faithful(fields[i].1)
  }

  /** A byte that ends white space. */
  predicate IsToken(c: Byte) {
    !IsSpace(c) && c != 239 && c != SLASH
  }

  lemma AtToken(s: Bytes, p: nat)
    requires p < |s| && IsToken(s[p])
    ensures White(s, p) == Some(p)
  {
  }

  /** A name, if one ends at p, goes no further. */
  predicate NameStops(s: Bytes, p: nat) {
    p < |s| ==> !IsAlnum(s[p])
  }

  lemma {:induction false} NameEndIs(s: Bytes, p: nat, q: nat)
    requires p <= q <= |s| && NameStops(s, q) && forall i :: p <= i < q ==> IsAlnum(s[i])
    ensures NameEnd(s, p) == q
    decreases q - p
  {
    if p < q { NameEndIs(s, p + 1, q); }
  }

  predicate IsWord(w: Bytes) {
    w != [] && IsAlpha(w[0]) && forall i :: 0 <= i < |w| ==> IsAlnum(w[i])
  }

  lemma WordEnds(s: Bytes, p: nat, w: Bytes)
    requires IsWord(w) && StandsAt(s, p, w) && NameStops(s, p + |w|)
    ensures NameEnd(s, p) == p + |w| && s[p..p + |w|] == w && IsAlpha(s[p])
  {
    forall i | p <= i < p + |w| ensures IsAlnum(s[i]) { assert s[p + (i - p)] == w[i - p]; }
    NameEndIs(s, p, p + |w|);
    assert s[p + 0] == w[0];
  }

  lemma BoolRoundTrip(b: bool, s: Bytes, p: nat)
    requires StandsAt(s, p, Encoded(Bool(b))) && NameStops(s, p + |Encoded(Bool(b))|)
    ensures LexName(s, p) == Parsed(Bool(b), p + |Encoded(Bool(b))|)
  {
    var w := if b then TRUE else FALSE;
    WordEnds(s, p, w);
    assert s[p + 0] == w[0];
  }

  lemma StrRoundTrip(hex: Reader, b: Bytes, s: Bytes, p: nat)
    requires ReadsHex(hex) && StandsAt(s, p, Quoted(b))
    ensures LexString(hex, s, p) == Parsed(Str(b), p + |Quoted(b)|)
  {
    QuoteRoundTrip(hex, b, s, p);
  }

  /** What tables need to know of a lexer: it stops at tokens, and reads back strings and booleans. */
  ghost predicate Good(lex: Lexer) {
    && Advances(lex)
    && (forall p: nat :: StopsAtToken(lex, p))
    && (forall b, p: nat :: StrReads(lex, b, p))
    && (forall b, p: nat :: BoolReads(lex, b, p))
  }

  ghost predicate StopsAtToken(lex: Lexer, p: nat) {
    p < |lex.s| && IsToken(lex.s[p]) ==> lex.white(p) == Some(p)
  }

  ghost predicate StrReads(lex: Lexer, b: Bytes, p: nat) {
    StandsAt(lex.s, p, Quoted(b)) ==> lex.str(p) == Parsed(Str(b), p + |Quoted(b)|)
  }

  ghost predicate BoolReads(lex: Lexer, b: bool, p: nat) {
    StandsAt(lex.s, p, Encoded(Bool(b))) && NameStops(lex.s, p + |Encoded(Bool(b))|) ==>
      lex.name(p) == Parsed(Bool(b), p + |Encoded(Bool(b))|)
  }

  lemma LexerIsGood(hex: Reader, s: Bytes)
    requires ReadsHex(hex)
    ensures Good(LexerFor(hex, s))
  {
    var lex := LexerFor(hex, s);
    LexerAdvances(hex, s);
    forall p: nat ensures StopsAtToken(lex, p) {
      if p < |s| && IsToken(s[p]) { AtToken(s, p); }
    }
    forall b, p: nat ensures StrReads(lex, b, p) {
      if StandsAt(s, p, Quoted(b)) { StrRoundTrip(hex, b, s, p); }
    }
    forall b, p: nat ensures BoolReads(lex, b, p) {
      if StandsAt(s, p, Encoded(Bool(b))) && NameStops(s, p + |Encoded(Bool(b))|) { BoolRoundTrip(b, s, p); }
    }
  }

  // The entries of a table, one after the other.

  /** An entry is over at p1. */
  predicate EntryEnds(s: Bytes, p1: nat, t: Table) {
    p1 < |s| && (s[p1] == COMMA || s[p1] == CloseOf(t))
  }

  /** text, wherever it stands as an entry, takes the table from t to t'. */
  ghost predicate EntryReads(lex: Lexer, text: Bytes, t: Table, t': Table, q: nat)
    requires Advances(lex)
  {
    StandsAt(lex.s, q, text) && EntryEnds(lex.s, q + |text|, t) ==>
      ScanTable(lex, q, t) == ScanTable(lex, Next(lex.s, q + |text|), t')
  }

  ghost predicate Reads(lex: Lexer, text: Bytes, t: Table, t': Table)
    requires Advances(lex)
  {
    t.isObject == t'.isObject && forall q: nat :: EntryReads(lex, text, t, t', q)
  }

  /** What follows the first text: a comma and the others, or nothing. */
  function Rest(texts: seq<Bytes>): Bytes
    requires texts != []
  {
    if |texts| == 1 then [] else [COMMA] + Joined(texts[1..])
  }

  lemma JoinedSplit(texts: seq<Bytes>, close: Byte, s: Bytes, p: nat)
    requires texts != [] && StandsAt(s, p, Joined(texts) + [close])
    ensures StandsAt(s, p, texts[0]) && StandsAt(s, p + |texts[0]|, Rest(texts) + [close])
    ensures |Joined(texts)| == |texts[0]| + |Rest(texts)|
  {
    var whole := Joined(texts) + [close];
    assert Joined(texts) == texts[0] + Rest(texts);
    StandsSplit(s, p, whole, |texts[0]|);
    assert whole[..|texts[0]|] == texts[0] && whole[|texts[0]|..] == Rest(texts) + [close];
  }

  lemma NextEntry(texts: seq<Bytes>, t: Table, s: Bytes, p1: nat)
    requires texts != [] && StandsAt(s, p1, Rest(texts) + [CloseOf(t)])
    ensures EntryEnds(s, p1, t) && StandsAt(s, Next(s, p1), Joined(texts[1..]) + [CloseOf(t)])
    ensures Next(s, p1) + |Joined(texts[1..])| == p1 + |Rest(texts)|
  {
    var rest := Rest(texts) + [CloseOf(t)];
    assert s[p1 + 0] == rest[0];
    if |texts| == 1 {
      assert texts[1..] == [] && Joined(texts[1..]) + [CloseOf(t)] == rest;
    } else {
      StandsSplit(s, p1, rest, 1);
      assert rest[1..] == Joined(texts[1..]) + [CloseOf(t)];
    }
  }

  lemma TableEnds(lex: Lexer, t: Table, p: nat)
    requires Good(lex) && StandsAt(lex.s, p, Joined([]) + [CloseOf(t)])
    ensures ScanTable(lex, p, t) == Finished(t, p + 1)
  {
    var rest := Joined([]) + [CloseOf(t)];
    assert rest == [CloseOf(t)] && lex.s[p + 0] == rest[0];
    assert StopsAtToken(lex, p);
  }

  /** The entries of a table: tables[i] is what the first i have made. */
  lemma {:induction false} EntriesRead(lex: Lexer, tables: seq<Table>, texts: seq<Bytes>, p: nat, end: nat)
    requires Good(lex) && |tables| == |texts| + 1
    requires forall i :: 0 <= i < |texts| ==> Reads(lex, texts[i], tables[i], tables[i + 1])
    requires StandsAt(lex.s, p, Joined(texts) + [CloseOf(tables[0])])
    requires end == p + |Joined(texts)| + 1
    ensures ScanTable(lex, p, tables[0]) == Finished(tables[|texts|], end)
    decreases |texts|
  {
    if texts == [] {
      TableEnds(lex, tables[0], p);
    } else {
      var p1 := p + |texts[0]|;
      JoinedSplit(texts, CloseOf(tables[0]), lex.s, p);
      NextEntry(texts, tables[0], lex.s, p1);
      assert Reads(lex, texts[0], tables[0], tables[1]);
      assert EntryReads(lex, texts[0], tables[0], tables[1], p);
      EntriesRead(lex, tables[1..], texts[1..], Next(lex.s, p1), end);
    }
  }

  // One entry.

  /** A text that scanvalue reads as v where it stands. */
  ghost predicate ValueReads(lex: Lexer, text: Bytes, v: Value, q: nat)
    requires Advances(lex)
  {
    StandsAt(lex.s, q, text) && (v.Bool? ==> NameStops(lex.s, q + |text|)) ==> ScanValue(lex, q) == Parsed(v, q + |text|)
  }

  /** How the encoding of a value starts. */
  predicate StartsValue(text: Bytes) {
    text != [] && IsToken(text[0]) && text[0] != CLOSE_ARRAY && text[0] != CLOSE_OBJECT
  }

  lemma EncodedStarts(v: Value)
    requires Faithful(v)
    ensures StartsValue(Encoded(v))
  {
  }

  lemma ItemReads(lex: Lexer, text: Bytes, v: Value, t: Table, q: nat)
    requires Good(lex) && StartsValue(text) && ValueReads(lex, text, v, q)
    ensures EntryReads(lex, text, t, t.(items := t.items + [v]), q)
  {
    if StandsAt(lex.s, q, text) && EntryEnds(lex.s, q + |text|, t) {
      assert lex.s[q + 0] == text[0];
      assert StopsAtToken(lex, q) && StopsAtToken(lex, q + |text|);
    }
  }

  lemma FieldStands(key: Bytes, value: Bytes, s: Bytes, p: nat)
    requires StandsAt(s, p, FieldText(key, value))
    ensures var c := p + |Quoted(key)|;
            && StandsAt(s, p, Quoted(key)) && s[p] == QUOTE && c < |s| && s[c] == COLON && StandsAt(s, c + 1, value)
            && |FieldText(key, value)| == |Quoted(key)| + 1 + |value|
  {
    var q, e := Quoted(key), FieldText(key, value);
    StandsSplit(s, p, e, |q|);
    assert e[..|q|] == q && e[|q|..] == [COLON] + value;
    StandsSplit(s, p + |q|, e[|q|..], 1);
    assert e[|q|..][1..] == value;
    assert s[p + |q| + 0] == e[|q|..][0] && s[p + 0] == e[0];
  }

  /** A key and its colon. */
  lemma KeyStep(lex: Lexer, p: nat, t: Table, key: Bytes, c: nat)
    requires Good(lex) && p < c < |lex.s| && lex.s[p] == QUOTE && lex.str(p) == Parsed(Str(key), c) && lex.s[c] == COLON
    ensures ScanTable(lex, p, t) == ScanField(lex, c, t, Str(key))
  {
    assert StopsAtToken(lex, p) && StopsAtToken(lex, c);
  }

  /** And its value. */
  lemma ColonStep(lex: Lexer, c: nat, t: Table, key: Bytes, v: Value, p1: nat)
    requires Good(lex) && c + 1 < p1 < |lex.s| && IsToken(lex.s[c + 1]) && IsToken(lex.s[p1])
    requires ScanValue(lex, c + 1) == Parsed(v, p1)
    ensures ScanField(lex, c, t, Str(key)) == ScanTable(lex, Next(lex.s, p1), t.(fields := Put(t.fields, key, v)))
  {
    assert StopsAtToken(lex, c + 1) && StopsAtToken(lex, p1);
  }

  lemma FieldReads(lex: Lexer, key: Bytes, text: Bytes, v: Value, t: Table, q: nat)
    requires Good(lex) && StartsValue(text) && t.isObject && ValueReads(lex, text, v, q + |Quoted(key)| + 1)
    ensures EntryReads(lex, FieldText(key, text), t, t.(fields := Put(t.fields, key, v)), q)
  {
    if StandsAt(lex.s, q, FieldText(key, text)) && EntryEnds(lex.s, q + |FieldText(key, text)|, t) {
      var c := q + |Quoted(key)|;
      FieldStands(key, text, lex.s, q);
      assert StrReads(lex, key, q);
      KeyStep(lex, q, t, key, c);
      assert lex.s[c + 1 + 0] == text[0];
      ColonStep(lex, c, t, key, v, q + |FieldText(key, text)|);
    }
  }

  /** A key that is not there yet goes to the end. */
  lemma PutNew(done: seq<(Bytes, Value)>, k: Bytes, v: Value)
    requires !v.Nil? && forall i :: 0 <= i < |done| ==> done[i].0 != k
    ensures Put(done, k, v) == done + [(k, v)]
  {
  }

  // Whole values.

  lemma Brackets(s: Bytes, p: nat, open: Byte, inner: Bytes, close: Byte)
    requires StandsAt(s, p, [open] + inner + [close])
    ensures p < |s| && s[p] == open && StandsAt(s, p + 1, inner + [close])
  {
    var whole := [open] + inner + [close];
    StandsSplit(s, p, whole, 1);
    assert whole[1..] == inner + [close];
    assert s[p + 0] == whole[0];
  }

  /** The table after its first k entries. */
  function ArraySoFar(items: seq<Value>): seq<Table> {
    seq(|items| + 1, k requires 0 <= k <= |items| => Table(false, items[..k], []))
  }

  function ObjectSoFar(fields: seq<(Bytes, Value)>): seq<Table> {
    seq(|fields| + 1, k requires 0 <= k <= |fields| => Table(true, [], fields[..k]))
  }

  lemma ItemTakesOn(lex: Lexer, items: seq<Value>, i: nat, text: Bytes)
    requires Good(lex) && i < |items| && StartsValue(text) && forall q: nat :: ValueReads(lex, text, items[i], q)
    ensures Reads(lex, text, ArraySoFar(items)[i], ArraySoFar(items)[i + 1])
  {
    var t, t' := ArraySoFar(items)[i], ArraySoFar(items)[i + 1];
    assert items[..i] + [items[i]] == items[..i + 1];
    forall q: nat ensures EntryReads(lex, text, t, t', q) {
      assert ValueReads(lex, text, items[i], q);
      ItemReads(lex, text, items[i], t, q);
    }
  }

  lemma FieldTakesOn(lex: Lexer, fields: seq<(Bytes, Value)>, i: nat, text: Bytes)
    requires Good(lex) && DistinctKeys(fields) && i < |fields| && !fields[i].1.Nil?
    requires StartsValue(text) && forall q: nat :: ValueReads(lex, text, fields[i].1, q)
    ensures Reads(lex, FieldText(fields[i].0, text), ObjectSoFar(fields)[i], ObjectSoFar(fields)[i + 1])
  {
    var t, t' := ObjectSoFar(fields)[i], ObjectSoFar(fields)[i + 1];
    PutNew(fields[..i], fields[i].0, fields[i].1);
    assert fields[..i] + [fields[i]] == fields[..i + 1];
    forall q: nat ensures EntryReads(lex, FieldText(fields[i].0, text), t, t', q) {
      assert ValueReads(lex, text, fields[i].1, q + |Quoted(fields[i].0)| + 1);
      FieldReads(lex, fields[i].0, text, fields[i].1, t, q);
    }
  }

  function OpenOf(t: Table): Byte {
    if t.isObject then OPEN_OBJECT else OPEN_ARRAY
  }

  lemma OpenStep(lex: Lexer, p: nat, t: Table)
    requires Good(lex) && p < |lex.s| && t == Table(t.isObject, [], []) && lex.s[p] == OpenOf(t)
    ensures ScanValue(lex, p) == ScanTable(lex, p + 1, t)
  {
    assert StopsAtToken(lex, p);
  }

  /** A table in its brackets. */
  lemma TableReads(lex: Lexer, tables: seq<Table>, texts: seq<Bytes>, p: nat, end: nat)
    requires Good(lex) && |tables| == |texts| + 1 && tables[0] == Table(tables[0].isObject, [], [])
    requires forall i :: 0 <= i < |texts| ==> Reads(lex, texts[i], tables[i], tables[i + 1])
    requires StandsAt(lex.s, p, [OpenOf(tables[0])] + Joined(texts) + [CloseOf(tables[0])])
    requires end == p + |Joined(texts)| + 2
    ensures ScanValue(lex, p) == Finished(tables[|texts|], end)
  {
    assert p < |lex.s| && lex.s[p] == OpenOf(tables[0]) && StandsAt(lex.s, p + 1, Joined(texts) + [CloseOf(tables[0])]) by {
      Brackets(lex.s, p, OpenOf(tables[0]), Joined(texts), CloseOf(tables[0]));
    }
    assert ScanTable(lex, p + 1, tables[0]) == Finished(tables[|texts|], end) by {
      EntriesRead(lex, tables, texts, p + 1, end);
    }
    OpenStep(lex, p, tables[0]);
  }

  /**
   Main theorem on values: scanvalue gives back what encode2 wrote, and ends right
   behind it, wherever the text stands; a boolean must not run on into a longer name.
   */
  lemma {:induction false} ValueRoundTrip(lex: Lexer, v: Value, p: nat)
    requires Good(lex) && Faithful(v) && StandsAt(lex.s, p, Encoded(v)) && (v.Bool? ==> NameStops(lex.s, p + |Encoded(v)|))
    ensures ScanValue(lex, p) == Parsed(v, p + |Encoded(v)|)
    decreases v, 0
  {
    match v
    case Bool(b) => LeafRoundTrip(lex, v, p);
    case Str(b) => LeafRoundTrip(lex, v, p);
    case Arr(items) =>
      forall i | 0 <= i < |items| ensures Reads(lex, Encoded(items[i]), ArraySoFar(items)[i], ArraySoFar(items)[i + 1]) {
        EncodedReads(lex, items[i]);
        ItemTakesOn(lex, items, i, Encoded(items[i]));
      }
      ArrayRoundTrip(lex, items, p);
    case Obj(fields) =>
      forall i | 0 <= i < |fields| ensures Reads(lex, EncodedField(fields[i]), ObjectSoFar(fields)[i], ObjectSoFar(fields)[i + 1]) {
        EncodedReads(lex, fields[i].1);
        FieldTakesOn(lex, fields, i, Encoded(fields[i].1));
      }
      ObjectRoundTrip(lex, fields, p);
  }

  lemma {:induction false} EncodedReads(lex: Lexer, v: Value)
    requires Good(lex) && Faithful(v)
    ensures StartsValue(Encoded(v)) && forall q: nat :: ValueReads(lex, Encoded(v), v, q)
    decreases v, 1
  {
    EncodedStarts(v);
    forall q: nat ensures ValueReads(lex, Encoded(v), v, q) {
      if StandsAt(lex.s, q, Encoded(v)) && (v.Bool? ==> NameStops(lex.s, q + |Encoded(v)|)) { ValueRoundTrip(lex, v, q); }
    }
  }

  lemma LeafRoundTrip(lex: Lexer, v: Value, p: nat)
    requires Good(lex) && (v.Bool? || v.Str?) && StandsAt(lex.s, p, Encoded(v)) && (v.Bool? ==> NameStops(lex.s, p + |Encoded(v)|))
    ensures ScanValue(lex, p) == Parsed(v, p + |Encoded(v)|)
  {
    assert lex.s[p + 0] == Encoded(v)[0];
    assert StopsAtToken(lex, p);
    if v.Bool? { assert BoolReads(lex, v.b, p); } else { assert StrReads(lex, v.s, p); }
  }

  lemma ArrayRoundTrip(lex: Lexer, items: seq<Value>, p: nat)
    requires Good(lex) && StandsAt(lex.s, p, Encoded(Arr(items))) && (items != [] ==> !items[|items| - 1].Nil?)
    requires forall i :: 0 <= i < |items| ==> Reads(lex, Encoded(items[i]), ArraySoFar(items)[i], ArraySoFar(items)[i + 1])
    ensures ScanValue(lex, p) == Parsed(Arr(items), p + |Encoded(Arr(items))|)
  {
    assert items[..0] == [] && items[..|items|] == items;
    TableReads(lex, ArraySoFar(items), ItemTexts(items), p, p + |Encoded(Arr(items))|);
  }

  lemma ObjectRoundTrip(lex: Lexer, fields: seq<(Bytes, Value)>, p: nat)
    requires Good(lex) && StandsAt(lex.s, p, Encoded(Obj(fields)))
    requires forall i :: 0 <= i < |fields| ==>
               Reads(lex, EncodedField(fields[i]), ObjectSoFar(fields)[i], ObjectSoFar(fields)[i + 1])
    ensures ScanValue(lex, p) == Parsed(Obj(fields), p + |Encoded(Obj(fields))|)
  {
    assert fields[..0] == [] && fields[..|fields|] == fields;
    TableReads(lex, ObjectSoFar(fields), FieldTexts(fields), p, p + |Encoded(Obj(fields))|);
  }

  /** json.decode of what json.encode wrote. */
  lemma DecodeEncode(hex: Reader, v: Value)
    requires ReadsHex(hex) && Faithful(v)
    ensures Advances(LexerFor(hex, Encoded(v))) && ScanValue(LexerFor(hex, Encoded(v)), 0) == Parsed(v, |Encoded(v)|)
  {
    LexerIsGood(hex, Encoded(v));
    ValueRoundTrip(LexerFor(hex, Encoded(v)), v, 0);
  }

  /** JSON's notation. */
  lemma TheNotation()
    ensures OPEN_ARRAY == '[' as int && CLOSE_ARRAY == ']' as int && OPEN_OBJECT == '{' as int && CLOSE_OBJECT == '}' as int
    ensures COMMA == ',' as int && COLON == ':' as int && SLASH == '/' as int && STAR == '*' as int
    ensures TRUE == Text("true") && FALSE == Text("false") && NULL == Text("null")
  {
  }

  /** Known values in it. */
  lemma KnownTexts()
    ensures Encoded(Nil) == Text("null") && Encoded(Arr([])) == Text("[]") && Encoded(Obj([])) == Text("{}")
    ensures Encoded(Arr([Bool(true), Bool(false)])) == Text("[true,false]")
    ensures Encoded(Obj([([97], Nil)])) == Text("{\"a\":null}")
  {
    KnownEmpty();
    KnownArray();
    KnownObject();
  }

  lemma KnownEmpty()
    ensures Encoded(Nil) == Text("null") && Encoded(Arr([])) == Text("[]") && Encoded(Obj([])) == Text("{}")
  {
    assert ItemTexts([]) == [] && FieldTexts([]) == [];
  }

  lemma KnownArray()
    ensures Encoded(Arr([Bool(true), Bool(false)])) == Text("[true,false]")
  {
    var items := [Bool(true), Bool(false)];
    assert ItemTexts(items) == [TRUE, FALSE] && [TRUE, FALSE][1..] == [FALSE];
  }

  lemma KnownObject()
    ensures Encoded(Obj([([97], Nil)])) == Text("{\"a\":null}")
  {
    PlainQuoted([97]);
    var fields: seq<(Bytes, Value)> := [([97], Nil)];
    assert FieldTexts(fields) == [EncodedField(fields[0])];
    assert EncodedField(fields[0]) == [QUOTE, 97, QUOTE, COLON] + NULL;
  }

  /** A letter is quoted as it is. */
  lemma PlainQuoted(b: Bytes)
    requires |b| == 1 && IsAlpha(b[0])
    ensures Quoted(b) == [QUOTE] + b + [QUOTE]
  {
    assert !MatchesAt(CONTROLS, b) && Gsub(CONTROLS, b[1..]) == [];
  }

  // ----- the same, as the code has it -----

  /** scanwhite. */
  method ScanWhite(s: Bytes, start: nat) returns (r: Option<nat>)
    ensures r == White(s, start)
  {
    var pos := start;
    while pos < |s|
      invariant White(s, pos) == White(s, start)
      decreases |s| - pos
    {
      if IsSpace(s[pos]) {
        pos := pos + 1;
      } else if IsByteOrderMark(s, pos) {
        pos := pos + 3;
      } else if IsPair(s, pos, SLASH, SLASH) {
        var q := LineEnd(s, pos + 2);
        if q.None? { return None; }
        pos := q.value;
      } else if IsPair(s, pos, SLASH, STAR) {
        var q := CommentEnd(s, pos + 2);
        if q.None? { return None; }
        pos := q.value + 2;
      } else {
        return Some(pos);
      }
    }
    return None;
  }

  /** ScanValue, in terms of the text. */
  lemma ValueAt(hex: Reader, s: Bytes, p: nat)
    requires Advances(LexerFor(hex, s))
    ensures match White(s, p)
            case None => ScanValue(LexerFor(hex, s), p) == Failed(|s|)
            case Some(q) =>
              && p <= q < |s|
              && ScanValue(LexerFor(hex, s), p) ==
                 if s[q] == OPEN_OBJECT then ScanTable(LexerFor(hex, s), q + 1, Table(true, [], []))
                 else if s[q] == OPEN_ARRAY then ScanTable(LexerFor(hex, s), q + 1, Table(false, [], []))
                 else if s[q] == QUOTE then LexString(hex, s, q)
                 else LexName(s, q)
  {
    assert WhiteAdvances(LexerFor(hex, s), p);
  }

  /** scanvalue. */
  method ParseValue(hex: Reader, s: Bytes, p: nat) returns (r: Parsed)
    ensures Advances(LexerFor(hex, s)) && r == ScanValue(LexerFor(hex, s), p)
    decreases |s| - p, 0
  {
    LexerAdvances(hex, s);
    ValueAt(hex, s, p);
    var white := ScanWhite(s, p);
    if white.None? { return Failed(|s|); }
    var q := white.value;
    if s[q] == OPEN_OBJECT {
      r := ParseTable(hex, s, q, true);
    } else if s[q] == OPEN_ARRAY {
      r := ParseTable(hex, s, q, false);
    } else if s[q] == QUOTE {
      var str := ScanString(hex, s, q);
      r := if str.Some? then Parsed(Str(str.value.0), str.value.1) else Failed(|s|);
    } else {
      r := LexName(s, q);
    }
  }

  /** How far a turn of scantable's loop has come: to the end, or to another turn. */
  datatype Turn = Over(result: Parsed) | Again(t: Table, pos: nat)

  /** What a turn that starts at p with t means for the whole. */
  ghost predicate TurnIs(lex: Lexer, whole: Parsed, p: nat, isObject: bool, turn: Turn)
    requires Advances(lex)
  {
    match turn
    case Over(result) => whole == result
    case Again(t, pos) => p < pos <= |lex.s| && t.isObject == isObject && whole == ScanTable(lex, pos, t)
  }

  /** The field of a key, after its colon. */
  method ParseField(hex: Reader, s: Bytes, c: nat, t: Table, key: Value) returns (turn: Turn)
    requires c < |s|
    ensures Advances(LexerFor(hex, s)) && TurnIs(LexerFor(hex, s), ScanField(LexerFor(hex, s), c, t, key), c, t.isObject, turn)
    decreases |s| - c, 1
  {
    LexerAdvances(hex, s);
    if key.Nil? { return Over(Failed(c)); }
    var white := ScanWhite(s, c + 1);
    if white.None? { return Over(Failed(|s|)); }
    var val2 := ParseValue(hex, s, white.value);
    if !val2.Parsed? { return Over(val2); }
    white := ScanWhite(s, val2.pos);
    if white.None? { return Over(Failed(|s|)); }
    if !key.Str? { return Over(Beyond); }
    return Again(t.(fields := Put(t.fields, key.s, val2.v)), Next(s, white.value));
  }

  /** One turn of the loop. */
  method ParseEntry(hex: Reader, s: Bytes, p: nat, t: Table) returns (turn: Turn)
    ensures Advances(LexerFor(hex, s)) && TurnIs(LexerFor(hex, s), ScanTable(LexerFor(hex, s), p, t), p, t.isObject, turn)
    decreases |s| - p, 2
  {
    LexerAdvances(hex, s);
    var white := ScanWhite(s, p);
    if white.None? { return Over(Failed(|s|)); }
    var q := white.value;
    if s[q] == CloseOf(t) { return Over(Finished(t, q + 1)); }
    var val1 := ParseValue(hex, s, q);
    if !val1.Parsed? { return Over(val1); }
    white := ScanWhite(s, val1.pos);
    if white.None? { return Over(Failed(|s|)); }
    if s[white.value] == COLON {
      turn := ParseField(hex, s, white.value, t, val1.v);
    } else {
      turn := Again(t.(items := t.items + [val1.v]), Next(s, white.value));
    }
  }

  /** scantable, from its opening bracket on. */
  method ParseTable(hex: Reader, s: Bytes, start: nat, isObject: bool) returns (r: Parsed)
    requires start < |s|
    ensures Advances(LexerFor(hex, s)) && r == ScanTable(LexerFor(hex, s), start + 1, Table(isObject, [], []))
    decreases |s| - start - 1, 3
  {
    LexerAdvances(hex, s);
    ghost var whole := ScanTable(LexerFor(hex, s), start + 1, Table(isObject, [], []));
    var turn := Again(Table(isObject, [], []), start + 1);
    while turn.Again?
      invariant TurnIs(LexerFor(hex, s), whole, start, isObject, turn)
      decreases if turn.Again? then |s| - turn.pos + 1 else 0, turn.Again?
    {
      turn := ParseEntry(hex, s, turn.pos, turn.t);
    }
    return turn.result;
  }

  /** encode2, which writes behind what the buffer holds. */
  method Encode2(v: Value, buffer: Bytes) returns (out: Bytes)
    ensures out == buffer + Encoded(v)
    decreases v
  {
    match v {
      case Nil => out := buffer + NULL;
      case Bool(b) => out := buffer + if b then TRUE else FALSE;
      case Str(s) =>
        var q := QuoteString(s);
        out := buffer + q;
      case Arr(items) =>
        out := EncodeItems(items, buffer + [OPEN_ARRAY]);
        out := out + [CLOSE_ARRAY];
      case Obj(fields) =>
        out := EncodeFields(fields, buffer + [OPEN_OBJECT]);
        out := out + [CLOSE_OBJECT];
    }
  }

  method EncodeItems(items: seq<Value>, buffer: Bytes) returns (out: Bytes)
    ensures out == buffer + Joined(ItemTexts(items))
    decreases items
  {
    ghost var texts := ItemTexts(items);
    out := buffer;
    assert Written(texts, 0) == [];
    for i := 0 to |items|
      invariant out == buffer + Written(texts, i)
    {
      out := Encode2(items[i], out);
      WrittenNext(buffer, texts, i);
      if i + 1 < |items| { out := out + [COMMA]; }
    }
    WrittenAll(texts);
  }

  method EncodeFields(fields: seq<(Bytes, Value)>, buffer: Bytes) returns (out: Bytes)
    ensures out == buffer + Joined(FieldTexts(fields))
    decreases fields
  {
    ghost var texts := FieldTexts(fields);
    out := buffer;
    assert Written(texts, 0) == [];
    for i := 0 to |fields|
      invariant out == buffer + Written(texts, i)
    {
      out := AddPair(fields[i], out);
      WrittenNext(buffer, texts, i);
      if i + 1 < |fields| { out := out + [COMMA]; }
    }
    WrittenAll(texts);
  }

  /** addpair, without the comma. */
  method AddPair(f: (Bytes, Value), buffer: Bytes) returns (out: Bytes)
    ensures out == buffer + EncodedField(f)
    decreases f
  {
    var key := QuoteString(f.0);
    out := Encode2(f.1, buffer + key + [COLON]);
    Regroup(buffer, key, [COLON], Encoded(f.1));
  }

  lemma Regroup(a: Bytes, b: Bytes, c: Bytes, d: Bytes)
    ensures ((a + b) + c) + d == a + ((b + c) + d)
  {
  }

  /** The first i texts, each with its comma unless it is the last of all. */
  function Written(texts: seq<Bytes>, i: nat): Bytes
    requires i <= |texts|
  {
    if i == 0 then [] else Written(texts, i - 1) + texts[i - 1] + if i < |texts| then [COMMA] else []
  }

  lemma WrittenNext(buffer: Bytes, texts: seq<Bytes>, i: nat)
    requires i < |texts|
    ensures buffer + Written(texts, i + 1) == (buffer + Written(texts, i) + texts[i]) + if i + 1 < |texts| then [COMMA] else []
  {
  }

  lemma {:induction false} WrittenTail(texts: seq<Bytes>, i: nat)
    requires 0 < i <= |texts|
    ensures Written(texts, i) == texts[0] + if |texts| == 1 then [] else [COMMA] + Written(texts[1..], i - 1)
    decreases i
  {
    if i > 1 {
      WrittenTail(texts, i - 1);
      assert texts[1..][i - 2] == texts[i - 1];
    }
  }

  lemma {:induction false} WrittenAll(texts: seq<Bytes>)
    ensures Written(texts, |texts|) == Joined(texts)
    decreases |texts|
  {
    if texts != [] {
      WrittenTail(texts, |texts|);
      WrittenAll(texts[1..]);
    }
  }
}
