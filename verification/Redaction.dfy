/**
  Scrubbing the text of a log message: every `name = value` or `name: value` whose name is
  forbidden keeps its name and spacing, and of its value a preview.
 */
module Redaction {

  const PREVIEW_LENGTH := 8
  const ELLIPSIS: char := '\U{2026}'

  /** The first characters of a value, always marked as cut. */
  function Preview(value: string): string {
    if value == "" then ""
    else if |value| <= PREVIEW_LENGTH then value + [ELLIPSIS]
    else value[..PREVIEW_LENGTH] + [ELLIPSIS]
  }

  /** All that is shown of a value: its first characters, eight at most, and an ellipsis. */
  predicate Hides(shown: string, value: string) {
    if value == "" then shown == ""
    else
      var n := if |value| < 8 then |value| else 8;
      |shown| == n + 1 && shown[..n] == value[..n] && shown[n] == '\U{2026}'
  }

  lemma PreviewHides(value: string)
    ensures Hides(Preview(value), value)
  {
    assert value[..|value|] == value;
  }

  // --------------------------------------------------------------- characters

  const FORBIDDEN: set<string> :=
    {"key_hash", "raw_key", "api_key", "authorization", "secret", "password", "bearer"}

  /** The characters `\s` matches in text. */
  predicate IsSpace(c: char) {
    || '\t' <= c <= '\r' || '\U{1c}' <= c <= ' ' || c == '\U{85}' || c == '\U{a0}'
    || c == '\U{1680}' || '\U{2000}' <= c <= '\U{200a}' || c == '\U{2028}' || c == '\U{2029}'
    || c == '\U{202f}' || c == '\U{205f}' || c == '\U{3000}'
  }

  predicate IsSeparator(c: char) { c == '=' || c == ':' }

  predicate IsNameChar(c: char) { 'a' <= c <= 'z' || c == '_' }

  /** Any table of the characters `\w` matches: it has the letters of the names in it. */
  ghost predicate WordTable(word: char -> bool) {
    forall c :: IsNameChar(c) ==> word(c)
  }

  // ------------------------------------------------------------------ matching

  predicate NamePrefix(s: string, n: nat) {
    n <= |s| && s[..n] in FORBIDDEN
  }

  lemma NameShape(s: string, n: nat)
    requires NamePrefix(s, n)
    ensures 6 <= n <= 13 && 'a' <= s[0] <= 'z'
    ensures n == match s[0]
      case 'k' => 8
      case 'r' => 7
      case 'a' => if s[1] == 'p' then 7 else 13
      case 'p' => 8
      case _ => 6
    ensures forall i :: 0 <= i < n ==> IsNameChar(s[i])
  {
    var name := s[..n];
    assert forall i :: 0 <= i < n ==> s[i] == name[i];
    assert name == "key_hash" || name == "raw_key" || name == "api_key" || name == "authorization"
        || name == "secret" || name == "password" || name == "bearer";
  }

  /** At most one forbidden name starts a text, so the order of the pattern's alternatives is irrelevant. */
  lemma NameUnique(s: string, m: nat, n: nat)
    requires NamePrefix(s, m) && NamePrefix(s, n)
    ensures m == n
  {
    NameShape(s, m);
    NameShape(s, n);
  }

  /** The length of the forbidden name a text starts with, 0 if none. */
  function NameLength(s: string): (n: nat)
    ensures n == 0 || NamePrefix(s, n)
    ensures forall m :: NamePrefix(s, m) ==> n == m
  {
    assert forall m: nat {:trigger NamePrefix(s, m)} :: NamePrefix(s, m) ==>
      m == 6 || m == 7 || m == 8 || m == 13
    by {
      forall m: nat | NamePrefix(s, m) ensures m == 6 || m == 7 || m == 8 || m == 13 {
        NameShape(s, m);
      }
    }
    assert forall m: nat, n: nat :: NamePrefix(s, m) && NamePrefix(s, n) ==> m == n by {
      forall m: nat, n: nat | NamePrefix(s, m) && NamePrefix(s, n) ensures m == n {
        NameUnique(s, m, n);
      }
    }
    if NamePrefix(s, 6) then 6 else if NamePrefix(s, 7) then 7
    else if NamePrefix(s, 8) then 8 else if NamePrefix(s, 13) then 13 else 0
  }

  /** Each of these names is read where it stands. */
  lemma NamesRead(s: string, n: nat)
    requires n <= |s|
    requires s[..n] in {"key_hash", "raw_key", "api_key", "authorization", "secret", "password", "bearer"}
    ensures NameLength(s) == n
  {
    assert NamePrefix(s, n);
  }

  function SkipSpaces(s: string, i: nat): (j: nat)
    requires i <= |s|
    ensures i <= j <= |s|
    decreases |s| - i
  {
    if i < |s| && IsSpace(s[i]) then SkipSpaces(s, i + 1) else i
  }

  function SkipSolid(s: string, i: nat): (j: nat)
    requires i <= |s|
    ensures i <= j <= |s|
    decreases |s| - i
  {
    if i < |s| && !IsSpace(s[i]) then SkipSolid(s, i + 1) else i
  }

  lemma {:induction false} SpacesSkipped(s: string, i: nat)
    requires i <= |s|
    ensures forall k :: i <= k < SkipSpaces(s, i) ==> IsSpace(s[k])
    ensures SkipSpaces(s, i) < |s| ==> !IsSpace(s[SkipSpaces(s, i)])
    decreases |s| - i
  {
    if i < |s| && IsSpace(s[i]) {
      SpacesSkipped(s, i + 1);
    }
  }

  lemma {:induction false} SolidSkipped(s: string, i: nat)
    requires i <= |s|
    ensures forall k :: i <= k < SkipSolid(s, i) ==> !IsSpace(s[k])
    ensures SkipSolid(s, i) < |s| ==> IsSpace(s[SkipSolid(s, i)])
    decreases |s| - i
  {
    if i < |s| && !IsSpace(s[i]) {
      SolidSkipped(s, i + 1);
    }
  }

  /** The value of a match lies between `start` and `end`; all before it is kept. */
  datatype Match = NoMatch | Match(start: nat, end: nat)

  /** The pattern at the head of a text: name, spaces, separator, spaces, solid text. */
  function MatchHead(s: string): (m: Match)
    ensures m.Match? ==> 0 < m.start < m.end <= |s|
  {
    var n := NameLength(s);
    if n == 0 then NoMatch else
    var i := SkipSpaces(s, n);
    if i == |s| || !IsSeparator(s[i]) then NoMatch else
    var j := SkipSpaces(s, i + 1);
    SpacesSkipped(s, i + 1);
    if j == |s| then NoMatch else Match(j, SkipSolid(s, j))
  }

  /** A way to read the head of a text by the pattern. */
  ghost predicate Reads(s: string, n: nat, i: nat, j: nat, e: nat) {
    && NamePrefix(s, n) && n <= i < j < e <= |s|
    && (forall k :: n <= k < i ==> IsSpace(s[k]))
    && (s[i] == '=' || s[i] == ':')
    && (forall k :: i < k < j ==> IsSpace(s[k]))
    && (forall k :: j <= k < e ==> !IsSpace(s[k]))
  }

  /** The match found is a reading of the text, and of all readings the longest. */
  lemma MatchIsLongest(s: string, n: nat, i: nat, j: nat, e: nat)
    requires Reads(s, n, i, j, e)
    ensures MatchHead(s).Match? && MatchHead(s).start == j && e <= MatchHead(s).end
  {
    assert NameLength(s) == n;
    NameShape(s, n);
    SpacesSkipped(s, n);
    SpacesSkipped(s, i + 1);
    SolidSkipped(s, j);
    assert !IsSpace(s[i]) && !IsSpace(s[j]);
    assert SkipSpaces(s, n) == i;
    assert SkipSpaces(s, i + 1) == j;
    var end := SkipSolid(s, j);
    assert end < |s| ==> IsSpace(s[end]);
  }

  lemma MatchReads(s: string) returns (n: nat, i: nat)
    requires MatchHead(s).Match?
    ensures Reads(s, n, i, MatchHead(s).start, MatchHead(s).end)
  {
    n := NameLength(s);
    i := SkipSpaces(s, n);
    SpacesSkipped(s, n);
    SpacesSkipped(s, i + 1);
    SolidSkipped(s, MatchHead(s).start);
  }

  // ---------------------------------------------------------------- redaction

  /** A text cut into single characters outside matches, and matches. */
  datatype Piece = Plain(c: char) | Secret(header: string, value: string)

  /** How much of a non-empty text the scan takes at once. */
  function Taken(m: Match): nat {
    if m.Match? then m.end else 1
  }

  predicate Fits(s: string, m: Match) {
    s != "" && (m.Match? ==> 0 < m.start < m.end <= |s|)
  }

  function PieceOf(s: string, m: Match): Piece
    requires Fits(s, m)
  {
    if m.Match? then Secret(s[..m.start], s[m.start..m.end]) else Plain(s[0])
  }

  /** A name matches only if it does not follow a word character. */
  function MatchAt(s: string, inWord: bool): (m: Match)
    ensures s != "" ==> Fits(s, m)
  {
    if inWord then NoMatch else MatchHead(s)
  }

  /** The scan from left to right. */
  function Pieces(s: string, inWord: bool, word: char -> bool): seq<Piece>
    decreases |s|
  {
    if s == "" then [] else
    var m := MatchAt(s, inWord);
    [PieceOf(s, m)] + Pieces(s[Taken(m)..], word(s[Taken(m) - 1]), word)
  }

  function Text(p: Piece): string {
    match p
    case Plain(c) => [c]
    case Secret(header, value) => header + value
  }

  function Masked(p: Piece): Piece {
    match p
    case Plain(c) => p
    case Secret(header, value) => Secret(header, Preview(value))
  }

  function Join(pieces: seq<Piece>): string {
    if pieces == [] then "" else Text(pieces[0]) + Join(pieces[1..])
  }

  function MaskAll(pieces: seq<Piece>): seq<Piece> {
    if pieces == [] then [] else [Masked(pieces[0])] + MaskAll(pieces[1..])
  }

  /** The scrubbed text, as the substitution writes it. */
  function Redact(s: string, inWord: bool, word: char -> bool): string
    decreases |s|
  {
    if s == "" then "" else
    var m := MatchAt(s, inWord);
    Text(Masked(PieceOf(s, m))) + Redact(s[Taken(m)..], word(s[Taken(m) - 1]), word)
  }

  /** Piece by piece the same, but for the values, which are hidden. */
  ghost predicate HidesValues(masked: seq<Piece>, pieces: seq<Piece>) {
    |masked| == |pieces| && forall i :: 0 <= i < |pieces| ==>
      match pieces[i]
      case Plain(c) => masked[i] == Plain(c)
      case Secret(header, value) =>
        masked[i].Secret? && masked[i].header == header && Hides(masked[i].value, value)
  }

  lemma {:induction false} MaskAllHides(pieces: seq<Piece>)
    ensures HidesValues(MaskAll(pieces), pieces)
  {
    if pieces != [] {
      MaskAllHides(pieces[1..]);
      if pieces[0].Secret? {
        PreviewHides(pieces[0].value);
      }
      assert forall i :: 0 < i < |pieces| ==> pieces[i] == pieces[1..][i - 1];
    }
  }

  /** The scrubbed text shows no more than eight characters of any matched value. */
  lemma RedactHides(s: string, inWord: bool, word: char -> bool) returns (masked: seq<Piece>)
    ensures Join(Pieces(s, inWord, word)) == s && Join(masked) == Redact(s, inWord, word)
    ensures HidesValues(masked, Pieces(s, inWord, word))
  {
    masked := MaskAll(Pieces(s, inWord, word));
    MaskAllHides(Pieces(s, inWord, word));
    RedactsValuesOnly(s, inWord, word);
  }

  /**
    Redaction changes values only: the text is its pieces joined, and the scrubbed text is
    the same pieces joined with each matched value replaced by its preview.
   */
  lemma {:induction false} RedactsValuesOnly(s: string, inWord: bool, word: char -> bool)
    ensures Join(Pieces(s, inWord, word)) == s
    ensures Join(MaskAll(Pieces(s, inWord, word))) == Redact(s, inWord, word)
    decreases |s|
  {
    if s != "" {
      var m := MatchAt(s, inWord);
      var rest := Pieces(s[Taken(m)..], word(s[Taken(m) - 1]), word);
      RedactsValuesOnly(s[Taken(m)..], word(s[Taken(m) - 1]), word);
      ValuesOnlyNext(s, m, rest);
    }
  }

  lemma ValuesOnlyNext(s: string, m: Match, rest: seq<Piece>)
    requires Fits(s, m) && Join(rest) == s[Taken(m)..]
    ensures Join([PieceOf(s, m)] + rest) == s
    ensures Join(MaskAll([PieceOf(s, m)] + rest)) == Text(Masked(PieceOf(s, m))) + Join(MaskAll(rest))
  {
    PieceIsHead(s, m);
    JoinNext(PieceOf(s, m), rest);
  }

  lemma PieceIsHead(s: string, m: Match)
    requires Fits(s, m)
    ensures Text(PieceOf(s, m)) + s[Taken(m)..] == s
  {
  }

  lemma JoinNext(p: Piece, rest: seq<Piece>)
    ensures Join([p] + rest) == Text(p) + Join(rest)
    ensures MaskAll([p] + rest) == [Masked(p)] + MaskAll(rest)
    ensures Join(MaskAll([p] + rest)) == Text(Masked(p)) + Join(MaskAll(rest))
  {
    assert ([p] + rest)[1..] == rest;
    assert ([Masked(p)] + MaskAll(rest))[1..] == MaskAll(rest);
  }

  /** The text begins with these pieces, which end at `p`. */
  ghost function Offset(pieces: seq<Piece>, i: nat): nat
    requires i <= |pieces|
  {
    |Join(pieces[..i])|
  }

  lemma OffsetNext(p: Piece, rest: seq<Piece>, i: nat)
    requires i <= |rest|
    ensures Offset([p] + rest, i + 1) == |Text(p)| + Offset(rest, i)
  {
    assert ([p] + rest)[..i + 1] == [p] + rest[..i];
    JoinNext(p, rest[..i]);
  }

  /** The first piece of a text: a match if one begins it and no word character stands before, else one character. */
  predicate FirstPiece(s: string, afterWord: bool, piece: Piece) {
    && s != ""
    && var m := MatchHead(s);
       if m.NoMatch? || afterWord then piece == Plain(s[0])
       else piece == Secret(s[..m.start], s[m.start..m.end])
  }

  /** This piece is the one that begins at `p`. */
  predicate CutAt(s: string, p: nat, piece: Piece, inWord: bool, word: char -> bool) {
    p < |s| && FirstPiece(s[p..], WordBefore(s, p, inWord, word), piece)
  }

  lemma CutLater(s: string, t: nat, tail: string, w: bool, p: nat, o: nat, piece: Piece,
                 inWord: bool, word: char -> bool)
    requires 0 < t <= |s| && tail == s[t..] && w == word(s[t - 1]) && o == t + p
    requires CutAt(tail, p, piece, w, word)
    ensures CutAt(s, o, piece, inWord, word)
  {
    SuffixParts(s, t, p);
    assert WordBefore(tail, p, w, word) == WordBefore(s, o, inWord, word);
  }

  lemma SuffixParts(s: string, t: nat, p: nat)
    requires t <= |s| && p < |s[t..]|
    ensures s[t..][p..] == s[t + p..] && s[t..][p] == s[t + p] && (p > 0 ==> s[t..][p - 1] == s[t + p - 1])
  {
  }

  /** The cut is right at piece `i`. */
  ghost predicate CutRight(s: string, pieces: seq<Piece>, i: nat, inWord: bool, word: char -> bool) {
    i < |pieces| && CutAt(s, Offset(pieces, i), pieces[i], inWord, word)
  }

  /**
    The cut is exact: every piece is a match exactly if one begins where it begins and no
    word character stands before, and is then that whole match; else it is one character.
   */
  lemma {:induction false} CutExact(s: string, inWord: bool, word: char -> bool, i: nat)
    requires i < |Pieces(s, inWord, word)|
    ensures CutRight(s, Pieces(s, inWord, word), i, inWord, word)
    decreases |s|
  {
    var m := MatchAt(s, inWord);
    ScanNext(s, m, inWord, word);
    if i == 0 {
      FirstCut(s, m, inWord, word);
    } else {
      var tail, w := s[Taken(m)..], word(s[Taken(m) - 1]);
      CutExact(tail, w, word, i - 1);
      ShiftedPiece(s, m, Pieces(tail, w, word), Pieces(s, inWord, word), i);
      CutNext(s, m, tail, w, Pieces(tail, w, word), Pieces(s, inWord, word), i, inWord, word);
    }
  }

  lemma CutNext(s: string, m: Match, tail: string, w: bool, rest: seq<Piece>, pieces: seq<Piece>, i: nat,
                inWord: bool, word: char -> bool)
    requires Fits(s, m) && tail == s[Taken(m)..] && w == word(s[Taken(m) - 1])
    requires 0 < i < |pieces| && CutRight(tail, rest, i - 1, w, word)
    requires Offset(pieces, i) == Taken(m) + Offset(rest, i - 1) && pieces[i] == rest[i - 1]
    ensures CutRight(s, pieces, i, inWord, word)
  {
    CutLater(s, Taken(m), tail, w, Offset(rest, i - 1), Offset(pieces, i), rest[i - 1], inWord, word);
    PieceInPlace(s, pieces, i, Offset(pieces, i), rest[i - 1], inWord, word);
  }

  lemma PieceInPlace(s: string, pieces: seq<Piece>, i: nat, o: nat, piece: Piece, inWord: bool, word: char -> bool)
    requires i < |pieces| && o == Offset(pieces, i) && piece == pieces[i] && CutAt(s, o, piece, inWord, word)
    ensures CutRight(s, pieces, i, inWord, word)
  {
  }

  lemma ShiftedPiece(s: string, m: Match, rest: seq<Piece>, pieces: seq<Piece>, i: nat)
    requires Fits(s, m) && pieces == [PieceOf(s, m)] + rest && 0 < i <= |rest|
    ensures i < |pieces| && Offset(pieces, i) == Taken(m) + Offset(rest, i - 1) && pieces[i] == rest[i - 1]
  {
    PieceLength(s, m);
    OffsetNext(PieceOf(s, m), rest, i - 1);
  }

  lemma PieceLength(s: string, m: Match)
    requires Fits(s, m)
    ensures |Text(PieceOf(s, m))| == Taken(m)
  {
  }

  lemma FirstCut(s: string, m: Match, inWord: bool, word: char -> bool)
    requires s != "" && m == MatchAt(s, inWord)
    ensures CutAt(s, 0, PieceOf(s, m), inWord, word)
  {
    assert s[0..] == s;
  }

  // -------------------------------------------------------------- idempotence

  lemma PrefixCons(c: char, a: string, b: string, k: nat)
    requires k <= |a| && k <= |b| && a[..k] == b[..k]
    ensures ([c] + a)[..k + 1] == ([c] + b)[..k + 1]
  {
    assert ([c] + a)[..k + 1] == [c] + a[..k];
    assert ([c] + b)[..k + 1] == [c] + b[..k];
  }

  lemma HeadKept(s: string, m: Match)
    requires Fits(s, m)
    ensures Text(Masked(PieceOf(s, m))) != "" && Text(Masked(PieceOf(s, m)))[0] == s[0]
    ensures m.NoMatch? ==> Text(Masked(PieceOf(s, m))) == [s[0]]
  {
  }

  lemma MatchStartsName(s: string)
    requires MatchHead(s).Match?
    ensures s != "" && 'a' <= s[0] <= 'z'
  {
    NameShape(s, NameLength(s));
  }

  predicate WordBefore(s: string, p: nat, inWord: bool, word: char -> bool)
    requires p <= |s|
  {
    if p == 0 then inWord else word(s[p - 1])
  }

  lemma BeforeNext(s: string, q: nat, inWord: bool, word: char -> bool)
    requires q < |s|
    ensures WordBefore(s[1..], q, word(s[0]), word) == WordBefore(s, q + 1, inWord, word)
  {
  }

  /** At `p` the first match begins, behind no word character, or the text ends unchanged. */
  ghost predicate AgreesTo(s: string, r: string, p: nat, inWord: bool, word: char -> bool) {
    && p <= |s|
    && (p == |s| ==> r == s)
    && (p < |s| ==> 'a' <= s[p] <= 'z' && !WordBefore(s, p, inWord, word) && p < |r| && r[..p + 1] == s[..p + 1])
  }

  lemma AgreesNext(s: string, r: string, q: nat, inWord: bool, word: char -> bool)
    requires s != "" && AgreesTo(s[1..], r, q, word(s[0]), word)
    ensures AgreesTo(s, [s[0]] + r, q + 1, inWord, word)
  {
    assert s == [s[0]] + s[1..];
    if q < |s[1..]| {
      BeforeNext(s, q, inWord, word);
      PrefixCons(s[0], r, s[1..], q + 1);
    }
  }

  lemma AgreesOn(s: string, rest: string, w: bool, q: nat, inWord: bool, word: char -> bool)
    requires s != "" && MatchAt(s, inWord).NoMatch? && rest == s[1..] && w == word(s[0])
    requires AgreesTo(rest, Redact(rest, w, word), q, w, word)
    ensures AgreesTo(s, Redact(s, inWord, word), q + 1, inWord, word)
  {
    ScanNext(s, NoMatch, inWord, word);
    HeadKept(s, NoMatch);
    AgreesNext(s, Redact(rest, w, word), q, inWord, word);
  }

  lemma AgreesAtMatch(s: string, m: Match, inWord: bool, word: char -> bool)
    requires s != "" && m == MatchAt(s, inWord) && m.Match?
    ensures AgreesTo(s, Redact(s, inWord, word), 0, inWord, word)
  {
    ScanNext(s, m, inWord, word);
    HeadKept(s, m);
    MatchStartsName(s);
  }

  /**
    A text and its redaction agree up to the first letter of the first match, which does
    not follow a word character.
   */
  lemma {:induction false} AgreesUpToMatch(s: string, inWord: bool, word: char -> bool) returns (p: nat)
    ensures AgreesTo(s, Redact(s, inWord, word), p, inWord, word)
    decreases |s|
  {
    p := 0;
    if s != "" {
      if MatchAt(s, inWord).Match? {
        AgreesAtMatch(s, MatchAt(s, inWord), inWord, word);
      } else {
        var q := AgreesUpToMatch(s[1..], word(s[0]), word);
        AgreesOn(s, s[1..], word(s[0]), q, inWord, word);
        p := q + 1;
      }
    }
  }

  /** A reading cannot reach past a letter that does not follow a word character. */
  lemma ReadingStops(t: string, n: nat, i: nat, j: nat, e: nat, at: nat, word: char -> bool)
    requires WordTable(word) && Reads(t, n, i, j, e)
    requires 0 < at < |t| && 'a' <= t[at] <= 'z' && !word(t[at - 1])
    ensures j <= at
  {
    NameShape(t, n);
    assert forall k :: 0 <= k < n ==> word(t[k]);
  }

  /** Redacting what follows a character never completes a match that starts at it. */
  lemma NoNewMatch(c: char, rest: string, word: char -> bool)
    requires WordTable(word) && MatchHead([c] + Redact(rest, word(c), word)).Match?
    ensures MatchHead([c] + rest).Match?
  {
    var r := Redact(rest, word(c), word);
    var p := AgreesUpToMatch(rest, word(c), word);
    if p < |rest| {
      NoMatchReaches(c, rest, r, p, word);
    }
  }

  lemma NoMatchReaches(c: char, rest: string, r: string, p: nat, word: char -> bool)
    requires WordTable(word) && MatchHead([c] + r).Match?
    requires p < |rest| && p < |r| && r[..p + 1] == rest[..p + 1]
    requires 'a' <= rest[p] <= 'z' && !word(if p == 0 then c else rest[p - 1])
    ensures MatchHead([c] + rest).Match?
  {
    var s, t := [c] + rest, [c] + r;
    var n, i := MatchReads(t);
    var j, e := MatchHead(t).start, MatchHead(t).end;
    PrefixCons(c, r, rest, p + 1);
    SamePrefix(t, s, p + 2);
    assert s[p + 1] == rest[p];
    assert s[p] == if p == 0 then c else rest[p - 1];
    ReadingStops(t, n, i, j, e, p + 1, word);
    SamePrefixShorter(t, s, p + 2, j + 1);
    SameReading(t, s, n, i, j, e);
  }

  lemma SamePrefix(a: string, b: string, k: nat)
    requires k <= |a| && k <= |b| && a[..k] == b[..k]
    ensures forall i :: 0 <= i < k ==> a[i] == b[i]
  {
    assert forall i :: 0 <= i < k ==> a[i] == a[..k][i] && b[i] == b[..k][i];
  }

  lemma SamePrefixShorter(a: string, b: string, k: nat, l: nat)
    requires l <= k <= |a| && k <= |b| && a[..k] == b[..k]
    ensures a[..l] == b[..l]
  {
    assert a[..l] == a[..k][..l] && b[..l] == b[..k][..l];
  }

  /** A reading needs no more than the text up to the first character of its value. */
  lemma SameReading(t: string, s: string, n: nat, i: nat, j: nat, e: nat)
    requires j < |t| && j < |s| && t[..j + 1] == s[..j + 1]
    requires Reads(t, n, i, j, e)
    ensures MatchHead(s).Match?
  {
    SamePrefix(t, s, j + 1);
    SamePrefixShorter(t, s, j + 1, n);
    MatchIsLongest(s, n, i, j, j + 1);
  }

  /** Behind a value comes a space or nothing, so it does not matter what stood before. */
  lemma ContextIrrelevant(s: string, word: char -> bool)
    requires s == "" || IsSpace(s[0])
    ensures Pieces(s, true, word) == Pieces(s, false, word)
    ensures Redact(s, true, word) == Redact(s, false, word)
    ensures s != "" ==> Redact(s, false, word) != "" && Redact(s, false, word)[0] == s[0]
    ensures s == "" ==> Redact(s, false, word) == ""
  {
    if s != "" {
      if NameLength(s) > 0 {
        NameShape(s, NameLength(s));
      }
      assert MatchHead(s).NoMatch?;
    }
  }

  /** A reading whose value is followed by a space or nothing is the match. */
  lemma ReadingEnds(s: string, n: nat, i: nat, j: nat, e: nat)
    requires Reads(s, n, i, j, e) && (e < |s| ==> IsSpace(s[e]))
    ensures MatchHead(s) == Match(j, e)
  {
    MatchIsLongest(s, n, i, j, e);
    SolidSkipped(s, j);
  }

  /** A reading stands with another value in the place of its own. */
  lemma OtherValueReads(s: string, n: nat, i: nat, j: nat, e: nat, shown: string, t: string)
    requires Reads(s, n, i, j, e)
    requires shown != "" && forall k :: 0 <= k < |shown| ==> !IsSpace(shown[k])
    requires j + |shown| <= |t| && t[..j + |shown|] == s[..j] + shown
    ensures Reads(t, n, i, j, j + |shown|)
  {
    var head := s[..j] + shown;
    assert t[..n] == head[..n] == s[..n];
    assert forall k :: 0 <= k < |head| ==> t[k] == head[k];
    assert forall k :: 0 <= k < j ==> t[k] == s[k];
    assert forall k :: j <= k < j + |shown| ==> t[k] == shown[k - j];
  }

  /** The preview of a value is again the value of a match with the same header. */
  lemma PreviewMatches(s: string, rest: string)
    requires MatchHead(s).Match? && (rest == "" || IsSpace(rest[0]))
    ensures var m := MatchHead(s);
      var shown := Preview(s[m.start..m.end]);
      MatchHead(s[..m.start] + shown + rest) == Match(m.start, m.start + |shown|)
  {
    var m := MatchHead(s);
    var value := s[m.start..m.end];
    var shown := Preview(value);
    var t := s[..m.start] + shown + rest;
    var n, i := MatchReads(s);
    assert forall k :: 0 <= k < |value| ==> value[k] == s[m.start + k];
    OtherValueReads(s, n, i, m.start, m.end, shown, t);
    ReadingEnds(t, n, i, m.start, m.start + |shown|);
  }

  /** The scrubbed text, scanned again, falls into the same pieces with previews for values. */
  ghost predicate Rescans(s: string, inWord: bool, word: char -> bool) {
    Pieces(Redact(s, inWord, word), inWord, word) == MaskAll(Pieces(s, inWord, word))
  }

  /** Scrubbing changes no border between pieces: whatever is scrubbed is found again. */
  lemma {:induction false} RescanFindsPreviews(s: string, inWord: bool, word: char -> bool)
    requires WordTable(word)
    ensures Rescans(s, inWord, word)
    decreases |s|
  {
    if s != "" {
      var m := MatchAt(s, inWord);
      var rest, w := s[Taken(m)..], word(s[Taken(m) - 1]);
      RescanFindsPreviews(rest, w, word);
      if m.Match? {
        EndsBeforeSpace(s);
        RescanSecret(s, m, rest, w, inWord, word);
      } else {
        RescanPlain(s, rest, w, inWord, word);
      }
    }
  }

  lemma RescanPlain(s: string, rest: string, w: bool, inWord: bool, word: char -> bool)
    requires WordTable(word) && s != "" && MatchAt(s, inWord).NoMatch?
    requires rest == s[1..] && w == word(s[0]) && Rescans(rest, w, word)
    ensures Rescans(s, inWord, word)
  {
    var after := Redact(rest, w, word);
    var r := [s[0]] + after;
    assert s == [s[0]] + rest && r[1..] == after;
    if !inWord && MatchHead(r).Match? {
      NoNewMatch(s[0], rest, word);
    }
    ScanNext(s, NoMatch, inWord, word);
    ScanNext(r, NoMatch, inWord, word);
    JoinNext(Plain(s[0]), Pieces(rest, w, word));
  }

  lemma RescanSecret(s: string, m: Match, rest: string, w: bool, inWord: bool, word: char -> bool)
    requires s != "" && m == MatchAt(s, inWord) && m.Match?
    requires rest == s[Taken(m)..] && w == word(s[Taken(m) - 1])
    requires Rescans(rest, w, word) && (rest == "" || IsSpace(rest[0]))
    ensures Rescans(s, inWord, word)
  {
    ScanNext(s, m, inWord, word);
    ShownRescans(s, m, rest, w, word);
    JoinNext(PieceOf(s, m), Pieces(rest, w, word));
  }

  /** One step of both scans. */
  lemma ScanNext(s: string, m: Match, inWord: bool, word: char -> bool)
    requires s != "" && m == MatchAt(s, inWord)
    ensures var rest, w := s[Taken(m)..], word(s[Taken(m) - 1]);
      && Redact(s, inWord, word) == Text(Masked(PieceOf(s, m))) + Redact(rest, w, word)
      && Pieces(s, inWord, word) == [PieceOf(s, m)] + Pieces(rest, w, word)
  {
  }

  /** A scrubbed match and what follows it, scanned again. */
  lemma ShownRescans(s: string, m: Match, rest: string, w: bool, word: char -> bool)
    requires m == MatchHead(s) && m.Match? && (rest == "" || IsSpace(rest[0]))
    ensures var shown, after := Masked(PieceOf(s, m)), Redact(rest, w, word);
      Pieces(Text(shown) + after, false, word) == [shown] + Pieces(after, w, word)
  {
    var after := Redact(rest, w, word);
    ContextIrrelevant(rest, word);
    ContextIrrelevant(after, word);
    PreviewMatches(s, after);
    ShownPieces(s[..m.start], Preview(s[m.start..m.end]), after, word);
  }

  lemma ShownPieces(header: string, shown: string, after: string, word: char -> bool)
    requires MatchHead(header + shown + after) == Match(|header|, |header| + |shown|)
    ensures Pieces(header + shown + after, false, word)
         == [Secret(header, shown)] + Pieces(after, word((header + shown)[|header + shown| - 1]), word)
  {
    ThreeParts(header, shown, after);
    SecretNext(header + shown + after, Match(|header|, |header| + |shown|), Secret(header, shown), after,
               word((header + shown)[|header + shown| - 1]), word);
  }

  lemma SecretNext(s: string, m: Match, p: Piece, rest: string, w: bool, word: char -> bool)
    requires s != "" && m == MatchHead(s) && p == PieceOf(s, m)
    requires rest == s[Taken(m)..] && w == word(s[Taken(m) - 1])
    ensures Pieces(s, false, word) == [p] + Pieces(rest, w, word)
  {
    ScanNext(s, m, false, word);
  }

  lemma ThreeParts(a: string, b: string, c: string)
    ensures var r, n := a + b + c, |a| + |b|;
      && r[..|a|] == a && r[|a|..n] == b && r[n..] == c && (n > 0 ==> r[n - 1] == (a + b)[n - 1])
  {
  }

  lemma EndsBeforeSpace(s: string)
    requires MatchHead(s).Match?
    ensures MatchHead(s).end < |s| ==> IsSpace(s[MatchHead(s).end])
  {
    SolidSkipped(s, MatchHead(s).start);
  }

  predicate IsShort(p: Piece) { p.Secret? && |p.value| < PREVIEW_LENGTH }

  ghost predicate ValuesPresent(pieces: seq<Piece>) {
    forall i :: 0 <= i < |pieces| && pieces[i].Secret? ==> pieces[i].value != ""
  }

  lemma {:induction false} PiecesPresent(s: string, inWord: bool, word: char -> bool)
    ensures ValuesPresent(Pieces(s, inWord, word))
    decreases |s|
  {
    if s != "" {
      var m := MatchAt(s, inWord);
      PiecesPresent(s[Taken(m)..], word(s[Taken(m) - 1]), word);
    }
  }

  function ShortValues(pieces: seq<Piece>): nat {
    if pieces == [] then 0 else (if IsShort(pieces[0]) then 1 else 0) + ShortValues(pieces[1..])
  }

  /** A second mask lengthens the text by one character for every short value. */
  lemma {:induction false} SecondMaskGrows(pieces: seq<Piece>)
    requires ValuesPresent(pieces)
    ensures |Join(MaskAll(MaskAll(pieces)))| == |Join(MaskAll(pieces))| + ShortValues(pieces)
    ensures ShortValues(pieces) == 0 ==> MaskAll(MaskAll(pieces)) == MaskAll(pieces)
  {
    if pieces != [] {
      assert forall i :: 0 <= i < |pieces[1..]| ==> pieces[1..][i] == pieces[i + 1];
      SecondMaskGrows(pieces[1..]);
      var once := MaskAll(pieces);
      assert once[1..] == MaskAll(pieces[1..]) && once[0] == Masked(pieces[0]);
      var twice := MaskAll(once);
      assert twice[1..] == MaskAll(once[1..]) && twice[0] == Masked(once[0]);
    }
  }

  lemma {:induction false} NoneShortIff(pieces: seq<Piece>)
    ensures ShortValues(pieces) == 0 <==> forall i :: 0 <= i < |pieces| ==> !IsShort(pieces[i])
  {
    if pieces != [] {
      NoneShortIff(pieces[1..]);
      assert forall i :: 0 < i < |pieces| ==> pieces[i] == pieces[1..][i - 1];
    }
  }

  /**
    Scrubbing twice equals scrubbing once exactly when no matched value is shorter than
    the eight characters a preview shows.
   */
  lemma IdempotentIff(s: string, word: char -> bool)
    requires WordTable(word)
    ensures var once := Redact(s, false, word); var pieces := Pieces(s, false, word);
      Redact(once, false, word) == once <==> forall i :: 0 <= i < |pieces| ==> !IsShort(pieces[i])
  {
    var once, pieces := Redact(s, false, word), Pieces(s, false, word);
    RedactsValuesOnly(s, false, word);
    RedactsValuesOnly(once, false, word);
    RescanFindsPreviews(s, false, word);
    PiecesPresent(s, false, word);
    SecondMaskGrows(pieces);
    NoneShortIff(pieces);
  }
}
