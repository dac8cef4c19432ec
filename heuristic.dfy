// The heuristic fallback scraper: inside each generic content container it reads literal
// `<table>` rows positionally, then scans the container's text for freeform lines shaped
// like `12) Name - Pos - School - College`, and de-duplicates the combined list. A
// container arrives as its rows' cell texts and image sources plus its whole text.
module Heuristic {
  import opened Wrappers
  import opened Text
  import opened RowDedup

  /** One `table tr`: the texts of its `td` cells and the src attribute of each `img`. */
  datatype TableRow = TableRow(cells: seq<string>, imgSrcs: seq<Option<string>>)

  /** One content container: its table rows and its `.text()`. */
  datatype Section = Section(rows: seq<TableRow>, text: string)

  /** The heuristic player record (the `state` field is never set and is left out). */
  datatype Player = Player(
    rank: Option<nat>,
    name: string,
    position: Option<string>,
    height: Option<string>,
    highSchool: Option<string>,
    committedCollege: Option<string>,
    playerImageUrl: Option<string>,
    collegeLogoUrl: Option<string>)

  // ------------------------------------------------------------------ table rows

  /** `.filter(Boolean)` over the image sources: missing and empty ones are dropped. */
  function ImageUrls(srcs: seq<Option<string>>): seq<string>
  {
    if srcs == [] then []
    else (if Truthy(srcs[0]) then [srcs[0].value] else []) + ImageUrls(srcs[1..])
  }

  /** Cell k of the row, `|| undefined`, when the row has that cell; None otherwise. */
  function OptionalCell(cells: seq<string>, k: nat): Option<string>
  {
    if k < |cells| then NonEmpty(Trim(cells[k])) else None
  }

  /** The record of a table row, or None when it has fewer than two cells or no name. */
  function TableRowPlayer(row: TableRow): Option<Player>
  {
    if |row.cells| < 2 || Trim(row.cells[1]) == [] then None
    else
      var imgs := ImageUrls(row.imgSrcs);
      Some(Player(
        IntOfDigits(Trim(row.cells[0])),
        Trim(row.cells[1]),
        OptionalCell(row.cells, 2),
        OptionalCell(row.cells, 3),
        OptionalCell(row.cells, 4),
        OptionalCell(row.cells, 5),
        if |imgs| > 0 then Some(imgs[0]) else None,
        if |imgs| > 1 then Some(imgs[1]) else None))
  }

  /** One visit of the `table tr` callback, setting the record's fields one by one. */
  method ParseTableRow(row: TableRow) returns (p: Option<Player>)
    ensures p == TableRowPlayer(row)
  {
    var tds := row.cells;
    if |tds| < 2 {
      return None;
    }
    var rankText := Trim(tds[0]);
    var nameText := Trim(tds[1]);
    var rank := IntOfDigits(rankText);
    if nameText == [] {
      return None;
    }
    var player := Player(None, nameText, None, None, None, None, None, None);
    if rank.Some? {
      player := player.(rank := rank);
    }
    if |tds| >= 3 {
      player := player.(position := NonEmpty(Trim(tds[2])));
    }
    if |tds| >= 4 {
      player := player.(height := NonEmpty(Trim(tds[3])));
    }
    if |tds| >= 5 {
      player := player.(highSchool := NonEmpty(Trim(tds[4])));
    }
    if |tds| >= 6 {
      player := player.(committedCollege := NonEmpty(Trim(tds[5])));
    }
    var imgUrls := ImageUrls(row.imgSrcs);
    if |imgUrls| > 0 {
      player := player.(playerImageUrl := Some(imgUrls[0]));
      if |imgUrls| > 1 {
        player := player.(collegeLogoUrl := Some(imgUrls[1]));
      }
    }
    p := Some(player);
  }

  // ------------------------------------------------------------------ freeform lines

  /** `[-.)]` */
  predicate IsSepChar(c: char)
  {
    c == '-' || c == '.' || c == ')'
  }

  /** `(.+)$` at p: a non-empty rest with no line terminator. */
  predicate TailOk(s: string, p: nat)
  {
    p < |s| && NoLineTerminator(s[p..])
  }

  /** `\s*(.+)$` from c, the `\s*` greedy: where the captured rest starts. */
  function RestFrom(s: string, c: nat): (r: Option<nat>)
    requires c <= |s|
    ensures r.Some? ==> c <= r.value < |s|
  {
    LastWhere((p: nat) => TailOk(s, p), c, SkipSpaces(s, c))
  }

  /** `[-.)]?\s*(.+)$` from b, the optional separator tried first. */
  function SepFrom(s: string, b: nat): (r: Option<nat>)
    requires b <= |s|
    ensures r.Some? ==> b <= r.value < |s|
  {
    if b < |s| && IsSepChar(s[b]) && RestFrom(s, b + 1).Some? then RestFrom(s, b + 1) else RestFrom(s, b)
  }

  function SepMatches(s: string): nat -> bool
  {
    (p: nat) => p <= |s| && SepFrom(s, p).Some?
  }

  /** `\s*[-.)]?\s*(.+)$` from a, the `\s*` greedy. */
  function SpaceSepFrom(s: string, a: nat): (r: Option<nat>)
    requires a <= |s|
    ensures r.Some? ==> a <= r.value < |s|
  {
    match LastWhere(SepMatches(s), a, SkipSpaces(s, a))
    case None => None
    case Some(p) => SepFrom(s, p)
  }

  /** `\)?\s*[-.)]?\s*(.+)$` from a, the optional `)` tried first. */
  function ParenFrom(s: string, a: nat): (r: Option<nat>)
    requires a <= |s|
    ensures r.Some? ==> a <= r.value < |s|
  {
    if a < |s| && s[a] == ')' && SpaceSepFrom(s, a + 1).Some? then SpaceSepFrom(s, a + 1) else SpaceSepFrom(s, a)
  }

  /** A match of the line pattern: the rank has `digits` digits, the rest starts at `restFrom`. */
  datatype LineMatch = LineMatch(digits: nat, restFrom: nat)

  function ParenMatches(s: string): nat -> bool
  {
    (k: nat) => k <= |s| && ParenFrom(s, k).Some?
  }

  /** `line.match(/^(\d{1,3})\)?\s*[-.)]?\s*(.+)$/)`, with the engine's backtracking order:
      the most digits first, then each later quantifier greedy. */
  function MatchLine(s: string): (m: Option<LineMatch>)
    ensures m.Some? ==> 1 <= m.value.digits <= DigitRunEnd(s, 0, 3) && m.value.digits <= m.value.restFrom < |s|
  {
    var d := DigitRunEnd(s, 0, 3);
    match LastWhere(ParenMatches(s), 1, d)
    case None => None
    case Some(k) => Some(LineMatch(k, ParenFrom(s, k).value))
  }

  /** `parseInt(m[1], 10)`: the value of the matched digits. */
  function LineRank(s: string, m: LineMatch): nat
    requires m.digits <= DigitRunEnd(s, 0, 3)
  {
    DecimalValue(s[..m.digits])
  }

  /** `\s+-\s+` matched at q: the end of the separator. */
  function DashSepAt(s: string, q: nat): (r: Option<nat>)
    ensures r.Some? ==> q < r.value <= |s|
  {
    if q < |s| && IsSpace(s[q]) then
      var e := SkipSpaces(s, q);
      if e + 1 < |s| && s[e] == '-' && IsSpace(s[e + 1]) then Some(SkipSpaces(s, e + 1)) else None
    else None
  }

  /** `s.split(/\s+-\s+/)`, the current piece starting at p and the scan at q. */
  function SplitDashFrom(s: string, p: nat, q: nat): (parts: seq<string>)
    requires p <= q <= |s|
    ensures |parts| >= 1
    decreases |s| - q
  {
    if q == |s| then [s[p..]]
    else match DashSepAt(s, q)
      case Some(e) => [s[p..q]] + SplitDashFrom(s, e, e)
      case None => SplitDashFrom(s, p, q + 1)
  }

  function SplitDash(s: string): (parts: seq<string>)
    ensures |parts| >= 1
  {
    SplitDashFrom(s, 0, 0)
  }

  /** `parts[k]?.trim()` */
  function PartAt(parts: seq<string>, k: nat): Option<string>
  {
    if k < |parts| then Some(Trim(parts[k])) else None
  }

  /** The record of a trimmed, non-empty line, or None when the pattern fails or the name is empty. */
  function LinePlayer(line: string): Option<Player>
  {
    match MatchLine(line)
    case None => None
    case Some(m) =>
      var parts := SplitDash(line[m.restFrom..]);
      var name := Trim(parts[0]);
      if name == [] then None
      else Some(Player(
        Some(LineRank(line, m)),
        name,
        PartAt(parts, 1),
        None,
        PartAt(parts, 2),
        PartAt(parts, 3),
        None,
        None))
  }

  // ------------------------------------------------------------------ sections

  predicate IsLineBreak(c: char)
  {
    c == '\n' || c == '\r'
  }

  /** `text.split(/\n|\r/)`, the current piece starting at p and the scan at q. */
  function SplitLinesFrom(s: string, p: nat, q: nat): (pieces: seq<string>)
    requires p <= q <= |s|
    ensures |pieces| >= 1
    decreases |s| - q
  {
    if q == |s| then [s[p..]]
    else if IsLineBreak(s[q]) then [s[p..q]] + SplitLinesFrom(s, q + 1, q + 1)
    else SplitLinesFrom(s, p, q + 1)
  }

  function SplitLines(s: string): seq<string>
  {
    SplitLinesFrom(s, 0, 0)
  }

  /** The records pushed by the first n table rows. */
  function RowPlayers(rows: seq<TableRow>, n: nat): seq<Player>
    requires n <= |rows|
  {
    if n == 0 then []
    else RowPlayers(rows, n - 1) + (var p := TableRowPlayer(rows[n - 1]); if p.Some? then [p.value] else [])
  }

  /** The records pushed by the first n pieces of the text, each trimmed, blanks skipped. */
  function LinePlayers(pieces: seq<string>, n: nat): seq<Player>
    requires n <= |pieces|
  {
    if n == 0 then []
    else
      var line := Trim(pieces[n - 1]);
      LinePlayers(pieces, n - 1) + (if line != [] && LinePlayer(line).Some? then [LinePlayer(line).value] else [])
  }

  /** Everything one container contributes: its table rows first, then its text lines. */
  function SectionPlayers(sec: Section): seq<Player>
  {
    var pieces := SplitLines(sec.text);
    RowPlayers(sec.rows, |sec.rows|) + LinePlayers(pieces, |pieces|)
  }

  /** The `players` array after the first n containers. */
  function Collected(sections: seq<Section>, n: nat): seq<Player>
    requires n <= |sections|
  {
    if n == 0 then [] else Collected(sections, n - 1) + SectionPlayers(sections[n - 1])
  }

  function PlayerKey(p: Player): string
  {
    DedupKey(p.rank, p.name)
  }

  /** The scraper's output: the first record per key among everything collected. */
  ghost function ParsedPlayers(sections: seq<Section>): seq<Player>
  {
    var all := Collected(sections, |sections|);
    FirstOccurrences(all, PlayerKey, |all|)
  }

  /** The `table tr` loop of one container: the records it pushes. */
  method ParseTableRows(rows: seq<TableRow>) returns (found: seq<Player>)
    ensures found == RowPlayers(rows, |rows|)
  {
    found := [];
    for j := 0 to |rows|
      invariant found == RowPlayers(rows, j)
    {
      var p := ParseTableRow(rows[j]);
      if p.Some? {
        found := found + [p.value];
      }
    }
  }

  /** One more piece of the text: its record is pushed when the trimmed line is non-empty and parses. */
  lemma LinePlayersStep(pieces: seq<string>, j: nat)
    requires j < |pieces|
    ensures var line := Trim(pieces[j]); var p := LinePlayer(line);
      LinePlayers(pieces, j + 1) == LinePlayers(pieces, j) + (if line != [] && p.Some? then [p.value] else [])
  {
  }

  /** The freeform-line loop of one container: the records it pushes. */
  method ParseLines(text: string) returns (found: seq<Player>)
    ensures found == LinePlayers(SplitLines(text), |SplitLines(text)|)
  {
    var pieces := SplitLines(text);
    found := [];
    for j := 0 to |pieces|
      invariant found == LinePlayers(pieces, j)
    {
      LinePlayersStep(pieces, j);
      var line := Trim(pieces[j]);
      if line == [] {
        continue;
      }
      var p := LinePlayer(line);
      if p.Some? {
        found := found + [p.value];
      }
    }
  }

  /** `parsePlayers`: for each container, its table rows and then its freeform lines;
      then de-duplication. */
  method ParsePlayers(sections: seq<Section>) returns (players: seq<Player>)
    ensures players == ParsedPlayers(sections)
  {
    var all: seq<Player> := [];
    for i := 0 to |sections|
      invariant all == Collected(sections, i)
    {
      var fromRows := ParseTableRows(sections[i].rows);
      var fromLines := ParseLines(sections[i].text);
      all := all + (fromRows + fromLines);
    }
    players := Dedup(all, PlayerKey);
  }

  // ------------------------------------------------------------------ the line pattern

  /** The group boundaries of a match of `^(\d{1,3})\)?\s*[-.)]?\s*(.+)$`: the digits end
      at `digits`, the optional `)` at `afterParen`, white space runs to `sepAt`, the
      optional separator ends at `afterSep`, white space runs to `restFrom`, and the
      captured rest runs to the end of the line. */
  datatype Groups = Groups(digits: nat, afterParen: nat, sepAt: nat, afterSep: nat, restFrom: nat)

  predicate IsLineMatch(s: string, g: Groups)
  {
    && 1 <= g.digits <= 3
    && g.digits <= g.afterParen <= g.sepAt <= g.afterSep <= g.restFrom < |s|
    && (forall k :: 0 <= k < g.digits ==> IsDigit(s[k]))
    && (g.afterParen == g.digits || (g.afterParen == g.digits + 1 && s[g.digits] == ')'))
    && SpacesBetween(s, g.afterParen, g.sepAt)
    && (g.afterSep == g.sepAt || (g.afterSep == g.sepAt + 1 && IsSepChar(s[g.sepAt])))
    && SpacesBetween(s, g.afterSep, g.restFrom)
    && TailOk(s, g.restFrom)
  }

  lemma RestFromSound(s: string, c: nat)
    requires c <= |s| && RestFrom(s, c).Some?
    ensures c <= RestFrom(s, c).value < |s|
    ensures SpacesBetween(s, c, RestFrom(s, c).value) && TailOk(s, RestFrom(s, c).value)
  {
  }

  lemma RestFromComplete(s: string, c: nat, p: nat)
    requires c <= p <= |s| && SpacesBetween(s, c, p) && TailOk(s, p)
    ensures RestFrom(s, c).Some? && RestFrom(s, c).value >= p
  {
    SkipSpacesPast(s, c, p);
    LastWhereSpec((q: nat) => TailOk(s, q), c, SkipSpaces(s, c));
  }

  lemma SepFromSound(s: string, b: nat) returns (a: nat)
    requires b <= |s| && SepFrom(s, b).Some?
    ensures a == b || (a == b + 1 && b < |s| && IsSepChar(s[b]))
    ensures a <= |s| && RestFrom(s, a) == SepFrom(s, b)
  {
    if b < |s| && IsSepChar(s[b]) && RestFrom(s, b + 1).Some? {
      a := b + 1;
    } else {
      a := b;
    }
  }

  lemma SepFromComplete(s: string, b: nat, a: nat)
    requires a <= |s|
    requires a == b || (a == b + 1 && b < |s| && IsSepChar(s[b]))
    requires RestFrom(s, a).Some?
    ensures SepFrom(s, b).Some?
  {
  }

  lemma SpaceSepFromSound(s: string, a: nat) returns (m: nat)
    requires a <= |s| && SpaceSepFrom(s, a).Some?
    ensures a <= m <= |s| && SpacesBetween(s, a, m) && SepFrom(s, m) == SpaceSepFrom(s, a)
  {
    m := LastWhere(SepMatches(s), a, SkipSpaces(s, a)).value;
  }

  lemma SpaceSepFromComplete(s: string, a: nat, m: nat)
    requires a <= m <= |s| && SpacesBetween(s, a, m) && SepFrom(s, m).Some?
    ensures SpaceSepFrom(s, a).Some?
  {
    SkipSpacesPast(s, a, m);
    assert SepMatches(s)(m);
    LastWhereSpec(SepMatches(s), a, SkipSpaces(s, a));
  }

  lemma ParenFromSound(s: string, a: nat) returns (b: nat)
    requires a <= |s| && ParenFrom(s, a).Some?
    ensures b == a || (b == a + 1 && a < |s| && s[a] == ')')
    ensures b <= |s| && SpaceSepFrom(s, b) == ParenFrom(s, a)
  {
    if a < |s| && s[a] == ')' && SpaceSepFrom(s, a + 1).Some? {
      b := a + 1;
    } else {
      b := a;
    }
  }

  lemma ParenFromComplete(s: string, a: nat, b: nat)
    requires b <= |s|
    requires b == a || (b == a + 1 && a < |s| && s[a] == ')')
    requires SpaceSepFrom(s, b).Some?
    ensures ParenFrom(s, a).Some?
  {
    if a < |s| && s[a] == ')' && SpaceSepFrom(s, a + 1).Some? {
      assert ParenFrom(s, a) == SpaceSepFrom(s, a + 1);
    } else {
      assert ParenFrom(s, a) == SpaceSepFrom(s, a);
    }
  }

  /** What the line matcher finds is a genuine match of the pattern. */
  lemma MatchLineSound(s: string) returns (g: Groups)
    requires MatchLine(s).Some?
    ensures IsLineMatch(s, g)
    ensures g.digits == MatchLine(s).value.digits && g.restFrom == MatchLine(s).value.restFrom
  {
    var k := MatchLine(s).value.digits;
    var a := ParenFromSound(s, k);
    var m := SpaceSepFromSound(s, a);
    var b := SepFromSound(s, m);
    RestFromSound(s, b);
    g := Groups(k, a, m, b, RestFrom(s, b).value);
  }

  /** Whenever the line matches the pattern, the matcher finds a match, and its rank has
      at least as many digits as that match's (the engine tries the longest run first). */
  lemma MatchLineComplete(s: string, g: Groups)
    requires IsLineMatch(s, g)
    ensures MatchLine(s).Some? && MatchLine(s).value.digits >= g.digits
  {
    RestFromComplete(s, g.afterSep, g.restFrom);
    SepFromComplete(s, g.sepAt, g.afterSep);
    SpaceSepFromComplete(s, g.afterParen, g.sepAt);
    ParenFromComplete(s, g.digits, g.afterParen);
    DigitRunPast(s, 0, 3, g.digits);
    assert ParenMatches(s)(g.digits);
    LastWhereSpec(ParenMatches(s), 1, DigitRunEnd(s, 0, 3));
  }

  // ------------------------------------------------------------------ splitting

  /** A field that `split(/\s+-\s+/)` gives back intact: non-empty, no white space at
      either end, and no `-` right after white space. */
  predicate CleanField(x: string)
  {
    && x != [] && !IsSpace(x[0]) && !IsSpace(x[|x| - 1])
    && forall k :: 0 < k < |x| && x[k] == '-' ==> !IsSpace(x[k - 1])
  }

  /** The fields written with ` - ` between them. */
  function JoinDash(fields: seq<string>): string
  {
    if fields == [] then "" else if |fields| == 1 then fields[0] else fields[0] + " - " + JoinDash(fields[1..])
  }

  /** SkipSpaces stops at or before a non-space character. */
  lemma {:induction false} SkipSpacesStops(s: string, i: nat, j: nat)
    requires i <= j < |s| && !IsSpace(s[j])
    ensures SkipSpaces(s, i) <= j
    decreases j - i
  {
    if i < j && IsSpace(s[i]) {
      SkipSpacesStops(s, i + 1, j);
    }
  }

  /** Inside a clean field no separator starts. */
  lemma NoDashInField(s: string, p: nat, x: string, q: nat)
    requires p + |x| <= |s| && s[p..p + |x|] == x && CleanField(x)
    requires p <= q < p + |x|
    ensures DashSepAt(s, q).None?
  {
    if IsSpace(s[q]) {
      assert s[p + |x| - 1] == x[|x| - 1];
      SkipSpacesStops(s, q, p + |x| - 1);
      var e := SkipSpaces(s, q);
      assert q < e;
      assert IsSpace(s[e - 1]);
      assert s[e - 1] == x[e - 1 - p] && s[e] == x[e - p];
    }
  }

  /** Scanning a clean field finds no separator before its end. */
  lemma {:induction false} ScanField(s: string, p: nat, x: string, q: nat)
    requires p + |x| <= |s| && s[p..p + |x|] == x && CleanField(x)
    requires p <= q <= p + |x|
    ensures SplitDashFrom(s, p, q) == SplitDashFrom(s, p, p + |x|)
    decreases p + |x| - q
  {
    if q < p + |x| {
      NoDashInField(s, p, x, q);
      ScanField(s, p, x, q + 1);
    }
  }

  /** The ` - ` written after a field is matched as one separator. */
  lemma DashAfterField(s: string, q: nat, rest: string)
    requires q <= |s| && s[q..] == " - " + rest && rest != [] && !IsSpace(rest[0])
    ensures DashSepAt(s, q) == Some(q + 3)
  {
    assert s[q] == ' ' && s[q + 1] == '-' && s[q + 2] == ' ' && s[q + 3] == rest[0];
    SkipSpacesAt(s, q, q + 1);
    SkipSpacesAt(s, q + 2, q + 3);
  }

  /** Joined clean fields start with the first field's first character. */
  lemma JoinDashHead(fields: seq<string>)
    requires |fields| >= 1 && fields[0] != []
    ensures JoinDash(fields) != [] && JoinDash(fields)[0] == fields[0][0]
  {
    if |fields| > 1 {
      assert JoinDash(fields) == fields[0] + " - " + JoinDash(fields[1..]);
    }
  }

  /** Splitting the joined clean fields gives them back. */
  lemma {:induction false} SplitDashJoin(s: string, p: nat, fields: seq<string>)
    requires p <= |s| && s[p..] == JoinDash(fields)
    requires |fields| >= 1 && forall k :: 0 <= k < |fields| ==> CleanField(fields[k])
    ensures SplitDashFrom(s, p, p) == fields
    decreases |fields|
  {
    var x := fields[0];
    var q := p + |x|;
    if |fields| == 1 {
      assert s[p..] == x;
      ScanField(s, p, x, p);
    } else {
      var rest := JoinDash(fields[1..]);
      JoinDashCut(s, p, fields);
      ScanField(s, p, x, p);
      assert CleanField(fields[1]);
      JoinDashHead(fields[1..]);
      DashAfterField(s, q, rest);
      assert s[q + 3..] == rest;
      SplitDashJoin(s, q + 3, fields[1..]);
      assert SplitDashFrom(s, p, p) == [x] + SplitDashFrom(s, q + 3, q + 3);
    }
  }

  /** Where joined fields start at p, the first field and then ` - ` and the rest follow. */
  lemma JoinDashCut(s: string, p: nat, fields: seq<string>)
    requires p <= |s| && s[p..] == JoinDash(fields) && |fields| >= 2
    ensures p + |fields[0]| <= |s| && s[p..p + |fields[0]|] == fields[0]
    ensures s[p + |fields[0]|..] == " - " + JoinDash(fields[1..])
  {
    var x, rest := fields[0], JoinDash(fields[1..]);
    assert s[p..] == x + " - " + rest;
    assert s[p..p + |x|] == s[p..][..|x|];
    assert s[p + |x|..] == s[p..][|x|..];
  }

  /** `split(/\s+-\s+/)` is the inverse of joining clean fields with ` - `. */
  lemma SplitDashRoundTrip(fields: seq<string>)
    requires |fields| >= 1 && forall k :: 0 <= k < |fields| ==> CleanField(fields[k])
    ensures SplitDash(JoinDash(fields)) == fields
  {
    SplitDashJoin(JoinDash(fields), 0, fields);
  }

  /** The pieces of `split(/\n|\r/)` hold no line break. */
  lemma {:induction false} SplitLinesNoBreak(s: string, p: nat, q: nat)
    requires p <= q <= |s| && forall k :: p <= k < q ==> !IsLineBreak(s[k])
    ensures forall i, k :: 0 <= i < |SplitLinesFrom(s, p, q)| && 0 <= k < |SplitLinesFrom(s, p, q)[i]| ==>
      !IsLineBreak(SplitLinesFrom(s, p, q)[i][k])
    decreases |s| - q
  {
    if q < |s| {
      if IsLineBreak(s[q]) {
        SplitLinesNoBreak(s, q + 1, q + 1);
      } else {
        SplitLinesNoBreak(s, p, q + 1);
      }
    }
  }

  /** The text is the pieces with one line break between each two. */
  lemma {:induction false} SplitLinesCount(s: string, p: nat, q: nat)
    requires p <= q <= |s|
    ensures |SplitLinesFrom(s, p, q)| == 1 + |set k | q <= k < |s| && IsLineBreak(s[k])|
    decreases |s| - q
  {
    if q < |s| {
      var later := set k | q + 1 <= k < |s| && IsLineBreak(s[k]);
      var here := set k | q <= k < |s| && IsLineBreak(s[k]);
      if IsLineBreak(s[q]) {
        SplitLinesCount(s, q + 1, q + 1);
        assert here == later + {q};
      } else {
        SplitLinesCount(s, p, q + 1);
        assert here == later;
      }
    }
  }

  // ------------------------------------------------------------------ records

  /** Joined fields with no line terminator keep none. */
  lemma {:induction false} JoinDashNoLineTerminator(fields: seq<string>)
    requires forall k :: 0 <= k < |fields| ==> NoLineTerminator(fields[k])
    ensures NoLineTerminator(JoinDash(fields))
    decreases |fields|
  {
    if |fields| > 1 {
      JoinDashNoLineTerminator(fields[1..]);
      var r := JoinDash(fields[1..]);
      var t := fields[0] + " - " + r;
      forall k | 0 <= k < |t| ensures !IsLineTerminator(t[k]) {
        if k >= |fields[0]| + 3 {
          assert t[k] == r[k - |fields[0]| - 3];
        }
      }
    }
  }

  /** The pattern matches `N) ` followed by a rest that starts with neither white space
      nor a separator character: the rank is all of N and the rest starts right after. */
  lemma MatchNumberedLine(s: string, d: string, rest: string)
    requires 1 <= |d| <= 3 && AllDigits(d) && rest != [] && !IsSpace(rest[0]) && !IsSepChar(rest[0])
    requires NoLineTerminator(rest) && s == d + ") " + rest
    ensures MatchLine(s) == Some(LineMatch(|d|, |d| + 2))
  {
    var n := |d|;
    assert s[..n] == d && s[n] == ')' && s[n + 1] == ' ' && s[n + 2] == rest[0] && s[n + 2..] == rest;
    DigitRunEndAt(s, 0, 3, n);
    SkipSpacesAt(s, n + 1, n + 2);
    SkipSpacesAt(s, n + 2, n + 2);
    assert TailOk(s, n + 2);
    assert RestFrom(s, n + 2) == Some(n + 2);
    assert SepFrom(s, n + 2) == Some(n + 2);
    assert SepMatches(s)(n + 2);
    assert SpaceSepFrom(s, n + 1) == Some(n + 2);
    assert ParenFrom(s, n) == Some(n + 2);
    assert ParenMatches(s)(n);
  }

  /** A line `N) Name - Pos - School - College` (N below 1000; up to three further
      clean fields) gives the record with rank N and those fields, in order. */
  lemma FreeformLine(line: string, n: nat, fields: seq<string>)
    requires n < 1000 && 1 <= |fields| <= 4
    requires forall k :: 0 <= k < |fields| ==> CleanField(fields[k]) && NoLineTerminator(fields[k])
    requires fields[0] != [] && !IsSepChar(fields[0][0])
    requires line == NatToString(n) + ") " + JoinDash(fields)
    ensures LinePlayer(line) == Some(Player(
      Some(n), fields[0],
      if |fields| > 1 then Some(fields[1]) else None,
      None,
      if |fields| > 2 then Some(fields[2]) else None,
      if |fields| > 3 then Some(fields[3]) else None,
      None, None))
  {
    var d := NatToString(n);
    var rest := JoinDash(fields);
    NatToStringSmall(n);
    JoinDashHead(fields);
    JoinDashNoLineTerminator(fields);
    MatchNumberedLine(line, d, rest);
    var m := LineMatch(|d|, |d| + 2);
    assert line[m.restFrom..] == rest;
    assert line[..m.digits] == d;
    DecimalOfNatToString(n);
    assert LineRank(line, m) == n;
    SplitDashRoundTrip(fields);
    forall k | 0 <= k < |fields| ensures Trim(fields[k]) == fields[k] {
      TrimUnchanged(fields[k]);
    }
    LinePlayerOf(line, m, fields);
  }

  /** LinePlayer once the match and the split are known. */
  lemma LinePlayerOf(line: string, m: LineMatch, parts: seq<string>)
    requires MatchLine(line) == Some(m) && SplitDash(line[m.restFrom..]) == parts
    requires 1 <= |parts| <= 4 && Trim(parts[0]) != []
    ensures LinePlayer(line) == Some(Player(
      Some(LineRank(line, m)), Trim(parts[0]), PartAt(parts, 1), None, PartAt(parts, 2), PartAt(parts, 3), None, None))
  {
  }

  /** The rank of a freeform line is always present and has one to three digits. */
  lemma LinePlayerRanked(line: string)
    ensures LinePlayer(line).Some? ==> LinePlayer(line).value.rank.Some? && LinePlayer(line).value.rank.value < 1000
    ensures LinePlayer(line).Some? ==> LinePlayer(line).value.name != [] && MatchLine(line).Some?
  {
    if MatchLine(line).Some? {
      var m := MatchLine(line).value;
      DecimalBelow(line[..m.digits]);
    }
  }

  // ------------------------------------------------------------------ table-row properties

  /** A record field taken from cell k: present exactly when the row has that cell and
      its trimmed text is non-empty, and then that text. */
  predicate CellField(f: Option<string>, cells: seq<string>, k: nat)
  {
    (f.Some? <==> k < |cells| && Trim(cells[k]) != []) && (f.Some? ==> f.value == Trim(cells[k]))
  }

  /** Rows with fewer than two cells or an empty second cell give nothing; otherwise the
      name is the second cell, the rank the digits of the first (None exactly when it has
      no digit), and cells 2 to 5 give position, height, school and college. */
  lemma TableRowPlayerSpec(row: TableRow)
    ensures TableRowPlayer(row).Some? <==> |row.cells| >= 2 && Trim(row.cells[1]) != []
    ensures TableRowPlayer(row).Some? ==>
      var p := TableRowPlayer(row).value;
      && p.name == Trim(row.cells[1])
      && p.rank == IntOfDigits(Trim(row.cells[0]))
      && (p.rank.None? <==> forall k :: 0 <= k < |Trim(row.cells[0])| ==> !IsDigit(Trim(row.cells[0])[k]))
      && CellField(p.position, row.cells, 2)
      && CellField(p.height, row.cells, 3)
      && CellField(p.highSchool, row.cells, 4)
      && CellField(p.committedCollege, row.cells, 5)
  {
  }

  /** Image sources that are missing or empty are skipped. */
  lemma {:induction false} ImageUrlsSkip(a: seq<Option<string>>, b: seq<Option<string>>)
    requires forall k :: 0 <= k < |a| ==> !Truthy(a[k])
    ensures ImageUrls(a + b) == ImageUrls(b)
    decreases |a|
  {
    if a != [] {
      assert (a + b)[1..] == a[1..] + b;
      ImageUrlsSkip(a[1..], b);
    } else {
      assert a + b == b;
    }
  }

  /** Every kept image URL is non-empty, and there are no more of them than sources. */
  lemma {:induction false} ImageUrlsNonEmpty(srcs: seq<Option<string>>)
    ensures |ImageUrls(srcs)| <= |srcs|
    ensures forall k :: 0 <= k < |ImageUrls(srcs)| ==> ImageUrls(srcs)[k] != []
    decreases |srcs|
  {
    if srcs != [] {
      ImageUrlsNonEmpty(srcs[1..]);
    }
  }

  /** The first usable image source is the player image and the second one the college logo. */
  lemma TableRowImages(row: TableRow, pre: seq<Option<string>>, x: string, mid: seq<Option<string>>, y: string, post: seq<Option<string>>)
    requires |row.cells| >= 2 && Trim(row.cells[1]) != []
    requires row.imgSrcs == pre + [Some(x)] + mid + [Some(y)] + post
    requires x != [] && y != []
    requires forall k :: 0 <= k < |pre| ==> !Truthy(pre[k])
    requires forall k :: 0 <= k < |mid| ==> !Truthy(mid[k])
    ensures TableRowPlayer(row).Some?
    ensures TableRowPlayer(row).value.playerImageUrl == Some(x)
    ensures TableRowPlayer(row).value.collegeLogoUrl == Some(y)
  {
    var tail := [Some(y)] + post;
    assert row.imgSrcs == pre + ([Some(x)] + (mid + tail));
    ImageUrlsSkip(pre, [Some(x)] + (mid + tail));
    assert ([Some(x)] + (mid + tail))[1..] == mid + tail;
    ImageUrlsSkip(mid, tail);
    assert tail[1..] == post;
    assert ImageUrls(row.imgSrcs) == [x] + ([y] + ImageUrls(post));
  }

  /** A row whose only usable image source is x gets x as player image and no college logo. */
  lemma TableRowOneImage(row: TableRow, pre: seq<Option<string>>, x: string, post: seq<Option<string>>)
    requires |row.cells| >= 2 && Trim(row.cells[1]) != []
    requires row.imgSrcs == pre + [Some(x)] + post && x != []
    requires forall k :: 0 <= k < |pre| ==> !Truthy(pre[k])
    requires forall k :: 0 <= k < |post| ==> !Truthy(post[k])
    ensures TableRowPlayer(row).Some?
    ensures TableRowPlayer(row).value.playerImageUrl == Some(x)
    ensures TableRowPlayer(row).value.collegeLogoUrl.None?
  {
    assert row.imgSrcs == pre + ([Some(x)] + post);
    ImageUrlsSkip(pre, [Some(x)] + post);
    assert ([Some(x)] + post)[1..] == post;
    ImageUrlsSkip(post, []);
    assert post + [] == post;
    assert ImageUrls(row.imgSrcs) == [x];
  }

  // ------------------------------------------------------------------ output properties

  /** No two output records share a `rank|name` key: equal ranks come with names that
      differ even lower-cased. */
  lemma ParsedPlayersDistinct(sections: seq<Section>)
    ensures var out := ParsedPlayers(sections);
      forall a, b :: 0 <= a < b < |out| ==> !(out[a].rank == out[b].rank && Lower(out[a].name) == Lower(out[b].name))
  {
    var all := Collected(sections, |sections|);
    var out := ParsedPlayers(sections);
    assert out == FirstOccurrences(all, PlayerKey, |all|);
    FirstOccurrencesDistinctKeys(all, PlayerKey);
    forall a, b | 0 <= a < b < |out|
      ensures !(out[a].rank == out[b].rank && Lower(out[a].name) == Lower(out[b].name))
    {
      assert PlayerKey(out[a]) != PlayerKey(out[b]);
      DedupKeyInjective(out[a].rank, out[a].name, out[b].rank, out[b].name);
    }
  }

  /** Every collected record's rank and lower-cased name is kept by some output record. */
  lemma ParsedPlayersCover(sections: seq<Section>)
    ensures var all, out := Collected(sections, |sections|), ParsedPlayers(sections);
      forall i :: 0 <= i < |all| ==>
        exists k :: 0 <= k < |out| && out[k].rank == all[i].rank && Lower(out[k].name) == Lower(all[i].name)
  {
    var all := Collected(sections, |sections|);
    var out := ParsedPlayers(sections);
    assert out == FirstOccurrences(all, PlayerKey, |all|);
    forall i | 0 <= i < |all|
      ensures exists k :: 0 <= k < |out| && out[k].rank == all[i].rank && Lower(out[k].name) == Lower(all[i].name)
    {
      var k := KeptWithKey(all, PlayerKey, i);
      DedupKeyInjective(out[k].rank, out[k].name, all[i].rank, all[i].name);
    }
  }
}
