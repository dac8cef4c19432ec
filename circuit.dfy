// The circuit ingester: the circuit-rankings page is fetched and parsed, the text of each
// row's circuit cell is split into a team name, a circuit and a placement, the rows are
// aggregated by team name (one entry per team, carrying per-season maps keyed by the page's
// season key), and each entry is then written to `circuit_teams`. Stored rows are never
// read: the upsert replaces a team's maps by those built in this run.
module CircuitIngest {
  import opened Wrappers
  import opened Text
  import opened Selection
  import opened Pages
  import opened Grouping
  import Store

  /** One `.divRow` of the circuit table, as already-extracted text. */
  datatype CircuitScrapedRow = CircuitScrapedRow(
    founder: bool,              // the row has class `player-founder`
    rankText: string,           // text of the first `.rank-count` ("" when there is none)
    cells: seq<string>)         // texts of the `.divCell` children

  /** The parsed row (`CircuitRow`); undefined fields are None and a NaN rank is None. */
  datatype CircuitRow = CircuitRow(
    team: string,
    circuit: Option<string>,
    rank: Option<nat>,
    record: Option<string>,
    keyWins: Option<string>,
    placement: Option<string>)

  // ------------------------------------------------------------------ `^(.*)\s*\(([^)]+)\)\s*(.*)$`

  /** A way for `^(.*)\s*\(([^)]+)\)\s*(.*)$` to match: the first group ends at teamEnd, the
      parentheses stand at lparen and rparen, and the third group starts at tailStart. */
  datatype ParenMatch = ParenMatch(teamEnd: nat, lparen: nat, rparen: nat, tailStart: nat)

  /** m matches everything after the first group: `\s*\(([^)]+)\)\s*(.*)$`. */
  predicate ParenRest(s: string, m: ParenMatch)
  {
    && m.teamEnd <= m.lparen && m.lparen + 1 < m.rparen && m.rparen < m.tailStart <= |s|
    && SpacesBetween(s, m.teamEnd, m.lparen) && s[m.lparen] == '('
    && (forall k :: m.lparen < k < m.rparen ==> s[k] != ')') && s[m.rparen] == ')'
    && SpacesBetween(s, m.rparen + 1, m.tailStart) && NoLineTerminator(s[m.tailStart..])
  }

  /** m is a match of the whole pattern: the first group `.*` holds no line terminator. */
  predicate IsParenMatch(s: string, m: ParenMatch)
  {
    ParenRest(s, m) && NoLineTerminator(s[..m.teamEnd])
  }

  function TailAt(s: string): nat -> bool
  {
    (d: nat) => d <= |s| && NoLineTerminator(s[d..])
  }

  /** `\s*(.*)$` from i: the third group starts after as much white space as leaves a rest
      without line terminators. */
  function TailFrom(s: string, i: nat): (d: Option<nat>)
    requires i <= |s|
    ensures d.Some? ==> i <= d.value <= |s| && SpacesBetween(s, i, d.value) && NoLineTerminator(s[d.value..])
  {
    LastWhere(TailAt(s), i, SkipSpaces(s, i))
  }

  function CloseAt(s: string): nat -> bool
  {
    (j: nat) => j < |s| && s[j] == ')'
  }

  /** `([^)]+)\)` from i: the first `)` at or after i, which must leave the group non-empty. */
  function CloseFrom(s: string, i: nat): (c: Option<nat>)
    requires i <= |s|
    ensures c.Some? ==> i < c.value < |s| && s[c.value] == ')' && forall k :: i <= k < c.value ==> s[k] != ')'
  {
    match FirstWhere(CloseAt(s), i, |s|)
    case None => None
    case Some(c) =>
      assert CloseAt(s)(c) && c < |s| && s[c] == ')';
      assert forall k :: i <= k < c ==> (CloseAt(s)(k) <==> s[k] == ')');
      if i < c then Some(c) else None
  }

  /** CloseFrom finds the first `)`. */
  lemma CloseFromAt(s: string, i: nat, c: nat)
    requires i < c < |s| && s[c] == ')' && forall k :: i <= k < c ==> s[k] != ')'
    ensures CloseFrom(s, i) == Some(c)
  {
    assert CloseAt(s)(c);
    var f := FirstWhere(CloseAt(s), i, |s|);
    assert f.Some? && f.value <= c;
    assert f.value == c;
  }

  /** TailFrom goes at least as far as any white-space run after which the rest of the line
      holds no line terminator. */
  lemma TailFromPast(s: string, i: nat, d: nat)
    requires i <= d <= |s| && SpacesBetween(s, i, d) && NoLineTerminator(s[d..])
    ensures TailFrom(s, i).Some? && d <= TailFrom(s, i).value
  {
    SkipSpacesPast(s, i, d);
    LastWhereSpec(TailAt(s), i, SkipSpaces(s, i));
    assert TailAt(s)(d);
  }

  /** The rest of the pattern once the first group ends at a. Its white space runs are
      greedy and `[^)]+` cannot pass a `)`, so each of its parts has one place to go. */
  function ParenAfter(s: string, a: nat): (m: Option<ParenMatch>)
    requires a <= |s|
    ensures m.Some? ==> m.value.teamEnd == a && ParenRest(s, m.value)
  {
    var b := SkipSpaces(s, a);
    if b < |s| && s[b] == '(' then
      match CloseFrom(s, b + 1)
      case None => None
      case Some(c) =>
        match TailFrom(s, c + 1)
        case None => None
        case Some(d) => Some(ParenMatch(a, b, c, d))
    else None
  }

  function ParenEnds(s: string): nat -> bool
  {
    (a: nat) => a <= |s| && NoLineTerminator(s[..a]) && ParenAfter(s, a).Some?
  }

  /** `s.match(/^(.*)\s*\(([^)]+)\)\s*(.*)$/)`: the greedy first group tries the longest
      extent first and gives back one character at a time. */
  function MatchParen(s: string): (m: Option<ParenMatch>)
    ensures m.Some? ==> IsParenMatch(s, m.value)
  {
    match LastWhere(ParenEnds(s), 0, |s|)
    case None => None
    case Some(a) => ParenAfter(s, a)
  }

  /** Once the first group ends, the parentheses of every match are the same, and the one
      found starts the third group as late as any. */
  lemma ParenAfterComplete(s: string, m: ParenMatch)
    requires ParenRest(s, m)
    ensures ParenAfter(s, m.teamEnd).Some?
    ensures var g := ParenAfter(s, m.teamEnd).value;
      g.lparen == m.lparen && g.rparen == m.rparen && m.tailStart <= g.tailStart
  {
    SkipSpacesAt(s, m.teamEnd, m.lparen);
    CloseFromAt(s, m.lparen + 1, m.rparen);
    TailFromPast(s, m.rparen + 1, m.tailStart);
    ParenAfterSteps(s, m.teamEnd, m.lparen, m.rparen);
  }

  /** ParenAfter is its three scans in turn. */
  lemma ParenAfterSteps(s: string, a: nat, b: nat, c: nat)
    requires a <= |s| && SkipSpaces(s, a) == b && b < |s| && s[b] == '('
    requires CloseFrom(s, b + 1) == Some(c) && TailFrom(s, c + 1).Some?
    ensures ParenAfter(s, a) == Some(ParenMatch(a, b, c, TailFrom(s, c + 1).value))
  {
  }

  /** The pattern matches s whenever some way of matching exists, and the match found is the
      greedy one: its first group is as long as any, and for that group its third group
      starts as late as any. */
  lemma MatchParenGreedy(s: string, m: ParenMatch)
    requires IsParenMatch(s, m)
    ensures MatchParen(s).Some?
    ensures var g := MatchParen(s).value;
      && m.teamEnd <= g.teamEnd
      && (m.teamEnd == g.teamEnd ==> g.lparen == m.lparen && g.rparen == m.rparen && m.tailStart <= g.tailStart)
  {
    ParenAfterComplete(s, m);
    assert ParenEnds(s)(m.teamEnd);
    LastWhereSpec(ParenEnds(s), 0, |s|);
  }

  // ------------------------------------------------------------------ placements

  /** The placement words, as the pattern spells them. */
  predicate IsPlacement(w: string)
  {
    w == "Champion" || w == "Runner Up" || w == "Final 4" || w == "Elite 8" || w == "Sweet 16"
  }

  /** `/(Champion|Runner Up|Final 4|Elite 8|Sweet 16)/i.test(t)`. */
  predicate NamesPlacement(t: string)
  {
    ContainsCI(t, "Champion") || ContainsCI(t, "Runner Up") || ContainsCI(t, "Final 4")
      || ContainsCI(t, "Elite 8") || ContainsCI(t, "Sweet 16")
  }

  /** The placement word w, in any case, is all of s from a on. */
  predicate PlacementEndsAt(s: string, a: nat, w: string)
  {
    a + |w| == |s| && MatchesAtCI(s, a, w)
  }

  /** `(Champion|Runner Up|Final 4|Elite 8|Sweet 16)$` with the `/i` flag matches at a. */
  predicate PlacementAt(s: string, a: nat)
  {
    PlacementEndsAt(s, a, "Champion") || PlacementEndsAt(s, a, "Runner Up") || PlacementEndsAt(s, a, "Final 4")
      || PlacementEndsAt(s, a, "Elite 8") || PlacementEndsAt(s, a, "Sweet 16")
  }

  function LazyEnds(s: string): nat -> bool
  {
    (a: nat) => a <= |s| && NoLineTerminator(s[..a]) && (a == |s| || PlacementAt(s, a))
  }

  /** `s.match(/^(.*?)(Champion|Runner Up|Final 4|Elite 8|Sweet 16)?$/i)`: where the lazy
      first group ends. At each extent the optional placement is tried before the end of
      the text, and the first extent that lets the rest match wins. */
  function MatchLazy(s: string): (a: Option<nat>)
    ensures a.Some? ==> a.value <= |s| && NoLineTerminator(s[..a.value])
  {
    FirstWhere(LazyEnds(s), 0, |s|)
  }

  // ------------------------------------------------------------------ the circuit cell

  /** What the circuit cell yields: the team, and the circuit and placement if found. */
  datatype CircuitParts = CircuitParts(team: string, circuit: Option<string>, placement: Option<string>)

  /** The split of the (trimmed) circuit cell text s. With parentheses, the team is what
      precedes them, the circuit what they enclose, and what follows is the placement when
      it names one. Otherwise the team is what precedes a placement word ending the text (the
      whole text when that would be empty), and a text that even the lazy pattern cannot
      match, because it holds a line terminator, is all team. */
  function SplitCircuit(s: string): CircuitParts
  {
    match MatchParen(s)
    case Some(m) =>
      var tail := Trim(s[m.tailStart..]);
      CircuitParts(Trim(s[..m.teamEnd]), Some(Trim(s[m.lparen + 1..m.rparen])),
                   if NamesPlacement(tail) then Some(tail) else None)
    case None =>
      match MatchLazy(s)
      case None => CircuitParts(s, None, None)
      case Some(a) =>
        CircuitParts(Trim(if a == 0 then s else s[..a]), None, if a < |s| then Some(Trim(s[a..])) else None)
  }

  /** The row, or None when the row is skipped. */
  function CircuitRowOf(row: CircuitScrapedRow): Option<CircuitRow>
  {
    var parts := SplitCircuit(CellText(row.cells, 1));
    if row.founder || parts.team == [] then None
    else Some(CircuitRow(parts.team, parts.circuit, RankFromText(row.rankText), NonEmpty(CellText(row.cells, 2)),
                         NonEmpty(CellText(row.cells, 3)), parts.placement))
  }

  function CircuitRowParser(): CircuitScrapedRow -> Option<CircuitRow>
  {
    (row: CircuitScrapedRow) => CircuitRowOf(row)
  }

  /** `parseCircuitTable`: the rows kept, in table order. */
  function CircuitRows(rows: seq<CircuitScrapedRow>): seq<CircuitRow>
  {
    Kept(rows, CircuitRowParser(), |rows|)
  }

  method ParseCircuitTable(rows: seq<CircuitScrapedRow>) returns (items: seq<CircuitRow>)
    ensures items == CircuitRows(rows)
  {
    items := [];
    for i := 0 to |rows|
      invariant items == Kept(rows, CircuitRowParser(), i)
    {
      var row := rows[i];
      if row.founder {
        assert CircuitRowParser()(row).None?;
        assert items == Kept(rows, CircuitRowParser(), i + 1);
        continue;
      }
      var rank := RankFromText(row.rankText);
      var team, circuit, placement := SplitCell(CellText(row.cells, 1));
      var record := NonEmpty(CellText(row.cells, 2));
      var keyWins := NonEmpty(CellText(row.cells, 3));
      if team == [] {
        assert CircuitRowParser()(row).None?;
        assert items == Kept(rows, CircuitRowParser(), i + 1);
        continue;
      }
      assert CircuitRowParser()(row) == Some(CircuitRow(team, circuit, rank, record, keyWins, placement));
      items := items + [CircuitRow(team, circuit, rank, record, keyWins, placement)];
      assert items == Kept(rows, CircuitRowParser(), i + 1);
    }
  }

  /** The text of the circuit cell split as the loop body does it, starting from the whole
      text as the team and overwriting it when a pattern matches. */
  method SplitCell(circuitText: string) returns (team: string, circuit: Option<string>, placement: Option<string>)
    ensures CircuitParts(team, circuit, placement) == SplitCircuit(circuitText)
  {
    team, circuit, placement := circuitText, None, None;
    var paren := MatchParen(circuitText);
    if paren.Some? {
      var m := paren.value;
      team := Trim(circuitText[..m.teamEnd]);
      circuit := Some(Trim(circuitText[m.lparen + 1..m.rparen]));
      var tail := Trim(circuitText[m.tailStart..]);
      if NamesPlacement(tail) {
        placement := Some(tail);
      }
    } else {
      var lazy := MatchLazy(circuitText);
      if lazy.Some? {
        var a := lazy.value;
        team := Trim(if a == 0 then circuitText else circuitText[..a]);
        placement := if a < |circuitText| then Some(Trim(circuitText[a..])) else None;
      }
    }
  }

  // ------------------------------------------------------------------ properties of the split

  /** A row is kept exactly when it is no founder row and its circuit cell yields a team;
      the rank is None exactly when the trimmed rank text has no digit, and the record and
      key wins are the trimmed cells 2 and 3, undefined when blank. */
  lemma CircuitRowOfSpec(row: CircuitScrapedRow)
    ensures var parts := SplitCircuit(CellText(row.cells, 1));
      && (CircuitRowOf(row).Some? <==> !row.founder && parts.team != [])
      && (CircuitRowOf(row).Some? ==>
            var r := CircuitRowOf(row).value;
            && r.team == parts.team && r.circuit == parts.circuit && r.placement == parts.placement
            && (r.rank.None? <==> DigitsOf(Trim(row.rankText)) == [])
            && (r.record.Some? <==> CellText(row.cells, 2) != [])
            && (r.record.Some? ==> r.record.value == CellText(row.cells, 2))
            && (r.keyWins.Some? <==> CellText(row.cells, 3) != [])
            && (r.keyWins.Some? ==> r.keyWins.value == CellText(row.cells, 3)))
  {
    var t := Trim(row.rankText);
    if t == [] {
      assert DigitsOf(t) == [];
    }
  }

  /** The table yields the kept rows in order, one per row at most; every item names a team
      and none comes from a founder row. */
  lemma CircuitRowsSpec(rows: seq<CircuitScrapedRow>) returns (src: seq<nat>)
    ensures |src| == |CircuitRows(rows)| <= |rows|
    ensures forall k :: 0 <= k < |src| ==>
      src[k] < |rows| && !rows[src[k]].founder && CircuitRowOf(rows[src[k]]) == Some(CircuitRows(rows)[k])
    ensures forall k, l :: 0 <= k < l < |src| ==> src[k] < src[l]
    ensures forall i :: 0 <= i < |rows| && CircuitRowOf(rows[i]).Some? ==> i in src
    ensures forall k :: 0 <= k < |CircuitRows(rows)| ==> CircuitRows(rows)[k].team != []
  {
    src := KeptFromRows(rows, CircuitRowParser(), |rows|);
    forall k | 0 <= k < |CircuitRows(rows)| ensures CircuitRows(rows)[k].team != [] {
      assert CircuitRowParser()(rows[src[k]]) == Some(CircuitRows(rows)[k]);
    }
  }

  /** The pieces of `t (c)` + sp + k where the round trip needs them: a match of the
      pattern with the parentheses around c, no `(` after that one, and the text from the
      third group on not starting with white space. */
  lemma ParenCellFacts(s: string, t: string, c: string, sp: string, k: string)
    requires s == t + " (" + c + ")" + sp + k
    requires NoLineTerminator(t)
    requires c != [] && forall i :: 0 <= i < |c| ==> c[i] != '(' && c[i] != ')'
    requires AllSpace(sp)
    requires NoLineTerminator(k) && (k == [] || !IsSpace(k[0])) && forall i :: 0 <= i < |k| ==> k[i] != '('
    ensures var a := |t| + 1;
      var r := a + 1 + |c|;
      var d := r + 1 + |sp|;
      && d <= |s| && s[..a] == t + " " && s[a + 1..r] == c && s[d..] == k
      && IsParenMatch(s, ParenMatch(a, a, r, d))
      && (forall i :: a < i < |s| ==> s[i] != '(')
      && (d == |s| || !IsSpace(s[d]))
  {
    var a := |t| + 1;
    var r := a + 1 + |c|;
    var d := r + 1 + |sp|;
    assert s[..a] == t + " ";
    assert s[a] == '(' && s[r] == ')';
    assert s[a + 1..r] == c;
    assert s[r + 1..d] == sp;
    assert s[d..] == k;
    forall i | a < i < |s| ensures s[i] != '(' && (i < r ==> s[i] != ')') && (r < i < d ==> IsSpace(s[i])) {
      if i < r {
        assert s[i] == c[i - a - 1];
      } else if r < i < d {
        assert s[i] == sp[i - r - 1];
      } else if d <= i {
        assert s[i] == k[i - d];
      }
    }
    if d < |s| {
      assert s[d] == k[0];
    }
  }

  /** `Team (Circuit) Placement`: a cell of a team, a parenthesised circuit and a tail splits
      back into the trimmed team, the trimmed circuit, and the tail as placement when it
      names one. The team may itself hold parentheses; the last pair is the circuit. */
  lemma ParenRoundTrip(t: string, c: string, sp: string, k: string)
    requires NoLineTerminator(t)
    requires c != [] && forall i :: 0 <= i < |c| ==> c[i] != '(' && c[i] != ')'
    requires AllSpace(sp)
    requires NoLineTerminator(k) && (k == [] || !IsSpace(k[0])) && forall i :: 0 <= i < |k| ==> k[i] != '('
    ensures var p := SplitCircuit(t + " (" + c + ")" + sp + k);
      && p.team == Trim(t) && p.circuit == Some(Trim(c))
      && p.placement == if NamesPlacement(Trim(k)) then Some(Trim(k)) else None
  {
    var s := t + " (" + c + ")" + sp + k;
    var a := |t| + 1;
    var r := a + 1 + |c|;
    var d := r + 1 + |sp|;
    ParenCellFacts(s, t, c, sp, k);
    var m := ParenMatch(a, a, r, d);
    MatchParenGreedy(s, m);
    var g := MatchParen(s).value;
    assert g.teamEnd == a by {
      assert s[g.lparen] == '(';
    }
    assert g.tailStart == d by {
      assert SpacesBetween(s, r + 1, g.tailStart);
    }
    assert g == m;
    TrimAppendSpaces(t, " ");
  }

  /** A text without `(` does not match the parenthesis pattern. */
  lemma NoParenNoMatch(s: string)
    requires forall i :: 0 <= i < |s| ==> s[i] != '('
    ensures MatchParen(s).None?
  {
  }

  /** If a placement word w of at least one letter ends s at a0, then every word that ends
      s at an earlier a is longer than w and, ignoring case, ends with w's first letter
      where w starts. */
  lemma EarlierEndsAgree(s: string, a0: nat, w: string, a: nat)
    requires PlacementEndsAt(s, a0, w) && w != [] && a < a0
    ensures forall v :: PlacementEndsAt(s, a, v) ==>
      |v| > |w| && LowerChar(v[|v| - |w|]) == LowerChar(w[0])
  {
    assert LowerChar(s[a0 + 0]) == LowerChar(w[0]);
    forall v | PlacementEndsAt(s, a, v) ensures |v| > |w| && LowerChar(v[|v| - |w|]) == LowerChar(w[0]) {
      assert a + (|v| - |w|) == a0;
      assert LowerChar(s[a + (|v| - |w|)]) == LowerChar(v[|v| - |w|]);
    }
  }

  /** Some placement word ends s at a0, and no other match of the alternation starts earlier:
      no placement word ends with another one, ignoring case. */
  lemma NoEarlierPlacement(s: string, a0: nat, w: string, a: nat)
    requires IsPlacement(w) && PlacementEndsAt(s, a0, w) && a < a0
    ensures !PlacementAt(s, a)
  {
    EarlierEndsAgree(s, a0, w, a);
  }

  /** A placement word ending s after a first group without line terminators is the lazy
      match: no shorter first group lets the rest match. */
  lemma LazyMatchAt(s: string, a0: nat, w: string)
    requires IsPlacement(w) && PlacementEndsAt(s, a0, w) && NoLineTerminator(s[..a0])
    ensures MatchLazy(s) == Some(a0)
  {
    assert LazyEnds(s)(a0);
    forall a: nat | a < a0 ensures !LazyEnds(s)(a) {
      NoEarlierPlacement(s, a0, w, a);
    }
  }

  /** The pieces of t + sp + w where the round trip needs them. */
  lemma LazyCellFacts(s: string, t: string, sp: string, w: string)
    requires s == t + sp + w
    requires NoLineTerminator(t) && forall i :: 0 <= i < |t| ==> t[i] != '('
    requires forall i :: 0 <= i < |sp| ==> sp[i] == ' '
    requires IsPlacement(w)
    ensures var a0 := |t| + |sp|;
      && s[..a0] == t + sp && s[a0..] == w
      && (forall i :: 0 <= i < |s| ==> s[i] != '(')
      && NoLineTerminator(s[..a0])
      && PlacementEndsAt(s, a0, w)
  {
    var a0 := |t| + |sp|;
    assert s[..a0] == t + sp;
    assert s[a0..] == w;
    LazyCellChars(s, t, sp, w);
    LazyCellEnd(s, a0, w);
  }

  lemma LazyCellChars(s: string, t: string, sp: string, w: string)
    requires s == t + sp + w
    requires NoLineTerminator(t) && forall i :: 0 <= i < |t| ==> t[i] != '('
    requires forall i :: 0 <= i < |sp| ==> sp[i] == ' '
    requires IsPlacement(w)
    ensures forall i :: 0 <= i < |s| ==> s[i] != '(' && (i < |t| + |sp| ==> !IsLineTerminator(s[i]))
  {
    var a0 := |t| + |sp|;
    assert forall i :: 0 <= i < |w| ==> w[i] != '(';
    forall i | 0 <= i < |s| ensures s[i] != '(' && (i < a0 ==> !IsLineTerminator(s[i])) {
      if i < |t| {
        assert s[i] == t[i];
      } else if i < a0 {
        assert s[i] == sp[i - |t|];
      } else {
        assert s[i] == w[i - a0];
      }
    }
  }

  lemma LazyCellEnd(s: string, a0: nat, w: string)
    requires a0 <= |s| && s[a0..] == w
    ensures PlacementEndsAt(s, a0, w)
  {
    forall i | 0 <= i < |w| ensures LowerChar(s[a0 + i]) == LowerChar(w[i]) {
      assert s[a0 + i] == w[i];
    }
  }

  /** `Team Placement` without parentheses: the fallback splits off the placement word, and
      the team is the trimmed text before it, or the whole text when nothing precedes it. */
  lemma LazyRoundTrip(t: string, sp: string, w: string)
    requires NoLineTerminator(t) && forall i :: 0 <= i < |t| ==> t[i] != '('
    requires forall i :: 0 <= i < |sp| ==> sp[i] == ' '
    requires IsPlacement(w)
    ensures SplitCircuit(t + sp + w) == CircuitParts(if t + sp == [] then w else Trim(t), None, Some(w))
  {
    var s := t + sp + w;
    var a0 := |t| + |sp|;
    LazyCellFacts(s, t, sp, w);
    NoParenNoMatch(s);
    LazyMatchAt(s, a0, w);
    PlacementTrimmed(w);
    assert SplitCircuit(s) == CircuitParts(Trim(if a0 == 0 then s else s[..a0]), None, Some(Trim(s[a0..])));
    if a0 > 0 {
      assert AllSpace(sp);
      TrimAppendSpaces(t, sp);
    } else {
      assert s == w;
    }
  }

  /** The placement words have no white space at either end. */
  lemma PlacementTrimmed(w: string)
    requires IsPlacement(w)
    ensures w != [] && Trim(w) == w
  {
    assert !IsSpace(w[0]) && !IsSpace(w[|w| - 1]);
    TrimUnchanged(w);
  }

  // ------------------------------------------------------------------ aggregation by team

  type CircuitPage = Page<CircuitScrapedRow>

  /** One parsed row, with the page it came from. */
  type Contribution = Tagged<CircuitRow>

  /** The value of `byTeam` for one team. */
  datatype TeamEntry = TeamEntry(
    team: string,
    circuit: Option<string>,
    ranks: map<string, nat>,
    records: map<string, string>,
    keyWins: map<string, string>,
    placements: map<string, string>,
    sources: set<string>)

  /** The `byTeam` map. */
  type ByTeam = Grouped<TeamEntry>

  /** A new team's entry starts with the circuit of its first row. */
  function NewEntry(c: Contribution): TeamEntry
  {
    TeamEntry(c.row.team, c.row.circuit, map[], map[], map[], map[], {})
  }

  /** One row folded into its team's entry: the circuit is set while the entry has none,
      the season's rank, record, key wins and placement are written when present, and the
      page joins the sources. */
  function Absorb(e: TeamEntry, c: Contribution): TeamEntry
  {
    var r := c.row;
    e.(circuit := if !Truthy(e.circuit) && Truthy(r.circuit) then r.circuit else e.circuit,
       ranks := if r.rank.Some? then e.ranks[c.key := r.rank.value] else e.ranks,
       records := if Truthy(r.record) then e.records[c.key := r.record.value] else e.records,
       keyWins := if Truthy(r.keyWins) then e.keyWins[c.key := r.keyWins.value] else e.keyWins,
       placements := if Truthy(r.placement) then e.placements[c.key := r.placement.value] else e.placements,
       sources := e.sources + {c.url})
  }

  function ByTeamRule(): Rule<Contribution, TeamEntry>
  {
    Rule((c: Contribution) => c.row.team, (c: Contribution) => NewEntry(c),
         (e: TeamEntry, c: Contribution) => Absorb(e, c))
  }

  /** The map built from the rows cs. */
  function ByTeamOf(cs: seq<Contribution>): ByTeam
  {
    Fold(Empty(), cs, ByTeamRule())
  }

  /** The rows of every page, in page order. */
  function AllRows(pages: seq<CircuitPage>): seq<Contribution>
  {
    Flat(pages, CircuitRows, |pages|)
  }

  /** The aggregation loop: a page that cannot be fetched ends the run with its error
      (nothing is written); otherwise every page's rows are folded in. */
  function Aggregated(pages: seq<CircuitPage>): Result<ByTeam, string>
  {
    match FirstFailure(pages)
    case Some(i) => Err(pages[i].url)
    case None => Ok(ByTeamOf(AllRows(pages)))
  }

  method Aggregate(pages: seq<CircuitPage>) returns (r: Result<ByTeam, string>)
    ensures r == Aggregated(pages)
  {
    var byTeam := Empty();
    for i := 0 to |pages|
      invariant forall k :: 0 <= k < i ==> !Failed(pages[k])
      invariant byTeam == ByTeamOf(Flat(pages, CircuitRows, i))
    {
      var p := pages[i];
      var html := FetchHtml(p.response);
      if html.Err? {
        FirstFailureAt(pages, i);
        AggregatedFails(pages, i);
        assert Aggregated(pages) == Err(p.url);
        r := Err(p.url);
        return;
      }
      NextPage(pages, i);
      if LoginWall(html.value) {
        assert byTeam == ByTeamOf(Flat(pages, CircuitRows, i + 1));
        assert forall k :: 0 <= k < i + 1 ==> !Failed(pages[k]);
        continue;
      }
      var rows := ParseCircuitTable(p.rows);
      byTeam := AddRows(byTeam, p.url, p.key, rows);
      assert byTeam == ByTeamOf(Flat(pages, CircuitRows, i + 1));
      assert forall k :: 0 <= k < i + 1 ==> !Failed(pages[k]);
    }
    AggregatedAll(pages);
    r := Ok(byTeam);
  }

  lemma AggregatedFails(pages: seq<CircuitPage>, i: nat)
    requires FirstFailure(pages) == Some(i)
    ensures Aggregated(pages) == Err(pages[i].url)
  {
  }

  lemma AggregatedAll(pages: seq<CircuitPage>)
    requires forall k :: 0 <= k < |pages| ==> !Failed(pages[k])
    ensures Aggregated(pages) == Ok(ByTeamOf(Flat(pages, CircuitRows, |pages|)))
  {
  }

  /** The map after one more page that could be fetched: unchanged when the page is behind
      the login wall, and otherwise with the page's table rows folded in. */
  lemma NextPage(pages: seq<CircuitPage>, i: nat)
    requires i < |pages| && !Failed(pages[i])
    ensures var p := pages[i];
      var before := ByTeamOf(Flat(pages, CircuitRows, i));
      ByTeamOf(Flat(pages, CircuitRows, i + 1))
        == if LoginWall(FetchHtml(p.response).value) then before
           else Fold(before, TagAll(p.url, p.key, CircuitRows(p.rows)), ByTeamRule())
  {
    FoldConcat(Empty(), Flat(pages, CircuitRows, i), PageRows(pages[i], CircuitRows), ByTeamRule());
  }

  /** The rows of one page folded into the map, one after another. */
  method AddRows(start: ByTeam, url: string, key: string, rows: seq<CircuitRow>) returns (byTeam: ByTeam)
    ensures byTeam == Fold(start, TagAll(url, key, rows), ByTeamRule())
  {
    byTeam := start;
    for j := 0 to |rows|
      invariant byTeam == Fold(start, TagAll(url, key, rows[..j]), ByTeamRule())
    {
      var r := rows[j];
      var team := r.team;
      var c := Tagged(url, key, r);
      var existing := if team in byTeam.entries then byTeam.entries[team] else NewEntry(c);
      ghost var e0 := existing;
      if !Truthy(existing.circuit) && Truthy(r.circuit) {
        existing := existing.(circuit := r.circuit);
      }
      if r.rank.Some? {
        existing := existing.(ranks := existing.ranks[key := r.rank.value]);
      }
      if Truthy(r.record) {
        existing := existing.(records := existing.records[key := r.record.value]);
      }
      if Truthy(r.keyWins) {
        existing := existing.(keyWins := existing.keyWins[key := r.keyWins.value]);
      }
      if Truthy(r.placement) {
        existing := existing.(placements := existing.placements[key := r.placement.value]);
      }
      existing := existing.(sources := existing.sources + {url});
      assert existing == Absorb(e0, c);
      ghost var before := TagAll(url, key, rows[..j]);
      assert TagAll(url, key, rows[..j + 1]) == before + [c];
      assert (before + [c])[..|before|] == before;
      assert Fold(start, before + [c], ByTeamRule()) == Step(byTeam, c, ByTeamRule());
      byTeam := Grouped(if team in byTeam.entries then byTeam.order else byTeam.order + [team],
                        byTeam.entries[team := existing]);
    }
    assert rows[..|rows|] == rows;
  }

  // ------------------------------------------------------------------ the aggregate

  /** The map is well formed: its iteration order lists each key once, and each entry is
      filed under its own team. */
  ghost predicate WellFormed(b: ByTeam)
  {
    Ordered(b) && Named(b)
  }

  /** Each entry is filed under its own team. */
  ghost predicate Named(b: ByTeam)
  {
    forall s :: s in b.entries ==> b.entries[s].team == s
  }

  predicate RowFor(cs: seq<Contribution>, i: int, s: string)
  {
    0 <= i < |cs| && cs[i].row.team == s
  }

  /** One row changes only its own season key's entries of the maps: the rank is written
      when present, the record, key wins and placement when not blank; the circuit is
      replaced only while it is blank; the page joins the sources. */
  lemma AbsorbSpec(e: TeamEntry, c: Contribution)
    ensures var a := Absorb(e, c);
      && a.team == e.team
      && (forall k :: k != c.key ==>
            (k in a.placements <==> k in e.placements) && (k in e.placements ==> a.placements[k] == e.placements[k]))
      && (Truthy(c.row.placement) ==> c.key in a.placements && a.placements[c.key] == c.row.placement.value)
      && (!Truthy(c.row.placement) ==> a.placements == e.placements)
      && (forall k :: k != c.key ==>
            (k in a.ranks <==> k in e.ranks) && (k in e.ranks ==> a.ranks[k] == e.ranks[k]))
      && (forall k :: k != c.key ==>
            (k in a.records <==> k in e.records) && (k in e.records ==> a.records[k] == e.records[k]))
      && (forall k :: k != c.key ==>
            (k in a.keyWins <==> k in e.keyWins) && (k in e.keyWins ==> a.keyWins[k] == e.keyWins[k]))
      && (c.row.rank.Some? ==> c.key in a.ranks && a.ranks[c.key] == c.row.rank.value)
      && (c.row.rank.None? ==> a.ranks == e.ranks)
      && (Truthy(c.row.record) ==> c.key in a.records && a.records[c.key] == c.row.record.value)
      && (!Truthy(c.row.record) ==> a.records == e.records)
      && (Truthy(c.row.keyWins) ==> c.key in a.keyWins && a.keyWins[c.key] == c.row.keyWins.value)
      && (!Truthy(c.row.keyWins) ==> a.keyWins == e.keyWins)
      && a.circuit == (if Truthy(e.circuit) then e.circuit else if Truthy(c.row.circuit) then c.row.circuit else e.circuit)
      && a.sources == e.sources + {c.url}
  {
  }

  /** Every entry is filed under its own team. */
  lemma {:induction false} FoldNames(cs: seq<Contribution>)
    ensures forall s :: s in ByTeamOf(cs).entries ==> ByTeamOf(cs).entries[s].team == s
    decreases |cs|
  {
    if cs != [] {
      FoldNames(cs[..|cs| - 1]);
      FoldLast(cs, ByTeamRule());
      var b := ByTeamOf(cs[..|cs| - 1]);
      var c := cs[|cs| - 1];
      var e := if c.row.team in b.entries then b.entries[c.row.team] else NewEntry(c);
      assert ByTeamOf(cs).entries[c.row.team] == Absorb(e, c);
    }
  }

  /** The map is well formed, with exactly one entry per team that some row names. */
  lemma FoldTeams(cs: seq<Contribution>)
    ensures WellFormed(ByTeamOf(cs))
    ensures forall s :: s in ByTeamOf(cs).entries <==> exists i :: RowFor(cs, i, s)
  {
    FoldKeys(cs, ByTeamRule());
    FoldNames(cs);
    forall s | s in ByTeamOf(cs).entries ensures exists i :: RowFor(cs, i, s) {
      var i :| 0 <= i < |cs| && ByTeamRule().key(cs[i]) == s;
      assert RowFor(cs, i, s);
    }
    forall s, i | RowFor(cs, i, s) ensures s in ByTeamOf(cs).entries {
      assert ByTeamRule().key(cs[i]) == s;
    }
  }

  predicate SourceFor(cs: seq<Contribution>, i: int, s: string, u: string)
  {
    RowFor(cs, i, s) && cs[i].url == u
  }

  function SeasonKeyOf(c: Contribution): string { c.key }
  function UrlOf(c: Contribution): string { c.url }
  function PlacementWrite(c: Contribution): Option<string> { OrUndefined(c.row.placement) }
  function EntryPlacements(e: TeamEntry): map<string, string> { e.placements }
  function EntrySources(e: TeamEntry): set<string> { e.sources }

  /** Each row writes its season's placement when it has one, and adds its page to the
      sources. */
  lemma ByTeamFields()
    ensures WritesField(ByTeamRule(), EntryPlacements, SeasonKeyOf, PlacementWrite)
    ensures CollectsField(ByTeamRule(), EntrySources, UrlOf)
  {
  }

  /** The sources of a team are exactly the URLs of the pages that gave a row for it. */
  lemma FoldSources(cs: seq<Contribution>, s: string, u: string)
    requires s in ByTeamOf(cs).entries
    ensures u in ByTeamOf(cs).entries[s].sources <==> exists i :: SourceFor(cs, i, s, u)
  {
    ByTeamFields();
    FoldFieldUnion(cs, ByTeamRule(), EntrySources, UrlOf, s, u);
    forall i ensures SourceFor(cs, i, s, u) <==> CollectFor(cs, ByTeamRule().key, UrlOf, i, s, u) {
    }
  }

  predicate CircuitFor(cs: seq<Contribution>, i: int, s: string)
  {
    RowFor(cs, i, s) && Truthy(cs[i].row.circuit)
  }

  /** A team none of whose rows names a circuit has none. */
  lemma {:induction false} FoldNoCircuit(cs: seq<Contribution>, s: string)
    requires s in ByTeamOf(cs).entries
    requires forall i :: 0 <= i < |cs| ==> !CircuitFor(cs, i, s)
    ensures !Truthy(ByTeamOf(cs).entries[s].circuit)
    decreases |cs|
  {
    var init := cs[..|cs| - 1];
    var b := ByTeamOf(init);
    var c := cs[|cs| - 1];
    FoldLast(cs, ByTeamRule());
    assert !CircuitFor(cs, |cs| - 1, s);
    if s in b.entries {
      forall i | 0 <= i < |init| ensures !CircuitFor(init, i, s) {
        assert !CircuitFor(cs, i, s);
      }
      FoldNoCircuit(init, s);
      if c.row.team == s {
        assert ByTeamOf(cs).entries[s] == Absorb(b.entries[s], c);
      }
    } else {
      assert ByTeamOf(cs).entries[s] == Absorb(NewEntry(c), c);
    }
  }

  /** The first circuit seen for a team wins: once one of its rows names one, the entry
      keeps the circuit of the earliest such row. */
  lemma {:induction false} FoldFirstCircuit(cs: seq<Contribution>, s: string) returns (j: nat)
    requires s in ByTeamOf(cs).entries
    requires exists i :: CircuitFor(cs, i, s)
    ensures CircuitFor(cs, j, s) && forall i :: 0 <= i < j ==> !CircuitFor(cs, i, s)
    ensures ByTeamOf(cs).entries[s].circuit == cs[j].row.circuit
    decreases |cs|
  {
    var init := cs[..|cs| - 1];
    var b := ByTeamOf(init);
    var last := |cs| - 1;
    var c := cs[last];
    FoldLast(cs, ByTeamRule());
    if exists i :: CircuitFor(init, i, s) {
      var i :| CircuitFor(init, i, s);
      FoldHas(init, ByTeamRule(), i);
      j := FoldFirstCircuit(init, s);
      assert CircuitFor(cs, j, s);
      forall i | 0 <= i < j ensures !CircuitFor(cs, i, s) {
        assert !CircuitFor(init, i, s);
      }
      if c.row.team == s {
        assert ByTeamOf(cs).entries[s] == Absorb(b.entries[s], c);
      }
    } else {
      j := last;
      forall i | 0 <= i < j ensures !CircuitFor(cs, i, s) {
        assert !CircuitFor(init, i, s);
      }
      var i :| CircuitFor(cs, i, s);
      assert i == last;
      if s in b.entries {
        FoldNoCircuit(init, s);
        assert ByTeamOf(cs).entries[s] == Absorb(b.entries[s], c);
      } else {
        assert ByTeamOf(cs).entries[s] == Absorb(NewEntry(c), c);
      }
    }
  }

  predicate PlacementFor(cs: seq<Contribution>, i: int, s: string, k: string)
  {
    RowFor(cs, i, s) && cs[i].key == k && Truthy(cs[i].row.placement)
  }

  /** `placements[k]` of a team is set exactly when one of its rows of season k has a
      placement. */
  lemma FoldPlacementSet(cs: seq<Contribution>, s: string, k: string)
    requires s in ByTeamOf(cs).entries
    ensures k in ByTeamOf(cs).entries[s].placements <==> exists i :: PlacementFor(cs, i, s, k)
  {
    ByTeamFields();
    FoldFieldSet(cs, ByTeamRule(), EntryPlacements, SeasonKeyOf, PlacementWrite, s, k);
    forall i ensures PlacementFor(cs, i, s, k) <==> WriteFor(cs, ByTeamRule().key, SeasonKeyOf, PlacementWrite, i, s, k) {
    }
  }

  /** A later row overwrites an earlier one: a set `placements[k]` holds the placement of
      the last row of that team and season that has one. */
  lemma FoldPlacementLast(cs: seq<Contribution>, s: string, k: string) returns (i: nat)
    requires s in ByTeamOf(cs).entries
    requires k in ByTeamOf(cs).entries[s].placements
    ensures PlacementFor(cs, i, s, k) && ByTeamOf(cs).entries[s].placements[k] == cs[i].row.placement.value
    ensures forall j :: i < j < |cs| ==> !PlacementFor(cs, j, s, k)
  {
    ByTeamFields();
    i := FoldFieldLast(cs, ByTeamRule(), EntryPlacements, SeasonKeyOf, PlacementWrite, s, k);
    forall j | i < j < |cs| ensures !PlacementFor(cs, j, s, k) {
      assert !WriteFor(cs, ByTeamRule().key, SeasonKeyOf, PlacementWrite, j, s, k);
    }
  }

  function RankWrite(c: Contribution): Option<nat> { c.row.rank }
  function RecordWrite(c: Contribution): Option<string> { OrUndefined(c.row.record) }
  function KeyWinsWrite(c: Contribution): Option<string> { OrUndefined(c.row.keyWins) }
  function EntryRanks(e: TeamEntry): map<string, nat> { e.ranks }
  function EntryRecords(e: TeamEntry): map<string, string> { e.records }
  function EntryKeyWins(e: TeamEntry): map<string, string> { e.keyWins }

  /** Each row writes its season's rank when it has one, and its record and key wins when
      they are not blank. */
  lemma ByTeamMapFields()
    ensures WritesField(ByTeamRule(), EntryRanks, SeasonKeyOf, RankWrite)
    ensures WritesField(ByTeamRule(), EntryRecords, SeasonKeyOf, RecordWrite)
    ensures WritesField(ByTeamRule(), EntryKeyWins, SeasonKeyOf, KeyWinsWrite)
  {
  }

  predicate RankFor(cs: seq<Contribution>, i: int, s: string, k: string)
  {
    RowFor(cs, i, s) && cs[i].key == k && cs[i].row.rank.Some?
  }

  /** `ranks[k]` of a team is set exactly when one of its rows of season k has a rank. */
  lemma FoldRankSet(cs: seq<Contribution>, s: string, k: string)
    requires s in ByTeamOf(cs).entries
    ensures k in ByTeamOf(cs).entries[s].ranks <==> exists i :: RankFor(cs, i, s, k)
  {
    ByTeamMapFields();
    FoldFieldSet(cs, ByTeamRule(), EntryRanks, SeasonKeyOf, RankWrite, s, k);
    forall i ensures RankFor(cs, i, s, k) <==> WriteFor(cs, ByTeamRule().key, SeasonKeyOf, RankWrite, i, s, k) {
    }
  }

  /** A set `ranks[k]` holds the rank of the last row of that team and season that has one. */
  lemma FoldRankLast(cs: seq<Contribution>, s: string, k: string) returns (i: nat)
    requires s in ByTeamOf(cs).entries
    requires k in ByTeamOf(cs).entries[s].ranks
    ensures RankFor(cs, i, s, k) && ByTeamOf(cs).entries[s].ranks[k] == cs[i].row.rank.value
    ensures forall j :: i < j < |cs| ==> !RankFor(cs, j, s, k)
  {
    ByTeamMapFields();
    i := FoldFieldLast(cs, ByTeamRule(), EntryRanks, SeasonKeyOf, RankWrite, s, k);
    forall j | i < j < |cs| ensures !RankFor(cs, j, s, k) {
      assert !WriteFor(cs, ByTeamRule().key, SeasonKeyOf, RankWrite, j, s, k);
    }
  }

  predicate RecordFor(cs: seq<Contribution>, i: int, s: string, k: string)
  {
    RowFor(cs, i, s) && cs[i].key == k && Truthy(cs[i].row.record)
  }

  /** `records[k]` of a team is set exactly when one of its rows of season k has a record. */
  lemma FoldRecordSet(cs: seq<Contribution>, s: string, k: string)
    requires s in ByTeamOf(cs).entries
    ensures k in ByTeamOf(cs).entries[s].records <==> exists i :: RecordFor(cs, i, s, k)
  {
    ByTeamMapFields();
    FoldFieldSet(cs, ByTeamRule(), EntryRecords, SeasonKeyOf, RecordWrite, s, k);
    forall i ensures RecordFor(cs, i, s, k) <==> WriteFor(cs, ByTeamRule().key, SeasonKeyOf, RecordWrite, i, s, k) {
    }
  }

  /** A set `records[k]` holds the record of the last row of that team and season that has one. */
  lemma FoldRecordLast(cs: seq<Contribution>, s: string, k: string) returns (i: nat)
    requires s in ByTeamOf(cs).entries
    requires k in ByTeamOf(cs).entries[s].records
    ensures RecordFor(cs, i, s, k) && ByTeamOf(cs).entries[s].records[k] == cs[i].row.record.value
    ensures forall j :: i < j < |cs| ==> !RecordFor(cs, j, s, k)
  {
    ByTeamMapFields();
    i := FoldFieldLast(cs, ByTeamRule(), EntryRecords, SeasonKeyOf, RecordWrite, s, k);
    forall j | i < j < |cs| ensures !RecordFor(cs, j, s, k) {
      assert !WriteFor(cs, ByTeamRule().key, SeasonKeyOf, RecordWrite, j, s, k);
    }
  }

  predicate KeyWinsFor(cs: seq<Contribution>, i: int, s: string, k: string)
  {
    RowFor(cs, i, s) && cs[i].key == k && Truthy(cs[i].row.keyWins)
  }

  /** `key_wins[k]` of a team is set exactly when one of its rows of season k has key wins. */
  lemma FoldKeyWinsSet(cs: seq<Contribution>, s: string, k: string)
    requires s in ByTeamOf(cs).entries
    ensures k in ByTeamOf(cs).entries[s].keyWins <==> exists i :: KeyWinsFor(cs, i, s, k)
  {
    ByTeamMapFields();
    FoldFieldSet(cs, ByTeamRule(), EntryKeyWins, SeasonKeyOf, KeyWinsWrite, s, k);
    forall i ensures KeyWinsFor(cs, i, s, k) <==> WriteFor(cs, ByTeamRule().key, SeasonKeyOf, KeyWinsWrite, i, s, k) {
    }
  }

  /** A set `key_wins[k]` holds the key wins of the last row of that team and season that has them. */
  lemma FoldKeyWinsLast(cs: seq<Contribution>, s: string, k: string) returns (i: nat)
    requires s in ByTeamOf(cs).entries
    requires k in ByTeamOf(cs).entries[s].keyWins
    ensures KeyWinsFor(cs, i, s, k) && ByTeamOf(cs).entries[s].keyWins[k] == cs[i].row.keyWins.value
    ensures forall j :: i < j < |cs| ==> !KeyWinsFor(cs, j, s, k)
  {
    ByTeamMapFields();
    i := FoldFieldLast(cs, ByTeamRule(), EntryKeyWins, SeasonKeyOf, KeyWinsWrite, s, k);
    forall j | i < j < |cs| ensures !KeyWinsFor(cs, j, s, k) {
      assert !WriteFor(cs, ByTeamRule().key, SeasonKeyOf, KeyWinsWrite, j, s, k);
    }
  }

  // ------------------------------------------------------------------ writing the entries

  /** One entry written: `circuit ?? null`, the maps and the sources; a failed upsert is
      logged and leaves the table as it was. */
  function WriteTeam(db: Store.Db, e: TeamEntry, upsertFails: bool): Store.Db
  {
    if upsertFails then db
    else Store.UpsertCircuitTeam(db, e.team, e.circuit, e.ranks, e.records, e.keyWins, e.placements, e.sources)
  }

  predicate Listed(b: ByTeam)
  {
    forall i :: 0 <= i < |b.order| ==> b.order[i] in b.entries
  }

  /** The first n entries written, in the map's order. */
  function WriteAll(db: Store.Db, b: ByTeam, fails: string -> bool, n: nat): Store.Db
    requires Listed(b) && n <= |b.order|
  {
    if n == 0 then db
    else
      var s := b.order[n - 1];
      WriteTeam(WriteAll(db, b, fails, n - 1), b.entries[s], fails(s))
  }

  method WriteTeams(db: Store.Db, b: ByTeam, fails: string -> bool) returns (out: Store.Db)
    requires Listed(b)
    ensures out == WriteAll(db, b, fails, |b.order|)
  {
    out := db;
    for i := 0 to |b.order|
      invariant out == WriteAll(db, b, fails, i)
    {
      var entry := b.entries[b.order[i]];
      if !fails(b.order[i]) {
        out := Store.UpsertCircuitTeam(out, entry.team, entry.circuit, entry.ranks, entry.records,
                                       entry.keyWins, entry.placements, entry.sources);
      }
    }
  }

  /** The whole run. */
  function Ingested(pages: seq<CircuitPage>, db: Store.Db, fails: string -> bool): Result<Store.Db, string>
  {
    match Aggregated(pages)
    case Err(e) => Err(e)
    case Ok(b) => AggregatedListed(pages); Ok(WriteAll(db, b, fails, |b.order|))
  }

  method Ingest(pages: seq<CircuitPage>, db: Store.Db, fails: string -> bool) returns (r: Result<Store.Db, string>)
    ensures r == Ingested(pages, db, fails)
  {
    var agg := Aggregate(pages);
    if agg.Err? {
      return Err(agg.error);
    }
    var b := agg.value;
    AggregatedListed(pages);
    var out := WriteTeams(db, b, fails);
    r := Ok(out);
  }

  /** An aggregate is well formed and lists its entries. */
  lemma AggregatedListed(pages: seq<CircuitPage>)
    ensures Aggregated(pages).Ok? ==> WellFormed(Aggregated(pages).value) && Listed(Aggregated(pages).value)
  {
    if Aggregated(pages).Ok? {
      FoldTeams(AllRows(pages));
    }
  }

  /** The run fails exactly when some page cannot be fetched, with the URL of the first such
      page, and then writes nothing. */
  lemma IngestFails(pages: seq<CircuitPage>, db: Store.Db, fails: string -> bool)
    ensures Ingested(pages, db, fails).Err? <==> exists i :: 0 <= i < |pages| && Failed(pages[i])
    ensures Ingested(pages, db, fails).Err? ==>
      exists i :: 0 <= i < |pages| && Failed(pages[i]) && Ingested(pages, db, fails).error == pages[i].url
        && forall k :: 0 <= k < i ==> !Failed(pages[k])
  {
    if FirstFailure(pages).Some? {
      var j := FirstFailure(pages).value;
      assert Ingested(pages, db, fails).error == pages[j].url;
    }
  }

  /** A team that is not written, or whose upsert fails, keeps its stored row (or stays
      absent), and no other table changes. */
  lemma {:induction false} WriteAllKeeps(db: Store.Db, b: ByTeam, fails: string -> bool, n: nat, s: string)
    requires Named(b) && Listed(b) && n <= |b.order|
    requires s !in b.order[..n] || fails(s)
    ensures var out := WriteAll(db, b, fails, n);
      && out.(circuitTeams := db.circuitTeams, nextId := db.nextId) == db
      && (Store.Valid(db) ==> Store.Valid(out))
      && (s in out.circuitTeams <==> s in db.circuitTeams)
      && (s in db.circuitTeams ==> out.circuitTeams[s] == db.circuitTeams[s])
  {
    WriteAllFrame(db, b, fails, n);
    WriteAllKeptTeam(db, b, fails, n, s);
  }

  /** The row of team s is the same (or equally absent) in db1 and db2. */
  ghost predicate KeptTeam(db1: Store.Db, db2: Store.Db, s: string)
  {
    && (s in db2.circuitTeams <==> s in db1.circuitTeams)
    && (s in db1.circuitTeams ==> db2.circuitTeams[s] == db1.circuitTeams[s])
  }

  lemma {:induction false} WriteAllKeptTeam(db: Store.Db, b: ByTeam, fails: string -> bool, n: nat, s: string)
    requires Named(b) && Listed(b) && n <= |b.order|
    requires s !in b.order[..n] || fails(s)
    ensures KeptTeam(db, WriteAll(db, b, fails, n), s)
    decreases n
  {
    if n > 0 {
      var t := b.order[n - 1];
      var prev := WriteAll(db, b, fails, n - 1);
      assert b.order[..n] == b.order[..n - 1] + [t];
      assert s !in b.order[..n - 1] || fails(s);
      WriteAllKeptTeam(db, b, fails, n - 1, s);
      assert WriteAll(db, b, fails, n) == WriteTeam(prev, b.entries[t], fails(t));
      if s != t {
        assert b.entries[t].team == t;
        WriteTeamOther(prev, b.entries[t], fails(t), s);
        KeptTeamTrans(db, prev, WriteTeam(prev, b.entries[t], fails(t)), s);
      } else {
        assert t in b.order[..n];
        assert WriteAll(db, b, fails, n) == prev;
      }
    }
  }

  lemma KeptTeamTrans(db1: Store.Db, db2: Store.Db, db3: Store.Db, s: string)
    requires KeptTeam(db1, db2, s) && KeptTeam(db2, db3, s)
    ensures KeptTeam(db1, db3, s)
  {
  }

  /** Writing a team keeps the other tables and validity. */
  lemma WriteTeamFrame(db: Store.Db, e: TeamEntry, upsertFails: bool)
    ensures var out := WriteTeam(db, e, upsertFails);
      && out.(circuitTeams := db.circuitTeams, nextId := db.nextId) == db
      && (Store.Valid(db) ==> Store.Valid(out))
  {
    Store.UpsertCircuitTeamSpec(db, e.team, e.circuit, e.ranks, e.records, e.keyWins, e.placements, e.sources);
  }

  /** Writing a team leaves the row of every other team as it was. */
  lemma WriteTeamOther(db: Store.Db, e: TeamEntry, upsertFails: bool, t: string)
    requires t != e.team
    ensures KeptTeam(db, WriteTeam(db, e, upsertFails), t)
  {
    Store.UpsertCircuitTeamSpec(db, e.team, e.circuit, e.ranks, e.records, e.keyWins, e.placements, e.sources);
  }

  /** Writing the first n teams keeps the other tables and validity. */
  lemma {:induction false} WriteAllFrame(db: Store.Db, b: ByTeam, fails: string -> bool, n: nat)
    requires Listed(b) && n <= |b.order|
    ensures var out := WriteAll(db, b, fails, n);
      && out.(circuitTeams := db.circuitTeams, nextId := db.nextId) == db
      && (Store.Valid(db) ==> Store.Valid(out))
    decreases n
  {
    if n > 0 {
      WriteAllFrame(db, b, fails, n - 1);
      var t := b.order[n - 1];
      WriteTeamFrame(WriteAll(db, b, fails, n - 1), b.entries[t], fails(t));
    }
  }

  /** A team written without an upsert failure holds exactly the circuit, maps and sources
      of this run, whatever was stored before. */
  lemma {:induction false} WriteAllWrites(db: Store.Db, b: ByTeam, fails: string -> bool, n: nat, s: string)
    requires Named(b) && Listed(b) && n <= |b.order|
    requires s in b.order[..n] && !fails(s)
    ensures var out := WriteAll(db, b, fails, n);
      && s in out.circuitTeams
      && var e := b.entries[s];
      && out.circuitTeams[s].(id := 0)
           == Store.CircuitTeamRow(0, e.circuit, e.ranks, e.records, e.keyWins, e.placements, e.sources)
    decreases n
  {
    var t := b.order[n - 1];
    assert b.order[..n] == b.order[..n - 1] + [t];
    assert b.entries[t].team == t;
    var e := b.entries[t];
    if s != t {
      WriteAllWrites(db, b, fails, n - 1, s);
      WriteTeamOther(WriteAll(db, b, fails, n - 1), e, fails(t), s);
    } else {
      Store.UpsertCircuitTeamSpec(WriteAll(db, b, fails, n - 1), e.team, e.circuit, e.ranks, e.records, e.keyWins, e.placements, e.sources);
    }
  }

  /** After a run: a team named by some row of a page that was read is stored, unless its
      upsert failed, with this run's maps; its circuit is that of the first of its rows to
      name one (blank when none does), and its sources are exactly the pages that named it. */
  lemma IngestedWrites(pages: seq<CircuitPage>, db: Store.Db, fails: string -> bool, s: string, u: string)
    requires Ingested(pages, db, fails).Ok?
    requires exists i :: RowFor(AllRows(pages), i, s)
    requires !fails(s)
    ensures var out := Ingested(pages, db, fails).value;
      var cs := AllRows(pages);
      && s in Aggregated(pages).value.entries
      && s in out.circuitTeams
      && out.circuitTeams[s].placements == Aggregated(pages).value.entries[s].placements
      && out.circuitTeams[s].ranks == Aggregated(pages).value.entries[s].ranks
      && ((exists i :: CircuitFor(cs, i, s)) ==>
            exists i :: CircuitFor(cs, i, s) && out.circuitTeams[s].circuit == cs[i].row.circuit
              && forall j :: 0 <= j < i ==> !CircuitFor(cs, j, s))
      && ((forall i :: 0 <= i < |cs| ==> !CircuitFor(cs, i, s)) ==> !Truthy(out.circuitTeams[s].circuit))
      && (u in out.circuitTeams[s].sourceUrls <==> exists i :: SourceFor(cs, i, s, u))
  {
    var cs := AllRows(pages);
    var b := Aggregated(pages).value;
    AggregatedListed(pages);
    FoldTeams(cs);
    assert b.order[..|b.order|] == b.order;
    WriteAllWrites(db, b, fails, |b.order|, s);
    FoldSources(cs, s, u);
    if exists i :: CircuitFor(cs, i, s) {
      var j := FoldFirstCircuit(cs, s);
    } else {
      FoldNoCircuit(cs, s);
    }
  }

  /** After a run, a team that no row named keeps its stored row, or stays absent. */
  lemma IngestedKeeps(pages: seq<CircuitPage>, db: Store.Db, fails: string -> bool, s: string)
    requires Ingested(pages, db, fails).Ok?
    requires forall i :: 0 <= i < |AllRows(pages)| ==> !RowFor(AllRows(pages), i, s)
    ensures var out := Ingested(pages, db, fails).value;
      && (s in out.circuitTeams <==> s in db.circuitTeams)
      && (s in db.circuitTeams ==> out.circuitTeams[s] == db.circuitTeams[s])
  {
    var cs := AllRows(pages);
    var b := Aggregated(pages).value;
    AggregatedListed(pages);
    FoldTeams(cs);
    assert b.order[..|b.order|] == b.order;
    WriteAllKeeps(db, b, fails, |b.order|, s);
  }
}
