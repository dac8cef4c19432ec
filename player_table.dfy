// The structured ranking-table scraper: each `.divRow` of the ranking table becomes one
// player record, rows are filtered, the rank is read from its digits, the detail row is
// mined for a rating and a comment, and the list is de-duplicated. The DOM is abstracted
// away: a row arrives as the strings cheerio would have extracted from it.
module PlayerTable {
  import opened Wrappers
  import opened Text
  import opened RowDedup
  import opened Detail

  /** One `.divRow` of the ranking table, as already-extracted text. */
  datatype ScrapedRow = ScrapedRow(
    founder: bool,                  // the row has class `player-founder`
    rankCount: Option<string>,      // text of the first `.rank-count`, None when the row has none
    nameText: string,               // text of `.player__name .name`
    anchorText: string,             // text of `.player__name a`
    cells: seq<string>,             // texts of the `.divCell` children
    collegeImgSrc: Option<string>,  // `.college__cell img` src attribute
    collegeImgAlt: Option<string>,  // `.college__cell img` alt attribute
    playerImgSrc: Option<string>,   // `.player__name figure img` src attribute
    dataId: Option<string>,         // `.player__name a` data_id attribute
    detailText: string)             // text of the first `p` of the matching detail row

  /** The scraped player record; undefined fields are None. */
  datatype Player = Player(
    name: string,
    rank: Option<nat>,
    height: Option<string>,
    position: Option<string>,
    highSchool: Option<string>,
    circuitProgram: Option<string>,
    committedCollege: Option<string>,
    rating: Option<nat>,
    ratingComment: Option<string>,
    playerImageUrl: Option<string>,
    collegeLogoUrl: Option<string>)

  /** The row filter: not a founder row, and carrying a `.rank-count` element. */
  predicate IsRankedRow(row: ScrapedRow)
  {
    !row.founder && row.rankCount.Some?
  }

  /** `.name` text, or the anchor text when that trims to empty. */
  function PlayerName(row: ScrapedRow): (name: string)
    ensures name == [] <==> Trim(row.nameText) == [] && Trim(row.anchorText) == []
  {
    TrimOr(row.nameText, row.anchorText)
  }

  /** The rank: every non-digit removed from the trimmed rank text, None for NaN. */
  function RankOf(row: ScrapedRow): Option<nat>
  {
    IntOfDigits(Trim(row.rankCount.GetOr("")))
  }

  /** A detail row is consulted only when the data_id attribute is truthy. */
  predicate HasDetail(row: ScrapedRow)
  {
    Truthy(row.dataId)
  }

  /** The record built from a row's texts. */
  function PlayerRecord(row: ScrapedRow): Player
  {
    var d := Trim(row.detailText);
    Player(
      PlayerName(row),
      RankOf(row),
      NonEmpty(CellText(row.cells, 2)),
      NonEmpty(CellText(row.cells, 3)),
      NonEmpty(CellText(row.cells, 5)),
      NonEmpty(CellText(row.cells, 6)),
      OrUndefined(row.collegeImgAlt),
      if HasDetail(row) then RatingOf(d) else None,
      if HasDetail(row) then CommentOf(d) else None,
      OrUndefined(row.playerImgSrc),
      OrUndefined(row.collegeImgSrc))
  }

  /** The record a row yields, or None when its name is empty (`if (!nameText) return`). */
  function PlayerOfRow(row: ScrapedRow): Option<Player>
  {
    if PlayerName(row) == [] then None else Some(PlayerRecord(row))
  }

  /** The row passes the filter and has a name, so `rows.each` pushes its record. */
  predicate Emits(row: ScrapedRow)
  {
    IsRankedRow(row) && PlayerName(row) != []
  }

  /** The `players` array after the first n rows have been visited. */
  function Parsed(rows: seq<ScrapedRow>, n: nat): seq<Player>
    requires n <= |rows|
  {
    if n == 0 then []
    else
      var row := rows[n - 1];
      Parsed(rows, n - 1) + (if Emits(row) then [PlayerRecord(row)] else [])
  }

  function PlayerKey(p: Player): string
  {
    DedupKey(p.rank, p.name)
  }

  /** The scraper's output: the first player per key among the parsed rows. */
  ghost function ParsedPlayers(rows: seq<ScrapedRow>): seq<Player>
  {
    var all := Parsed(rows, |rows|);
    FirstOccurrences(all, PlayerKey, |all|)
  }

  /** One visit of `rows.each`: the detail block, then the empty-name guard. */
  method ParseRow(row: ScrapedRow) returns (p: Option<Player>)
    ensures p == PlayerOfRow(row)
  {
    var name := Trim(row.nameText);
    if name == [] {
      name := Trim(row.anchorText);
    }
    var rating: Option<nat> := None;
    var comment: Option<string> := None;
    if HasDetail(row) {
      rating, comment := ExtractDetail(row.detailText);
    }
    if name == [] {
      return None;
    }
    p := Some(Player(
      name,
      RankOf(row),
      NonEmpty(CellText(row.cells, 2)),
      NonEmpty(CellText(row.cells, 3)),
      NonEmpty(CellText(row.cells, 5)),
      NonEmpty(CellText(row.cells, 6)),
      OrUndefined(row.collegeImgAlt),
      rating,
      comment,
      OrUndefined(row.playerImgSrc),
      OrUndefined(row.collegeImgSrc)));
  }

  /** `parsePlayers`: filter, visit each row, then de-duplicate. */
  method ParsePlayers(rows: seq<ScrapedRow>) returns (players: seq<Player>)
    ensures players == ParsedPlayers(rows)
  {
    var all: seq<Player> := [];
    for i := 0 to |rows|
      invariant all == Parsed(rows, i)
    {
      if !IsRankedRow(rows[i]) {
        continue;
      }
      var p := ParseRow(rows[i]);
      if p.Some? {
        all := all + [p.value];
      }
    }
    players := Dedup(all, PlayerKey);
  }

  // ------------------------------------------------------------------ properties

  /** A ranked row is emitted exactly when its name is non-empty, whatever its rank text;
      the rank is None exactly when the rank text holds no digit. */
  lemma PlayerOfRowSpec(row: ScrapedRow)
    ensures PlayerOfRow(row).Some? <==> PlayerName(row) != []
    ensures PlayerOfRow(row).Some? ==> PlayerOfRow(row).value.name == PlayerName(row)
    ensures PlayerOfRow(row).Some? ==> PlayerOfRow(row).value.rank == RankOf(row)
    ensures var t := Trim(row.rankCount.GetOr(""));
      RankOf(row).None? <==> forall k :: 0 <= k < |t| ==> !IsDigit(t[k])
  {
  }

  /** A rank text such as `#12.` (the number with non-digit decoration) gives that rank. */
  lemma RankOfDecorated(row: ScrapedRow, pre: string, n: nat, post: string)
    requires row.rankCount == Some(pre + NatToString(n) + post)
    requires forall k :: 0 <= k < |pre| ==> !IsDigit(pre[k]) && !IsSpace(pre[k])
    requires forall k :: 0 <= k < |post| ==> !IsDigit(post[k]) && !IsSpace(post[k])
    ensures RankOf(row) == Some(n)
  {
    var t := pre + NatToString(n) + post;
    var d := NatToString(n);
    assert t[0] == (if pre != [] then pre[0] else d[0]);
    assert t[|t| - 1] == (if post != [] then post[|post| - 1] else d[|d| - 1]);
    TrimUnchanged(t);
    IntOfDigitsDecorated(pre, n, post);
  }

  /** A rating is only ever present in 0..100, and only when a detail row was read. */
  lemma PlayerRatingBounded(row: ScrapedRow)
    ensures PlayerOfRow(row).Some? && PlayerOfRow(row).value.rating.Some? ==>
      HasDetail(row) && PlayerOfRow(row).value.rating.value <= 100
  {
    RatingOfSpec(Trim(row.detailText));
  }

  /** The row each entry of `Parsed(rows, n)` was built from. */
  ghost function SourceRows(rows: seq<ScrapedRow>, n: nat): seq<nat>
    requires n <= |rows|
  {
    if n == 0 then []
    else
      var row := rows[n - 1];
      SourceRows(rows, n - 1) + (if Emits(row) then [n - 1] else [])
  }

  /** all[k] was built from row src[k] of the first n rows, an emitting one, in row order. */
  ghost predicate Traced(rows: seq<ScrapedRow>, all: seq<Player>, src: seq<nat>, n: nat)
  {
    && |src| == |all|
    && (forall k :: 0 <= k < |src| ==> src[k] < n <= |rows| && Emits(rows[src[k]]) && all[k] == PlayerRecord(rows[src[k]]))
    && (forall a, b :: 0 <= a < b < |src| ==> src[a] < src[b])
  }

  lemma TracedSnoc(rows: seq<ScrapedRow>, all: seq<Player>, src: seq<nat>, n: nat)
    requires n < |rows| && Emits(rows[n]) && Traced(rows, all, src, n)
    ensures Traced(rows, all + [PlayerRecord(rows[n])], src + [n], n + 1)
  {
  }

  lemma TracedWiden(rows: seq<ScrapedRow>, all: seq<Player>, src: seq<nat>, n: nat)
    requires n < |rows| && Traced(rows, all, src, n)
    ensures Traced(rows, all, src, n + 1)
  {
  }

  /** Every parsed player comes from a ranked row with a non-empty name, in row order. */
  lemma {:induction false} ParsedFromRows(rows: seq<ScrapedRow>, n: nat)
    requires n <= |rows|
    ensures var all, src := Parsed(rows, n), SourceRows(rows, n);
      && |src| == |all|
      && (forall k :: 0 <= k < |src| ==> src[k] < n && Emits(rows[src[k]]) && all[k] == PlayerRecord(rows[src[k]]))
      && (forall a, b :: 0 <= a < b < |src| ==> src[a] < src[b])
  {
    ParsedTraced(rows, n);
  }

  lemma {:induction false} ParsedTraced(rows: seq<ScrapedRow>, n: nat)
    requires n <= |rows|
    ensures Traced(rows, Parsed(rows, n), SourceRows(rows, n), n)
  {
    if n > 0 {
      ParsedTraced(rows, n - 1);
      var all, src := Parsed(rows, n - 1), SourceRows(rows, n - 1);
      if Emits(rows[n - 1]) {
        TracedSnoc(rows, all, src, n - 1);
        assert Parsed(rows, n) == all + [PlayerRecord(rows[n - 1])];
        assert SourceRows(rows, n) == src + [n - 1];
      } else {
        TracedWiden(rows, all, src, n - 1);
        assert Parsed(rows, n) == all;
        assert SourceRows(rows, n) == src;
      }
    }
  }

  /** Every ranked row that yields a record reaches the list before de-duplication. */
  lemma {:induction false} RowsReachParsed(rows: seq<ScrapedRow>, n: nat)
    requires n <= |rows|
    ensures forall i :: 0 <= i < n && Emits(rows[i]) ==>
      i in SourceRows(rows, n)
  {
    if n > 0 {
      RowsReachParsed(rows, n - 1);
      var prev, cur := SourceRows(rows, n - 1), SourceRows(rows, n);
      var last := rows[n - 1];
      assert cur == prev + (if Emits(last) then [n - 1] else []);
      forall i | 0 <= i < n && Emits(rows[i])
        ensures i in cur
      {
        if i < n - 1 {
          assert i in prev;
        } else {
          assert cur == prev + [n - 1];
        }
      }
    }
  }

  /** No two output players share a `rank|name` key: equal ranks come with names that
      differ even lower-cased. */
  lemma ParsedPlayersDistinct(rows: seq<ScrapedRow>)
    ensures var out := ParsedPlayers(rows);
      forall a, b :: 0 <= a < b < |out| ==> !(out[a].rank == out[b].rank && Lower(out[a].name) == Lower(out[b].name))
  {
    var all := Parsed(rows, |rows|);
    var out := ParsedPlayers(rows);
    FirstOccurrencesDistinctKeys(all, PlayerKey);
    assert out == FirstOccurrences(all, PlayerKey, |all|);
    forall a, b | 0 <= a < b < |out|
      ensures !(out[a].rank == out[b].rank && Lower(out[a].name) == Lower(out[b].name))
    {
      assert PlayerKey(out[a]) != PlayerKey(out[b]);
      DedupKeyInjective(out[a].rank, out[a].name, out[b].rank, out[b].name);
    }
  }

  /** The output is an order-preserving selection of the ranked, named rows. */
  lemma ParsedPlayersFromRows(rows: seq<ScrapedRow>) returns (src: seq<nat>)
    ensures var out := ParsedPlayers(rows);
      && |src| == |out|
      && (forall k :: 0 <= k < |out| ==> src[k] < |rows| && Emits(rows[src[k]]) && out[k] == PlayerRecord(rows[src[k]]))
      && (forall a, b :: 0 <= a < b < |out| ==> src[a] < src[b])
  {
    var all := Parsed(rows, |rows|);
    var out := ParsedPlayers(rows);
    FirstOccurrencesIndexed(all, PlayerKey, |all|);
    ParsedFromRows(rows, |rows|);
    var idx := FirstIndices(all, PlayerKey, |all|);
    var rowOf := SourceRows(rows, |rows|);
    src := seq(|idx|, k requires 0 <= k < |idx| => rowOf[idx[k]]);
    forall k | 0 <= k < |out|
      ensures src[k] < |rows| && Emits(rows[src[k]]) && out[k] == PlayerRecord(rows[src[k]])
    {
      assert out[k] == all[idx[k]];
    }
    forall a, b | 0 <= a < b < |out|
      ensures src[a] < src[b]
    {
      assert idx[a] < idx[b];
    }
  }

  /** Every ranked, named row is represented in the output by a player with its rank and
      its lower-cased name (the earliest such row's record). */
  lemma ParsedPlayersCover(rows: seq<ScrapedRow>)
    ensures var out := ParsedPlayers(rows);
      forall i :: 0 <= i < |rows| && IsRankedRow(rows[i]) && PlayerName(rows[i]) != [] ==>
        exists k :: 0 <= k < |out| && out[k].rank == RankOf(rows[i]) && Lower(out[k].name) == Lower(PlayerName(rows[i]))
  {
    var all := Parsed(rows, |rows|);
    var out := ParsedPlayers(rows);
    RowsReachParsed(rows, |rows|);
    ParsedFromRows(rows, |rows|);
    var src := SourceRows(rows, |rows|);
    forall i | 0 <= i < |rows| && IsRankedRow(rows[i]) && PlayerName(rows[i]) != []
      ensures exists k :: 0 <= k < |out| && out[k].rank == RankOf(rows[i]) && Lower(out[k].name) == Lower(PlayerName(rows[i]))
    {
      var p := PlayerRecord(rows[i]);
      var j :| 0 <= j < |src| && src[j] == i;
      assert all[j] == p;
      var k := KeptWithKey(all, PlayerKey, j);
      DedupKeyInjective(out[k].rank, out[k].name, p.rank, p.name);
    }
  }
}
