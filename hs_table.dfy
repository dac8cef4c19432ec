// The high-school ranking table, shared by the high-school ingester and the exporter: each
// `.divRow` that is not a founder row and names a school becomes one team row.
module HsTable {
  import opened Wrappers
  import opened Text
  import opened Selection

  /** One `.divRow` of the high-school table, as already-extracted text. */
  datatype HsScrapedRow = HsScrapedRow(
    founder: bool,              // the row has class `player-founder`
    rankText: string,           // text of the first `.rank-count` ("" when there is none)
    nameText: string,           // text of `.player__name .player_name.name`
    anchorText: string,         // text of `.player__name a`
    logoSrc: Option<string>,    // `.player__name figure img` src attribute
    cells: seq<string>)         // texts of the `.divCell` children

  /** The parsed row (`TeamRow`); undefined fields are None and a NaN rank is None. */
  datatype TeamRow = TeamRow(
    school: string,
    rank: Option<nat>,
    record: Option<string>,
    keyWins: Option<string>,
    logoUrl: Option<string>)

  /** The row, or None when the row is skipped. */
  function TeamRowOf(row: HsScrapedRow): Option<TeamRow>
  {
    var school := TrimOr(row.nameText, row.anchorText);
    if row.founder || school == [] then None
    else Some(TeamRow(school, RankFromText(row.rankText), NonEmpty(CellText(row.cells, 2)),
                      NonEmpty(CellText(row.cells, 3)), OrUndefined(row.logoSrc)))
  }

  function TeamRowParser(): HsScrapedRow -> Option<TeamRow>
  {
    (row: HsScrapedRow) => TeamRowOf(row)
  }

  /** `parseHsTable`: the rows kept, in table order. */
  function TeamRows(rows: seq<HsScrapedRow>): seq<TeamRow>
  {
    Kept(rows, TeamRowParser(), |rows|)
  }

  method ParseHsTable(rows: seq<HsScrapedRow>) returns (items: seq<TeamRow>)
    ensures items == TeamRows(rows)
  {
    items := [];
    for i := 0 to |rows|
      invariant items == Kept(rows, TeamRowParser(), i)
    {
      var row := rows[i];
      if row.founder {
        continue;
      }
      var school := TrimOr(row.nameText, row.anchorText);
      var logo := OrUndefined(row.logoSrc);
      var record := NonEmpty(CellText(row.cells, 2));
      var keyWins := NonEmpty(CellText(row.cells, 3));
      if school == [] {
        continue;
      }
      items := items + [TeamRow(school, RankFromText(row.rankText), record, keyWins, logo)];
    }
  }

  // ------------------------------------------------------------------ properties

  /** A row is kept exactly when it is no founder row and its school text (the name cell,
      else the anchor) is not blank; its rank is None exactly when the trimmed rank text
      has no digit, and the record and key wins are the trimmed cells 2 and 3, undefined
      when blank. */
  lemma TeamRowOfSpec(row: HsScrapedRow)
    ensures TeamRowOf(row).Some? <==>
      !row.founder && (Trim(row.nameText) != [] || Trim(row.anchorText) != [])
    ensures TeamRowOf(row).Some? ==>
      var t := TeamRowOf(row).value;
      && t.school == TrimOr(row.nameText, row.anchorText) && t.school != []
      && (t.rank.None? <==> DigitsOf(Trim(row.rankText)) == [])
      && (t.record.Some? <==> CellText(row.cells, 2) != [])
      && (t.record.Some? ==> t.record.value == CellText(row.cells, 2))
      && (t.keyWins.Some? <==> CellText(row.cells, 3) != [])
      && (t.keyWins.Some? ==> t.keyWins.value == CellText(row.cells, 3))
      && (t.logoUrl.Some? <==> Truthy(row.logoSrc))
  {
    var t := Trim(row.rankText);
    if t == [] {
      assert DigitsOf(t) == [];
    }
  }

  /** The table yields the kept rows in order, one per row at most; every item names a
      school and none comes from a founder row. */
  lemma TeamRowsSpec(rows: seq<HsScrapedRow>) returns (src: seq<nat>)
    ensures |src| == |TeamRows(rows)| <= |rows|
    ensures forall k :: 0 <= k < |src| ==>
      src[k] < |rows| && !rows[src[k]].founder && TeamRowOf(rows[src[k]]) == Some(TeamRows(rows)[k])
    ensures forall k, l :: 0 <= k < l < |src| ==> src[k] < src[l]
    ensures forall i :: 0 <= i < |rows| && TeamRowOf(rows[i]).Some? ==> i in src
    ensures forall k :: 0 <= k < |TeamRows(rows)| ==> TeamRows(rows)[k].school != []
  {
    src := KeptFromRows(rows, TeamRowParser(), |rows|);
    forall k | 0 <= k < |TeamRows(rows)| ensures TeamRows(rows)[k].school != [] {
      assert TeamRowParser()(rows[src[k]]) == Some(TeamRows(rows)[k]);
    }
  }
}
