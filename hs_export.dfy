// The high-school exporter: every configured season page is fetched and parsed into
// `perSeason` (a failing page is logged and skipped, so the others still count), and the
// seasons are then merged into one record per school carrying per-season maps. Writing the
// JSON files is output and is not modelled.
module HsExport {
  import opened Wrappers
  import opened Text
  import opened Selection
  import opened Pages
  import opened HsTable
  import opened Grouping

  /** A configured page; its key is the season label. */
  type SeasonPage = Page<HsScrapedRow>

  /** What `perSeason[p.season] = rows` stores for one page. */
  datatype SeasonRows = SeasonRows(season: string, rows: seq<TeamRow>)

  /** The `perSeason` object: season label to rows, in the order the labels were first set. */
  type PerSeason = Grouped<seq<TeamRow>>

  /** A page that could be fetched and is not behind the login wall. */
  predicate Readable(p: SeasonPage)
  {
    FetchHtml(p.response).Ok? && !LoginWall(FetchHtml(p.response).value)
  }

  /** What one page contributes: its season's rows, or nothing when fetching it threw (the
      error is caught) or it is behind the login wall. */
  function PageSeason(p: SeasonPage): Option<SeasonRows>
  {
    if Readable(p) then Some(SeasonRows(p.key, TeamRows(p.rows))) else None
  }

  function PageSeasonParser(): SeasonPage -> Option<SeasonRows>
  {
    (p: SeasonPage) => PageSeason(p)
  }

  /** The pages that were read, in page order. */
  function ReadPages(pages: seq<SeasonPage>): seq<SeasonRows>
  {
    Kept(pages, PageSeasonParser(), |pages|)
  }

  /** Storing a season's rows replaces what an earlier page of the same season stored. */
  function PerSeasonRule(): Rule<SeasonRows, seq<TeamRow>>
  {
    Rule((c: SeasonRows) => c.season, (c: SeasonRows) => [], (e: seq<TeamRow>, c: SeasonRows) => c.rows)
  }

  function PerSeasonOf(pages: seq<SeasonPage>): PerSeason
  {
    Fold(Empty(), ReadPages(pages), PerSeasonRule())
  }

  /** The page loop of `main`. */
  method CollectSeasons(pages: seq<SeasonPage>) returns (perSeason: PerSeason)
    ensures perSeason == PerSeasonOf(pages)
  {
    perSeason := Empty();
    for i := 0 to |pages|
      invariant perSeason == Fold(Empty(), Kept(pages, PageSeasonParser(), i), PerSeasonRule())
    {
      var p := pages[i];
      var html := FetchHtml(p.response);
      if html.Err? {
        assert PageSeasonParser()(pages[i]) == None;
        assert Kept(pages, PageSeasonParser(), i + 1) == Kept(pages, PageSeasonParser(), i);
        assert perSeason == Fold(Empty(), Kept(pages, PageSeasonParser(), i + 1), PerSeasonRule());
        continue;
      }
      if LoginWall(html.value) {
        assert PageSeasonParser()(pages[i]) == None;
        assert Kept(pages, PageSeasonParser(), i + 1) == Kept(pages, PageSeasonParser(), i);
        assert perSeason == Fold(Empty(), Kept(pages, PageSeasonParser(), i + 1), PerSeasonRule());
        continue;
      }
      var rows := ParseHsTable(p.rows);
      ghost var c := SeasonRows(p.key, rows);
      assert PageSeasonParser()(p) == Some(c);
      ghost var before := Kept(pages, PageSeasonParser(), i);
      assert Kept(pages, PageSeasonParser(), i + 1) == before + [c];
      assert (before + [c])[..|before|] == before;
      assert Fold(Empty(), before + [c], PerSeasonRule()) == Step(perSeason, c, PerSeasonRule());
      perSeason := Grouped(if p.key in perSeason.entries then perSeason.order else perSeason.order + [p.key],
                           perSeason.entries[p.key := rows]);
    }
  }

  // ------------------------------------------------------------------ properties of perSeason

  /** Every page that was read contributes, in page order, whatever the other pages did: a
      failing page is skipped and the loop goes on. */
  lemma ReadPagesSpec(pages: seq<SeasonPage>) returns (src: seq<nat>)
    ensures |src| == |ReadPages(pages)|
    ensures forall k :: 0 <= k < |src| ==>
      src[k] < |pages| && Readable(pages[src[k]])
      && ReadPages(pages)[k] == SeasonRows(pages[src[k]].key, TeamRows(pages[src[k]].rows))
    ensures forall k, l :: 0 <= k < l < |src| ==> src[k] < src[l]
    ensures forall i :: 0 <= i < |pages| && Readable(pages[i]) ==> i in src
  {
    src := KeptFromRows(pages, PageSeasonParser(), |pages|);
    forall k | 0 <= k < |src| ensures Readable(pages[src[k]]) {
      assert PageSeasonParser()(pages[src[k]]).Some?;
    }
  }

  predicate SeasonFor(cs: seq<SeasonRows>, i: int, season: string)
  {
    0 <= i < |cs| && cs[i].season == season
  }

  /** A later page of a season replaces the rows of an earlier one. */
  lemma {:induction false} LastSeasonWins(cs: seq<SeasonRows>, season: string) returns (i: nat)
    requires season in Fold(Empty(), cs, PerSeasonRule()).entries
    ensures SeasonFor(cs, i, season) && Fold(Empty(), cs, PerSeasonRule()).entries[season] == cs[i].rows
    ensures forall j :: i < j < |cs| ==> !SeasonFor(cs, j, season)
    decreases |cs|
  {
    var init := cs[..|cs| - 1];
    var last := |cs| - 1;
    FoldLast(cs, PerSeasonRule());
    if cs[last].season == season {
      i := last;
    } else {
      i := LastSeasonWins(init, season);
      assert SeasonFor(cs, i, season);
      forall j | i < j < |cs| ensures !SeasonFor(cs, j, season) {
        if j < last {
          assert !SeasonFor(init, j, season);
        }
      }
    }
  }

  /** `perSeason` lists each season once, holds exactly the seasons of the pages read, and
      holds for each the rows of the last page read for it. */
  lemma PerSeasonSpec(pages: seq<SeasonPage>, season: string) returns (i: nat)
    ensures Ordered(PerSeasonOf(pages))
    ensures season in PerSeasonOf(pages).entries <==> exists k :: SeasonFor(ReadPages(pages), k, season)
    ensures season in PerSeasonOf(pages).entries ==>
      && SeasonFor(ReadPages(pages), i, season)
      && PerSeasonOf(pages).entries[season] == ReadPages(pages)[i].rows
      && forall j :: i < j < |ReadPages(pages)| ==> !SeasonFor(ReadPages(pages), j, season)
  {
    var cs := ReadPages(pages);
    FoldKeys(cs, PerSeasonRule());
    if season in PerSeasonOf(pages).entries {
      i := LastSeasonWins(cs, season);
    } else {
      i := 0;
    }
    if exists k :: SeasonFor(cs, k, season) {
      var k :| SeasonFor(cs, k, season);
      assert PerSeasonRule().key(cs[k]) == season;
    }
  }

  // ------------------------------------------------------------------ mergeBySchool

  /** One row of one season, in the order `Object.entries(perSeason)` and the row arrays give. */
  datatype SeasonRow = SeasonRow(season: string, row: TeamRow)

  /** A record of `merged`. */
  datatype MergedSchool = MergedSchool(
    school: string,
    seasons: map<string, Option<nat>>,
    records: map<string, string>,
    keyWins: map<string, string>,
    logos: map<string, string>)

  type Merged = Grouped<MergedSchool>

  predicate Listed<E>(g: Grouped<E>)
  {
    forall i :: 0 <= i < |g.order| ==> g.order[i] in g.entries
  }

  function TagSeason(season: string, rows: seq<TeamRow>): (cs: seq<SeasonRow>)
    ensures |cs| == |rows|
    ensures forall j :: 0 <= j < |rows| ==> cs[j] == SeasonRow(season, rows[j])
  {
    seq(|rows|, j requires 0 <= j < |rows| => SeasonRow(season, rows[j]))
  }

  /** The rows of the first n seasons, season by season. */
  function SeasonRowsOf(ps: PerSeason, n: nat): seq<SeasonRow>
    requires Listed(ps) && n <= |ps.order|
  {
    if n == 0 then [] else SeasonRowsOf(ps, n - 1) + TagSeason(ps.order[n - 1], ps.entries[ps.order[n - 1]])
  }

  function NewMerged(c: SeasonRow): MergedSchool
  {
    MergedSchool(c.row.school, map[], map[], map[], map[])
  }

  /** `seasons[season] = row.rank ?? null` always; the record, key wins and logo only when
      not blank. */
  function MergeRow(e: MergedSchool, c: SeasonRow): MergedSchool
  {
    var r := c.row;
    e.(seasons := e.seasons[c.season := r.rank],
       records := if Truthy(r.record) then e.records[c.season := r.record.value] else e.records,
       keyWins := if Truthy(r.keyWins) then e.keyWins[c.season := r.keyWins.value] else e.keyWins,
       logos := if Truthy(r.logoUrl) then e.logos[c.season := r.logoUrl.value] else e.logos)
  }

  /** Rows are merged by `row.school`. */
  function MergeKey(c: SeasonRow): string { c.row.school }

  function MergeRule(): Rule<SeasonRow, MergedSchool>
  {
    Rule(MergeKey, NewMerged, MergeRow)
  }

  function MergedOf(ps: PerSeason): Merged
    requires Listed(ps)
  {
    Fold(Empty(), SeasonRowsOf(ps, |ps.order|), MergeRule())
  }

  /** `Object.values(merged)`. */
  function Values<E>(g: Grouped<E>): (vs: seq<E>)
    requires Listed(g)
    ensures |vs| == |g.order|
    ensures forall i :: 0 <= i < |g.order| ==> vs[i] == g.entries[g.order[i]]
  {
    seq(|g.order|, i requires 0 <= i < |g.order| => g.entries[g.order[i]])
  }

  /** A map built by a fold lists every entry it has. */
  lemma FoldListed<C, E>(cs: seq<C>, r: Rule<C, E>)
    ensures Listed(Fold(Empty(), cs, r))
  {
    FoldOrdered(cs, r);
  }

  method MergeBySchool(perSeason: PerSeason) returns (out: seq<MergedSchool>)
    requires Listed(perSeason)
    ensures Listed(MergedOf(perSeason)) && out == Values(MergedOf(perSeason))
  {
    var merged: Merged := Empty();
    for i := 0 to |perSeason.order|
      invariant merged == Fold(Empty(), SeasonRowsOf(perSeason, i), MergeRule())
    {
      var season := perSeason.order[i];
      var arr := perSeason.entries[season];
      ghost var done := SeasonRowsOf(perSeason, i);
      assert done + TagSeason(season, arr[..0]) == done;
      for j := 0 to |arr|
        invariant merged == Fold(Empty(), done + TagSeason(season, arr[..j]), MergeRule())
      {
        merged := MergeOne(merged, season, arr[j], done + TagSeason(season, arr[..j]));
        SeasonRowsSnoc(done, season, arr, j);
      }
      assert arr[..|arr|] == arr;
      assert SeasonRowsOf(perSeason, i + 1) == done + TagSeason(season, arr);
    }
    FoldListed(SeasonRowsOf(perSeason, |perSeason.order|), MergeRule());
    out := Values(merged);
  }

  lemma SeasonRowsSnoc(done: seq<SeasonRow>, season: string, arr: seq<TeamRow>, j: nat)
    requires j < |arr|
    ensures done + TagSeason(season, arr[..j + 1]) == (done + TagSeason(season, arr[..j])) + [SeasonRow(season, arr[j])]
  {
    assert TagSeason(season, arr[..j + 1]) == TagSeason(season, arr[..j]) + [SeasonRow(season, arr[j])];
  }

  /** The body of the inner loop: the school's record is created if missing, then updated. */
  method MergeOne(merged: Merged, season: string, row: TeamRow, ghost cs: seq<SeasonRow>) returns (next: Merged)
    requires merged == Fold(Empty(), cs, MergeRule())
    ensures next == Fold(Empty(), cs + [SeasonRow(season, row)], MergeRule())
  {
    var key := row.school;
    next := merged;
    if key !in next.entries {
      next := Grouped(next.order + [key], next.entries[key := MergedSchool(row.school, map[], map[], map[], map[])]);
    }
    var e := UpdateSchool(next.entries[key], season, row);
    next := next.(entries := next.entries[key := e]);
    ghost var c := SeasonRow(season, row);
    FoldSnoc(cs, c, MergeRule());
    assert next.order == Step(merged, c, MergeRule()).order;
    assert next.entries == Step(merged, c, MergeRule()).entries;
  }

  /** `seasons[season] = row.rank ?? null`, then the record, key wins and logo when set. */
  method UpdateSchool(entry: MergedSchool, season: string, row: TeamRow) returns (e: MergedSchool)
    ensures e == MergeRow(entry, SeasonRow(season, row))
  {
    e := entry;
    e := e.(seasons := e.seasons[season := row.rank]);
    if Truthy(row.record) {
      e := e.(records := e.records[season := row.record.value]);
    }
    if Truthy(row.keyWins) {
      e := e.(keyWins := e.keyWins[season := row.keyWins.value]);
    }
    if Truthy(row.logoUrl) {
      e := e.(logos := e.logos[season := row.logoUrl.value]);
    }
  }

  /** What the exporter writes to the combined file. */
  function Exported(pages: seq<SeasonPage>): seq<MergedSchool>
  {
    FoldListed(ReadPages(pages), PerSeasonRule());
    var ps := PerSeasonOf(pages);
    FoldListed(SeasonRowsOf(ps, |ps.order|), MergeRule());
    Values(MergedOf(ps))
  }

  method Export(pages: seq<SeasonPage>) returns (merged: seq<MergedSchool>)
    ensures merged == Exported(pages)
  {
    var perSeason := CollectSeasons(pages);
    FoldListed(ReadPages(pages), PerSeasonRule());
    merged := MergeBySchool(perSeason);
  }

  // ------------------------------------------------------------------ properties of the merge

  function SeasonOf(c: SeasonRow): string { c.season }
  function RankWrite(c: SeasonRow): Option<Option<nat>> { Some(c.row.rank) }
  function RecordWrite(c: SeasonRow): Option<string> { OrUndefined(c.row.record) }
  function KeyWinsWrite(c: SeasonRow): Option<string> { OrUndefined(c.row.keyWins) }
  function LogoWrite(c: SeasonRow): Option<string> { OrUndefined(c.row.logoUrl) }
  function Seasons(e: MergedSchool): map<string, Option<nat>> { e.seasons }
  function Records(e: MergedSchool): map<string, string> { e.records }
  function KeyWins(e: MergedSchool): map<string, string> { e.keyWins }
  function Logos(e: MergedSchool): map<string, string> { e.logos }

  /** Each row writes its season's entry of `seasons` (null when it has no rank), and its
      season's record, key wins and logo only when they are not blank; nothing else. */
  lemma MergeRowWrites()
    ensures WritesField(MergeRule(), Seasons, SeasonOf, RankWrite)
    ensures WritesField(MergeRule(), Records, SeasonOf, RecordWrite)
    ensures WritesField(MergeRule(), KeyWins, SeasonOf, KeyWinsWrite)
    ensures WritesField(MergeRule(), Logos, SeasonOf, LogoWrite)
  {
  }

  /** `merged` has one record per distinct school of all seasons, each filed under its own
      name, and lists each once. */
  lemma {:induction false} MergedNames(cs: seq<SeasonRow>)
    ensures forall s :: s in Fold(Empty(), cs, MergeRule()).entries ==> Fold(Empty(), cs, MergeRule()).entries[s].school == s
    decreases |cs|
  {
    if cs != [] {
      MergedNames(cs[..|cs| - 1]);
      FoldLast(cs, MergeRule());
      var b := Fold(Empty(), cs[..|cs| - 1], MergeRule());
      var c := cs[|cs| - 1];
      var e := if c.row.school in b.entries then b.entries[c.row.school] else NewMerged(c);
      assert Fold(Empty(), cs, MergeRule()).entries[c.row.school] == MergeRow(e, c);
    }
  }

  predicate SchoolFor(cs: seq<SeasonRow>, i: int, s: string)
  {
    0 <= i < |cs| && cs[i].row.school == s
  }

  /** `merged` lists each school once, holds a record exactly for the schools some row of
      some season names, and files each record under its own school. */
  lemma MergedSchools(cs: seq<SeasonRow>)
    ensures Ordered(Fold(Empty(), cs, MergeRule()))
    ensures forall s :: s in Fold(Empty(), cs, MergeRule()).entries <==> exists i :: SchoolFor(cs, i, s)
    ensures forall s :: s in Fold(Empty(), cs, MergeRule()).entries ==> Fold(Empty(), cs, MergeRule()).entries[s].school == s
  {
    FoldKeys(cs, MergeRule());
    MergedNames(cs);
    forall s ensures s in Fold(Empty(), cs, MergeRule()).entries <==> exists i :: SchoolFor(cs, i, s) {
      if s in Fold(Empty(), cs, MergeRule()).entries {
        var i :| 0 <= i < |cs| && MergeRule().key(cs[i]) == s;
        assert SchoolFor(cs, i, s);
      }
      if exists i :: SchoolFor(cs, i, s) {
        var i :| SchoolFor(cs, i, s);
        assert MergeRule().key(cs[i]) == s;
      }
    }
  }

  /** So the exported records have distinct schools. */
  lemma ExportedDistinct(ps: PerSeason)
    requires Listed(ps)
    ensures Listed(MergedOf(ps))
    ensures forall i, j :: 0 <= i < j < |Values(MergedOf(ps))| ==> Values(MergedOf(ps))[i].school != Values(MergedOf(ps))[j].school
  {
    MergedSchools(SeasonRowsOf(ps, |ps.order|));
  }

  /** For a school s: `seasons[k]` is there exactly when some row of s belongs to season k,
      and holds the rank (or null) of the last such row; `records[k]`, `keyWins[k]` and
      `logos[k]` are there exactly when some row of s in season k has a non-blank one (their
      last such values are given by MergedRecordLast, MergedKeyWinsLast and MergedLogoLast). */
  lemma MergedSeasons(cs: seq<SeasonRow>, s: string, k: string) returns (i: nat)
    requires s in Fold(Empty(), cs, MergeRule()).entries
    ensures var e := Fold(Empty(), cs, MergeRule()).entries[s];
      && (k in e.seasons <==> exists j :: WriteFor(cs, MergeKey, SeasonOf, RankWrite, j, s, k))
      && (k in e.seasons ==>
            && WriteFor(cs, MergeKey, SeasonOf, RankWrite, i, s, k) && e.seasons[k] == cs[i].row.rank
            && forall j :: i < j < |cs| ==> !WriteFor(cs, MergeKey, SeasonOf, RankWrite, j, s, k))
      && (k in e.records <==> exists j :: WriteFor(cs, MergeKey, SeasonOf, RecordWrite, j, s, k))
      && (k in e.keyWins <==> exists j :: WriteFor(cs, MergeKey, SeasonOf, KeyWinsWrite, j, s, k))
      && (k in e.logos <==> exists j :: WriteFor(cs, MergeKey, SeasonOf, LogoWrite, j, s, k))
  {
    MergeRowWrites();
    FoldFieldSet(cs, MergeRule(), Seasons, SeasonOf, RankWrite, s, k);
    FoldFieldSet(cs, MergeRule(), Records, SeasonOf, RecordWrite, s, k);
    FoldFieldSet(cs, MergeRule(), KeyWins, SeasonOf, KeyWinsWrite, s, k);
    FoldFieldSet(cs, MergeRule(), Logos, SeasonOf, LogoWrite, s, k);
    if k in Seasons(Fold(Empty(), cs, MergeRule()).entries[s]) {
      i := FoldFieldLast(cs, MergeRule(), Seasons, SeasonOf, RankWrite, s, k);
    } else {
      i := 0;
    }
  }

  /** A later row of the same school and season overwrites the record of an earlier one. */
  lemma MergedRecordLast(cs: seq<SeasonRow>, s: string, k: string) returns (i: nat)
    requires s in Fold(Empty(), cs, MergeRule()).entries
    requires k in Fold(Empty(), cs, MergeRule()).entries[s].records
    ensures WriteFor(cs, MergeKey, SeasonOf, RecordWrite, i, s, k)
    ensures Fold(Empty(), cs, MergeRule()).entries[s].records[k] == cs[i].row.record.value
    ensures forall j :: i < j < |cs| ==> !WriteFor(cs, MergeKey, SeasonOf, RecordWrite, j, s, k)
  {
    MergeRowWrites();
    i := FoldFieldLast(cs, MergeRule(), Records, SeasonOf, RecordWrite, s, k);
  }

  /** A later row of the same school and season overwrites the key wins. */
  lemma MergedKeyWinsLast(cs: seq<SeasonRow>, s: string, k: string) returns (i: nat)
    requires s in Fold(Empty(), cs, MergeRule()).entries
    requires k in Fold(Empty(), cs, MergeRule()).entries[s].keyWins
    ensures WriteFor(cs, MergeKey, SeasonOf, KeyWinsWrite, i, s, k)
    ensures Fold(Empty(), cs, MergeRule()).entries[s].keyWins[k] == cs[i].row.keyWins.value
    ensures forall j :: i < j < |cs| ==> !WriteFor(cs, MergeKey, SeasonOf, KeyWinsWrite, j, s, k)
  {
    MergeRowWrites();
    i := FoldFieldLast(cs, MergeRule(), KeyWins, SeasonOf, KeyWinsWrite, s, k);
  }

  /** A later row of the same school and season overwrites the logo. */
  lemma MergedLogoLast(cs: seq<SeasonRow>, s: string, k: string) returns (i: nat)
    requires s in Fold(Empty(), cs, MergeRule()).entries
    requires k in Fold(Empty(), cs, MergeRule()).entries[s].logos
    ensures WriteFor(cs, MergeKey, SeasonOf, LogoWrite, i, s, k)
    ensures Fold(Empty(), cs, MergeRule()).entries[s].logos[k] == cs[i].row.logoUrl.value
    ensures forall j :: i < j < |cs| ==> !WriteFor(cs, MergeKey, SeasonOf, LogoWrite, j, s, k)
  {
    MergeRowWrites();
    i := FoldFieldLast(cs, MergeRule(), Logos, SeasonOf, LogoWrite, s, k);
  }

  /** Every row of the merge comes from the season it is filed under in perSeason. */
  lemma {:induction false} SeasonRowsFrom(ps: PerSeason, n: nat, i: nat) returns (k: nat, j: nat)
    requires Listed(ps) && n <= |ps.order| && i < |SeasonRowsOf(ps, n)|
    ensures k < n && j < |ps.entries[ps.order[k]]|
    ensures SeasonRowsOf(ps, n)[i] == SeasonRow(ps.order[k], ps.entries[ps.order[k]][j])
    decreases n
  {
    var before := SeasonRowsOf(ps, n - 1);
    if i < |before| {
      k, j := SeasonRowsFrom(ps, n - 1, i);
      assert SeasonRowsOf(ps, n)[i] == before[i];
    } else {
      k, j := n - 1, i - |before|;
      assert SeasonRowsOf(ps, n)[i] == TagSeason(ps.order[k], ps.entries[ps.order[k]])[j];
    }
  }
}
