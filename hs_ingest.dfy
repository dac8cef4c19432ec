// The high-school ingester: every configured ranking page is fetched and parsed, the rows
// are aggregated by school name across pages (one entry per school, carrying per-season
// maps keyed by the page's season key), and each entry is then written to `high_schools`
// after an attempt to upload its logo. Stored rows are never read: the upsert replaces a
// school's maps by those built in this run.
module HsIngest {
  import opened Wrappers
  import opened Text
  import opened Pages
  import opened HsTable
  import opened Assets
  import opened Grouping
  import Store

  type HsPage = Page<HsScrapedRow>

  /** One parsed row, with the page it came from. */
  type Contribution = Tagged<TeamRow>

  /** The value of `bySchool` for one school. */
  datatype SchoolEntry = SchoolEntry(
    school: string,
    ranks: map<string, nat>,
    records: map<string, string>,
    keyWins: map<string, string>,
    logoUrl: Option<string>,
    sources: set<string>)

  /** The `bySchool` map. */
  type BySchool = Grouped<SchoolEntry>

  function NewEntry(school: string): SchoolEntry
  {
    SchoolEntry(school, map[], map[], map[], None, {})
  }

  /** One row folded into its school's entry. */
  function Absorb(e: SchoolEntry, c: Contribution): SchoolEntry
  {
    var r := c.row;
    e.(ranks := if r.rank.Some? then e.ranks[c.key := r.rank.value] else e.ranks,
       records := if r.record.Some? then e.records[c.key := r.record.value] else e.records,
       keyWins := if r.keyWins.Some? then e.keyWins[c.key := r.keyWins.value] else e.keyWins,
       logoUrl := if r.logoUrl.Some? && e.logoUrl.None? then r.logoUrl else e.logoUrl,
       sources := e.sources + {c.url})
  }

  /** Rows are grouped by school; a new school starts an empty entry. */
  function BySchoolRule(): Rule<Contribution, SchoolEntry>
  {
    Rule((c: Contribution) => c.row.school, (c: Contribution) => NewEntry(c.row.school),
         (e: SchoolEntry, c: Contribution) => Absorb(e, c))
  }

  /** The map built from the rows cs. */
  function BySchoolOf(cs: seq<Contribution>): BySchool
  {
    Fold(Empty(), cs, BySchoolRule())
  }

  /** The rows of every page, in page order. */
  function AllRows(pages: seq<HsPage>): seq<Contribution>
  {
    Flat(pages, TeamRows, |pages|)
  }

  /** The aggregation loop: a page that cannot be fetched ends the run with its error
      (nothing is written); otherwise every page's rows are folded in. */
  function Aggregated(pages: seq<HsPage>): Result<BySchool, string>
  {
    match FirstFailure(pages)
    case Some(i) => Err(pages[i].url)
    case None => Ok(BySchoolOf(AllRows(pages)))
  }

  method Aggregate(pages: seq<HsPage>) returns (r: Result<BySchool, string>)
    ensures r == Aggregated(pages)
  {
    var bySchool := Empty();
    for i := 0 to |pages|
      invariant forall k :: 0 <= k < i ==> !Failed(pages[k])
      invariant bySchool == BySchoolOf(Flat(pages, TeamRows, i))
    {
      var p := pages[i];
      var html := FetchHtml(p.response);
      if html.Err? {
        FirstFailureAt(pages, i);
        AggregatedFails(pages, i);
        assert Aggregated(pages) == Err(p.url);
        r := Err(p.url);
        return;
      }
      NextPage(pages, i);
      if LoginWall(html.value) {
        assert bySchool == BySchoolOf(Flat(pages, TeamRows, i + 1));
        assert forall k :: 0 <= k < i + 1 ==> !Failed(pages[k]);
        continue;
      }
      var rows := ParseHsTable(p.rows);
      bySchool := AddRows(bySchool, p.url, p.key, rows);
      assert bySchool == BySchoolOf(Flat(pages, TeamRows, i + 1));
      assert forall k :: 0 <= k < i + 1 ==> !Failed(pages[k]);
    }
    AggregatedAll(pages);
    r := Ok(bySchool);
  }

  lemma AggregatedFails(pages: seq<HsPage>, i: nat)
    requires FirstFailure(pages) == Some(i)
    ensures Aggregated(pages) == Err(pages[i].url)
  {
  }

  lemma AggregatedAll(pages: seq<HsPage>)
    requires forall k :: 0 <= k < |pages| ==> !Failed(pages[k])
    ensures Aggregated(pages) == Ok(BySchoolOf(Flat(pages, TeamRows, |pages|)))
  {
  }

  /** The map after one more page that could be fetched: unchanged when the page is behind
      the login wall, and otherwise with the page's table rows folded in. */
  lemma NextPage(pages: seq<HsPage>, i: nat)
    requires i < |pages| && !Failed(pages[i])
    ensures var p := pages[i];
      var before := BySchoolOf(Flat(pages, TeamRows, i));
      BySchoolOf(Flat(pages, TeamRows, i + 1))
        == if LoginWall(FetchHtml(p.response).value) then before
           else Fold(before, TagAll(p.url, p.key, TeamRows(p.rows)), BySchoolRule())
  {
    FoldConcat(Empty(), Flat(pages, TeamRows, i), PageRows(pages[i], TeamRows), BySchoolRule());
  }

  /** The rows of one page folded into the map, one after another. */
  method AddRows(start: BySchool, url: string, key: string, rows: seq<TeamRow>) returns (bySchool: BySchool)
    ensures bySchool == Fold(start, TagAll(url, key, rows), BySchoolRule())
  {
    bySchool := start;
    for j := 0 to |rows|
      invariant bySchool == Fold(start, TagAll(url, key, rows[..j]), BySchoolRule())
    {
      var row := rows[j];
      var school := row.school;
      var existing := if school in bySchool.entries then bySchool.entries[school] else NewEntry(school);
      ghost var c := Tagged(url, key, row);
      ghost var e0 := existing;
      if row.rank.Some? {
        existing := existing.(ranks := existing.ranks[key := row.rank.value]);
      }
      if row.record.Some? {
        existing := existing.(records := existing.records[key := row.record.value]);
      }
      if row.keyWins.Some? {
        existing := existing.(keyWins := existing.keyWins[key := row.keyWins.value]);
      }
      if row.logoUrl.Some? {
        existing := existing.(logoUrl := if existing.logoUrl.Some? then existing.logoUrl else row.logoUrl);
      }
      existing := existing.(sources := existing.sources + {url});
      assert existing == Absorb(e0, c);
      ghost var before := TagAll(url, key, rows[..j]);
      assert TagAll(url, key, rows[..j + 1]) == before + [c];
      assert (before + [c])[..|before|] == before;
      assert Fold(start, before + [c], BySchoolRule()) == Step(bySchool, c, BySchoolRule());
      bySchool := Grouped(if school in bySchool.entries then bySchool.order else bySchool.order + [school],
                          bySchool.entries[school := existing]);
    }
    assert rows[..|rows|] == rows;
  }

  // ------------------------------------------------------------------ the aggregate

  /** The map is well formed: its iteration order lists each key once, and each entry is
      filed under its own school. */
  ghost predicate WellFormed(b: BySchool)
  {
    Ordered(b) && Named(b)
  }

  /** Each entry is filed under its own school. */
  ghost predicate Named(b: BySchool)
  {
    forall s :: s in b.entries ==> b.entries[s].school == s
  }

  predicate RowFor(cs: seq<Contribution>, i: int, s: string)
  {
    0 <= i < |cs| && cs[i].row.school == s
  }

  /** One row changes only its own school's entry, and within it only the entries for its
      own season key: the rank, record and key wins are written when present, the logo only
      when none was set, and the page joins the sources. */
  lemma AbsorbSpec(e: SchoolEntry, c: Contribution)
    ensures var a := Absorb(e, c);
      && a.school == e.school
      && (forall k :: k != c.key ==>
            (k in a.ranks <==> k in e.ranks) && (k in e.ranks ==> a.ranks[k] == e.ranks[k]))
      && (forall k :: k != c.key ==>
            (k in a.records <==> k in e.records) && (k in e.records ==> a.records[k] == e.records[k]))
      && (forall k :: k != c.key ==>
            (k in a.keyWins <==> k in e.keyWins) && (k in e.keyWins ==> a.keyWins[k] == e.keyWins[k]))
      && (c.row.rank.Some? ==> c.key in a.ranks && a.ranks[c.key] == c.row.rank.value)
      && (c.row.rank.None? ==> a.ranks == e.ranks)
      && (c.row.record.Some? ==> c.key in a.records && a.records[c.key] == c.row.record.value)
      && (c.row.record.None? ==> a.records == e.records)
      && (c.row.keyWins.Some? ==> c.key in a.keyWins && a.keyWins[c.key] == c.row.keyWins.value)
      && (c.row.keyWins.None? ==> a.keyWins == e.keyWins)
      && a.logoUrl == (if e.logoUrl.Some? then e.logoUrl else c.row.logoUrl)
      && a.sources == e.sources + {c.url}
  {
  }

  /** Every entry is filed under its own school. */
  lemma {:induction false} FoldNames(cs: seq<Contribution>)
    ensures forall s :: s in BySchoolOf(cs).entries ==> BySchoolOf(cs).entries[s].school == s
    decreases |cs|
  {
    if cs != [] {
      FoldNames(cs[..|cs| - 1]);
      FoldLast(cs, BySchoolRule());
      var b := BySchoolOf(cs[..|cs| - 1]);
      var c := cs[|cs| - 1];
      var e := if c.row.school in b.entries then b.entries[c.row.school] else NewEntry(c.row.school);
      assert BySchoolOf(cs).entries[c.row.school] == Absorb(e, c);
    }
  }

  /** The map is well formed, with exactly one entry per school that some row names. */
  lemma FoldSchools(cs: seq<Contribution>)
    ensures WellFormed(BySchoolOf(cs))
    ensures forall s :: s in BySchoolOf(cs).entries <==> exists i :: RowFor(cs, i, s)
  {
    FoldKeys(cs, BySchoolRule());
    FoldNames(cs);
    forall s | s in BySchoolOf(cs).entries ensures exists i :: RowFor(cs, i, s) {
      var i :| 0 <= i < |cs| && BySchoolRule().key(cs[i]) == s;
      assert RowFor(cs, i, s);
    }
    forall s, i | RowFor(cs, i, s) ensures s in BySchoolOf(cs).entries {
      assert BySchoolRule().key(cs[i]) == s;
    }
  }

  predicate SourceFor(cs: seq<Contribution>, i: int, s: string, u: string)
  {
    RowFor(cs, i, s) && cs[i].url == u
  }

  /** The sources of a school are exactly the URLs of the pages that gave a row for it. */
  lemma FoldSources(cs: seq<Contribution>, s: string, u: string)
    requires s in BySchoolOf(cs).entries
    ensures u in BySchoolOf(cs).entries[s].sources <==> exists i :: SourceFor(cs, i, s, u)
  {
    BySchoolFields();
    FoldFieldUnion(cs, BySchoolRule(), EntrySources, UrlOf, s, u);
    forall i ensures SourceFor(cs, i, s, u) <==> CollectFor(cs, BySchoolRule().key, UrlOf, i, s, u) {
    }
  }

  predicate LogoFor(cs: seq<Contribution>, i: int, s: string)
  {
    RowFor(cs, i, s) && cs[i].row.logoUrl.Some?
  }

  /** A school none of whose rows has a logo has none. */
  lemma {:induction false} FoldNoLogo(cs: seq<Contribution>, s: string)
    requires s in BySchoolOf(cs).entries
    requires forall i :: 0 <= i < |cs| ==> !LogoFor(cs, i, s)
    ensures BySchoolOf(cs).entries[s].logoUrl.None?
    decreases |cs|
  {
    var init := cs[..|cs| - 1];
    var b := BySchoolOf(init);
    FoldLast(cs, BySchoolRule());
    if s in b.entries {
      forall i | 0 <= i < |init| ensures !LogoFor(init, i, s) {
        assert !LogoFor(cs, i, s);
      }
      FoldNoLogo(init, s);
    }
    assert !LogoFor(cs, |cs| - 1, s);
  }

  /** The first logo seen for a school wins: once one of its rows has one, the entry keeps
      the logo of the earliest such row. */
  lemma {:induction false} FoldFirstLogo(cs: seq<Contribution>, s: string) returns (j: nat)
    requires s in BySchoolOf(cs).entries
    requires exists i :: LogoFor(cs, i, s)
    ensures LogoFor(cs, j, s) && forall i :: 0 <= i < j ==> !LogoFor(cs, i, s)
    ensures BySchoolOf(cs).entries[s].logoUrl == cs[j].row.logoUrl
    decreases |cs|
  {
    var init := cs[..|cs| - 1];
    var b := BySchoolOf(init);
    var last := |cs| - 1;
    FoldLast(cs, BySchoolRule());
    if exists i :: LogoFor(init, i, s) {
      var i :| LogoFor(init, i, s);
      FoldHas(init, BySchoolRule(), i);
      j := FoldFirstLogo(init, s);
      assert LogoFor(cs, j, s);
      forall i | 0 <= i < j ensures !LogoFor(cs, i, s) {
        assert !LogoFor(init, i, s);
      }
      if cs[last].row.school == s {
        assert BySchoolOf(cs).entries[s] == Absorb(b.entries[s], cs[last]);
      } else {
        assert BySchoolOf(cs).entries[s] == b.entries[s];
      }
    } else {
      j := last;
      forall i | 0 <= i < j ensures !LogoFor(cs, i, s) {
        assert !LogoFor(init, i, s);
      }
      var i :| LogoFor(cs, i, s);
      assert i == last;
      if s in b.entries {
        FoldNoLogo(init, s);
      }
    }
  }

  predicate RankFor(cs: seq<Contribution>, i: int, s: string, k: string)
  {
    RowFor(cs, i, s) && cs[i].key == k && cs[i].row.rank.Some?
  }

  function SeasonKeyOf(c: Contribution): string { c.key }
  function UrlOf(c: Contribution): string { c.url }
  function RankWrite(c: Contribution): Option<nat> { c.row.rank }
  function EntryRanks(e: SchoolEntry): map<string, nat> { e.ranks }
  function EntrySources(e: SchoolEntry): set<string> { e.sources }

  /** Each row writes its season's rank when it has one, and adds its page to the sources. */
  lemma BySchoolFields()
    ensures WritesField(BySchoolRule(), EntryRanks, SeasonKeyOf, RankWrite)
    ensures CollectsField(BySchoolRule(), EntrySources, UrlOf)
  {
  }

  predicate RecordFor(cs: seq<Contribution>, i: int, s: string, k: string)
  {
    RowFor(cs, i, s) && cs[i].key == k && cs[i].row.record.Some?
  }

  predicate KeyWinsFor(cs: seq<Contribution>, i: int, s: string, k: string)
  {
    RowFor(cs, i, s) && cs[i].key == k && cs[i].row.keyWins.Some?
  }

  function RecordWrite(c: Contribution): Option<string> { c.row.record }
  function KeyWinsWrite(c: Contribution): Option<string> { c.row.keyWins }
  function EntryRecords(e: SchoolEntry): map<string, string> { e.records }
  function EntryKeyWins(e: SchoolEntry): map<string, string> { e.keyWins }

  /** Each row writes its season's record and key wins when they are not blank. */
  lemma BySchoolTextFields()
    ensures WritesField(BySchoolRule(), EntryRecords, SeasonKeyOf, RecordWrite)
    ensures WritesField(BySchoolRule(), EntryKeyWins, SeasonKeyOf, KeyWinsWrite)
  {
  }

  /** `ranks[k]` of a school is set exactly when one of its rows of season k has a rank. */
  lemma FoldRankSet(cs: seq<Contribution>, s: string, k: string)
    requires s in BySchoolOf(cs).entries
    ensures k in BySchoolOf(cs).entries[s].ranks <==> exists i :: RankFor(cs, i, s, k)
  {
    BySchoolFields();
    FoldFieldSet(cs, BySchoolRule(), EntryRanks, SeasonKeyOf, RankWrite, s, k);
    forall i ensures RankFor(cs, i, s, k) <==> WriteFor(cs, BySchoolRule().key, SeasonKeyOf, RankWrite, i, s, k) {
    }
  }

  /** A later row overwrites an earlier one: a set `ranks[k]` holds the rank of the last row
      of that school and season that has one. */
  lemma FoldRankLast(cs: seq<Contribution>, s: string, k: string) returns (i: nat)
    requires s in BySchoolOf(cs).entries
    requires k in BySchoolOf(cs).entries[s].ranks
    ensures RankFor(cs, i, s, k) && BySchoolOf(cs).entries[s].ranks[k] == cs[i].row.rank.value
    ensures forall j :: i < j < |cs| ==> !RankFor(cs, j, s, k)
  {
    BySchoolFields();
    i := FoldFieldLast(cs, BySchoolRule(), EntryRanks, SeasonKeyOf, RankWrite, s, k);
    forall j | i < j < |cs| ensures !RankFor(cs, j, s, k) {
      assert !WriteFor(cs, BySchoolRule().key, SeasonKeyOf, RankWrite, j, s, k);
    }
  }

  /** `records[k]` of a school is set exactly when one of its rows of season k has a record. */
  lemma FoldRecordSet(cs: seq<Contribution>, s: string, k: string)
    requires s in BySchoolOf(cs).entries
    ensures k in BySchoolOf(cs).entries[s].records <==> exists i :: RecordFor(cs, i, s, k)
  {
    BySchoolTextFields();
    FoldFieldSet(cs, BySchoolRule(), EntryRecords, SeasonKeyOf, RecordWrite, s, k);
    forall i ensures RecordFor(cs, i, s, k) <==> WriteFor(cs, BySchoolRule().key, SeasonKeyOf, RecordWrite, i, s, k) {
    }
  }

  /** A set `records[k]` holds the record of the last row of that school and season that
      has one. */
  lemma FoldRecordLast(cs: seq<Contribution>, s: string, k: string) returns (i: nat)
    requires s in BySchoolOf(cs).entries
    requires k in BySchoolOf(cs).entries[s].records
    ensures RecordFor(cs, i, s, k) && BySchoolOf(cs).entries[s].records[k] == cs[i].row.record.value
    ensures forall j :: i < j < |cs| ==> !RecordFor(cs, j, s, k)
  {
    BySchoolTextFields();
    i := FoldFieldLast(cs, BySchoolRule(), EntryRecords, SeasonKeyOf, RecordWrite, s, k);
    forall j | i < j < |cs| ensures !RecordFor(cs, j, s, k) {
      assert !WriteFor(cs, BySchoolRule().key, SeasonKeyOf, RecordWrite, j, s, k);
    }
  }

  /** `key_wins[k]` of a school is set exactly when one of its rows of season k has key wins. */
  lemma FoldKeyWinsSet(cs: seq<Contribution>, s: string, k: string)
    requires s in BySchoolOf(cs).entries
    ensures k in BySchoolOf(cs).entries[s].keyWins <==> exists i :: KeyWinsFor(cs, i, s, k)
  {
    BySchoolTextFields();
    FoldFieldSet(cs, BySchoolRule(), EntryKeyWins, SeasonKeyOf, KeyWinsWrite, s, k);
    forall i ensures KeyWinsFor(cs, i, s, k) <==> WriteFor(cs, BySchoolRule().key, SeasonKeyOf, KeyWinsWrite, i, s, k) {
    }
  }

  /** A set `key_wins[k]` holds the key wins of the last row of that school and season that
      has them. */
  lemma FoldKeyWinsLast(cs: seq<Contribution>, s: string, k: string) returns (i: nat)
    requires s in BySchoolOf(cs).entries
    requires k in BySchoolOf(cs).entries[s].keyWins
    ensures KeyWinsFor(cs, i, s, k) && BySchoolOf(cs).entries[s].keyWins[k] == cs[i].row.keyWins.value
    ensures forall j :: i < j < |cs| ==> !KeyWinsFor(cs, j, s, k)
  {
    BySchoolTextFields();
    i := FoldFieldLast(cs, BySchoolRule(), EntryKeyWins, SeasonKeyOf, KeyWinsWrite, s, k);
    forall j | i < j < |cs| ensures !KeyWinsFor(cs, j, s, k) {
      assert !WriteFor(cs, BySchoolRule().key, SeasonKeyOf, KeyWinsWrite, j, s, k);
    }
  }

  // ------------------------------------------------------------------ writing the entries

  /** What writing one school meets: its logo transfer and whether the upsert fails. */
  datatype SchoolEnv = SchoolEnv(logo: Transfer, upsertFails: bool)

  /** The database and the storage bucket. */
  datatype Stores = Stores(db: Store.Db, objects: set<string>)

  /** `uploadLogoIfNeeded`: no logo URL, or a failed download or upload, gives no path. */
  function LogoPath(objects: set<string>, logoUrl: Option<string>, t: Transfer): (r: (Option<string>, set<string>))
    ensures logoUrl.None? ==> r == (None, objects)
    ensures r.0.Some? ==> r.1 == objects + {r.0.value} && StartsWith(r.0.value, "hs_logos/")
    ensures r.0.None? ==> r.1 == objects
  {
    if logoUrl.None? then (None, objects)
    else
      var put := StoreSchoolLogo(objects, t);
      if put.result.Ok? then (Some(put.result.value.path), put.objects) else (None, put.objects)
  }

  /** One entry written: a failed upsert is logged and leaves the table as it was. */
  function WriteSchool(st: Stores, e: SchoolEntry, env: SchoolEnv): Stores
  {
    var (path, objects) := LogoPath(st.objects, e.logoUrl, env.logo);
    if env.upsertFails then Stores(st.db, objects)
    else Stores(Store.UpsertHighSchool(st.db, e.school, path, e.ranks, e.records, e.keyWins, e.sources), objects)
  }

  predicate Listed(b: BySchool)
  {
    forall i :: 0 <= i < |b.order| ==> b.order[i] in b.entries
  }

  /** The first n entries written, in the map's order. */
  function WriteAll(st: Stores, b: BySchool, env: string -> SchoolEnv, n: nat): Stores
    requires Listed(b) && n <= |b.order|
  {
    if n == 0 then st
    else
      var s := b.order[n - 1];
      WriteSchool(WriteAll(st, b, env, n - 1), b.entries[s], env(s))
  }

  method WriteSchools(st: Stores, b: BySchool, env: string -> SchoolEnv) returns (out: Stores)
    requires Listed(b)
    ensures out == WriteAll(st, b, env, |b.order|)
  {
    out := st;
    for i := 0 to |b.order|
      invariant out == WriteAll(st, b, env, i)
    {
      var entry := b.entries[b.order[i]];
      var e := env(b.order[i]);
      var (logoPath, objects) := LogoPath(out.objects, entry.logoUrl, e.logo);
      out := out.(objects := objects);
      if !e.upsertFails {
        out := out.(db := Store.UpsertHighSchool(out.db, entry.school, logoPath, entry.ranks,
                                                 entry.records, entry.keyWins, entry.sources));
      }
    }
  }

  /** The whole run. */
  function Ingested(pages: seq<HsPage>, st: Stores, env: string -> SchoolEnv): Result<Stores, string>
  {
    match Aggregated(pages)
    case Err(e) => Err(e)
    case Ok(b) => AggregatedListed(pages); Ok(WriteAll(st, b, env, |b.order|))
  }

  method Ingest(pages: seq<HsPage>, st: Stores, env: string -> SchoolEnv) returns (r: Result<Stores, string>)
    ensures r == Ingested(pages, st, env)
  {
    var agg := Aggregate(pages);
    if agg.Err? {
      return Err(agg.error);
    }
    var b := agg.value;
    AggregatedListed(pages);
    var out := WriteSchools(st, b, env);
    r := Ok(out);
  }

  /** An aggregate is well formed and lists its entries. */
  lemma AggregatedListed(pages: seq<HsPage>)
    ensures Aggregated(pages).Ok? ==> WellFormed(Aggregated(pages).value) && Listed(Aggregated(pages).value)
  {
    if Aggregated(pages).Ok? {
      FoldSchools(AllRows(pages));
    }
  }

  /** The run fails exactly when some page cannot be fetched, with the URL of the first such
      page, and then writes nothing. */
  lemma IngestFails(pages: seq<HsPage>, st: Stores, env: string -> SchoolEnv)
    ensures Ingested(pages, st, env).Err? <==> exists i :: 0 <= i < |pages| && Failed(pages[i])
    ensures Ingested(pages, st, env).Err? ==>
      exists i :: 0 <= i < |pages| && Failed(pages[i]) && Ingested(pages, st, env).error == pages[i].url
        && forall k :: 0 <= k < i ==> !Failed(pages[k])
  {
    if FirstFailure(pages).Some? {
      var j := FirstFailure(pages).value;
      assert Ingested(pages, st, env).error == pages[j].url;
    }
  }

  /** One school written: its row is replaced by this run's maps and sources, with the
      uploaded logo's path, unless the upsert fails; nothing else in the database changes,
      and the bucket only gains the logo. */
  lemma WriteSchoolSpec(st: Stores, e: SchoolEntry, env: SchoolEnv)
    ensures var out := WriteSchool(st, e, env);
      && st.objects <= out.objects
      && out.db.(highSchools := st.db.highSchools, nextId := st.db.nextId) == st.db
      && (Store.Valid(st.db) ==> Store.Valid(out.db))
      && (forall t :: t != e.school ==>
            (t in out.db.highSchools <==> t in st.db.highSchools)
            && (t in st.db.highSchools ==> out.db.highSchools[t] == st.db.highSchools[t]))
      && (env.upsertFails ==> out.db == st.db)
      && (!env.upsertFails ==>
            && e.school in out.db.highSchools
            && var row := out.db.highSchools[e.school];
            && row.ranks == e.ranks && row.records == e.records && row.keyWins == e.keyWins
            && row.sourceUrls == e.sources
            && row.logoPath == LogoPath(st.objects, e.logoUrl, env.logo).0
            && (row.logoPath.Some? ==> row.logoPath.value in out.objects))
  {
    WriteSchoolFrame(st, e, env);
    forall t | t != e.school
      ensures var out := WriteSchool(st, e, env);
        (t in out.db.highSchools <==> t in st.db.highSchools)
        && (t in st.db.highSchools ==> out.db.highSchools[t] == st.db.highSchools[t])
    {
      WriteSchoolOther(st, e, env, t);
    }
    if !env.upsertFails {
      WriteSchoolRow(st, e, env);
    }
  }

  /** Writing a school keeps the bucket's objects, the other tables and validity. */
  lemma WriteSchoolFrame(st: Stores, e: SchoolEntry, env: SchoolEnv)
    ensures var out := WriteSchool(st, e, env);
      && st.objects <= out.objects
      && out.db.(highSchools := st.db.highSchools, nextId := st.db.nextId) == st.db
      && (Store.Valid(st.db) ==> Store.Valid(out.db))
      && (env.upsertFails ==> out.db == st.db)
  {
    Store.UpsertHighSchoolSpec(st.db, e.school, LogoPath(st.objects, e.logoUrl, env.logo).0, e.ranks, e.records, e.keyWins, e.sources);
  }

  /** Writing a school leaves the row of every other school as it was. */
  lemma WriteSchoolOther(st: Stores, e: SchoolEntry, env: SchoolEnv, t: string)
    requires t != e.school
    ensures var out := WriteSchool(st, e, env);
      && (t in out.db.highSchools <==> t in st.db.highSchools)
      && (t in st.db.highSchools ==> out.db.highSchools[t] == st.db.highSchools[t])
  {
    Store.UpsertHighSchoolSpec(st.db, e.school, LogoPath(st.objects, e.logoUrl, env.logo).0, e.ranks, e.records, e.keyWins, e.sources);
  }

  /** A school whose upsert succeeds holds this run's maps, sources and logo path. */
  lemma WriteSchoolRow(st: Stores, e: SchoolEntry, env: SchoolEnv)
    requires !env.upsertFails
    ensures var out := WriteSchool(st, e, env);
      && e.school in out.db.highSchools
      && var row := out.db.highSchools[e.school];
      && row.ranks == e.ranks && row.records == e.records && row.keyWins == e.keyWins
      && row.sourceUrls == e.sources
      && row.logoPath == LogoPath(st.objects, e.logoUrl, env.logo).0
      && (row.logoPath.Some? ==> row.logoPath.value in out.objects)
  {
    Store.UpsertHighSchoolSpec(st.db, e.school, LogoPath(st.objects, e.logoUrl, env.logo).0, e.ranks, e.records, e.keyWins, e.sources);
  }

  /** Writing the first n schools keeps the bucket's objects, the other tables and validity. */
  lemma {:induction false} WriteAllFrame(st: Stores, b: BySchool, env: string -> SchoolEnv, n: nat)
    requires Listed(b) && n <= |b.order|
    ensures var out := WriteAll(st, b, env, n);
      && st.objects <= out.objects
      && out.db.(highSchools := st.db.highSchools, nextId := st.db.nextId) == st.db
      && (Store.Valid(st.db) ==> Store.Valid(out.db))
    decreases n
  {
    if n > 0 {
      WriteAllFrame(st, b, env, n - 1);
      var t := b.order[n - 1];
      WriteSchoolFrame(WriteAll(st, b, env, n - 1), b.entries[t], env(t));
    }
  }

  /** A school that is not written, or whose upsert fails, keeps its stored row (or stays
      absent); no other table changes and no stored object is lost. */
  lemma {:induction false} WriteAllKeeps(st: Stores, b: BySchool, env: string -> SchoolEnv, n: nat, s: string)
    requires Named(b) && Listed(b) && n <= |b.order|
    requires s !in b.order[..n] || env(s).upsertFails
    ensures var out := WriteAll(st, b, env, n);
      && st.objects <= out.objects
      && out.db.(highSchools := st.db.highSchools, nextId := st.db.nextId) == st.db
      && (Store.Valid(st.db) ==> Store.Valid(out.db))
      && (s in out.db.highSchools <==> s in st.db.highSchools)
      && (s in st.db.highSchools ==> out.db.highSchools[s] == st.db.highSchools[s])
    decreases n
  {
    WriteAllFrame(st, b, env, n);
    if n > 0 {
      var t := b.order[n - 1];
      var prev := WriteAll(st, b, env, n - 1);
      assert b.order[..n] == b.order[..n - 1] + [t];
      assert s !in b.order[..n - 1] || env(s).upsertFails;
      WriteAllKeeps(st, b, env, n - 1, s);
      assert WriteAll(st, b, env, n) == WriteSchool(prev, b.entries[t], env(t));
      if s != t {
        assert b.entries[t].school == t;
        WriteSchoolOther(prev, b.entries[t], env(t), s);
      } else {
        assert t in b.order[..n];
        WriteSchoolFrame(prev, b.entries[t], env(t));
      }
    }
  }

  /** A school written without an upsert failure holds exactly the maps and sources of this
      run, whatever was stored before; it has a logo path only when it has a logo URL, and
      then the logo is in the bucket. */
  lemma {:induction false} WriteAllWrites(st: Stores, b: BySchool, env: string -> SchoolEnv, n: nat, s: string)
    requires Named(b) && Listed(b) && n <= |b.order|
    requires s in b.order[..n] && !env(s).upsertFails
    ensures var out := WriteAll(st, b, env, n);
      && s in out.db.highSchools
      && var e := b.entries[s];
      && var row := out.db.highSchools[s];
      && row.ranks == e.ranks && row.records == e.records && row.keyWins == e.keyWins
      && row.sourceUrls == e.sources
      && (e.logoUrl.None? ==> row.logoPath.None?)
      && (row.logoPath.Some? ==> row.logoPath.value in out.objects)
    decreases n
  {
    var t := b.order[n - 1];
    var prev := WriteAll(st, b, env, n - 1);
    assert b.order[..n] == b.order[..n - 1] + [t];
    assert b.entries[t].school == t;
    if s != t {
      WriteAllWrites(st, b, env, n - 1, s);
      WriteSchoolOther(prev, b.entries[t], env(t), s);
      WriteSchoolFrame(prev, b.entries[t], env(t));
    } else {
      WriteSchoolRow(prev, b.entries[t], env(t));
    }
  }

  /** After a run: a school named by some row of a page that was read is stored with this
      run's maps, and its sources are exactly the pages that named it, unless its upsert
      failed. */
  lemma IngestedWrites(pages: seq<HsPage>, st: Stores, env: string -> SchoolEnv, s: string, u: string)
    requires Ingested(pages, st, env).Ok?
    requires exists i :: RowFor(AllRows(pages), i, s)
    requires !env(s).upsertFails
    ensures var out := Ingested(pages, st, env).value;
      var cs := AllRows(pages);
      && s in Aggregated(pages).value.entries
      && s in out.db.highSchools
      && out.db.highSchools[s].ranks == Aggregated(pages).value.entries[s].ranks
      && out.db.highSchools[s].records == Aggregated(pages).value.entries[s].records
      && out.db.highSchools[s].keyWins == Aggregated(pages).value.entries[s].keyWins
      && (u in out.db.highSchools[s].sourceUrls <==> exists i :: SourceFor(cs, i, s, u))
  {
    var cs := AllRows(pages);
    var b := Aggregated(pages).value;
    AggregatedListed(pages);
    FoldSchools(cs);
    assert b.order[..|b.order|] == b.order;
    WriteAllWrites(st, b, env, |b.order|, s);
    FoldSources(cs, s, u);
  }

  /** After a run, a school that no row named keeps its stored row, or stays absent. */
  lemma IngestedKeeps(pages: seq<HsPage>, st: Stores, env: string -> SchoolEnv, s: string)
    requires Ingested(pages, st, env).Ok?
    requires forall i :: 0 <= i < |AllRows(pages)| ==> !RowFor(AllRows(pages), i, s)
    ensures var out := Ingested(pages, st, env).value;
      && (s in out.db.highSchools <==> s in st.db.highSchools)
      && (s in st.db.highSchools ==> out.db.highSchools[s] == st.db.highSchools[s])
      && st.objects <= out.objects
  {
    var cs := AllRows(pages);
    var b := Aggregated(pages).value;
    AggregatedListed(pages);
    FoldSchools(cs);
    assert b.order[..|b.order|] == b.order;
    WriteAllKeeps(st, b, env, |b.order|, s);
  }
}
