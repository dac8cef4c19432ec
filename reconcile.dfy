// The player loop of the structured scraper's `main`: every source page is fetched and
// parsed, and each parsed player has its images uploaded, its stored row read, its
// per-season maps merged with the stored ones under the page's season key, its high
// school, circuit team and college resolved to ids (created when missing), and its row
// upserted by name. The database and the storage bucket are values passed in and returned;
// what every outside call produces (a response, a failure) is an input.
module Reconcile {
  import opened Wrappers
  import opened Text
  import opened Store
  import opened Assets
  import opened Season
  import opened PlayerTable
  import Pages

  /** The database and the storage bucket. */
  datatype World = World(db: Db, objects: set<string>)

  /** How a select and an upsert of one resolve-or-create call go. */
  datatype Calls = Calls(selectFails: bool, upsertFails: bool)

  /** A resolve-or-create call's id, the database after it, and whether it threw. */
  datatype Resolved = Resolved(id: Option<nat>, db: Db, failed: bool)

  /** `existing?.id`, when the select found a row whose id is not 0 (0 is falsy). */
  function FoundId<R>(table: map<string, R>, key: string, idOf: R -> nat, selectFails: bool): Option<nat>
  {
    if selectFails || key !in table || idOf(table[key]) == 0 then None else Some(idOf(table[key]))
  }

  /** `ensureHighSchoolId`. */
  function EnsureHighSchool(db: Db, school: Option<string>, calls: Calls): Resolved
  {
    if !Truthy(school) then Resolved(None, db, false)
    else
      var s := school.value;
      var found := FoundId(db.highSchools, s, SchoolId, calls.selectFails);
      if found.Some? then Resolved(found, db, false)
      else if calls.upsertFails then Resolved(None, db, true)
      else
        var r := UpsertSchoolStub(db, s);
        Resolved(Some(r.highSchools[s].id), r, false)
  }

  /** `ensureCircuitTeamId`. */
  function EnsureCircuitTeam(db: Db, team: Option<string>, calls: Calls): Resolved
  {
    if !Truthy(team) then Resolved(None, db, false)
    else
      var t := team.value;
      var found := FoundId(db.circuitTeams, t, TeamId, calls.selectFails);
      if found.Some? then Resolved(found, db, false)
      else if calls.upsertFails then Resolved(None, db, true)
      else
        var r := UpsertTeamStub(db, t);
        Resolved(Some(r.circuitTeams[t].id), r, false)
  }

  /** `ensureCollegeId`'s result, the world after it, and whether it threw. */
  datatype CollegeResolved = CollegeResolved(id: Option<nat>, logoPath: Option<string>, world: World, failed: bool)

  /** The stored path of an upload that succeeded. */
  function Uploaded(put: Put): Option<string>
  {
    if put.result.Ok? then Some(put.result.value.path) else None
  }

  /** `ensureCollegeId`: an existing college is returned as found; otherwise its logo is
      uploaded when it has one (a failure there is swallowed) and the college is upserted. */
  function EnsureCollege(w: World, name: Option<string>, logoUrl: Option<string>, calls: Calls, t: Transfer): CollegeResolved
  {
    if !Truthy(name) then CollegeResolved(None, None, w, false)
    else
      var n := name.value;
      var found := FoundId(w.db.colleges, n, CollegeId, calls.selectFails);
      if found.Some? then CollegeResolved(found, w.db.colleges[n].logoPath, w, false)
      else
        var put := if Truthy(logoUrl) then StoreCollegeLogo(w.objects, t) else Put(Err("no logo"), w.objects);
        var logoPath := Uploaded(put);
        if calls.upsertFails then CollegeResolved(None, None, World(w.db, put.objects), true)
        else
          var r := UpsertCollege(w.db, n, logoPath, logoUrl);
          var stored := r.colleges[n].logoPath;
          CollegeResolved(Some(r.colleges[n].id), if stored.Some? then stored else logoPath, World(r, put.objects), false)
  }

  // ------------------------------------------------------------------ one player

  /** What the outside calls made for one player produce. */
  datatype PlayerEnv = PlayerEnv(
    image: Transfer,        // the player image transfer
    logo: Transfer,         // the college logo transfer
    readFails: bool,        // the selects of the stored row return no data
    school: Calls,
    team: Calls,
    college: Calls,
    collegeLogo: Transfer,  // the logo transfer of a college that is created
    upsertFails: bool)      // the player upsert returns an error

  /** The world after a step, and whether the step threw out of `main`. */
  datatype Outcome = Outcome(world: World, aborted: bool)

  function ImageUpload(objects: set<string>, p: Player, t: Transfer): Put
  {
    if Truthy(p.playerImageUrl) then StorePlayerImage(objects, t) else Put(Err("no image"), objects)
  }

  function LogoUpload(objects: set<string>, p: Player, t: Transfer): Put
  {
    if Truthy(p.collegeLogoUrl) then StoreLogo(objects, t) else Put(Err("no logo"), objects)
  }

  /** The stored row of the player, as the selects by name return it. */
  function StoredRow(db: Db, name: string, readFails: bool): Option<PlayerRow>
  {
    if readFails || name !in db.players then None else Some(db.players[name])
  }

  function NoMaps(): SeasonMaps
  {
    SeasonMaps(map[], map[], map[], map[], map[], map[], map[], map[])
  }

  function StoredMaps(stored: Option<PlayerRow>): SeasonMaps
  {
    if stored.Some? then stored.value.seasons else NoMaps()
  }

  function StoredSources(stored: Option<PlayerRow>): set<string>
  {
    if stored.Some? then stored.value.sourceUrls else {}
  }

  /** `if (!playerImgPath && existingRow?.image_path) playerImgPath = existingRow.image_path`. */
  function ImagePath(uploaded: Option<string>, stored: Option<PlayerRow>): Option<string>
  {
    if !Truthy(uploaded) && stored.Some? && Truthy(stored.value.columns.imagePath) then stored.value.columns.imagePath
    else uploaded
  }

  /** `if (v) m[key] = v` on a copy of the stored map. */
  function Put1<V>(m: map<string, V>, key: string, v: Option<V>): map<string, V>
  {
    if v.Some? then m[key := v.value] else m
  }

  /** The per-season maps written for the player: rank and rating when they are numbers,
      the strings when they are not empty. */
  function MergeSeasons(stored: SeasonMaps, key: string, p: Player): SeasonMaps
  {
    SeasonMaps(
      Put1(stored.ranks, key, p.rank),
      Put1(stored.ratings, key, p.rating),
      Put1(stored.notes, key, OrUndefined(p.ratingComment)),
      Put1(stored.positions, key, OrUndefined(p.position)),
      Put1(stored.heights, key, OrUndefined(p.height)),
      Put1(stored.highSchools, key, OrUndefined(p.highSchool)),
      Put1(stored.circuitPrograms, key, OrUndefined(p.circuitProgram)),
      Put1(stored.committedColleges, key, OrUndefined(p.committedCollege)))
  }

  /** The plain columns of the upserted row; `state` is never set by the scraper and
      `college_logo_path` is always written as null. */
  function ColumnsOf(p: Player, url: string, gradeYear: Option<nat>, schoolId: Option<nat>, teamId: Option<nat>,
                     collegeId: Option<nat>, imagePath: Option<string>): PlayerColumns
  {
    PlayerColumns(gradeYear, p.position, p.height, p.highSchool, schoolId, p.circuitProgram, teamId, None,
                  p.committedCollege, collegeId, p.rating, p.ratingComment, imagePath, None, url)
  }

  /** The resolve-or-create calls and the player upsert that end a visit of the inner loop:
      a throw from a resolve-or-create call leaves `main`, a failed player upsert is logged. */
  function Resolve(w: World, p: Player, url: string, gradeYear: Option<nat>, env: PlayerEnv,
                   imagePath: Option<string>, seasons: SeasonMaps, sources: set<string>): Outcome
  {
    var hs := EnsureHighSchool(w.db, OrUndefined(p.highSchool), env.school);
    if hs.failed then Outcome(World(hs.db, w.objects), true)
    else
      var ct := EnsureCircuitTeam(hs.db, OrUndefined(p.circuitProgram), env.team);
      if ct.failed then Outcome(World(ct.db, w.objects), true)
      else
        var cc := EnsureCollege(World(ct.db, w.objects), OrUndefined(p.committedCollege), OrUndefined(p.collegeLogoUrl),
                                env.college, env.collegeLogo);
        if cc.failed then Outcome(cc.world, true)
        else if env.upsertFails then Outcome(cc.world, false)
        else
          var columns := ColumnsOf(p, url, gradeYear, hs.id, ct.id, cc.id, imagePath);
          Outcome(World(UpsertPlayer(cc.world.db, p.name, columns, seasons, sources), cc.world.objects), false)
  }

  /** One visit of the inner loop of `main`: the uploads, the read of the stored row, the
      merge, and then Resolve. */
  function PlayerStep(w: World, p: Player, url: string, key: string, gradeYear: Option<nat>, env: PlayerEnv): Outcome
  {
    var img := ImageUpload(w.objects, p, env.image);
    var logo := LogoUpload(img.objects, p, env.logo);
    var stored := StoredRow(w.db, p.name, env.readFails);
    Resolve(World(w.db, logo.objects), p, url, gradeYear, env, ImagePath(Uploaded(img), stored),
            MergeSeasons(StoredMaps(stored), key, p), StoredSources(stored) + {url})
  }

  /** The two uploads: the player image's path when it was stored, and the bucket after
      both. A failure is logged and leaves the path undefined. */
  method UploadImages(objects0: set<string>, p: Player, env: PlayerEnv) returns (playerImgPath: Option<string>, objects: set<string>)
    ensures playerImgPath == Uploaded(ImageUpload(objects0, p, env.image))
    ensures objects == LogoUpload(ImageUpload(objects0, p, env.image).objects, p, env.logo).objects
  {
    objects := objects0;
    playerImgPath := None;
    if Truthy(p.playerImageUrl) {
      var put := StorePlayerImage(objects, env.image);
      objects := put.objects;
      if put.result.Ok? {
        playerImgPath := Some(put.result.value.path);
      }
    }
    if Truthy(p.collegeLogoUrl) {
      var put := StoreLogo(objects, env.logo);
      objects := put.objects;
    }
  }

  /** The selects of the stored row: its maps and sources, and its image path when no new
      image was stored. */
  method ReadStored(db: Db, name: string, readFails: bool, uploaded: Option<string>)
    returns (existing: SeasonMaps, storedSources: set<string>, playerImgPath: Option<string>)
    ensures existing == StoredMaps(StoredRow(db, name, readFails))
    ensures storedSources == StoredSources(StoredRow(db, name, readFails))
    ensures playerImgPath == ImagePath(uploaded, StoredRow(db, name, readFails))
  {
    existing := NoMaps();
    storedSources := {};
    playerImgPath := uploaded;
    if !readFails && name in db.players {
      var row := db.players[name];
      existing := row.seasons;
      if !Truthy(playerImgPath) && Truthy(row.columns.imagePath) {
        playerImgPath := row.columns.imagePath;
      }
      storedSources := row.sourceUrls;
    }
  }

  /** `const m = { ...stored }; if (v) m[key] = v`. */
  method SetIf<V>(stored: map<string, V>, key: string, v: Option<V>) returns (m: map<string, V>)
    ensures m == Put1(stored, key, v)
  {
    m := stored;
    if v.Some? {
      m := m[key := v.value];
    }
  }

  /** The copies of the stored maps, each given the season's entry when the value is set. */
  method MergeMaps(existing: SeasonMaps, seasonKey: string, p: Player) returns (seasons: SeasonMaps)
    ensures seasons == MergeSeasons(existing, seasonKey, p)
  {
    var ranks := SetIf(existing.ranks, seasonKey, p.rank);
    var ratings := SetIf(existing.ratings, seasonKey, p.rating);
    var notes := SetIf(existing.notes, seasonKey, OrUndefined(p.ratingComment));
    var positions := SetIf(existing.positions, seasonKey, OrUndefined(p.position));
    var heights := SetIf(existing.heights, seasonKey, OrUndefined(p.height));
    var highSchools := SetIf(existing.highSchools, seasonKey, OrUndefined(p.highSchool));
    var circuitPrograms := SetIf(existing.circuitPrograms, seasonKey, OrUndefined(p.circuitProgram));
    var committedColleges := SetIf(existing.committedColleges, seasonKey, OrUndefined(p.committedCollege));
    seasons := SeasonMaps(ranks, ratings, notes, positions, heights, highSchools, circuitPrograms, committedColleges);
  }

  /** The resolve-or-create calls, then the player upsert. */
  method ResolveAndSave(w: World, p: Player, url: string, gradeYear: Option<nat>, env: PlayerEnv,
                        imagePath: Option<string>, seasons: SeasonMaps, sources: set<string>) returns (out: Outcome)
    ensures out == Resolve(w, p, url, gradeYear, env, imagePath, seasons, sources)
  {
    var hs := EnsureHighSchool(w.db, OrUndefined(p.highSchool), env.school);
    if hs.failed {
      return Outcome(World(hs.db, w.objects), true);
    }
    var ct := EnsureCircuitTeam(hs.db, OrUndefined(p.circuitProgram), env.team);
    if ct.failed {
      return Outcome(World(ct.db, w.objects), true);
    }
    var cc := EnsureCollege(World(ct.db, w.objects), OrUndefined(p.committedCollege), OrUndefined(p.collegeLogoUrl),
                            env.college, env.collegeLogo);
    if cc.failed {
      return Outcome(cc.world, true);
    }
    var row := ColumnsOf(p, url, gradeYear, hs.id, ct.id, cc.id, imagePath);
    if env.upsertFails {
      return Outcome(cc.world, false);
    }
    out := Outcome(World(UpsertPlayer(cc.world.db, p.name, row, seasons, sources), cc.world.objects), false);
  }

  /** The inner loop body of `main`. */
  method IngestPlayer(w: World, p: Player, url: string, seasonKey: string, gradeYear: Option<nat>, env: PlayerEnv)
    returns (out: Outcome)
    ensures out == PlayerStep(w, p, url, seasonKey, gradeYear, env)
  {
    var uploaded, objects := UploadImages(w.objects, p, env);
    var existing, storedSources, playerImgPath := ReadStored(w.db, p.name, env.readFails, uploaded);
    var seasons := MergeMaps(existing, seasonKey, p);
    var sourceUrls := storedSources + {url};
    out := ResolveAndSave(World(w.db, objects), p, url, gradeYear, env, playerImgPath, seasons, sourceUrls);
  }

  // ------------------------------------------------------------------ the page loop

  /** A step of a loop that a throw ends: the world after it and whether it threw. */
  type StepFn<!X> = (World, X) -> Outcome

  /** The first n steps of a loop, stopping at the first that throws. */
  function Chain<X>(w: World, xs: seq<X>, step: StepFn<X>, n: nat): Outcome
    requires n <= |xs|
  {
    if n == 0 then Outcome(w, false)
    else
      var o := Chain(w, xs, step, n - 1);
      if o.aborted then o else step(o.world, xs[n - 1])
  }

  /** A step after steps that did not throw runs on the world they left. */
  lemma ChainNext<X>(w: World, xs: seq<X>, step: StepFn<X>, i: nat, v: World)
    requires i < |xs| && Chain(w, xs, step, i) == Outcome(v, false)
    ensures Chain(w, xs, step, i + 1) == step(v, xs[i])
  {
  }

  /** Once a step throws, the later ones never run. */
  lemma {:induction false} ChainAbortedStays<X>(w: World, xs: seq<X>, step: StepFn<X>, i: nat, n: nat)
    requires i <= n <= |xs| && Chain(w, xs, step, i).aborted
    ensures Chain(w, xs, step, n) == Chain(w, xs, step, i)
    decreases n
  {
    if i < n {
      ChainAbortedStays(w, xs, step, i, n - 1);
    }
  }

  /** w2 holds every player row and object of w1 and differs from it only in the rows of
      `names`; a valid database stays valid. */
  ghost predicate KeepsExcept(w1: World, w2: World, names: set<string>)
  {
    && (forall k :: k in w1.db.players ==> k in w2.db.players)
    && (forall k :: k in w2.db.players && k !in names ==> k in w1.db.players && w2.db.players[k] == w1.db.players[k])
    && w1.objects <= w2.objects
    && (Valid(w1.db) ==> Valid(w2.db))
  }

  ghost function AllNames<X>(xs: seq<X>, names: X -> set<string>, n: nat): set<string>
    requires n <= |xs|
  {
    if n == 0 then {} else AllNames(xs, names, n - 1) + names(xs[n - 1])
  }

  /** A loop whose every step touches only the rows it names touches only the rows its
      steps name. */
  lemma {:induction false} ChainKeeps<X>(w: World, xs: seq<X>, step: StepFn<X>, names: X -> set<string>, n: nat)
    requires n <= |xs|
    requires forall v: World, j :: 0 <= j < n ==> KeepsExcept(v, step(v, xs[j]).world, names(xs[j]))
    ensures KeepsExcept(w, Chain(w, xs, step, n).world, AllNames(xs, names, n))
    decreases n
  {
    if n > 0 {
      ChainKeeps(w, xs, step, names, n - 1);
      var o := Chain(w, xs, step, n - 1);
      if !o.aborted {
        assert KeepsExcept(o.world, step(o.world, xs[n - 1]).world, names(xs[n - 1]));
      }
    }
  }

  /** A player of a page and what the calls made for it produce. */
  datatype Visit = Visit(player: Player, env: PlayerEnv)

  function Visits(ps: seq<Player>, env: nat -> PlayerEnv): (vs: seq<Visit>)
    ensures |vs| == |ps|
    ensures forall j :: 0 <= j < |ps| ==> vs[j] == Visit(ps[j], env(j))
  {
    seq(|ps|, j requires 0 <= j < |ps| => Visit(ps[j], env(j)))
  }

  function PlayerStepFn(url: string, key: string, gradeYear: Option<nat>): StepFn<Visit>
  {
    (w: World, v: Visit) => PlayerStep(w, v.player, url, key, gradeYear, v.env)
  }

  /** A source page: its URL, the path `new URL` gives it (None when it does not parse), what
      fetching it produced, its table rows, and what the calls for its j-th player produce. */
  datatype SourcePage = SourcePage(url: string, pathname: Option<string>, response: Pages.Response,
                                   rows: seq<ScrapedRow>, env: nat -> PlayerEnv)

  /** `axios.get` resolves only for a 2xx status; anything else throws out of `main`. */
  predicate Fetched(r: Pages.Response)
  {
    r.Response? && 200 <= r.status < 300
  }

  /** A page that is fetched runs its players in order; one that is not ends `main`. */
  ghost function PageStep(w: World, page: SourcePage): Outcome
  {
    if !Fetched(page.response) then Outcome(w, true)
    else
      var ps := ParsedPlayers(page.rows);
      Chain(w, Visits(ps, page.env), PlayerStepFn(page.url, SeasonKey(page.url, page.pathname), ClassYear(page.url)), |ps|)
  }

  ghost function PageStepFn(): StepFn<SourcePage>
  {
    (w: World, page: SourcePage) => PageStep(w, page)
  }

  /** What `main` leaves behind. */
  ghost function Reconciled(w: World, pages: seq<SourcePage>): Outcome
  {
    Chain(w, pages, PageStepFn(), |pages|)
  }

  /** step is what ingesting a player of a page with this URL, season key and class year
      does. (The trigger keeps the verifier from unfolding a player's step except where one
      is ingested.) */
  ghost predicate StepsPlayers(step: StepFn<Visit>, url: string, key: string, gradeYear: Option<nat>)
  {
    forall v: World, x: Visit {:trigger step(v, x), PlayerStep(v, x.player, url, key, gradeYear, x.env)} ::
      step(v, x) == PlayerStep(v, x.player, url, key, gradeYear, x.env)
  }

  /** step is what a source page does. */
  ghost predicate StepsPages(step: StepFn<SourcePage>)
  {
    forall v: World, page: SourcePage {:trigger step(v, page), PageStep(v, page)} :: step(v, page) == PageStep(v, page)
  }

  /** The inner loop of `main` over the players of a page that was fetched. */
  method IngestPage(w0: World, page: SourcePage) returns (out: Outcome)
    requires Fetched(page.response)
    ensures out == PageStep(w0, page)
  {
    var players := ParsePlayers(page.rows);
    var gradeYear := ClassYear(page.url);
    var seasonKey := SeasonKey(page.url, page.pathname);
    out := IngestPlayers(w0, players, page.url, seasonKey, gradeYear, page.env, PlayerStepFn(page.url, seasonKey, gradeYear));
  }

  /** `for (const p of players) { ... }`: a throw ends the loop and `main`. */
  method IngestPlayers(w0: World, players: seq<Player>, url: string, seasonKey: string, gradeYear: Option<nat>,
                       env: nat -> PlayerEnv, ghost step: StepFn<Visit>)
    returns (out: Outcome)
    requires StepsPlayers(step, url, seasonKey, gradeYear)
    ensures out == Chain(w0, Visits(players, env), step, |players|)
  {
    ghost var visits := Visits(players, env);
    var w := w0;
    for j := 0 to |players|
      invariant Chain(w0, visits, step, j) == Outcome(w, false)
    {
      var o := IngestPlayer(w, players[j], url, seasonKey, gradeYear, env(j));
      assert o == step(w, visits[j]);
      ChainNext(w0, visits, step, j, w);
      if o.aborted {
        ChainAbortedStays(w0, visits, step, j + 1, |players|);
        return o;
      }
      w := o.world;
    }
    out := Outcome(w, false);
  }

  /** `main`'s loops over the source pages and their players. */
  method Run(w0: World, pages: seq<SourcePage>) returns (out: Outcome)
    ensures out == Reconciled(w0, pages)
  {
    out := RunPages(w0, pages, PageStepFn());
  }

  /** `for (const url of SOURCE_URLS) { ... }`: a page that cannot be fetched, or a player
      that throws, ends `main`. */
  method RunPages(w0: World, pages: seq<SourcePage>, ghost step: StepFn<SourcePage>) returns (out: Outcome)
    requires StepsPages(step)
    ensures out == Chain(w0, pages, step, |pages|)
  {
    var w := w0;
    for i := 0 to |pages|
      invariant Chain(w0, pages, step, i) == Outcome(w, false)
    {
      var page := pages[i];
      var o := Outcome(w, true);
      if Fetched(page.response) {
        o := IngestPage(w, page);
      }
      assert o == PageStep(w, page) == step(w, page);
      ChainNext(w0, pages, step, i, w);
      if o.aborted {
        ChainAbortedStays(w0, pages, step, i + 1, |pages|);
        return o;
      }
      w := o.world;
    }
    out := Outcome(w, false);
  }

  // ------------------------------------------------------------------ properties

  /** Entry key of m2 is written when v is present, and every entry of m1 is kept. */
  ghost predicate AddsAt<V>(m1: map<string, V>, m2: map<string, V>, key: string, v: Option<V>)
  {
    && (forall k :: k in m1 ==> k in m2)
    && (forall k :: k in m2 && k != key ==> k in m1 && m2[k] == m1[k])
    && (v.Some? ==> key in m2 && m2[key] == v.value)
    && (v.None? ==> (key in m2 <==> key in m1) && (key in m1 ==> m2[key] == m1[key]))
  }

  lemma Put1Adds<V>(m: map<string, V>, key: string, v: Option<V>)
    ensures AddsAt(m, Put1(m, key, v), key, v)
  {
  }

  /** Merging a player for season key `key` keeps every stored entry of every map other than
      `[key]`, and writes `[key]` exactly when the scraped value is present: a number for the
      rank and rating, a non-empty string for the others. */
  lemma MergeSeasonsSpec(stored: SeasonMaps, key: string, p: Player)
    ensures var m := MergeSeasons(stored, key, p);
      && AddsAt(stored.ranks, m.ranks, key, p.rank)
      && AddsAt(stored.ratings, m.ratings, key, p.rating)
      && AddsAt(stored.notes, m.notes, key, OrUndefined(p.ratingComment))
      && AddsAt(stored.positions, m.positions, key, OrUndefined(p.position))
      && AddsAt(stored.heights, m.heights, key, OrUndefined(p.height))
      && AddsAt(stored.highSchools, m.highSchools, key, OrUndefined(p.highSchool))
      && AddsAt(stored.circuitPrograms, m.circuitPrograms, key, OrUndefined(p.circuitProgram))
      && AddsAt(stored.committedColleges, m.committedColleges, key, OrUndefined(p.committedCollege))
  {
    Put1Adds(stored.ranks, key, p.rank);
    Put1Adds(stored.ratings, key, p.rating);
    Put1Adds(stored.notes, key, OrUndefined(p.ratingComment));
    Put1Adds(stored.positions, key, OrUndefined(p.position));
    Put1Adds(stored.heights, key, OrUndefined(p.height));
    Put1Adds(stored.highSchools, key, OrUndefined(p.highSchool));
    Put1Adds(stored.circuitPrograms, key, OrUndefined(p.circuitProgram));
    Put1Adds(stored.committedColleges, key, OrUndefined(p.committedCollege));
  }

  /** Resolve-or-create for a high school: no name gives no id and no write; a stored row
      with a non-zero id, when the select finds it, gives its id and no write; otherwise the
      school is upserted with empty maps and its row's id is returned, a stored row keeping
      its id; a failed upsert writes nothing. */
  lemma EnsureHighSchoolSpec(db: Db, school: Option<string>, calls: Calls)
    ensures var r := EnsureHighSchool(db, school, calls);
      && (!Truthy(school) ==> r == Resolved(None, db, false))
      && (r.failed ==> r.db == db && Truthy(school) && calls.upsertFails)
      && (r.db != db ==> Truthy(school) && !calls.upsertFails)
      && ((Truthy(school) && !calls.selectFails && school.value in db.highSchools && db.highSchools[school.value].id != 0)
            ==> r == Resolved(Some(db.highSchools[school.value].id), db, false))
      && (Truthy(school) && !r.failed ==>
            && r.id.Some? && school.value in r.db.highSchools && r.id.value == r.db.highSchools[school.value].id
            && r.db.players == db.players && r.db.colleges == db.colleges && r.db.circuitTeams == db.circuitTeams
            && (school.value in db.highSchools ==> r.id.value == db.highSchools[school.value].id)
            && (r.db != db ==> r.db.highSchools[school.value].ranks == map[]))
      && (Valid(db) ==> Valid(r.db))
  {
  }

  /** The same for a circuit team, whose stub row also empties `placements`. */
  lemma EnsureCircuitTeamSpec(db: Db, team: Option<string>, calls: Calls)
    ensures var r := EnsureCircuitTeam(db, team, calls);
      && (!Truthy(team) ==> r == Resolved(None, db, false))
      && (r.failed ==> r.db == db && Truthy(team) && calls.upsertFails)
      && (r.db != db ==> Truthy(team) && !calls.upsertFails)
      && ((Truthy(team) && !calls.selectFails && team.value in db.circuitTeams && db.circuitTeams[team.value].id != 0)
            ==> r == Resolved(Some(db.circuitTeams[team.value].id), db, false))
      && (Truthy(team) && !r.failed ==>
            && r.id.Some? && team.value in r.db.circuitTeams && r.id.value == r.db.circuitTeams[team.value].id
            && r.db.players == db.players && r.db.colleges == db.colleges && r.db.highSchools == db.highSchools
            && (team.value in db.circuitTeams ==> r.id.value == db.circuitTeams[team.value].id)
            && (r.db != db ==> r.db.circuitTeams[team.value].placements == map[]))
      && (Valid(db) ==> Valid(r.db))
  {
  }

  /** Resolve-or-create for a college: no name gives nothing; a found college gives its id
      and stored logo path with no write; otherwise a logo that cannot be downloaded or
      stored is ignored and the college is still upserted, with the new logo path when the
      upload worked and the stored one otherwise. */
  lemma EnsureCollegeSpec(w: World, name: Option<string>, logoUrl: Option<string>, calls: Calls, t: Transfer)
    ensures var r := EnsureCollege(w, name, logoUrl, calls, t);
      && (!Truthy(name) ==> r == CollegeResolved(None, None, w, false))
      && (r.failed ==> r.world.db == w.db && calls.upsertFails)
      && ((Truthy(name) && !calls.selectFails && name.value in w.db.colleges && w.db.colleges[name.value].id != 0)
            ==> r == CollegeResolved(Some(w.db.colleges[name.value].id), w.db.colleges[name.value].logoPath, w, false))
      && (Truthy(name) && !r.failed ==>
            && r.id.Some? && name.value in r.world.db.colleges && r.id.value == r.world.db.colleges[name.value].id
            && r.world.db.players == w.db.players
            && (name.value in w.db.colleges ==> r.id.value == w.db.colleges[name.value].id))
      && (Truthy(name) && !r.failed && r.world.db != w.db ==>
            r.world.db.colleges[name.value].logoUrl == logoUrl
            && r.world.db.colleges[name.value].logoPath ==
               (if Uploaded(StoreCollegeLogo(w.objects, t)).Some? && Truthy(logoUrl) then Uploaded(StoreCollegeLogo(w.objects, t))
                else if name.value in w.db.colleges then w.db.colleges[name.value].logoPath else None))
      && w.objects <= r.world.objects
      && (Valid(w.db) ==> Valid(r.world.db))
  {
    var put := StoreCollegeLogo(w.objects, t);
  }

  /** The resolve-or-create calls and the upsert touch only the player's own row; when they
      throw, or the upsert fails, the players table is as it was. */
  lemma ResolveKeeps(w: World, p: Player, url: string, gradeYear: Option<nat>, env: PlayerEnv,
                     imagePath: Option<string>, seasons: SeasonMaps, sources: set<string>)
    ensures var o := Resolve(w, p, url, gradeYear, env, imagePath, seasons, sources);
      && KeepsExcept(w, o.world, {p.name})
      && (o.aborted || env.upsertFails ==> o.world.db.players == w.db.players)
  {
    Ensured(w, p, env);
  }

  /** A Resolve that reaches the player upsert writes the row it was given. */
  lemma ResolveWrites(w: World, p: Player, url: string, gradeYear: Option<nat>, env: PlayerEnv,
                      imagePath: Option<string>, seasons: SeasonMaps, sources: set<string>)
    requires !Resolve(w, p, url, gradeYear, env, imagePath, seasons, sources).aborted && !env.upsertFails
    ensures var o := Resolve(w, p, url, gradeYear, env, imagePath, seasons, sources);
      && p.name in o.world.db.players
      && o.world.db.players[p.name].(id := 0) == PlayerRow(0, o.world.db.players[p.name].columns, seasons, sources)
      && o.world.db.players[p.name].columns.imagePath == imagePath
      && o.world.db.players[p.name].columns.collegeLogoPath == None
      && (p.name in w.db.players ==> o.world.db.players[p.name].id == w.db.players[p.name].id)
  {
    Ensured(w, p, env);
  }

  /** The three resolve-or-create calls of Resolve keep what their lemmas say. */
  lemma Ensured(w: World, p: Player, env: PlayerEnv)
    ensures var hs := EnsureHighSchool(w.db, OrUndefined(p.highSchool), env.school);
      var ct := EnsureCircuitTeam(hs.db, OrUndefined(p.circuitProgram), env.team);
      var cc := EnsureCollege(World(ct.db, w.objects), OrUndefined(p.committedCollege), OrUndefined(p.collegeLogoUrl),
                              env.college, env.collegeLogo);
      && hs.db.players == w.db.players && ct.db.players == w.db.players && cc.world.db.players == w.db.players
      && w.objects <= cc.world.objects
      && (Valid(w.db) ==> Valid(cc.world.db))
  {
    var hs := EnsureHighSchool(w.db, OrUndefined(p.highSchool), env.school);
    var ct := EnsureCircuitTeam(hs.db, OrUndefined(p.circuitProgram), env.team);
    EnsureHighSchoolSpec(w.db, OrUndefined(p.highSchool), env.school);
    EnsureCircuitTeamSpec(hs.db, OrUndefined(p.circuitProgram), env.team);
    EnsureCollegeSpec(World(ct.db, w.objects), OrUndefined(p.committedCollege), OrUndefined(p.collegeLogoUrl),
                      env.college, env.collegeLogo);
  }

  /** One player step touches only that player's row and never loses a stored object. */
  lemma PlayerStepKeeps(w: World, p: Player, url: string, key: string, gradeYear: Option<nat>, env: PlayerEnv)
    ensures KeepsExcept(w, PlayerStep(w, p, url, key, gradeYear, env).world, {p.name})
  {
    var img := ImageUpload(w.objects, p, env.image);
    var logo := LogoUpload(img.objects, p, env.logo);
    var stored := StoredRow(w.db, p.name, env.readFails);
    ResolveKeeps(World(w.db, logo.objects), p, url, gradeYear, env, ImagePath(Uploaded(img), stored),
                 MergeSeasons(StoredMaps(stored), key, p), StoredSources(stored) + {url});
  }

  /** A player step that completes writes the player's row: its per-season maps are the
      stored ones with `[key]` added where the scraped value is present, its sources are the
      stored ones and the page URL, its image is the new upload or else the stored image,
      `college_logo_path` is null, and a stored row keeps its id. */
  lemma PlayerStepWrites(w: World, p: Player, url: string, key: string, gradeYear: Option<nat>, env: PlayerEnv)
    requires !PlayerStep(w, p, url, key, gradeYear, env).aborted && !env.upsertFails
    ensures var o := PlayerStep(w, p, url, key, gradeYear, env);
      var stored := StoredRow(w.db, p.name, env.readFails);
      var put := ImageUpload(w.objects, p, env.image);
      && p.name in o.world.db.players
      && var row := o.world.db.players[p.name];
      && row.seasons == MergeSeasons(StoredMaps(stored), key, p)
      && row.sourceUrls == StoredSources(stored) + {url}
      && row.columns.collegeLogoPath == None
      && (put.result.Ok? ==> row.columns.imagePath == Some(put.result.value.path))
      && (put.result.Err? && stored.Some? && Truthy(stored.value.columns.imagePath) ==>
            row.columns.imagePath == stored.value.columns.imagePath)
      && (put.result.Err? && !(stored.Some? && Truthy(stored.value.columns.imagePath)) ==> row.columns.imagePath == None)
      && (p.name in w.db.players ==> row.id == w.db.players[p.name].id)
  {
    var img := ImageUpload(w.objects, p, env.image);
    assert img.result.Ok? ==> img.result.value.path != [] by {
      if img.result.Ok? {
        assert StartsWith(img.result.value.path, "players/");
      }
    }
    var logo := LogoUpload(img.objects, p, env.logo);
    var stored := StoredRow(w.db, p.name, env.readFails);
    ResolveWrites(World(w.db, logo.objects), p, url, gradeYear, env, ImagePath(Uploaded(img), stored),
                 MergeSeasons(StoredMaps(stored), key, p), StoredSources(stored) + {url});
  }

  function VisitName(v: Visit): set<string>
  {
    {v.player.name}
  }

  /** The names of the players of the pages that were fetched. */
  ghost function PageNames(page: SourcePage): set<string>
  {
    if Fetched(page.response) then AllNames(Visits(ParsedPlayers(page.rows), page.env), VisitName, |ParsedPlayers(page.rows)|)
    else {}
  }

  lemma PageStepKeeps(w: World, page: SourcePage)
    ensures KeepsExcept(w, PageStep(w, page).world, PageNames(page))
  {
    if Fetched(page.response) {
      var ps := ParsedPlayers(page.rows);
      var step := PlayerStepFn(page.url, SeasonKey(page.url, page.pathname), ClassYear(page.url));
      var vs := Visits(ps, page.env);
      forall v: World, j | 0 <= j < |ps| ensures KeepsExcept(v, step(v, vs[j]).world, VisitName(vs[j])) {
        PlayerStepKeeps(v, ps[j], page.url, SeasonKey(page.url, page.pathname), ClassYear(page.url), page.env(j));
      }
      ChainKeeps(w, vs, step, VisitName, |ps|);
    }
  }

  /** A run never removes a stored object or player row, keeps a valid database valid, and
      leaves the row of every player that no fetched page lists as it was. */
  lemma ReconciledKeeps(w: World, pages: seq<SourcePage>)
    ensures KeepsExcept(w, Reconciled(w, pages).world, AllNames(pages, PageNames, |pages|))
  {
    forall v: World, i | 0 <= i < |pages| ensures KeepsExcept(v, PageStepFn()(v, pages[i]).world, PageNames(pages[i])) {
      PageStepKeeps(v, pages[i]);
    }
    ChainKeeps(w, pages, PageStepFn(), PageNames, |pages|);
  }

  /** The players a page lists are its parsed players' names. */
  lemma {:induction false} AllNamesOfVisits(vs: seq<Visit>, n: nat, name: string)
    requires n <= |vs|
    ensures name in AllNames(vs, VisitName, n) <==> exists j :: 0 <= j < n && vs[j].player.name == name
    decreases n
  {
    if n > 0 {
      AllNamesOfVisits(vs, n - 1, name);
    }
  }

  /** A page that cannot be fetched ends the run there: nothing after it is written. */
  lemma RunStopsAtFetchFailure(w: World, pages: seq<SourcePage>, i: nat)
    requires i < |pages| && !Fetched(pages[i].response) && !Chain(w, pages, PageStepFn(), i).aborted
    ensures Reconciled(w, pages) == Outcome(Chain(w, pages, PageStepFn(), i).world, true)
  {
    ChainAbortedStays(w, pages, PageStepFn(), i + 1, |pages|);
  }
}
