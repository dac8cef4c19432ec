// The database the ingesters write to, as the value of its four tables. Each table maps its
// natural key (school, team, college name, player name) to the row stored under it; an
// upsert keyed on that column replaces the columns it is given and keeps the row's id, or
// inserts a row with a fresh id. The database is an external service: every operation takes
// the current contents and returns the new ones.
module Store {
  import opened Wrappers

  /** A `high_schools` row. */
  datatype HighSchoolRow = HighSchoolRow(
    id: nat,
    logoPath: Option<string>,
    ranks: map<string, nat>,
    records: map<string, string>,
    keyWins: map<string, string>,
    sourceUrls: set<string>)

  /** A `circuit_teams` row. */
  datatype CircuitTeamRow = CircuitTeamRow(
    id: nat,
    circuit: Option<string>,
    ranks: map<string, nat>,
    records: map<string, string>,
    keyWins: map<string, string>,
    placements: map<string, string>,
    sourceUrls: set<string>)

  /** A `colleges` row. */
  datatype CollegeRow = CollegeRow(id: nat, logoPath: Option<string>, logoUrl: Option<string>)

  /** The per-season maps of a `players` row, each keyed by season key. */
  datatype SeasonMaps = SeasonMaps(
    ranks: map<string, nat>,
    ratings: map<string, nat>,
    notes: map<string, string>,
    positions: map<string, string>,
    heights: map<string, string>,
    highSchools: map<string, string>,
    circuitPrograms: map<string, string>,
    committedColleges: map<string, string>)

  /** The plain columns of a `players` row, as last written. */
  datatype PlayerColumns = PlayerColumns(
    gradeYear: Option<nat>,
    position: Option<string>,
    height: Option<string>,
    highSchool: Option<string>,
    highSchoolId: Option<nat>,
    circuitProgram: Option<string>,
    circuitTeamId: Option<nat>,
    state: Option<string>,
    committedCollege: Option<string>,
    committedCollegeId: Option<nat>,
    rating: Option<nat>,
    ratingComment: Option<string>,
    imagePath: Option<string>,
    collegeLogoPath: Option<string>,
    sourceUrl: string)

  /** A `players` row. */
  datatype PlayerRow = PlayerRow(id: nat, columns: PlayerColumns, seasons: SeasonMaps, sourceUrls: set<string>)

  datatype Db = Db(
    highSchools: map<string, HighSchoolRow>,
    circuitTeams: map<string, CircuitTeamRow>,
    colleges: map<string, CollegeRow>,
    players: map<string, PlayerRow>,
    nextId: nat)

  /** Every stored id lies below the next one handed out, so that a new row's id is fresh. */
  predicate Valid(db: Db)
  {
    && (forall k :: k in db.highSchools ==> db.highSchools[k].id < db.nextId)
    && (forall k :: k in db.circuitTeams ==> db.circuitTeams[k].id < db.nextId)
    && (forall k :: k in db.colleges ==> db.colleges[k].id < db.nextId)
    && (forall k :: k in db.players ==> db.players[k].id < db.nextId)
  }

  /** The id an upsert gives a key: the stored row's, or the next fresh one. */
  function IdFor<R>(table: map<string, R>, key: string, idOf: R -> nat, nextId: nat): nat
  {
    if key in table then idOf(table[key]) else nextId
  }

  /** The next fresh id after an upsert of key. */
  function NextAfter<R>(table: map<string, R>, key: string, nextId: nat): nat
  {
    if key in table then nextId else nextId + 1
  }

  function SchoolId(r: HighSchoolRow): nat { r.id }
  function TeamId(r: CircuitTeamRow): nat { r.id }
  function CollegeId(r: CollegeRow): nat { r.id }
  function PlayerId(r: PlayerRow): nat { r.id }

  /** `upsert({school, logo_path, ranks, records, key_wins, source_urls}, onConflict: school)`:
      every column but the id is replaced. */
  function UpsertHighSchool(db: Db, school: string, logoPath: Option<string>, ranks: map<string, nat>,
                            records: map<string, string>, keyWins: map<string, string>,
                            sources: set<string>): Db
  {
    var id := IdFor(db.highSchools, school, SchoolId, db.nextId);
    db.(highSchools := db.highSchools[school := HighSchoolRow(id, logoPath, ranks, records, keyWins, sources)],
        nextId := NextAfter(db.highSchools, school, db.nextId))
  }

  /** Only the row of `school` changes; every column but the id is replaced, and a stored
      row keeps its id. */
  lemma UpsertHighSchoolSpec(db: Db, school: string, logoPath: Option<string>, ranks: map<string, nat>,
                             records: map<string, string>, keyWins: map<string, string>,
                             sources: set<string>)
    ensures var r := UpsertHighSchool(db, school, logoPath, ranks, records, keyWins, sources);
      && (Valid(db) ==> Valid(r))
      && r.highSchools.Keys == db.highSchools.Keys + {school}
      && (forall k :: k in db.highSchools && k != school ==> r.highSchools[k] == db.highSchools[k])
      && (school in db.highSchools ==> r.highSchools[school].id == db.highSchools[school].id)
      && r.highSchools[school].(id := 0) == HighSchoolRow(0, logoPath, ranks, records, keyWins, sources)
      && r.(highSchools := db.highSchools, nextId := db.nextId) == db
  {
  }

  /** `upsert({team, circuit, ranks, records, key_wins, placements, source_urls}, onConflict: team)`. */
  function UpsertCircuitTeam(db: Db, team: string, circuit: Option<string>, ranks: map<string, nat>,
                             records: map<string, string>, keyWins: map<string, string>,
                             placements: map<string, string>, sources: set<string>): Db
  {
    var id := IdFor(db.circuitTeams, team, TeamId, db.nextId);
    db.(circuitTeams := db.circuitTeams[team := CircuitTeamRow(id, circuit, ranks, records, keyWins, placements, sources)],
        nextId := NextAfter(db.circuitTeams, team, db.nextId))
  }

  /** Only the row of `team` changes; every column but the id is replaced, and a stored row
      keeps its id. */
  lemma UpsertCircuitTeamSpec(db: Db, team: string, circuit: Option<string>, ranks: map<string, nat>,
                              records: map<string, string>, keyWins: map<string, string>,
                              placements: map<string, string>, sources: set<string>)
    ensures var r := UpsertCircuitTeam(db, team, circuit, ranks, records, keyWins, placements, sources);
      && (Valid(db) ==> Valid(r))
      && r.circuitTeams.Keys == db.circuitTeams.Keys + {team}
      && (forall k :: k in db.circuitTeams && k != team ==> r.circuitTeams[k] == db.circuitTeams[k])
      && (team in db.circuitTeams ==> r.circuitTeams[team].id == db.circuitTeams[team].id)
      && r.circuitTeams[team].(id := 0) == CircuitTeamRow(0, circuit, ranks, records, keyWins, placements, sources)
      && r.(circuitTeams := db.circuitTeams, nextId := db.nextId) == db
  {
  }

  /** `upsert({name, logo_path, logo_url}, onConflict: name)`. A logo path that is undefined
      is left out of the request, so it keeps a stored row's logo path. */
  function UpsertCollege(db: Db, name: string, logoPath: Option<string>, logoUrl: Option<string>): (r: Db)
    ensures Valid(db) ==> Valid(r)
    ensures r.colleges.Keys == db.colleges.Keys + {name}
    ensures forall k :: k in db.colleges && k != name ==> r.colleges[k] == db.colleges[k]
    ensures name in db.colleges ==> r.colleges[name].id == db.colleges[name].id
    ensures r.colleges[name].logoUrl == logoUrl
    ensures r.colleges[name].logoPath ==
      if logoPath.Some? || name !in db.colleges then logoPath else db.colleges[name].logoPath
    ensures r.(colleges := db.colleges, nextId := db.nextId) == db
  {
    var id := IdFor(db.colleges, name, CollegeId, db.nextId);
    var path := if logoPath.None? && name in db.colleges then db.colleges[name].logoPath else logoPath;
    db.(colleges := db.colleges[name := CollegeRow(id, path, logoUrl)],
        nextId := NextAfter(db.colleges, name, db.nextId))
  }

  /** `upsert(row, onConflict: name)` of a whole player row. */
  function UpsertPlayer(db: Db, name: string, columns: PlayerColumns, seasons: SeasonMaps,
                        sources: set<string>): (r: Db)
    ensures Valid(db) ==> Valid(r)
    ensures r.players.Keys == db.players.Keys + {name}
    ensures forall k :: k in db.players && k != name ==> r.players[k] == db.players[k]
    ensures name in db.players ==> r.players[name].id == db.players[name].id
    ensures r.players[name].(id := 0) == PlayerRow(0, columns, seasons, sources)
    ensures r.(players := db.players, nextId := db.nextId) == db
  {
    var id := IdFor(db.players, name, PlayerId, db.nextId);
    db.(players := db.players[name := PlayerRow(id, columns, seasons, sources)],
        nextId := NextAfter(db.players, name, db.nextId))
  }

  /** `upsert({school, ranks: {}, records: {}, key_wins: {}}, onConflict: school)`: the maps
      it names are emptied, and a stored row keeps its id, logo path and sources. */
  function UpsertSchoolStub(db: Db, school: string): (r: Db)
    ensures Valid(db) ==> Valid(r)
    ensures r.highSchools.Keys == db.highSchools.Keys + {school}
    ensures forall k :: k in db.highSchools && k != school ==> r.highSchools[k] == db.highSchools[k]
    ensures school in db.highSchools ==>
      r.highSchools[school] == db.highSchools[school].(ranks := map[], records := map[], keyWins := map[])
    ensures school !in db.highSchools ==> r.highSchools[school] == HighSchoolRow(db.nextId, None, map[], map[], map[], {})
    ensures r.(highSchools := db.highSchools, nextId := db.nextId) == db
  {
    var row := if school in db.highSchools then db.highSchools[school]
               else HighSchoolRow(db.nextId, None, map[], map[], map[], {});
    db.(highSchools := db.highSchools[school := row.(ranks := map[], records := map[], keyWins := map[])],
        nextId := NextAfter(db.highSchools, school, db.nextId))
  }

  /** `upsert({team, ranks: {}, records: {}, key_wins: {}, placements: {}}, onConflict: team)`. */
  function UpsertTeamStub(db: Db, team: string): (r: Db)
    ensures Valid(db) ==> Valid(r)
    ensures r.circuitTeams.Keys == db.circuitTeams.Keys + {team}
    ensures forall k :: k in db.circuitTeams && k != team ==> r.circuitTeams[k] == db.circuitTeams[k]
    ensures team in db.circuitTeams ==>
      r.circuitTeams[team] == db.circuitTeams[team].(ranks := map[], records := map[], keyWins := map[], placements := map[])
    ensures team !in db.circuitTeams ==> r.circuitTeams[team] == CircuitTeamRow(db.nextId, None, map[], map[], map[], map[], {})
    ensures r.(circuitTeams := db.circuitTeams, nextId := db.nextId) == db
  {
    var row := if team in db.circuitTeams then db.circuitTeams[team]
               else CircuitTeamRow(db.nextId, None, map[], map[], map[], map[], {});
    db.(circuitTeams := db.circuitTeams[team := row.(ranks := map[], records := map[], keyWins := map[], placements := map[])],
        nextId := NextAfter(db.circuitTeams, team, db.nextId))
  }

  /** The tables, by the names the code uses. */
  datatype Table = Players | Colleges | CircuitTeams | HighSchools

  /** The rows of a table that `delete().neq("id", 0)` spares: those whose id is 0. */
  function KeepIdZero<R>(table: map<string, R>, idOf: R -> nat): (kept: map<string, R>)
    ensures kept.Keys <= table.Keys
    ensures forall k :: k in kept ==> kept[k] == table[k] && idOf(kept[k]) == 0
    ensures forall k :: k in table && idOf(table[k]) == 0 ==> k in kept
  {
    map k | k in table && idOf(table[k]) == 0 :: table[k]
  }

  /** `from(table).delete().neq("id", 0)`. */
  function DeleteAllFrom(db: Db, t: Table): (r: Db)
    ensures Valid(db) ==> Valid(r)
  {
    match t
    case Players => db.(players := KeepIdZero(db.players, PlayerId))
    case Colleges => db.(colleges := KeepIdZero(db.colleges, CollegeId))
    case CircuitTeams => db.(circuitTeams := KeepIdZero(db.circuitTeams, TeamId))
    case HighSchools => db.(highSchools := KeepIdZero(db.highSchools, SchoolId))
  }
}
