// The truncation script: behind a confirmation gate it empties the four tables, players
// first, and then removes every stored object under the known storage prefixes, listing
// each prefix page by page and removing its files in batches. The database and the bucket
// are values; what each outside call produces (a failure, the names a prefix lists) is an
// input.
module Truncate {
  import opened Wrappers
  import opened Text
  import opened Store
  import opened Selection

  // ------------------------------------------------------------------ the gate

  /** `process.argv.includes("--force") || process.env.TRUNCATE_FORCE === "1"`. */
  predicate Forced(args: seq<string>, truncateForce: Option<string>)
  {
    "--force" in args || truncateForce == Some("1")
  }

  // ------------------------------------------------------------------ the tables

  /** The order the tables are emptied in: `players` refers to the other three. */
  const TableOrder: seq<Table> := [Players, Colleges, CircuitTeams, HighSchools]

  /** The database after the deletes, and the table whose delete threw, if one did. */
  datatype Deleted = Deleted(db: Db, failedAt: Option<Table>)

  /** The deletes of ts in turn; the first that fails throws, and the later ones never run. */
  function DeleteInOrder(db: Db, ts: seq<Table>, failing: set<Table>): Deleted
    decreases |ts|
  {
    if ts == [] then Deleted(db, None)
    else if ts[0] in failing then Deleted(db, Some(ts[0]))
    else DeleteInOrder(DeleteAllFrom(db, ts[0]), ts[1..], failing)
  }

  /** `deleteAllFrom(table)`: a delete that returns an error leaves the table as it was and
      throws. */
  method DeleteRows(db: Db, t: Table, failing: set<Table>) returns (r: Db, failed: bool)
    ensures failed <==> t in failing
    ensures r == if failed then db else DeleteAllFrom(db, t)
  {
    if t in failing {
      return db, true;
    }
    return DeleteAllFrom(db, t), false;
  }

  /** The four awaited deletes of `main`. */
  method DeleteTables(db: Db, failing: set<Table>) returns (d: Deleted)
    ensures d == DeleteInOrder(db, TableOrder, failing)
  {
    var db1, f1 := DeleteRows(db, Players, failing);
    if f1 {
      return Deleted(db1, Some(Players));
    }
    assert DeleteInOrder(db, TableOrder, failing) == DeleteInOrder(db1, [Colleges, CircuitTeams, HighSchools], failing);
    var db2, f2 := DeleteRows(db1, Colleges, failing);
    if f2 {
      return Deleted(db2, Some(Colleges));
    }
    assert DeleteInOrder(db, TableOrder, failing) == DeleteInOrder(db2, [CircuitTeams, HighSchools], failing);
    var db3, f3 := DeleteRows(db2, CircuitTeams, failing);
    if f3 {
      return Deleted(db3, Some(CircuitTeams));
    }
    assert DeleteInOrder(db, TableOrder, failing) == DeleteInOrder(db3, [HighSchools], failing);
    var db4, f4 := DeleteRows(db3, HighSchools, failing);
    if f4 {
      return Deleted(db4, Some(HighSchools));
    }
    return Deleted(db4, None);
  }

  // ------------------------------------------------------------------ listing a prefix

  /** The page size of `list`. */
  const Limit: nat := 1000

  /** What `list` under a prefix produces: the names the bucket holds there, in listing
      order, and the offsets whose `list` call returns an error. */
  datatype PrefixCalls = PrefixCalls(names: seq<string>, listFails: set<nat>, removeFails: set<nat>)

  /** The page `list(prefix, { limit, offset })` answers with. */
  function Page(names: seq<string>, offset: nat): (data: seq<string>)
    requires offset <= |names|
    ensures |data| <= Limit && offset + |data| <= |names|
    ensures |data| < Limit ==> offset + |data| == |names|
  {
    names[offset..if offset + Limit <= |names| then offset + Limit else |names|]
  }

  /** The path a listed name stands for: none for a folder; `prefix/name`, or the bare name
      under the empty prefix. */
  function PathOf(prefix: string, name: string): Option<string>
  {
    if EndsWith(name, "/") then None
    else if prefix != [] then Some(prefix + "/" + name)
    else Some(name)
  }

  function PathFn(prefix: string): string -> Option<string>
  {
    name => PathOf(prefix, name)
  }

  /** The listing throws when one of the pages it asks for fails: those are the pages at
      offsets 0, Limit, 2 * Limit, ... up to and including the one past the last full page. */
  predicate ListFails(names: seq<string>, listFails: set<nat>)
  {
    exists m | m in listFails :: m <= |names| && m % Limit == 0
  }

  /** What `listAllPaths` returns: None when it throws, otherwise the path of every name
      that is not a folder, in listing order. */
  function Listing(prefix: string, names: seq<string>, listFails: set<nat>): Option<seq<string>>
  {
    if ListFails(names, listFails) then None else Some(Kept(names, PathFn(prefix), |names|))
  }

  /** `listAllPaths(prefix)`: page through the listing until a page is empty or short. */
  method ListAllPaths(prefix: string, names: seq<string>, listFails: set<nat>) returns (r: Option<seq<string>>)
    ensures r == Listing(prefix, names, listFails)
  {
    var paths: seq<string> := [];
    var offset: nat := 0;
    while true
      invariant offset <= |names| && offset % Limit == 0
      invariant paths == Kept(names, PathFn(prefix), offset)
      invariant forall m :: m in listFails && m % Limit == 0 ==> offset <= m
      decreases |names| - offset
    {
      if offset in listFails {
        return None;
      }
      var data := Page(names, offset);
      if |data| == 0 {
        break;
      }
      for i := 0 to |data|
        invariant paths == Kept(names, PathFn(prefix), offset + i)
      {
        var name := data[i];
        assert name == names[offset + i];
        if EndsWith(name, "/") {
          continue;
        }
        var fullPath := if prefix != [] then prefix + "/" + name else name;
        paths := paths + [fullPath];
      }
      if |data| < Limit {
        break;
      }
      offset := offset + |data|;
    }
    return Some(paths);
  }

  // ------------------------------------------------------------------ removing a prefix

  /** The size of a `remove` batch. */
  const BatchSize: nat := 1000

  /** files cut into consecutive batches of BatchSize, the last one shorter. */
  function Chunks(files: seq<string>): seq<seq<string>>
    decreases |files|
  {
    if files == [] then []
    else
      var n := if |files| <= BatchSize then |files| else BatchSize;
      [files[..n]] + Chunks(files[n..])
  }

  function Flatten(ss: seq<seq<string>>): seq<string>
  {
    if ss == [] then [] else ss[0] + Flatten(ss[1..])
  }

  function Elems(s: seq<string>): set<string>
  {
    set x | x in s
  }

  /** The start of the first batch from i on whose `remove` fails, or n when none does. */
  function FailedBatch(n: nat, removeFails: set<nat>, i: nat): (stop: nat)
    ensures stop <= n
    decreases n - i
  {
    if n <= i then n else if i in removeFails then i else FailedBatch(n, removeFails, i + BatchSize)
  }

  /** The `remove` calls made under a prefix, each with its batch, the failing one excluded:
      a listing that throws makes none. */
  function Removals(prefix: string, calls: PrefixCalls): seq<seq<string>>
  {
    match Listing(prefix, calls.names, calls.listFails)
    case None => []
    case Some(files) => Chunks(files[..FailedBatch(|files|, calls.removeFails, 0)])
  }

  /** The bucket after `removeAllUnder(prefix)`, and the batches removed. */
  datatype Removal = Removal(objects: set<string>, calls: seq<seq<string>>)

  function RemovedUnder(prefix: string, calls: PrefixCalls, objects: set<string>): Removal
  {
    Removal(objects - Elems(Flatten(Removals(prefix, calls))), Removals(prefix, calls))
  }

  /** `removeAllUnder(prefix)`: every batch is removed in turn until one fails; a failure,
      of the listing or of a batch, is caught and logged. */
  method RemoveAllUnder(prefix: string, calls: PrefixCalls, objects0: set<string>) returns (r: Removal)
    ensures r == RemovedUnder(prefix, calls, objects0)
  {
    var listed := ListAllPaths(prefix, calls.names, calls.listFails);
    if listed.None? {
      return Removal(objects0, []);
    }
    var files := listed.value;
    if |files| == 0 {
      return Removal(objects0, []);
    }
    var objects := objects0;
    var removed: seq<seq<string>> := [];
    var i: nat := 0;
    while i < |files|
      invariant i % BatchSize == 0
      invariant i <= |files| || i - BatchSize < |files|
      invariant var done := if i <= |files| then i else |files|;
        && removed == Chunks(files[..done])
        && objects == objects0 - Elems(files[..done])
        && FailedBatch(|files|, calls.removeFails, 0) == FailedBatch(|files|, calls.removeFails, i)
      decreases |files| - i
    {
      var end := if i + BatchSize <= |files| then i + BatchSize else |files|;
      var chunk := files[i..end];
      if i in calls.removeFails {
        ChunksCover(files[..i]);
        return Removal(objects, removed);
      }
      ChunksStep(files, i, end);
      objects := objects - Elems(chunk);
      removed := removed + [chunk];
      i := i + BatchSize;
    }
    assert files[..|files|] == files;
    ChunksCover(files);
    return Removal(objects, removed);
  }

  /** One batch further: the batches and the removed names grow by files[i..end]. */
  lemma ChunksStep(files: seq<string>, i: nat, end: nat)
    requires i % BatchSize == 0 && i < end <= |files|
    requires end == if i + BatchSize <= |files| then i + BatchSize else |files|
    ensures Chunks(files[..end]) == Chunks(files[..i]) + [files[i..end]]
    ensures Elems(files[..end]) == Elems(files[..i]) + Elems(files[i..end])
  {
    assert files[..end] == files[..i] + files[i..end];
    ChunksAppend(files[..i], files[i..end]);
    assert Chunks(files[i..end]) == [files[i..end]] + Chunks([]) by {
      assert files[i..end][..end - i] == files[i..end];
    }
  }

  /** The batches cover files exactly once, in order, and each holds 1 to BatchSize names. */
  lemma {:induction false} ChunksCover(files: seq<string>)
    ensures Flatten(Chunks(files)) == files
    ensures forall k :: 0 <= k < |Chunks(files)| ==> 1 <= |Chunks(files)[k]| <= BatchSize
    decreases |files|
  {
    if files != [] {
      var n := if |files| <= BatchSize then |files| else BatchSize;
      ChunksCover(files[n..]);
      assert files == files[..n] + files[n..];
      assert Chunks(files)[1..] == Chunks(files[n..]);
    }
  }

  /** Cutting a concatenation whose first part is whole batches is cutting its parts. */
  lemma {:induction false} ChunksAppend(a: seq<string>, b: seq<string>)
    requires |a| % BatchSize == 0
    ensures Chunks(a + b) == Chunks(a) + Chunks(b)
    decreases |a|
  {
    if a == [] {
      assert a + b == b;
    } else {
      assert (a + b)[..BatchSize] == a[..BatchSize];
      assert (a + b)[BatchSize..] == a[BatchSize..] + b;
      ChunksAppend(a[BatchSize..], b);
    }
  }

  // ------------------------------------------------------------------ main

  /** The storage prefixes, in the order they are cleared. */
  const Prefixes: seq<string> := ["players", "logos", "hs_logos", "college_logos"]

  /** The first n prefixes of ps cleared in turn. */
  function Cleared(objects: set<string>, ps: seq<string>, storage: string -> PrefixCalls, n: nat): Removal
    requires n <= |ps|
  {
    if n == 0 then Removal(objects, [])
    else
      var c := Cleared(objects, ps, storage, n - 1);
      var r := RemovedUnder(ps[n - 1], storage(ps[n - 1]), c.objects);
      Removal(r.objects, c.calls + r.calls)
  }

  /** How the script ends: the database, the bucket, the batches removed, and the exit code. */
  datatype Ended = Ended(db: Db, objects: set<string>, calls: seq<seq<string>>, exitCode: nat)

  /** The whole script: missing credentials or a missing confirmation exit 1 before any
      call; a failing delete is caught by `main().catch` and exits 1; otherwise every prefix
      is cleared and the script ends normally. */
  function Truncated(credentials: bool, args: seq<string>, truncateForce: Option<string>, db: Db,
                     objects: set<string>, failing: set<Table>, storage: string -> PrefixCalls): Ended
  {
    if !credentials || !Forced(args, truncateForce) then Ended(db, objects, [], 1)
    else
      var d := DeleteInOrder(db, TableOrder, failing);
      if d.failedAt.Some? then Ended(d.db, objects, [], 1)
      else
        var c := Cleared(objects, Prefixes, storage, |Prefixes|);
        Ended(d.db, c.objects, c.calls, 0)
  }

  /** The script's top level and `main`. */
  method Truncate(credentials: bool, args: seq<string>, truncateForce: Option<string>, db: Db,
                  objects: set<string>, failing: set<Table>, storage: string -> PrefixCalls)
    returns (e: Ended)
    ensures e == Truncated(credentials, args, truncateForce, db, objects, failing, storage)
  {
    if !credentials {
      return Ended(db, objects, [], 1);
    }
    var force := "--force" in args || truncateForce == Some("1");
    if !force {
      return Ended(db, objects, [], 1);
    }
    var d := DeleteTables(db, failing);
    if d.failedAt.Some? {
      return Ended(d.db, objects, [], 1);
    }
    var bucket := objects;
    var calls: seq<seq<string>> := [];
    for k := 0 to |Prefixes|
      invariant Cleared(objects, Prefixes, storage, k) == Removal(bucket, calls)
    {
      var r := RemoveAllUnder(Prefixes[k], storage(Prefixes[k]), bucket);
      bucket := r.objects;
      calls := calls + r.calls;
    }
    return Ended(d.db, bucket, calls, 0);
  }

  // ------------------------------------------------------------------ properties

  /** The deletes run players, colleges, circuit_teams, high_schools: the first failing one
      stops the run, every table before it is emptied of its non-zero ids, and it and every
      later table are left as they were. */
  lemma DeleteOrderSpec(db: Db, failing: set<Table>)
    ensures var d := DeleteInOrder(db, TableOrder, failing);
      && d.failedAt == (if Players in failing then Some(Players)
                        else if Colleges in failing then Some(Colleges)
                        else if CircuitTeams in failing then Some(CircuitTeams)
                        else if HighSchools in failing then Some(HighSchools)
                        else None)
      && d.db.players == (if Players in failing then db.players else KeepIdZero(db.players, PlayerId))
      && d.db.colleges == (if Players in failing || Colleges in failing then db.colleges
                           else KeepIdZero(db.colleges, CollegeId))
      && d.db.circuitTeams == (if Players in failing || Colleges in failing || CircuitTeams in failing
                               then db.circuitTeams else KeepIdZero(db.circuitTeams, TeamId))
      && d.db.highSchools == (if d.failedAt.Some? then db.highSchools else KeepIdZero(db.highSchools, SchoolId))
      && d.db.nextId == db.nextId
      && (Valid(db) ==> Valid(d.db))
  {
    var db1 := DeleteAllFrom(db, Players);
    var db2 := DeleteAllFrom(db1, Colleges);
    var db3 := DeleteAllFrom(db2, CircuitTeams);
    assert DeleteInOrder(db, TableOrder, failing) ==
           if Players in failing then Deleted(db, Some(Players))
           else DeleteInOrder(db1, [Colleges, CircuitTeams, HighSchools], failing);
    assert DeleteInOrder(db1, [Colleges, CircuitTeams, HighSchools], failing) ==
           if Colleges in failing then Deleted(db1, Some(Colleges))
           else DeleteInOrder(db2, [CircuitTeams, HighSchools], failing);
    assert DeleteInOrder(db2, [CircuitTeams, HighSchools], failing) ==
           if CircuitTeams in failing then Deleted(db2, Some(CircuitTeams))
           else DeleteInOrder(db3, [HighSchools], failing);
  }

  /** The path of a listed name under prefix. */
  function FullPath(prefix: string, name: string): string
  {
    if prefix == [] then name else prefix + "/" + name
  }

  /** A listing that does not throw holds, in listing order, the path of every listed name
      that does not end in "/", and nothing else. */
  lemma ListingPaths(prefix: string, names: seq<string>, listFails: set<nat>) returns (src: seq<nat>)
    requires !ListFails(names, listFails)
    ensures Listing(prefix, names, listFails).Some?
    ensures var paths := Listing(prefix, names, listFails).value;
      && |src| == |paths|
      && (forall k :: 0 <= k < |src| ==>
            src[k] < |names| && !EndsWith(names[src[k]], "/") && paths[k] == FullPath(prefix, names[src[k]]))
      && (forall k, l :: 0 <= k < l < |src| ==> src[k] < src[l])
      && (forall i :: 0 <= i < |names| && !EndsWith(names[i], "/") ==> i in src)
  {
    var f := PathFn(prefix);
    src := KeptFromRows(names, f, |names|);
    forall i | 0 <= i < |names| && !EndsWith(names[i], "/") ensures i in src {
      assert f(names[i]).Some?;
    }
  }

  /** The first failing batch from i on: either none fails before n, or stop is a batch
      start whose remove fails and no batch between i and stop fails. */
  lemma {:induction false} FailedBatchSpec(n: nat, removeFails: set<nat>, i: nat)
    requires i % BatchSize == 0
    ensures var stop := FailedBatch(n, removeFails, i);
      && (forall m :: m in removeFails && m % BatchSize == 0 && i <= m < stop ==> false)
      && (stop == n || (i <= stop < n && stop in removeFails && stop % BatchSize == 0))
    decreases n - i
  {
    if i < n && i !in removeFails {
      FailedBatchSpec(n, removeFails, i + BatchSize);
      forall m | m % BatchSize == 0 && i <= m < i + BatchSize ensures m == i {
        assert (m - i) % BatchSize == 0;
      }
    }
  }

  /** What `removeAllUnder` sends to `remove`: batches of 1 to BatchSize paths that together
      are the listed paths up to the first failing batch, in order, each once; nothing for a
      listing that is empty or throws, and every listed path when no batch fails. */
  lemma RemovalsSpec(prefix: string, calls: PrefixCalls)
    ensures var rs := Removals(prefix, calls);
      && (forall k :: 0 <= k < |rs| ==> 1 <= |rs[k]| <= BatchSize)
      && (Listing(prefix, calls.names, calls.listFails).None? ==> rs == [])
      && (Listing(prefix, calls.names, calls.listFails).Some? ==>
            var files := Listing(prefix, calls.names, calls.listFails).value;
            && |Flatten(rs)| <= |files| && Flatten(rs) == files[..|Flatten(rs)|]
            && (files == [] ==> rs == [])
            && ((forall m :: m in calls.removeFails && m < |files| ==> m % BatchSize != 0) ==> Flatten(rs) == files)
            && (|Flatten(rs)| < |files| ==>
                  |Flatten(rs)| in calls.removeFails && |Flatten(rs)| % BatchSize == 0))
  {
    match Listing(prefix, calls.names, calls.listFails)
    case None =>
    case Some(files) =>
      var stop := FailedBatch(|files|, calls.removeFails, 0);
      FailedBatchSpec(|files|, calls.removeFails, 0);
      ChunksCover(files[..stop]);
      assert files[..|files|] == files;
  }

  /** All the batches removed under the first n prefixes, prefix by prefix. */
  function AllRemovals(ps: seq<string>, storage: string -> PrefixCalls, n: nat): seq<seq<string>>
    requires n <= |ps|
  {
    if n == 0 then [] else AllRemovals(ps, storage, n - 1) + Removals(ps[n - 1], storage(ps[n - 1]))
  }

  lemma {:induction false} FlattenAppend(a: seq<seq<string>>, b: seq<seq<string>>)
    ensures Flatten(a + b) == Flatten(a) + Flatten(b)
    decreases |a|
  {
    if a == [] {
      assert a + b == b;
    } else {
      assert (a + b)[1..] == a[1..] + b;
      FlattenAppend(a[1..], b);
    }
  }

  /** Clearing the prefixes in turn: a failure under one never stops the others, so every
      prefix makes its own remove calls, and the bucket loses exactly the paths removed. */
  lemma {:induction false} ClearedSpec(objects: set<string>, ps: seq<string>, storage: string -> PrefixCalls, n: nat)
    requires n <= |ps|
    ensures Cleared(objects, ps, storage, n).calls == AllRemovals(ps, storage, n)
    ensures Cleared(objects, ps, storage, n).objects == objects - Elems(Flatten(AllRemovals(ps, storage, n)))
    decreases n
  {
    if n > 0 {
      ClearedSpec(objects, ps, storage, n - 1);
      var a := AllRemovals(ps, storage, n - 1);
      var b := Removals(ps[n - 1], storage(ps[n - 1]));
      ClearedStep(objects, ps, storage, n);
      FlattenElems(a, b);
      MinusBoth(objects, Elems(Flatten(a)), Elems(Flatten(b)));
    }
  }

  /** One more prefix: its batches are appended to the calls and its paths leave the bucket. */
  lemma ClearedStep(objects: set<string>, ps: seq<string>, storage: string -> PrefixCalls, n: nat)
    requires 0 < n <= |ps|
    ensures var b := Removals(ps[n - 1], storage(ps[n - 1]));
      && Cleared(objects, ps, storage, n).objects == Cleared(objects, ps, storage, n - 1).objects - Elems(Flatten(b))
      && Cleared(objects, ps, storage, n).calls == Cleared(objects, ps, storage, n - 1).calls + b
      && AllRemovals(ps, storage, n) == AllRemovals(ps, storage, n - 1) + b
  {
  }

  /** The paths of two runs of batches are the paths of each. */
  lemma FlattenElems(a: seq<seq<string>>, b: seq<seq<string>>)
    ensures Elems(Flatten(a + b)) == Elems(Flatten(a)) + Elems(Flatten(b))
  {
    FlattenAppend(a, b);
    ElemsAppend(Flatten(a), Flatten(b));
  }

  lemma MinusBoth(x: set<string>, a: set<string>, b: set<string>)
    ensures (x - a) - b == x - (a + b)
  {
  }

  lemma ElemsAppend(x: seq<string>, y: seq<string>)
    ensures Elems(x + y) == Elems(x) + Elems(y)
  {
  }

  /** The script exits normally exactly when it has its credentials and its confirmation
      and no delete fails; without the confirmation nothing is touched; when it fails the
      bucket is untouched; when it succeeds every table keeps only its rows with id 0 and
      the bucket loses exactly the paths of the remove batches made (a prefix whose listing
      or remove fails is left as far as it got). */
  lemma TruncatedSpec(credentials: bool, args: seq<string>, truncateForce: Option<string>, db: Db,
                      objects: set<string>, failing: set<Table>, storage: string -> PrefixCalls)
    ensures var e := Truncated(credentials, args, truncateForce, db, objects, failing, storage);
      && (e.exitCode == 0 <==> credentials && Forced(args, truncateForce) && failing == {})
      && (!credentials || !Forced(args, truncateForce) ==> e.db == db)
      && (e.exitCode != 0 ==> e.objects == objects && e.calls == [])
      && (e.exitCode == 0 ==>
            && e.db == Db(KeepIdZero(db.highSchools, SchoolId), KeepIdZero(db.circuitTeams, TeamId),
                          KeepIdZero(db.colleges, CollegeId), KeepIdZero(db.players, PlayerId), db.nextId)
            && e.calls == AllRemovals(Prefixes, storage, |Prefixes|)
            && e.objects == objects - Elems(Flatten(e.calls)))
      && (Valid(db) ==> Valid(e.db))
  {
    DeleteOrderSpec(db, failing);
    ClearedSpec(objects, Prefixes, storage, |Prefixes|);
    if failing != {} {
      var t :| t in failing;
      assert t == Players || t == Colleges || t == CircuitTeams || t == HighSchools;
    }
  }
}
