// De-duplication of scraped player rows by the key `${rank ?? ""}|${name.toLowerCase()}`,
// keeping the first row seen for each key (the `seen` set and `deduped` array that both
// player scrapers build before returning).
module RowDedup {
  import opened Wrappers
  import opened Text

  /** The key `${rank ?? ""}|${name.toLowerCase()}`. */
  function DedupKey(rank: Option<nat>, name: string): string
  {
    RankText(rank) + "|" + Lower(name)
  }

  function RankText(rank: Option<nat>): (t: string)
    ensures AllDigits(t)
  {
    if rank.Some? then NatToString(rank.value) else ""
  }

  /** Two rows share a key exactly when they have the same rank (or both none) and
      the same lower-cased name: the rank text holds no `|`, so the key splits back. */
  lemma DedupKeyInjective(r1: Option<nat>, n1: string, r2: Option<nat>, n2: string)
    ensures DedupKey(r1, n1) == DedupKey(r2, n2) <==> r1 == r2 && Lower(n1) == Lower(n2)
  {
    var a, b := RankText(r1), RankText(r2);
    var k1, k2 := DedupKey(r1, n1), DedupKey(r2, n2);
    if k1 == k2 {
      assert a == k1[..|a|] && b == k2[..|b|];
      BarSplitsKey(a, Lower(n1));
      BarSplitsKey(b, Lower(n2));
      assert |a| == |b|;
      assert a == b;
      assert Lower(n1) == k1[|a| + 1..] && Lower(n2) == k2[|b| + 1..];
      if r1.Some? && r2.Some? {
        NatToStringInjective(r1.value, r2.value);
      }
    }
  }

  /** The first `|` of a key sits right after the rank text. */
  lemma {:induction false} BarSplitsKey(t: string, u: string)
    requires AllDigits(t)
    ensures FirstBar(t + "|" + u) == |t|
    decreases |t|
  {
    if t != [] {
      assert (t + "|" + u)[1..] == t[1..] + "|" + u;
      BarSplitsKey(t[1..], u);
    }
  }

  function FirstBar(s: string): nat
  {
    if s == [] || s[0] == '|' then 0 else 1 + FirstBar(s[1..])
  }

  /** s[i] is the first element of s with its key. */
  ghost predicate IsFirstOccurrence<T>(s: seq<T>, key: T -> string, i: nat)
    requires i < |s|
  {
    forall j :: 0 <= j < i ==> key(s[j]) != key(s[i])
  }

  /** The elements of s[..n] that are first with their key, in their original order. */
  ghost function FirstOccurrences<T>(s: seq<T>, key: T -> string, n: nat): seq<T>
    requires n <= |s|
  {
    if n == 0 then []
    else FirstOccurrences(s, key, n - 1) + (if IsFirstOccurrence(s, key, n - 1) then [s[n - 1]] else [])
  }

  /** The positions in s[..n] of those elements. */
  ghost function FirstIndices<T>(s: seq<T>, key: T -> string, n: nat): seq<nat>
    requires n <= |s|
  {
    if n == 0 then []
    else FirstIndices(s, key, n - 1) + (if IsFirstOccurrence(s, key, n - 1) then [n - 1] else [])
  }

  /** The de-duplication loop: a `seen` set of keys and the output array. */
  method Dedup<T>(s: seq<T>, key: T -> string) returns (out: seq<T>)
    ensures out == FirstOccurrences(s, key, |s|)
  {
    var seen: set<string> := {};
    out := [];
    for i := 0 to |s|
      invariant seen == set j | 0 <= j < i :: key(s[j])
      invariant out == FirstOccurrences(s, key, i)
    {
      var k := key(s[i]);
      if k in seen {
        continue;
      }
      seen := seen + {k};
      out := out + [s[i]];
    }
  }

  /** The kept rows are exactly the first occurrences, taken at strictly increasing
      positions of the input: the output is an order-preserving subsequence. */
  lemma {:induction false} FirstOccurrencesIndexed<T>(s: seq<T>, key: T -> string, n: nat)
    requires n <= |s|
    ensures var out, idx := FirstOccurrences(s, key, n), FirstIndices(s, key, n);
      && |idx| == |out|
      && (forall k :: 0 <= k < |idx| ==> idx[k] < n && out[k] == s[idx[k]])
      && (forall a, b :: 0 <= a < b < |idx| ==> idx[a] < idx[b])
      && (forall i :: 0 <= i < n ==> (i in idx <==> IsFirstOccurrence(s, key, i)))
  {
    if n > 0 {
      FirstOccurrencesIndexed(s, key, n - 1);
    }
  }

  /** No two kept rows share a key. */
  lemma FirstOccurrencesDistinctKeys<T>(s: seq<T>, key: T -> string)
    ensures var out := FirstOccurrences(s, key, |s|);
      forall a, b :: 0 <= a < b < |out| ==> key(out[a]) != key(out[b])
  {
    FirstOccurrencesIndexed(s, key, |s|);
    var out, idx := FirstOccurrences(s, key, |s|), FirstIndices(s, key, |s|);
    forall a, b | 0 <= a < b < |out| ensures key(out[a]) != key(out[b]) {
      assert idx[a] < idx[b];
      assert idx[b] in idx;
      assert IsFirstOccurrence(s, key, idx[b]);
    }
  }

  /** Every key of the input is the key of some kept row, namely its first occurrence. */
  lemma FirstOccurrencesCoverKeys<T>(s: seq<T>, key: T -> string)
    ensures var out := FirstOccurrences(s, key, |s|);
      forall i :: 0 <= i < |s| ==> exists k :: 0 <= k < |out| && key(out[k]) == key(s[i])
  {
    FirstOccurrencesIndexed(s, key, |s|);
    var out, idx := FirstOccurrences(s, key, |s|), FirstIndices(s, key, |s|);
    forall i | 0 <= i < |s| ensures exists k :: 0 <= k < |out| && key(out[k]) == key(s[i]) {
      var j := EarliestWithKey(s, key, i);
      assert j in idx;
      var k :| 0 <= k < |idx| && idx[k] == j;
      assert key(out[k]) == key(s[i]);
    }
  }

  /** The kept row that carries the key of s[i]. */
  lemma KeptWithKey<T>(s: seq<T>, key: T -> string, i: nat) returns (k: nat)
    requires i < |s|
    ensures var out := FirstOccurrences(s, key, |s|);
      k < |out| && key(out[k]) == key(s[i])
  {
    FirstOccurrencesIndexed(s, key, |s|);
    var idx := FirstIndices(s, key, |s|);
    var j := EarliestWithKey(s, key, i);
    assert j in idx;
    k :| 0 <= k < |idx| && idx[k] == j;
  }

  /** The earliest position whose key equals that of s[i]. */
  lemma {:induction false} EarliestWithKey<T>(s: seq<T>, key: T -> string, i: nat) returns (j: nat)
    requires i < |s|
    ensures j <= i && key(s[j]) == key(s[i]) && IsFirstOccurrence(s, key, j)
    decreases i
  {
    if IsFirstOccurrence(s, key, i) {
      j := i;
    } else {
      var j0 :| 0 <= j0 < i && key(s[j0]) == key(s[i]);
      j := EarliestWithKey(s, key, j0);
    }
  }
}
