// Grouping rows by a string key into a JavaScript `Map`, as the ingesters and the exporter
// do: each row either starts the entry of a new key or updates the entry already there, and
// the map is later iterated in the order its keys were first set.
module Grouping {
  import opened Wrappers

  /** A `Map<string, E>`: its entries, and its keys in insertion order. */
  datatype Grouped<E> = Grouped(order: seq<string>, entries: map<string, E>)

  /** How rows are grouped: the key a row is filed under, the entry it starts when its key
      is new, and how it updates the entry of its key. */
  datatype Rule<-C, !E> = Rule(key: C -> string, start: C -> E, absorb: (E, C) -> E)

  function Empty<E>(): Grouped<E>
  {
    Grouped([], map[])
  }

  /** `const e = m.get(key) ?? start; ...update e...; m.set(key, e)`: setting a key that is
      already present keeps its place in the iteration order. */
  function Step<C, E>(g: Grouped<E>, c: C, r: Rule<C, E>): Grouped<E>
  {
    var k := r.key(c);
    var e := if k in g.entries then g.entries[k] else r.start(c);
    Grouped(if k in g.entries then g.order else g.order + [k], g.entries[k := r.absorb(e, c)])
  }

  /** The rows cs grouped into g, in order. */
  function Fold<C, E>(g: Grouped<E>, cs: seq<C>, r: Rule<C, E>): Grouped<E>
  {
    if cs == [] then g else Step(Fold(g, cs[..|cs| - 1], r), cs[|cs| - 1], r)
  }

  /** The iteration order lists every key of the map exactly once. */
  ghost predicate Ordered<E>(g: Grouped<E>)
  {
    && (forall i, j :: 0 <= i < j < |g.order| ==> g.order[i] != g.order[j])
    && (forall s :: s in g.entries <==> s in g.order)
  }

  /** Grouping a concatenation is grouping its parts in turn. */
  lemma {:induction false} FoldConcat<C, E>(g: Grouped<E>, xs: seq<C>, ys: seq<C>, r: Rule<C, E>)
    ensures Fold(g, xs + ys, r) == Fold(Fold(g, xs, r), ys, r)
    decreases |ys|
  {
    if ys == [] {
      assert xs + ys == xs;
    } else {
      var init := ys[..|ys| - 1];
      assert (xs + ys)[..|xs + ys| - 1] == xs + init;
      FoldConcat(g, xs, init, r);
    }
  }

  /** Grouping one more row is one more step. */
  lemma FoldSnoc<C, E>(cs: seq<C>, c: C, r: Rule<C, E>)
    ensures Fold(Empty(), cs + [c], r) == Step(Fold(Empty(), cs, r), c, r)
  {
    assert (cs + [c])[..|cs|] == cs;
  }

  /** One row further: only the entry of the row's key changes, and that key is appended to
      the order exactly when it is new. */
  lemma FoldLast<C, E>(cs: seq<C>, r: Rule<C, E>)
    requires cs != []
    ensures var b := Fold(Empty(), cs[..|cs| - 1], r);
      var c := cs[|cs| - 1];
      var s := r.key(c);
      var f := Fold(Empty(), cs, r);
      && f.entries.Keys == b.entries.Keys + {s}
      && f.entries[s] == r.absorb(if s in b.entries then b.entries[s] else r.start(c), c)
      && (forall t :: t in b.entries && t != s ==> f.entries[t] == b.entries[t])
      && f.order == (if s in b.entries then b.order else b.order + [s])
  {
    assert Fold(Empty(), cs, r) == Step(Fold(Empty(), cs[..|cs| - 1], r), cs[|cs| - 1], r);
  }

  /** Every row's key has an entry. */
  lemma {:induction false} FoldHas<C, E>(cs: seq<C>, r: Rule<C, E>, i: nat)
    requires i < |cs|
    ensures r.key(cs[i]) in Fold(Empty(), cs, r).entries
    decreases |cs|
  {
    FoldLast(cs, r);
    if i < |cs| - 1 {
      FoldHas(cs[..|cs| - 1], r, i);
    }
  }

  /** Every entry is there for a row with its key. */
  lemma {:induction false} FoldHasRow<C, E>(cs: seq<C>, r: Rule<C, E>, s: string) returns (i: nat)
    requires s in Fold(Empty(), cs, r).entries
    ensures i < |cs| && r.key(cs[i]) == s
    decreases |cs|
  {
    FoldLast(cs, r);
    if r.key(cs[|cs| - 1]) == s {
      i := |cs| - 1;
    } else {
      i := FoldHasRow(cs[..|cs| - 1], r, s);
    }
  }

  /** Grouping keeps the order exact. */
  lemma {:induction false} FoldOrdered<C, E>(cs: seq<C>, r: Rule<C, E>)
    ensures Ordered(Fold(Empty(), cs, r))
    decreases |cs|
  {
    if cs != [] {
      FoldOrdered(cs[..|cs| - 1], r);
      FoldLast(cs, r);
    }
  }

  /** One entry per key that some row has, and no other, each listed once in the order. */
  lemma FoldKeys<C, E>(cs: seq<C>, r: Rule<C, E>)
    ensures Ordered(Fold(Empty(), cs, r))
    ensures forall s :: s in Fold(Empty(), cs, r).entries <==> exists i :: 0 <= i < |cs| && r.key(cs[i]) == s
  {
    FoldOrdered(cs, r);
    forall s | s in Fold(Empty(), cs, r).entries ensures exists i :: 0 <= i < |cs| && r.key(cs[i]) == s {
      var i := FoldHasRow(cs, r, s);
    }
    forall s, i | 0 <= i < |cs| && r.key(cs[i]) == s ensures s in Fold(Empty(), cs, r).entries {
      FoldHas(cs, r, i);
    }
  }

  // ------------------------------------------------------------------ per-key map fields

  /** field is a map held by every entry that a new entry starts empty, and that each row
      either leaves alone or writes at one key: `if (value) entry.field[at] = value`. */
  ghost predicate WritesField<C(!new), E(!new), V>(r: Rule<C, E>, field: E -> map<string, V>, at: C -> string, write: C -> Option<V>)
  {
    && (forall c :: field(r.start(c)) == map[])
    && (forall e, c :: field(r.absorb(e, c)) == if write(c).Some? then field(e)[at(c) := write(c).value] else field(e))
  }

  /** Row i has key s and writes the field at k. */
  predicate WriteFor<C, V>(cs: seq<C>, key: C -> string, at: C -> string, write: C -> Option<V>, i: int, s: string, k: string)
  {
    0 <= i < |cs| && key(cs[i]) == s && at(cs[i]) == k && write(cs[i]).Some?
  }

  /** The entry of s holds the field at k exactly when one of its rows writes it there. */
  lemma {:induction false} FoldFieldSet<C(!new), E(!new), V>(cs: seq<C>, r: Rule<C, E>, field: E -> map<string, V>,
                                                 at: C -> string, write: C -> Option<V>, s: string, k: string)
    requires WritesField(r, field, at, write)
    requires s in Fold(Empty(), cs, r).entries
    ensures k in field(Fold(Empty(), cs, r).entries[s]) <==> exists i :: WriteFor(cs, r.key, at, write, i, s, k)
    decreases |cs|
  {
    var init := cs[..|cs| - 1];
    var b := Fold(Empty(), init, r);
    var last := |cs| - 1;
    var c := cs[last];
    FoldLast(cs, r);
    var e := if s in b.entries then b.entries[s] else r.start(c);
    if s in b.entries {
      FoldFieldSet(init, r, field, at, write, s, k);
    } else {
      assert field(e) == map[];
    }
    if r.key(c) == s {
      assert Fold(Empty(), cs, r).entries[s] == r.absorb(e, c);
      if WriteFor(cs, r.key, at, write, last, s, k) {
        assert k in field(Fold(Empty(), cs, r).entries[s]);
      } else {
        assert k in field(Fold(Empty(), cs, r).entries[s]) <==> k in field(e);
      }
    } else {
      assert Fold(Empty(), cs, r).entries[s] == e;
    }
    if k in field(e) {
      var i :| WriteFor(init, r.key, at, write, i, s, k);
      assert WriteFor(cs, r.key, at, write, i, s, k);
    }
    forall i | WriteFor(cs, r.key, at, write, i, s, k) && i < last ensures k in field(e) {
      FoldHas(init, r, i);
      assert WriteFor(init, r.key, at, write, i, s, k);
    }
  }

  /** A later row overwrites an earlier one: the field of s at k holds what the last row of
      s writing there wrote. */
  lemma {:induction false} FoldFieldLast<C(!new), E(!new), V>(cs: seq<C>, r: Rule<C, E>, field: E -> map<string, V>,
                                                  at: C -> string, write: C -> Option<V>, s: string, k: string)
    returns (i: nat)
    requires WritesField(r, field, at, write)
    requires s in Fold(Empty(), cs, r).entries
    requires k in field(Fold(Empty(), cs, r).entries[s])
    ensures WriteFor(cs, r.key, at, write, i, s, k)
    ensures field(Fold(Empty(), cs, r).entries[s])[k] == write(cs[i]).value
    ensures forall j :: i < j < |cs| ==> !WriteFor(cs, r.key, at, write, j, s, k)
    decreases |cs|
  {
    var init := cs[..|cs| - 1];
    var b := Fold(Empty(), init, r);
    var last := |cs| - 1;
    var c := cs[last];
    FoldLast(cs, r);
    var e := if s in b.entries then b.entries[s] else r.start(c);
    if WriteFor(cs, r.key, at, write, last, s, k) {
      assert Fold(Empty(), cs, r).entries[s] == r.absorb(e, c);
      i := last;
    } else {
      if r.key(c) == s {
        assert Fold(Empty(), cs, r).entries[s] == r.absorb(e, c);
        assert k in field(r.absorb(e, c)) <==> k in field(e);
        assert k in field(e) ==> field(r.absorb(e, c))[k] == field(e)[k];
      } else {
        assert Fold(Empty(), cs, r).entries[s] == e;
      }
      assert s !in b.entries ==> field(e) == map[];
      assert s in b.entries && k in field(b.entries[s]);
      i := FoldFieldLast(init, r, field, at, write, s, k);
      assert WriteFor(cs, r.key, at, write, i, s, k);
      forall j | i < j < |cs| ensures !WriteFor(cs, r.key, at, write, j, s, k) {
        if j < last {
          assert !WriteFor(init, r.key, at, write, j, s, k);
        }
      }
    }
  }

  // ------------------------------------------------------------------ per-key set fields

  /** field is a set that a new entry starts empty and to which each row adds one element:
      `entry.field.add(elem)`. */
  ghost predicate CollectsField<C(!new), E(!new), V(!new)>(r: Rule<C, E>, field: E -> set<V>, elem: C -> V)
  {
    && (forall c, v :: v !in field(r.start(c)))
    && (forall e, c, v :: v in field(r.absorb(e, c)) <==> v in field(e) || v == elem(c))
  }

  /** Row i has key s and adds u. */
  predicate CollectFor<C, V(==)>(cs: seq<C>, key: C -> string, elem: C -> V, i: int, s: string, u: V)
  {
    0 <= i < |cs| && key(cs[i]) == s && elem(cs[i]) == u
  }

  /** The entry of s holds u in the field exactly when one of its rows adds u. */
  lemma {:induction false} FoldFieldUnion<C(!new), E(!new), V(!new)>(cs: seq<C>, r: Rule<C, E>, field: E -> set<V>,
                                                   elem: C -> V, s: string, u: V)
    requires CollectsField(r, field, elem)
    requires s in Fold(Empty(), cs, r).entries
    ensures u in field(Fold(Empty(), cs, r).entries[s]) <==> exists i :: CollectFor(cs, r.key, elem, i, s, u)
    decreases |cs|
  {
    var init := cs[..|cs| - 1];
    var b := Fold(Empty(), init, r);
    var last := |cs| - 1;
    var c := cs[last];
    FoldLast(cs, r);
    var e := if s in b.entries then b.entries[s] else r.start(c);
    if s in b.entries {
      FoldFieldUnion(init, r, field, elem, s, u);
    } else {
      assert u !in field(e);
    }
    if r.key(c) == s {
      assert Fold(Empty(), cs, r).entries[s] == r.absorb(e, c);
      if CollectFor(cs, r.key, elem, last, s, u) {
        assert u in field(Fold(Empty(), cs, r).entries[s]);
      } else {
        assert u in field(Fold(Empty(), cs, r).entries[s]) <==> u in field(e);
      }
    } else {
      assert Fold(Empty(), cs, r).entries[s] == e;
    }
    if u in field(e) {
      var i :| CollectFor(init, r.key, elem, i, s, u);
      assert CollectFor(cs, r.key, elem, i, s, u);
    }
    forall i | CollectFor(cs, r.key, elem, i, s, u) && i < last ensures u in field(e) {
      FoldHas(init, r, i);
      assert CollectFor(init, r.key, elem, i, s, u);
    }
  }
}
