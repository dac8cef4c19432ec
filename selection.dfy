// The shape shared by the table scrapers: walk the rows in order, turn each into a record or
// drop it, and push the records kept.
module Selection {
  import opened Wrappers

  /** The records f makes of the first n elements of s, in order, skipping those it drops. */
  function Kept<T, U>(s: seq<T>, f: T -> Option<U>, n: nat): (out: seq<U>)
    requires n <= |s|
    ensures |out| <= n
  {
    if n == 0 then []
    else Kept(s, f, n - 1) + (if f(s[n - 1]).Some? then [f(s[n - 1]).value] else [])
  }

  /** Every kept record comes from its own row, in row order, and every row that f keeps
      is among them: the output is the order-preserving selection of those rows. */
  lemma {:induction false} KeptFromRows<T, U>(s: seq<T>, f: T -> Option<U>, n: nat) returns (src: seq<nat>)
    requires n <= |s|
    ensures |src| == |Kept(s, f, n)|
    ensures forall k :: 0 <= k < |src| ==> src[k] < n && f(s[src[k]]) == Some(Kept(s, f, n)[k])
    ensures forall k, l :: 0 <= k < l < |src| ==> src[k] < src[l]
    ensures forall i :: 0 <= i < n && f(s[i]).Some? ==> i in src
  {
    if n == 0 {
      src := [];
    } else {
      var prev := KeptFromRows(s, f, n - 1);
      var out := Kept(s, f, n);
      assert out[..|prev|] == Kept(s, f, n - 1);
      if f(s[n - 1]).Some? {
        src := prev + [n - 1];
        assert out[|prev|] == f(s[n - 1]).value;
      } else {
        src := prev;
      }
      forall k | 0 <= k < |src| ensures src[k] < n && f(s[src[k]]) == Some(out[k]) {
        if k < |prev| {
          assert src[k] == prev[k];
          assert out[k] == Kept(s, f, n - 1)[k];
        }
      }
      forall i | 0 <= i < n && f(s[i]).Some? ensures i in src {
        if i < n - 1 {
          assert i in prev;
        } else {
          assert src[|prev|] == i;
        }
      }
    }
  }

  /** A property every record f makes holds of every record kept. */
  lemma {:induction false} KeptAll<T, U>(s: seq<T>, f: T -> Option<U>, n: nat, P: U -> bool)
    requires n <= |s|
    requires forall i :: 0 <= i < n && f(s[i]).Some? ==> P(f(s[i]).value)
    ensures forall k :: 0 <= k < |Kept(s, f, n)| ==> P(Kept(s, f, n)[k])
  {
    var src := KeptFromRows(s, f, n);
    forall k | 0 <= k < |Kept(s, f, n)| ensures P(Kept(s, f, n)[k]) {
      assert f(s[src[k]]).value == Kept(s, f, n)[k];
    }
  }
}
