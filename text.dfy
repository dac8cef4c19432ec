// Character classes and string operations of JavaScript that the scrapers
// rely on: `trim`, `\s`, `.`, `[^0-9]` stripping followed by `parseInt`,
// `toLowerCase`, `String(n)`, `includes` and case-insensitive search.
module Text {
  import opened Wrappers

  /** JavaScript WhiteSpace and LineTerminator code points: what `\s`
      matches and what `String.prototype.trim` removes. */
  predicate IsSpace(c: char)
  {
    c == '\t' || c == '\n' || c == '\U{000B}' || c == '\U{000C}' || c == '\r' || c == ' ' ||
    c == '\U{00A0}' || c == '\U{1680}' || ('\U{2000}' <= c <= '\U{200A}') ||
    c == '\U{2028}' || c == '\U{2029}' || c == '\U{202F}' || c == '\U{205F}' ||
    c == '\U{3000}' || c == '\U{FEFF}'
  }

  /** The code points that the regular-expression `.` does not match. */
  predicate IsLineTerminator(c: char)
  {
    c == '\n' || c == '\r' || c == '\U{2028}' || c == '\U{2029}'
  }

  predicate IsDigit(c: char)
  {
    '0' <= c <= '9'
  }

  predicate NoLineTerminator(s: string)
  {
    forall k :: 0 <= k < |s| ==> !IsLineTerminator(s[k])
  }

  predicate AllSpace(s: string)
  {
    forall k :: 0 <= k < |s| ==> IsSpace(s[k])
  }

  predicate AllDigits(s: string)
  {
    forall k :: 0 <= k < |s| ==> IsDigit(s[k])
  }

  /** End of the maximal run of `\s` starting at i: what a greedy `\s*` consumes. */
  function SkipSpaces(s: string, i: nat): (j: nat)
    requires i <= |s|
    ensures i <= j <= |s|
    ensures forall k :: i <= k < j ==> IsSpace(s[k])
    ensures j == |s| || !IsSpace(s[j])
    decreases |s| - i
  {
    if i < |s| && IsSpace(s[i]) then SkipSpaces(s, i + 1) else i
  }

  /** Removes the longest prefix whose characters all satisfy p (`replace(/^[...]+/, "")`). */
  function DropLeading(s: string, p: char -> bool): string
  {
    if s != [] && p(s[0]) then DropLeading(s[1..], p) else s
  }

  /** What DropLeading removes is a prefix of p-characters, and what it keeps does
      not start with one. */
  lemma {:induction false} DropLeadingSpec(s: string, p: char -> bool)
    ensures var r := DropLeading(s, p);
      && |r| <= |s| && r == s[|s| - |r|..]
      && (r == [] || !p(r[0]))
      && (forall k :: 0 <= k < |s| - |r| ==> p(s[k]))
    decreases |s|
  {
    if s != [] && p(s[0]) {
      DropLeadingSpec(s[1..], p);
    }
  }

  /** Removes the longest suffix whose characters all satisfy p (`replace(/[...]+$/, "")`). */
  function DropTrailing(s: string, p: char -> bool): string
  {
    if s != [] && p(s[|s| - 1]) then DropTrailing(s[..|s| - 1], p) else s
  }

  /** What DropTrailing removes is a suffix of p-characters, and what it keeps does
      not end with one. */
  lemma {:induction false} DropTrailingSpec(s: string, p: char -> bool)
    ensures var r := DropTrailing(s, p);
      && |r| <= |s| && r == s[..|r|]
      && (r == [] || !p(r[|r| - 1]))
      && (forall k :: |r| <= k < |s| ==> p(s[k]))
    decreases |s|
  {
    if s != [] && p(s[|s| - 1]) {
      DropTrailingSpec(s[..|s| - 1], p);
    }
  }

  /** `String.prototype.trim`. */
  function Trim(s: string): (r: string)
  {
    DropTrailing(DropLeading(s, IsSpace), IsSpace)
  }

  /** Trim keeps a contiguous middle part of s, removes only white space around it,
      and leaves no white space at either end. */
  lemma TrimShape(s: string)
    ensures var r := Trim(s);
      exists i :: 0 <= i <= |s| - |r| && r == s[i..i + |r|] && AllSpace(s[..i]) && AllSpace(s[i + |r|..])
    ensures Trim(s) == [] || (!IsSpace(Trim(s)[0]) && !IsSpace(Trim(s)[|Trim(s)| - 1]))
  {
    var i := TrimStart(s);
    var r := Trim(s);
    assert 0 <= i <= |s| - |r| && r == s[i..i + |r|] && AllSpace(s[..i]) && AllSpace(s[i + |r|..]);
  }

  /** Where the trimmed text starts in s. */
  lemma TrimStart(s: string) returns (i: nat)
    ensures var r := Trim(s);
      && i + |r| <= |s| && r == s[i..i + |r|] && AllSpace(s[..i]) && AllSpace(s[i + |r|..])
      && (r == [] || (!IsSpace(r[0]) && !IsSpace(r[|r| - 1])))
  {
    var a := DropLeading(s, IsSpace);
    var r := DropTrailing(a, IsSpace);
    DropLeadingSpec(s, IsSpace);
    DropTrailingSpec(a, IsSpace);
    i := |s| - |a|;
    assert a == s[i..];
    assert r == a[..|r|];
    assert r == s[i..i + |r|];
    var head, tail := s[..i], s[i + |r|..];
    forall k | 0 <= k < |head|
      ensures IsSpace(head[k])
    {
      assert head[k] == s[k];
    }
    forall k | 0 <= k < |tail|
      ensures IsSpace(tail[k])
    {
      assert tail[k] == a[|r| + k];
    }
    if r != [] {
      assert r[0] == a[0];
    }
  }

  /** A string trims to the empty string exactly when it is all white space. */
  lemma TrimEmptyIff(s: string)
    ensures Trim(s) == [] <==> AllSpace(s)
  {
    var a := DropLeading(s, IsSpace);
    DropLeadingSpec(s, IsSpace);
    DropTrailingSpec(a, IsSpace);
    if a != [] {
      assert !IsSpace(a[0]);
      assert !AllSpace(s) by {
        assert s[|s| - |a|] == a[0];
      }
    }
  }

  /** Trimming twice is trimming once. */
  lemma TrimIdempotent(s: string)
    ensures Trim(Trim(s)) == Trim(s)
  {
    TrimShape(s);
    var r := Trim(s);
    if r != [] {
      assert DropLeading(r, IsSpace) == r;
      assert DropTrailing(r, IsSpace) == r;
    }
  }

  /** A string without white space at either end is its own trim. */
  lemma TrimUnchanged(t: string)
    requires t == [] || (!IsSpace(t[0]) && !IsSpace(t[|t| - 1]))
    ensures Trim(t) == t
  {
    assert DropLeading(t, IsSpace) == t;
  }

  /** Dropping leading p-characters passes over a prefix made only of them. */
  lemma {:induction false} DropLeadingPrefix(a: string, b: string, p: char -> bool)
    requires forall k :: 0 <= k < |a| ==> p(a[k])
    ensures DropLeading(a + b, p) == DropLeading(b, p)
    decreases |a|
  {
    if a != [] {
      assert (a + b)[1..] == a[1..] + b;
      DropLeadingPrefix(a[1..], b, p);
    } else {
      assert a + b == b;
    }
  }

  /** Dropping trailing p-characters passes over a suffix made only of them. */
  lemma {:induction false} DropTrailingSuffix(a: string, b: string, p: char -> bool)
    requires forall k :: 0 <= k < |b| ==> p(b[k])
    ensures DropTrailing(a + b, p) == DropTrailing(a, p)
    decreases |b|
  {
    if b != [] {
      assert (a + b)[..|a + b| - 1] == a + b[..|b| - 1];
      DropTrailingSuffix(a, b[..|b| - 1], p);
    } else {
      assert a + b == a;
    }
  }

  /** Trimming removes exactly the white space around a text that has none at its ends. */
  lemma TrimAround(a: string, r: string, b: string)
    requires AllSpace(a) && AllSpace(b)
    requires r == [] || (!IsSpace(r[0]) && !IsSpace(r[|r| - 1]))
    ensures Trim(a + r + b) == r
  {
    assert a + r + b == a + (r + b);
    DropLeadingPrefix(a, r + b, IsSpace);
    if r == [] {
      assert r + b == b + [];
      DropLeadingPrefix(b, [], IsSpace);
    } else {
      assert (r + b)[0] == r[0];
      DropTrailingSuffix(r, b, IsSpace);
    }
  }

  /** White space appended to a text does not change its trim. */
  lemma TrimAppendSpaces(t: string, sp: string)
    requires AllSpace(sp)
    ensures Trim(t + sp) == Trim(t)
  {
    var i := TrimStart(t);
    var r := Trim(t);
    var tail := t[i + |r|..];
    assert t == t[..i] + r + tail;
    assert t + sp == t[..i] + r + (tail + sp);
    TrimAround(t[..i], r, tail + sp);
  }

  /** The digits of s in order: `s.replace(/[^0-9]/g, "")`. */
  function DigitsOf(s: string): (d: string)
    ensures AllDigits(d)
    ensures |d| <= |s|
    ensures d == [] <==> forall k :: 0 <= k < |s| ==> !IsDigit(s[k])
  {
    if s == [] then []
    else if IsDigit(s[0]) then [s[0]] + DigitsOf(s[1..])
    else
      var rest := DigitsOf(s[1..]);
      assert forall k :: 1 <= k < |s| ==> s[k] == s[1..][k - 1];
      rest
  }

  function DigitValue(c: char): (v: nat)
    requires IsDigit(c)
    ensures v < 10
  {
    c as int - '0' as int
  }

  function DigitChar(v: nat): (c: char)
    requires v < 10
    ensures IsDigit(c) && DigitValue(c) == v
  {
    ('0' as int + v) as char
  }

  /** Base-10 value of a string of digits. */
  function DecimalValue(ds: string): nat
    requires AllDigits(ds)
  {
    if ds == [] then 0 else DecimalValue(ds[..|ds| - 1]) * 10 + DigitValue(ds[|ds| - 1])
  }

  /** `String(n)` for a non-negative integer. */
  function NatToString(n: nat): (s: string)
    ensures AllDigits(s) && s != []
    decreases n
  {
    if n < 10 then [DigitChar(n)] else NatToString(n / 10) + [DigitChar(n % 10)]
  }

  /** Reading back what `String(n)` wrote gives n. */
  lemma {:induction false} DecimalOfNatToString(n: nat)
    ensures DecimalValue(NatToString(n)) == n
    decreases n
  {
    var s := NatToString(n);
    if n >= 10 {
      DecimalOfNatToString(n / 10);
      assert s[..|s| - 1] == NatToString(n / 10);
    }
  }

  /** `String(n)` is injective, so a rank written into a key determines the rank. */
  lemma NatToStringInjective(a: nat, b: nat)
    ensures NatToString(a) == NatToString(b) <==> a == b
  {
    DecimalOfNatToString(a);
    DecimalOfNatToString(b);
  }

  /** A string of k digits denotes a number below 10^k (here: at most three digits). */
  lemma {:induction false} DecimalBelow(ds: string)
    requires AllDigits(ds) && |ds| <= 3
    ensures DecimalValue(ds) < Pow10(|ds|)
    decreases |ds|
  {
    if ds != [] {
      DecimalBelow(ds[..|ds| - 1]);
    }
  }

  function Pow10(k: nat): nat
  {
    if k == 0 then 1 else 10 * Pow10(k - 1)
  }

  /** `parseInt(s.replace(/[^0-9]/g, ""), 10)`, with `NaN` as None. */
  function IntOfDigits(s: string): (r: Option<nat>)
    ensures r.None? <==> forall k :: 0 <= k < |s| ==> !IsDigit(s[k])
  {
    var d := DigitsOf(s);
    if d == [] then None else Some(DecimalValue(d))
  }

  /** A rank rendered as decimal text, with any non-digit decoration around it, parses back to itself. */
  lemma {:induction false} IntOfDigitsDecorated(pre: string, n: nat, post: string)
    requires forall k :: 0 <= k < |pre| ==> !IsDigit(pre[k])
    requires forall k :: 0 <= k < |post| ==> !IsDigit(post[k])
    ensures IntOfDigits(pre + NatToString(n) + post) == Some(n)
  {
    var d := NatToString(n);
    DigitsOfConcat(pre, d + post);
    DigitsOfConcat(d, post);
    DigitsOfAllDigits(d);
    assert DigitsOf(pre) == [];
    assert DigitsOf(post) == [];
    assert pre + d + post == pre + (d + post);
    assert DigitsOf(pre + d + post) == d;
    DecimalOfNatToString(n);
  }

  lemma {:induction false} DigitsOfConcat(a: string, b: string)
    ensures DigitsOf(a + b) == DigitsOf(a) + DigitsOf(b)
    decreases |a|
  {
    if a != [] {
      assert (a + b)[1..] == a[1..] + b;
      DigitsOfConcat(a[1..], b);
    } else {
      assert a + b == b;
    }
  }

  lemma {:induction false} DigitsOfAllDigits(s: string)
    requires AllDigits(s)
    ensures DigitsOf(s) == s
    decreases |s|
  {
    if s != [] {
      DigitsOfAllDigits(s[1..]);
    }
  }

  /** `String.prototype.toLowerCase` on ASCII letters. */
  function LowerChar(c: char): (l: char)
    ensures 'A' <= c <= 'Z' ==> l as int == c as int + 32
    ensures !('A' <= c <= 'Z') ==> l == c
  {
    if 'A' <= c <= 'Z' then (c as int + 32) as char else c
  }

  function Lower(s: string): (r: string)
    ensures |r| == |s|
    ensures forall k :: 0 <= k < |s| ==> r[k] == LowerChar(s[k])
  {
    seq(|s|, k requires 0 <= k < |s| => LowerChar(s[k]))
  }

  /** pat occurs at position i of s, letters compared without regard to ASCII case (the `/i` flag). */
  predicate MatchesAtCI(s: string, i: nat, pat: string)
  {
    i + |pat| <= |s| && forall k :: 0 <= k < |pat| ==> LowerChar(s[i + k]) == LowerChar(pat[k])
  }

  /** `/pat/i.test(s)` for a literal pattern. */
  predicate ContainsCI(s: string, pat: string)
  {
    exists i :: 0 <= i <= |s| && MatchesAtCI(s, i, pat)
  }

  /** t occurs at position i of s. */
  predicate OccursAt(s: string, i: nat, t: string)
  {
    i + |t| <= |s| && s[i..i + |t|] == t
  }

  /** `s.includes(t)`. */
  predicate Contains(s: string, t: string)
  {
    exists i :: 0 <= i <= |s| && OccursAt(s, i, t)
  }

  predicate EndsWith(s: string, t: string)
  {
    |t| <= |s| && s[|s| - |t|..] == t
  }

  predicate StartsWith(s: string, t: string)
  {
    |t| <= |s| && s[..|t|] == t
  }

  /** The least j with i <= j <= n satisfying p, if any: the leftmost-match search
      of a regular-expression engine, which tries each start position in turn. */
  function FirstWhere(p: nat -> bool, i: nat, n: nat): (r: Option<nat>)
    ensures r.Some? ==> i <= r.value <= n && p(r.value)
    ensures r.Some? ==> forall j :: i <= j < r.value ==> !p(j)
    ensures r.None? ==> forall j :: i <= j <= n ==> !p(j)
    decreases if i <= n then n - i + 1 else 0
  {
    if i > n then None else if p(i) then Some(i) else FirstWhere(p, i + 1, n)
  }

  /** Where a greedy `\d{1,max}` starting at i stops. */
  function DigitRunEnd(s: string, i: nat, max: nat): (j: nat)
    requires i <= |s|
    ensures i <= j <= |s| && j <= i + max
    ensures forall k :: i <= k < j ==> IsDigit(s[k])
    ensures j == i + max || j == |s| || !IsDigit(s[j])
    decreases max
  {
    if max > 0 && i < |s| && IsDigit(s[i]) then DigitRunEnd(s, i + 1, max - 1) else i
  }

  /** SkipSpaces stops exactly at the end of the white-space run. */
  lemma {:induction false} SkipSpacesAt(s: string, i: nat, j: nat)
    requires i <= j <= |s|
    requires forall k :: i <= k < j ==> IsSpace(s[k])
    requires j == |s| || !IsSpace(s[j])
    ensures SkipSpaces(s, i) == j
    decreases j - i
  {
    if i < j {
      SkipSpacesAt(s, i + 1, j);
    }
  }

  /** A greedy digit run stops exactly at the end of the digits. */
  lemma {:induction false} DigitRunEndAt(s: string, i: nat, max: nat, j: nat)
    requires i <= j <= |s| && j <= i + max
    requires forall k :: i <= k < j ==> IsDigit(s[k])
    requires j == i + max || j == |s| || !IsDigit(s[j])
    ensures DigitRunEnd(s, i, max) == j
    decreases j - i
  {
    if i < j {
      DigitRunEndAt(s, i + 1, max - 1, j);
    }
  }

  /** Numbers below 1000 are written with at most three digits. */
  lemma NatToStringSmall(n: nat)
    requires n < 1000
    ensures 1 <= |NatToString(n)| <= 3
  {
    if n >= 10 {
      assert |NatToString(n / 10)| <= 2 by {
        NatToStringSmall(n / 10);
        if n / 10 >= 10 {
          assert n / 10 / 10 < 10;
        }
      }
    }
  }

  /** Every position of s in [i, j) holds white space. */
  predicate SpacesBetween(s: string, i: nat, j: nat)
    requires i <= j <= |s|
  {
    forall k :: i <= k < j ==> IsSpace(s[k])
  }

  /** SkipSpaces passes every white-space run that starts where it starts. */
  lemma {:induction false} SkipSpacesPast(s: string, i: nat, j: nat)
    requires i <= j <= |s| && SpacesBetween(s, i, j)
    ensures j <= SkipSpaces(s, i)
    decreases j - i
  {
    if i < j {
      assert IsSpace(s[i]);
      SkipSpacesPast(s, i + 1, j);
    }
  }

  /** DigitRunEnd passes every digit run of at most max digits that starts where it starts. */
  lemma {:induction false} DigitRunPast(s: string, i: nat, max: nat, k: nat)
    requires k <= max && i + k <= |s|
    requires forall t :: i <= t < i + k ==> IsDigit(s[t])
    ensures i + k <= DigitRunEnd(s, i, max)
    decreases k
  {
    if k > 0 {
      assert IsDigit(s[i]);
      DigitRunPast(s, i + 1, max - 1, k - 1);
    }
  }

  /** The greatest j with lo <= j <= hi satisfying p, if any: a greedy quantifier,
      which tries its longest extent first and gives back one step at a time. */
  function LastWhere(p: nat -> bool, lo: nat, hi: nat): (r: Option<nat>)
    ensures r.Some? ==> lo <= r.value <= hi && p(r.value)
    decreases hi
  {
    if hi < lo then None else if p(hi) then Some(hi) else if hi == 0 then None else LastWhere(p, lo, hi - 1)
  }

  /** LastWhere finds the greatest candidate, and None means there is none. */
  lemma {:induction false} LastWhereSpec(p: nat -> bool, lo: nat, hi: nat)
    ensures var r := LastWhere(p, lo, hi);
      && (r.Some? ==> forall j :: r.value < j <= hi ==> !p(j))
      && (r.None? ==> forall j :: lo <= j <= hi ==> !p(j))
    decreases hi
  {
    if hi >= lo && !p(hi) && hi > 0 {
      LastWhereSpec(p, lo, hi - 1);
    }
  }

  /** `rankText ? parseInt(rankText.replace(/[^0-9]/g, ""), 10) : NaN` on the trimmed text. */
  function RankFromText(rankText: string): Option<nat>
  {
    var t := Trim(rankText);
    if t == [] then None else IntOfDigits(t)
  }

  /** The empty-text guard agrees with reading the digits directly. */
  lemma RankFromTextIsDigits(rankText: string)
    ensures RankFromText(rankText) == IntOfDigits(Trim(rankText))
  {
    assert DigitsOf([]) == [];
  }

  /** JavaScript truthiness of a string: `s || undefined`. */
  function NonEmpty(s: string): (r: Option<string>)
    ensures r.None? <==> s == []
    ensures r.Some? ==> r.value == s
  {
    if s == [] then None else Some(s)
  }

  /** JavaScript truthiness of an optional string. */
  predicate Truthy(o: Option<string>)
  {
    o.Some? && o.value != []
  }

  /** `value || undefined` for an optional string: an empty string becomes undefined. */
  function OrUndefined(o: Option<string>): (r: Option<string>)
    ensures r.Some? <==> Truthy(o)
    ensures r.Some? ==> r == o
  {
    if Truthy(o) then o else None
  }

  /** Text of cell k (trimmed), or "" when the row has fewer cells: `cells.eq(k).text().trim()`. */
  function CellText(cells: seq<string>, k: nat): string
  {
    if k < |cells| then Trim(cells[k]) else ""
  }

  /** `s.replace(/\/$/, "")`: at most one trailing `/` removed. */
  function DropTrailingSlash(s: string): (r: string)
    ensures if s != [] && s[|s| - 1] == '/' then r + "/" == s else r == s
  {
    if s != [] && s[|s| - 1] == '/' then s[..|s| - 1] else s
  }

  /** `s.replace(/^\//, "")`: at most one leading `/` removed. */
  function DropLeadingSlash(s: string): (r: string)
    ensures if s != [] && s[0] == '/' then "/" + r == s else r == s
  {
    if s != [] && s[0] == '/' then s[1..] else s
  }

  /** `a.trim() || b.trim()`: the first of the two texts that does not trim to empty. */
  function TrimOr(a: string, b: string): (r: string)
    ensures r == [] <==> Trim(a) == [] && Trim(b) == []
  {
    if Trim(a) != [] then Trim(a) else Trim(b)
  }
}
