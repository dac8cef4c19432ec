// The detail extractor of the structured player scraper: from the (trimmed) text
// of a player's detail block it reads a rating in 0..100 and picks a scouting
// comment by a fixed precedence of quoting conventions and fallbacks.
// Each regular expression of the source is written out as a string function
// that follows the regex engine's greedy / lazy search order.
module Detail {
  import opened Wrappers
  import opened Text

  const LeftDoubleQuote: char := '\U{201C}'
  const RightDoubleQuote: char := '\U{201D}'
  const LeftSingleQuote: char := '\U{2018}'
  const RightSingleQuote: char := '\U{2019}'

  /** The quoting conventions in the order they are tried: curly double,
      straight double, curly single, straight single (opening, closing mark). */
  const QuoteStyles: seq<(char, char)> :=
    [(LeftDoubleQuote, RightDoubleQuote), ('"', '"'), (LeftSingleQuote, RightSingleQuote), ('\'', '\'')]

  /** `[“"‘']`: the marks that open a quotation. */
  predicate IsOpeningQuote(c: char)
  {
    c == LeftDoubleQuote || c == '"' || c == LeftSingleQuote || c == '\''
  }

  /** `[”"’']`: the marks that close a quotation. */
  predicate IsClosingQuote(c: char)
  {
    c == RightDoubleQuote || c == '"' || c == RightSingleQuote || c == '\''
  }

  /** `[-–—:\s]`: what may separate the rating number from the comment after it. */
  predicate IsLeadPunct(c: char)
  {
    c == '-' || c == '\U{2013}' || c == '\U{2014}' || c == ':' || IsSpace(c)
  }

  predicate HasOpeningQuote(s: string)
  {
    exists k :: 0 <= k < |s| && IsOpeningQuote(s[k])
  }

  // ---------------------------------------------------------------- rating

  /** The word `rating` at i, letters compared without regard to ASCII case. */
  predicate RatingLabelAt(s: string, i: nat)
  {
    i + 6 <= |s| && (s[i] == 'r' || s[i] == 'R') && (s[i + 1] == 'a' || s[i + 1] == 'A')
    && (s[i + 2] == 't' || s[i + 2] == 'T') && (s[i + 3] == 'i' || s[i + 3] == 'I')
    && (s[i + 4] == 'n' || s[i + 4] == 'N') && (s[i + 5] == 'g' || s[i + 5] == 'G')
  }

  /** The spelled-out label test is the case-insensitive match of the word. */
  lemma RatingLabelAtIff(s: string, i: nat)
    ensures RatingLabelAt(s, i) <==> MatchesAtCI(s, i, "rating")
  {
    var w := "rating";
    assert |w| == 6 && w[0] == 'r' && w[1] == 'a' && w[2] == 't' && w[3] == 'i' && w[4] == 'n' && w[5] == 'g';
    if MatchesAtCI(s, i, w) {
      assert forall k :: 0 <= k < 6 ==> LowerChar(s[i + k]) == LowerChar(w[k]);
    }
    if RatingLabelAt(s, i) {
      forall k | 0 <= k < 6
        ensures LowerChar(s[i + k]) == LowerChar(w[k])
      {
        assert k == 0 || k == 1 || k == 2 || k == 3 || k == 4 || k == 5;
      }
      assert MatchesAtCI(s, i, w);
    }
  }

  /** A match of `rating\s*[:\-]?\s*(\d{1,3})` (case-insensitive): where it starts,
      where its digit group lies, and the number the digits denote. */
  datatype RatingMatch = RatingMatch(start: nat, digitsFrom: nat, digitsTo: nat, value: nat)

  /** The match of the rating pattern that starts at i, if any. The three parts
      after the label use disjoint character sets, so greedy matching never
      needs to backtrack. */
  function RatingMatchAt(s: string, i: nat): (m: Option<RatingMatch>)
    requires i <= |s|
    ensures m.Some? ==> m.value.start == i <= m.value.digitsTo <= |s|
  {
    if !RatingLabelAt(s, i) then None
    else
      var a := SkipSpaces(s, i + 6);
      var b := if a < |s| && (s[a] == ':' || s[a] == '-') then a + 1 else a;
      var c := SkipSpaces(s, b);
      var d := DigitRunEnd(s, c, 3);
      if d == c then None else Some(RatingMatch(i, c, d, DecimalValue(s[c..d])))
  }

  /** A match is the label, a separator of white space with at most one `:` or `-`,
      and one to three digits whose decimal value is the match's value. */
  lemma RatingMatchAtShape(s: string, i: nat)
    requires i <= |s| && RatingMatchAt(s, i).Some?
    ensures var m := RatingMatchAt(s, i).value;
      && RatingLabelAt(s, i)
      && i + 6 <= m.digitsFrom < m.digitsTo <= |s| && m.digitsTo <= m.digitsFrom + 3
      && AllDigits(s[m.digitsFrom..m.digitsTo])
      && m.value == DecimalValue(s[m.digitsFrom..m.digitsTo])
      && m.value < 1000
      && (forall k :: i + 6 <= k < m.digitsFrom ==> IsSpace(s[k]) || s[k] == ':' || s[k] == '-')
      && (m.digitsTo == |s| || m.digitsTo == m.digitsFrom + 3 || !IsDigit(s[m.digitsTo]))
  {
    var m := RatingMatchAt(s, i).value;
    DecimalBelow(s[m.digitsFrom..m.digitsTo]);
  }

  /** Whether the rating pattern matches at j. */
  function RatingStartsAt(s: string): nat -> bool
  {
    (j: nat) => j <= |s| && RatingMatchAt(s, j).Some?
  }

  /** The leftmost match of the rating pattern (`String.prototype.match`). */
  function FirstRating(s: string): (m: Option<RatingMatch>)
    ensures m.Some? ==> m.value.start <= m.value.digitsTo <= |s|
  {
    match FirstWhere(RatingStartsAt(s), 0, |s|)
    case None => None
    case Some(p) => RatingMatchAt(s, p)
  }

  /** The match found is the leftmost one: no match starts earlier, and there is
      none at all when no match is found. */
  lemma FirstRatingLeftmost(s: string)
    ensures FirstRating(s).Some? ==> RatingMatchAt(s, FirstRating(s).value.start) == FirstRating(s)
    ensures FirstRating(s).Some? ==> forall j :: 0 <= j < FirstRating(s).value.start ==> RatingMatchAt(s, j).None?
    ensures FirstRating(s).None? ==> forall j :: 0 <= j <= |s| ==> RatingMatchAt(s, j).None?
  {
    var f := RatingStartsAt(s);
    var r := FirstWhere(f, 0, |s|);
    if r.Some? {
      assert f(r.value);
      forall j | 0 <= j < r.value
        ensures RatingMatchAt(s, j).None?
      {
        assert !f(j);
      }
    } else {
      forall j | 0 <= j <= |s|
        ensures RatingMatchAt(s, j).None?
      {
        assert !f(j);
      }
    }
  }

  /** The rating of a detail text: the number of the first rating match, kept
      only when it lies in 0..100. */
  function RatingOf(s: string): (r: Option<nat>)
  {
    match FirstRating(s)
    case None => None
    case Some(m) => if m.value <= 100 then Some(m.value) else None
  }

  /** A rating is present exactly when the leftmost rating match denotes a number
      in 0..100, and then it is that number; no text without a match has a rating. */
  lemma RatingOfSpec(s: string)
    ensures RatingOf(s).Some? <==> FirstRating(s).Some? && FirstRating(s).value.value <= 100
    ensures RatingOf(s).Some? ==> RatingOf(s).value == FirstRating(s).value.value <= 100
    ensures (forall i :: 0 <= i <= |s| ==> RatingMatchAt(s, i).None?) ==> RatingOf(s).None?
  {
    FirstRatingLeftmost(s);
  }

  // --------------------------------------------------------------- comment

  /** First index at or after i holding c. */
  function IndexOfFrom(s: string, c: char, i: nat): (j: Option<nat>)
    requires i <= |s|
    ensures j.Some? ==> i <= j.value < |s| && s[j.value] == c
    ensures j.Some? ==> forall k :: i <= k < j.value ==> s[k] != c
    ensures j.None? ==> forall k :: i <= k < |s| ==> s[k] != c
    decreases |s| - i
  {
    if i == |s| then None else if s[i] == c then Some(i) else IndexOfFrom(s, c, i + 1)
  }

  /** `open([^close]+)close` matched at i: the inner text. */
  function PairAt(s: string, i: nat, open: char, close: char): (inner: Option<string>)
    requires i <= |s|
  {
    if i < |s| && s[i] == open then
      match IndexOfFrom(s, close, i + 1)
      case Some(j) => if j > i + 1 then Some(s[i + 1..j]) else None
      case None => None
    else None
  }

  /** The leftmost match of `open([^close]+)close` at or after i. */
  function FirstPairFrom(s: string, open: char, close: char, i: nat): Option<string>
    requires i <= |s|
    decreases |s| - i
  {
    match PairAt(s, i, open, close)
    case Some(x) => Some(x)
    case None => if i == |s| then None else FirstPairFrom(s, open, close, i + 1)
  }

  /** p is where the leftmost pair at or after i starts. */
  predicate LeftmostPair(s: string, open: char, close: char, i: nat, p: nat)
    requires i <= |s|
  {
    && i <= p < |s| && PairAt(s, p, open, close).Some?
    && forall q :: i <= q < p ==> PairAt(s, q, open, close).None?
  }

  /** The pair matcher finds the leftmost pair, and finds none only when no position
      starts a pair. */
  lemma {:induction false} FirstPairFromSpec(s: string, open: char, close: char, i: nat)
    requires i <= |s|
    ensures FirstPairFrom(s, open, close, i).Some? ==>
      exists p :: LeftmostPair(s, open, close, i, p) && FirstPairFrom(s, open, close, i) == PairAt(s, p, open, close)
    ensures FirstPairFrom(s, open, close, i).None? ==> forall p :: i <= p <= |s| ==> PairAt(s, p, open, close).None?
    decreases |s| - i
  {
    if PairAt(s, i, open, close).Some? {
      assert LeftmostPair(s, open, close, i, i);
    } else if i < |s| {
      FirstPairFromSpec(s, open, close, i + 1);
      if FirstPairFrom(s, open, close, i + 1).Some? {
        var p: nat :| LeftmostPair(s, open, close, i + 1, p) && FirstPairFrom(s, open, close, i + 1) == PairAt(s, p, open, close);
        assert LeftmostPair(s, open, close, i, p);
      }
    }
  }

  /** What a pair match says about the text around its inner part. */
  lemma PairAtShape(s: string, p: nat, open: char, close: char)
    requires p <= |s| && PairAt(s, p, open, close).Some?
    ensures var x := PairAt(s, p, open, close).value;
      && x != [] && p + |x| + 1 < |s|
      && s[p] == open && s[p + 1..p + 1 + |x|] == x && s[p + 1 + |x|] == close
      && (forall k :: 0 <= k < |x| ==> x[k] != close)
  {
  }

  /** The first quoting convention (in the order given) that has a pair in s,
      with the inner text trimmed: the `for … break` over the matchers. */
  function QuotedComment(s: string, styles: seq<(char, char)>): Option<string>
  {
    if styles == [] then None
    else
      match FirstPairFrom(s, styles[0].0, styles[0].1, 0)
      case Some(x) => Some(Trim(x))
      case None => QuotedComment(s, styles[1..])
  }

  /** `s.search(/[“"‘']/)`. */
  function FirstOpeningQuote(s: string, i: nat): (q: Option<nat>)
    requires i <= |s|
    ensures q.Some? ==> i <= q.value < |s| && IsOpeningQuote(s[q.value])
    ensures q.Some? ==> forall k :: i <= k < q.value ==> !IsOpeningQuote(s[k])
    ensures q.None? ==> forall k :: i <= k < |s| ==> !IsOpeningQuote(s[k])
    decreases |s| - i
  {
    if i == |s| then None else if IsOpeningQuote(s[i]) then Some(i) else FirstOpeningQuote(s, i + 1)
  }

  /** Removes quotation marks around a text: leading opening marks, trailing closing marks, then trims. */
  function StripQuotes(t: string): string
  {
    Trim(DropTrailing(DropLeading(t, IsOpeningQuote), IsClosingQuote))
  }

  /** The unpaired-quote fallback: the text after the first opening mark, with
      surrounding quotation marks removed. */
  function QuoteTail(s: string): (c: Option<string>)
    ensures c.Some? <==> HasOpeningQuote(s)
  {
    match FirstOpeningQuote(s, 0)
    case None => None
    case Some(q) => Some(StripQuotes(Trim(s[q + 1..])))
  }

  /** Index just after the last line terminator before i (0 when none): where a
      lazy `.*?` that must reach i can start at the earliest. */
  function LineStart(s: string, i: nat): (p: nat)
    requires i <= |s|
    ensures p <= i
    ensures NoLineTerminator(s[p..i])
    ensures p == 0 || IsLineTerminator(s[p - 1])
  {
    if i == 0 || IsLineTerminator(s[i - 1]) then i
    else
      var p := LineStart(s, i - 1);
      assert s[p..i] == s[p..i - 1] + [s[i - 1]];
      p
  }

  /** Removing the pattern `.*?rating\s*[:\-]?\s*\d{1,3}\s*` (case-insensitive) and trimming, when m is the first
      rating match: the leftmost match of the replaced pattern starts at the
      beginning of m's line and ends after the white space that follows m's digits. */
  function AfterRating(s: string, m: RatingMatch): string
    requires m.start <= m.digitsTo <= |s|
  {
    Trim(s[..LineStart(s, m.start)] + s[SkipSpaces(s, m.digitsTo)..])
  }

  /** The positional fallback's clean-up of the text after the rating. */
  function StripRatingTail(after: string): string
  {
    StripQuotes(DropLeading(after, IsLeadPunct))
  }

  /** The first two rules: a quoted pair, else the text after an unpaired
      opening mark. A rule whose result is the empty string lets the next rule run. */
  function QuotedOrTail(s: string): Option<string>
  {
    var c1 := QuotedComment(s, QuoteStyles);
    if !Truthy(c1) && QuoteTail(s).Some? then QuoteTail(s) else c1
  }

  /** The last rule, applied only when the earlier ones gave nothing truthy and a
      rating was read: the text after the rating number. */
  function RatingFallback(s: string, c: Option<string>): Option<string>
  {
    if !Truthy(c) && RatingOf(s).Some? then
      var after := AfterRating(s, FirstRating(s).value);
      if after != [] then Some(StripRatingTail(after)) else c
    else c
  }

  /** The comment of a detail text: a quoted pair first, then the text after an
      unpaired opening mark, then (only when a rating was read) the text after the
      rating number. */
  function CommentOf(s: string): Option<string>
  {
    RatingFallback(s, QuotedOrTail(s))
  }

  /** The loop over the quote matchers: the first convention with a pair gives the
      trimmed inner text, and the loop stops there. */
  method FirstQuoted(s: string, styles: seq<(char, char)>) returns (comment: Option<string>)
    ensures comment == QuotedComment(s, styles)
  {
    comment := None;
    for i := 0 to |styles|
      invariant QuotedComment(s, styles) == QuotedComment(s, styles[i..])
    {
      assert styles[i..][1..] == styles[i + 1..];
      var pair := FirstPairFrom(s, styles[i].0, styles[i].1, 0);
      if pair.Some? {
        comment := Some(Trim(pair.value));
        return;
      }
    }
  }

  /** The extraction of rating and comment from a player's detail text: rating
      first, then the quote matchers, then the two fallbacks. */
  method ExtractDetail(detailText: string) returns (rating: Option<nat>, comment: Option<string>)
    ensures rating == RatingOf(Trim(detailText))
    ensures comment == CommentOf(Trim(detailText))
  {
    var s := Trim(detailText);
    rating := None;
    var m := FirstRating(s);
    if m.Some? && 0 <= m.value.value <= 100 {
      rating := Some(m.value.value);
    }
    comment := FirstQuoted(s, QuoteStyles);
    if !Truthy(comment) {
      var q := FirstOpeningQuote(s, 0);
      if q.Some? {
        comment := Some(StripQuotes(Trim(s[q.value + 1..])));
      }
    }
    assert comment == QuotedOrTail(s);
    ghost var c2 := comment;
    if !Truthy(comment) && rating.Some? {
      var after := AfterRating(s, m.value);
      if after != [] {
        comment := Some(StripRatingTail(after));
      }
    }
    assert comment == RatingFallback(s, c2);
  }

  // ------------------------------------------------------------ properties

  /** A quoted comment is the trimmed inner text of an actual pair of marks of one
      of the four conventions. */
  lemma {:induction false} QuotedCommentIsQuoted(s: string, styles: seq<(char, char)>)
    requires QuotedComment(s, styles).Some?
    ensures exists k, p :: (0 <= k < |styles| && 0 <= p < |s| && s[p] == styles[k].0
      && PairAt(s, p, styles[k].0, styles[k].1).Some?
      && QuotedComment(s, styles).value == Trim(PairAt(s, p, styles[k].0, styles[k].1).value))
  {
    var inner := FirstPairFrom(s, styles[0].0, styles[0].1, 0);
    FirstPairFromSpec(s, styles[0].0, styles[0].1, 0);
    if inner.Some? {
      var p: nat :| LeftmostPair(s, styles[0].0, styles[0].1, 0, p) && PairAt(s, p, styles[0].0, styles[0].1) == inner;
      assert s[p] == styles[0].0;
    } else {
      QuotedCommentIsQuoted(s, styles[1..]);
      var k, p :| 0 <= k < |styles[1..]| && 0 <= p < |s| && s[p] == styles[1..][k].0
        && PairAt(s, p, styles[1..][k].0, styles[1..][k].1).Some?
        && QuotedComment(s, styles[1..]).value == Trim(PairAt(s, p, styles[1..][k].0, styles[1..][k].1).value);
      assert styles[1..][k] == styles[k + 1];
    }
  }

  /** A quoted comment is only found where a quotation mark opens, for any list of
      conventions whose opening marks are quotation marks. */
  lemma {:induction false} QuotedCommentOpens(s: string, styles: seq<(char, char)>)
    requires forall k :: 0 <= k < |styles| ==> IsOpeningQuote(styles[k].0)
    ensures QuotedComment(s, styles).Some? ==> HasOpeningQuote(s)
  {
    if styles != [] {
      var inner := FirstPairFrom(s, styles[0].0, styles[0].1, 0);
      FirstPairFromSpec(s, styles[0].0, styles[0].1, 0);
      if inner.Some? {
        var p: nat :| LeftmostPair(s, styles[0].0, styles[0].1, 0, p) && PairAt(s, p, styles[0].0, styles[0].1) == inner;
        assert IsOpeningQuote(s[p]);
      } else {
        QuotedCommentOpens(s, styles[1..]);
      }
    }
  }

  lemma QuotedCommentHasQuote(s: string)
    ensures QuotedComment(s, QuoteStyles).Some? ==> HasOpeningQuote(s)
  {
    QuotedCommentOpens(s, QuoteStyles);
  }

  /** A comment is produced exactly when the text holds an opening quotation mark,
      or a rating was read and some text remains once the rating is cut out. */
  lemma CommentPresentIff(s: string)
    ensures CommentOf(s).Some? <==>
      HasOpeningQuote(s) || (RatingOf(s).Some? && AfterRating(s, FirstRating(s).value) != [])
  {
    QuotedCommentHasQuote(s);
  }

  /** Without any quotation mark the comment can only come from the text after the
      rating; without a rating as well there is no comment. */
  lemma NoQuoteComment(s: string)
    requires !HasOpeningQuote(s)
    ensures RatingOf(s).None? ==> CommentOf(s).None?
    ensures RatingOf(s).Some? ==>
      var after := AfterRating(s, FirstRating(s).value);
      CommentOf(s) == if after != [] then Some(StripRatingTail(after)) else None
  {
    QuotedCommentHasQuote(s);
  }

  /** A quoted pair with non-blank inner text wins over both fallbacks, whatever
      the rating: exact quotation is preferred over positional extraction. */
  lemma QuotedPairWins(s: string)
    requires Truthy(QuotedComment(s, QuoteStyles))
    ensures CommentOf(s) == QuotedComment(s, QuoteStyles)
  {
  }

  // --------------------------------------------------- the two documented layouts

  /** `Rating: <n> "<text>"`: the rating is n and the comment is the quoted text. */
  lemma RatedQuote(s: string, n: nat, text: string)
    requires s == "Rating: " + NatToString(n) + " \"" + text + "\""
    requires n <= 100
    requires text != [] && Trim(text) == text
    requires Lacks(text, '"') && Lacks(text, LeftDoubleQuote)
    ensures RatingOf(s) == Some(n) && CommentOf(s) == Some(text)
  {
    RatedQuoteRating(n, text);
    RatedQuoteComment(n, text);
    QuotedPairWins(s);
  }

  lemma RatedQuoteRating(n: nat, text: string)
    requires n <= 100
    ensures RatingOf("Rating: " + NatToString(n) + " \"" + text + "\"") == Some(n)
  {
    var d := NatToString(n);
    RatedPrefix(n, "Rating: ", 8, " \"" + text + "\"");
    assert "Rating: " + d + " \"" + text + "\"" == "Rating: " + d + (" \"" + text + "\"");
  }

  lemma RatedQuoteComment(n: nat, text: string)
    requires text != [] && Trim(text) == text
    requires Lacks(text, '"') && Lacks(text, LeftDoubleQuote)
    ensures QuotedComment("Rating: " + NatToString(n) + " \"" + text + "\"", QuoteStyles) == Some(text)
  {
    var d := NatToString(n);
    var pre := "Rating: " + d + " ";
    NoQuoteInDigits(d);
    LacksConcat("Rating: ", d, '"');
    LacksConcat("Rating: " + d, " ", '"');
    LacksConcat("Rating: ", d, LeftDoubleQuote);
    LacksConcat("Rating: " + d, " ", LeftDoubleQuote);
    QuotedAfter(pre, text);
    assert "Rating: " + d + " \"" + text + "\"" == pre + ['"'] + text + ['"'];
  }

  /** The rating part of both layouts: the label, a separator, then the digits of n
      followed by a non-digit. */
  lemma RatedPrefix(n: nat, head: string, from: nat, rest: string)
    requires n <= 100
    requires |head| == from && (from == 7 || from == 8) && RatingLabelAt(head, 0)
    requires from == 7 ==> IsSpace(head[6])
    requires from == 8 ==> head[6] == ':' && IsSpace(head[7])
    requires rest != [] && !IsDigit(rest[0])
    ensures var s := head + NatToString(n) + rest;
      RatingOf(s) == Some(n) && FirstRating(s) == Some(RatingMatch(0, from, from + |NatToString(n)|, n))
  {
    var d := NatToString(n);
    var s := head + d + rest;
    NatToStringSmall(n);
    assert s[from..from + |d|] == d;
    assert s[from + |d|] == rest[0];
    assert s[..from] == head;
    DecimalOfNatToString(n);
    RatingAtStart(s, from, d);
  }

  /** c does not occur in s. */
  predicate Lacks(s: string, c: char)
  {
    forall k :: 0 <= k < |s| ==> s[k] != c
  }

  lemma LacksConcat(a: string, b: string, c: char)
    ensures Lacks(a + b, c) <==> Lacks(a, c) && Lacks(b, c)
  {
    if Lacks(a, c) && Lacks(b, c) {
      forall k | 0 <= k < |a + b| ensures (a + b)[k] != c {
        if k >= |a| {
          assert (a + b)[k] == b[k - |a|];
        }
      }
    }
    if Lacks(a + b, c) {
      assert forall k :: 0 <= k < |a| ==> (a + b)[k] == a[k];
      assert forall k :: 0 <= k < |b| ==> (a + b)[|a| + k] == b[k];
    }
  }

  lemma NoQuoteInDigits(d: string)
    requires AllDigits(d)
    ensures Lacks(d, '"') && Lacks(d, LeftDoubleQuote) && !HasOpeningQuote(d)
  {
  }

  /** With the curly double quote absent and the last straight double quotation
      spanning `text`, the quote matchers give the trimmed text. */
  lemma QuotedAfter(pre: string, text: string)
    requires text != [] && Trim(text) == text
    requires Lacks(pre, '"') && Lacks(pre, LeftDoubleQuote)
    requires Lacks(text, '"') && Lacks(text, LeftDoubleQuote)
    ensures QuotedComment(pre + ['"'] + text + ['"'], QuoteStyles) == Some(text)
  {
    var s := pre + ['"'] + text + ['"'];
    var p := |pre|;
    LacksConcat(pre, ['"'], LeftDoubleQuote);
    LacksConcat(pre + ['"'], text, LeftDoubleQuote);
    LacksConcat(pre + ['"'] + text, ['"'], LeftDoubleQuote);
    FirstPairFromAbsent(s, LeftDoubleQuote, RightDoubleQuote, 0);
    assert forall k :: p + 1 <= k < |s| - 1 ==> s[k] == text[k - p - 1];
    IndexOfFromAt(s, '"', p + 1, |s| - 1);
    assert s[p + 1..|s| - 1] == text;
    assert forall k :: 0 <= k < p ==> s[k] == pre[k];
    FirstPairFromAt(s, '"', '"', 0, p);
    QuotedCommentFirstTwo(s);
  }

  /** The matcher list starts with the curly and the straight double quotes. */
  lemma QuotedCommentFirstTwo(s: string)
    ensures FirstPairFrom(s, LeftDoubleQuote, RightDoubleQuote, 0).None? && FirstPairFrom(s, '"', '"', 0).Some? ==>
      QuotedComment(s, QuoteStyles) == Some(Trim(FirstPairFrom(s, '"', '"', 0).value))
  {
    assert QuoteStyles[0] == (LeftDoubleQuote, RightDoubleQuote);
    assert QuoteStyles[1..][0] == ('"', '"');
  }

  /** `Rating <n> - <text>` without quotation marks: the rating is n and the comment
      is the text after the dash, found by the positional fallback. */
  lemma RatedDash(s: string, n: nat, text: string)
    requires s == "Rating " + NatToString(n) + " - " + text
    requires n <= 100
    requires text != [] && !HasOpeningQuote(text)
    requires !IsLeadPunct(text[0]) && !IsSpace(text[|text| - 1]) && !IsClosingQuote(text[|text| - 1])
    ensures RatingOf(s) == Some(n) && CommentOf(s) == Some(text)
  {
    var d := NatToString(n);
    RatedDashRating(n, text);
    var m := RatingMatch(0, 7, 7 + |d|, n);
    RatedDashAfter(s, d, text, m);
    RatedDashNoQuote(s, d, text);
    StripDash(text);
    PositionalComment(s, m, text);
  }

  /** Without quotation marks, a rating match whose cut leaves "- " and a text gives
      the comment that text. */
  lemma PositionalComment(s: string, m: RatingMatch, text: string)
    requires !HasOpeningQuote(s) && FirstRating(s) == Some(m) && m.value <= 100
    requires m.start <= m.digitsTo <= |s| && AfterRating(s, m) == "- " + text
    requires StripRatingTail("- " + text) == text
    ensures CommentOf(s) == Some(text)
  {
    NoQuoteComment(s);
  }

  lemma RatedDashRating(n: nat, text: string)
    requires n <= 100 && text != []
    ensures var s := "Rating " + NatToString(n) + " - " + text;
      RatingOf(s) == Some(n) && FirstRating(s) == Some(RatingMatch(0, 7, 7 + |NatToString(n)|, n))
  {
    var d := NatToString(n);
    RatedPrefix(n, "Rating ", 7, " - " + text);
    assert "Rating " + d + " - " + text == "Rating " + d + (" - " + text);
  }

  /** Cutting the rating out of the dash layout leaves the dash and the text. */
  lemma RatedDashAfter(s: string, d: string, text: string, m: RatingMatch)
    requires s == "Rating " + d + " - " + text && text != [] && !IsSpace(text[|text| - 1])
    requires m.start == 0 && m.digitsTo == 7 + |d|
    ensures AfterRating(s, m) == "- " + text
  {
    SkipSpacesAt(s, 7 + |d|, 8 + |d|);
    assert s[8 + |d|..] == "- " + text;
    assert s[..LineStart(s, 0)] == [];
    TrimUnchanged("- " + text);
  }

  lemma RatedDashNoQuote(s: string, d: string, text: string)
    requires s == "Rating " + d + " - " + text && AllDigits(d) && !HasOpeningQuote(text)
    ensures !HasOpeningQuote(s)
  {
    NoQuoteInDigits(d);
    HasOpeningQuoteConcat("Rating ", d);
    HasOpeningQuoteConcat("Rating " + d, " - ");
    HasOpeningQuoteConcat("Rating " + d + " - ", text);
  }

  lemma HasOpeningQuoteConcat(a: string, b: string)
    ensures HasOpeningQuote(a + b) <==> HasOpeningQuote(a) || HasOpeningQuote(b)
  {
    if HasOpeningQuote(a + b) {
      var k :| 0 <= k < |a + b| && IsOpeningQuote((a + b)[k]);
      if k >= |a| {
        assert b[k - |a|] == (a + b)[k];
      } else {
        assert a[k] == (a + b)[k];
      }
    }
    if HasOpeningQuote(b) {
      var k :| 0 <= k < |b| && IsOpeningQuote(b[k]);
      assert (a + b)[|a| + k] == b[k];
    }
    if HasOpeningQuote(a) {
      var k :| 0 <= k < |a| && IsOpeningQuote(a[k]);
      assert (a + b)[k] == a[k];
    }
  }

  /** The clean-up of the positional fallback removes the dash and the blank after it. */
  lemma StripDash(text: string)
    requires text != [] && !HasOpeningQuote(text)
    requires !IsLeadPunct(text[0]) && !IsSpace(text[|text| - 1]) && !IsClosingQuote(text[|text| - 1])
    ensures StripRatingTail("- " + text) == text
  {
    DropLeadingPrefix("- ", text, IsLeadPunct);
    assert DropLeading(text, IsLeadPunct) == text;
    assert !IsOpeningQuote(text[0]);
    assert DropLeading(text, IsOpeningQuote) == text;
    assert DropTrailing(text, IsClosingQuote) == text;
    assert !IsSpace(text[0]);
    TrimUnchanged(text);
  }

  /** The first example of the documented layouts. */
  lemma RatedQuoteExample(s: string, t: string)
    requires t == "Elite athleticism"
    requires s == "Rating: 92 \"" + t + "\""
    ensures RatingOf(s) == Some(92) && CommentOf(s) == Some(t)
  {
    TrimUnchanged(t);
    assert Lacks(t, '"') && Lacks(t, LeftDoubleQuote);
    assert NatToString(92) == "92";
    assert s == "Rating: " + NatToString(92) + " \"" + t + "\"";
    RatedQuote(s, 92, t);
  }

  /** The second example of the documented layouts. */
  lemma RatedDashExample(s: string, t: string)
    requires t == "high floor, great motor"
    requires s == "Rating 85 - " + t
    ensures RatingOf(s) == Some(85) && CommentOf(s) == Some(t)
  {
    assert !HasOpeningQuote(t);
    assert NatToString(85) == "85";
    assert s == "Rating " + NatToString(85) + " - " + t;
    RatedDash(s, 85, t);
  }

  /** A rating text that starts with the label followed by the digits d at position
      `from`, separated by white space and at most one `:`, is matched at 0. */
  lemma RatingAtStart(s: string, from: nat, d: string)
    requires 1 <= |d| <= 3 && AllDigits(d)
    requires 6 <= from && from + |d| < |s| && s[from..from + |d|] == d && !IsDigit(s[from + |d|])
    requires RatingLabelAt(s, 0)
    requires from == 7 ==> IsSpace(s[6])
    requires from == 8 ==> s[6] == ':' && IsSpace(s[7])
    requires from == 7 || from == 8
    ensures RatingMatchAt(s, 0) == Some(RatingMatch(0, from, from + |d|, DecimalValue(d)))
    ensures FirstRating(s) == RatingMatchAt(s, 0)
  {
    RatingMatchAtStart(s, from, d);
    FirstRatingAtZero(s);
  }

  /** A match at the very start is the leftmost one. */
  lemma FirstRatingAtZero(s: string)
    requires RatingMatchAt(s, 0).Some?
    ensures FirstRating(s) == RatingMatchAt(s, 0)
  {
    assert RatingStartsAt(s)(0);
    assert FirstWhere(RatingStartsAt(s), 0, |s|) == Some(0);
  }

  lemma RatingMatchAtStart(s: string, from: nat, d: string)
    requires 1 <= |d| <= 3 && AllDigits(d)
    requires 6 <= from && from + |d| < |s| && s[from..from + |d|] == d && !IsDigit(s[from + |d|])
    requires RatingLabelAt(s, 0)
    requires from == 7 ==> IsSpace(s[6])
    requires from == 8 ==> s[6] == ':' && IsSpace(s[7])
    requires from == 7 || from == 8
    ensures RatingMatchAt(s, 0) == Some(RatingMatch(0, from, from + |d|, DecimalValue(d)))
  {
    assert s[from] == d[0];
    assert IsDigit(s[from]) && !IsSpace(s[from]);
    if from == 7 {
      SkipSpacesAt(s, 6, 7);
    } else {
      SkipSpacesAt(s, 6, 6);
      SkipSpacesAt(s, 7, 8);
    }
    forall k | from <= k < from + |d| ensures IsDigit(s[k]) {
      assert s[k] == d[k - from];
    }
    DigitRunEndAt(s, from, 3, from + |d|);
  }

  /** The first occurrence of c at or after i is at j. */
  lemma {:induction false} IndexOfFromAt(s: string, c: char, i: nat, j: nat)
    requires i <= j < |s| && s[j] == c
    requires forall k :: i <= k < j ==> s[k] != c
    ensures IndexOfFrom(s, c, i) == Some(j)
    decreases j - i
  {
    if i < j {
      IndexOfFromAt(s, c, i + 1, j);
    }
  }

  /** Without its opening mark in s[i..], a pair matcher finds nothing. */
  lemma {:induction false} FirstPairFromAbsent(s: string, open: char, close: char, i: nat)
    requires i <= |s|
    requires Lacks(s, open)
    ensures FirstPairFrom(s, open, close, i).None?
    decreases |s| - i
  {
    if i < |s| {
      FirstPairFromAbsent(s, open, close, i + 1);
    }
  }

  /** The first opening mark at or after i decides the pair matcher when a pair
      starts there. */
  lemma {:induction false} FirstPairFromAt(s: string, open: char, close: char, i: nat, p: nat)
    requires i <= p < |s| && PairAt(s, p, open, close).Some?
    requires forall k :: i <= k < p ==> s[k] != open
    ensures FirstPairFrom(s, open, close, i) == PairAt(s, p, open, close)
    decreases p - i
  {
    if i < p {
      FirstPairFromSkip(s, open, close, i);
      FirstPairFromAt(s, open, close, i + 1, p);
    } else {
      FirstPairFromHere(s, open, close, i);
    }
  }

  /** A pair that starts at i is the one found from i. */
  lemma FirstPairFromHere(s: string, open: char, close: char, i: nat)
    requires i < |s| && PairAt(s, i, open, close).Some?
    ensures FirstPairFrom(s, open, close, i) == PairAt(s, i, open, close)
  {
  }

  /** A position without the opening mark is passed over. */
  lemma FirstPairFromSkip(s: string, open: char, close: char, i: nat)
    requires i < |s| && s[i] != open
    ensures FirstPairFrom(s, open, close, i) == FirstPairFrom(s, open, close, i + 1)
  {
    assert PairAt(s, i, open, close) == None;
  }
}
