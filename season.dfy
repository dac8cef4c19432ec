// The season key under which a scraped page's values are stored: the class year found in
// the page URL, or else the last segment of the URL's path, or else "ranking". Parsing the
// URL is left to the caller, which passes the path (None when the URL does not parse).
module Season {
  import opened Wrappers
  import opened Text

  /** `20\d{2}` at position i. */
  predicate YearAt(s: string, i: nat)
  {
    i + 4 <= |s| && s[i] == '2' && s[i + 1] == '0' && IsDigit(s[i + 2]) && IsDigit(s[i + 3])
  }

  function YearStarts(s: string): nat -> bool
  {
    (i: nat) => YearAt(s, i)
  }

  /** `extractClassYearFromUrl`: the leftmost `20dd` of the URL, kept when in 2000..2100. */
  function ClassYear(url: string): Option<nat>
  {
    match FirstWhere(YearStarts(url), 0, |url|)
    case None => None
    case Some(i) =>
      var yr := DecimalValue(url[i..i + 4]);
      if 2000 <= yr <= 2100 then Some(yr) else None
  }

  /** Everything after the last `/` (all of s when it has none): `split("/").pop()`. */
  function LastSegment(s: string): (seg: string)
    ensures |seg| <= |s| && seg == s[|s| - |seg|..]
    ensures forall k :: 0 <= k < |seg| ==> seg[k] != '/'
    ensures |seg| < |s| ==> s[|s| - |seg| - 1] == '/'
  {
    if s == [] then []
    else if s[|s| - 1] == '/' then []
    else LastSegment(s[..|s| - 1]) + [s[|s| - 1]]
  }

  /** `seasonKeyFromUrl`, the path being None when `new URL` throws. */
  function SeasonKey(url: string, pathname: Option<string>): (key: string)
    ensures key != [] && forall k :: 0 <= k < |key| ==> key[k] != '/'
  {
    match ClassYear(url)
    case Some(yr) => NatToString(yr)
    case None =>
      match pathname
      case None => "ranking"
      case Some(p) =>
        var seg := LastSegment(DropTrailingSlash(p));
        if seg == [] then "ranking" else seg
  }

  // ------------------------------------------------------------------ properties

  /** A class year is the leftmost `20dd` of the URL, read as a number; it always lies in
      2000..2099, so the 2100 bound never rejects one. */
  lemma ClassYearFound(url: string) returns (i: nat)
    requires exists i :: 0 <= i <= |url| && YearAt(url, i)
    ensures YearAt(url, i) && forall j :: 0 <= j < i ==> !YearAt(url, j)
    ensures ClassYear(url) == Some(DecimalValue(url[i..i + 4]))
    ensures 2000 <= ClassYear(url).value <= 2099
  {
    var i0 :| 0 <= i0 <= |url| && YearAt(url, i0);
    assert YearStarts(url)(i0);
    i := FirstWhere(YearStarts(url), 0, |url|).value;
    assert YearStarts(url)(i);
    forall j | 0 <= j < i ensures !YearAt(url, j) {
      assert !YearStarts(url)(j);
    }
    DecimalOfFour(url[i..i + 4]);
  }

  /** There is no class year exactly when the URL holds no `20dd`. */
  lemma ClassYearAbsent(url: string)
    ensures ClassYear(url).None? <==> forall i :: 0 <= i <= |url| ==> !YearAt(url, i)
  {
    if FirstWhere(YearStarts(url), 0, |url|).None? {
      forall i | 0 <= i <= |url| ensures !YearAt(url, i) {
        assert !YearStarts(url)(i);
      }
    } else {
      var i := ClassYearFound(url);
    }
  }

  /** The value of a four-digit year `20dd`. */
  lemma DecimalOfFour(w: string)
    requires |w| == 4 && w[0] == '2' && w[1] == '0' && IsDigit(w[2]) && IsDigit(w[3])
    ensures DecimalValue(w) == 2000 + 10 * DigitValue(w[2]) + DigitValue(w[3])
  {
    assert w[..3][..2] == w[..2] && w[..2][..1] == w[..1] && w[..1][..0] == [];
    assert DecimalValue(w[..1]) == 2;
    assert DecimalValue(w[..2]) == 20;
    assert DecimalValue(w[..3]) == 200 + DigitValue(w[2]);
  }

  /** With a class year, the key is its decimal text, which reads back as the year. */
  lemma SeasonKeyYear(url: string, pathname: Option<string>)
    requires ClassYear(url).Some?
    ensures SeasonKey(url, pathname) == NatToString(ClassYear(url).value)
    ensures DecimalValue(SeasonKey(url, pathname)) == ClassYear(url).value
  {
    DecimalOfNatToString(ClassYear(url).value);
  }

  /** Without a class year, a path `.../seg` or `.../seg/` gives the key seg. */
  lemma SeasonKeyFromPath(url: string, pre: string, seg: string, slash: bool)
    requires ClassYear(url).None?
    requires seg != [] && forall k :: 0 <= k < |seg| ==> seg[k] != '/'
    ensures SeasonKey(url, Some(pre + "/" + seg + (if slash then "/" else ""))) == seg
  {
    var p := pre + "/" + seg;
    var path := p + (if slash then "/" else "");
    if slash {
      assert DropTrailingSlash(path) == p;
    } else {
      assert path == p;
      assert seg[|seg| - 1] != '/';
      assert DropTrailingSlash(path) == p;
    }
    SegmentAfterSlash(pre, seg);
  }

  /** Without a class year, a path that ends in `//`, is `/` or is empty gives "ranking",
      and so does a URL that does not parse. */
  lemma SeasonKeyDefault(url: string, pre: string)
    requires ClassYear(url).None?
    ensures SeasonKey(url, Some(pre + "//")) == "ranking"
    ensures SeasonKey(url, Some("/")) == "ranking" && SeasonKey(url, Some("")) == "ranking"
    ensures SeasonKey(url, None) == "ranking"
  {
    assert DropTrailingSlash(pre + "//") == pre + "/";
    assert DropTrailingSlash("/") == [];
  }

  /** The last segment of `pre/seg` is seg when seg holds no `/`. */
  lemma {:induction false} SegmentAfterSlash(pre: string, seg: string)
    requires forall k :: 0 <= k < |seg| ==> seg[k] != '/'
    ensures LastSegment(pre + "/" + seg) == seg
    decreases |seg|
  {
    var s := pre + "/" + seg;
    if seg != [] {
      var init := seg[..|seg| - 1];
      assert s[..|s| - 1] == pre + "/" + init;
      SegmentAfterSlash(pre, init);
      assert init + [seg[|seg| - 1]] == seg;
    }
  }
}
