// The public URL of a stored image, as the client builds it from the storage path: the
// configured public prefix and the path joined with a single `/`.
module ImageUrl {
  import opened Wrappers
  import opened Text

  /** `imageUrlFromPath(path)` under the public prefix `prefix` ("" when not configured). */
  function ImageUrlFromPath(prefix: string, path: Option<string>): (url: Option<string>)
    ensures url.None? <==> !Truthy(path)
  {
    if !Truthy(path) then None
    else if prefix == [] then path
    else Some(DropTrailingSlash(prefix) + "/" + DropLeadingSlash(path.value))
  }

  /** Without a prefix the path comes back unchanged; with one, the URL is the prefix less
      one trailing `/`, a `/`, and the path less one leading `/`. */
  lemma ImageUrlShape(prefix: string, path: string)
    requires path != []
    ensures prefix == [] ==> ImageUrlFromPath(prefix, Some(path)) == Some(path)
    ensures prefix != [] ==>
      var url := ImageUrlFromPath(prefix, Some(path)).value;
      && StartsWith(url, DropTrailingSlash(prefix) + "/")
      && EndsWith(url, DropLeadingSlash(path))
      && |url| == |DropTrailingSlash(prefix)| + 1 + |DropLeadingSlash(path)|
  {
    if prefix != [] {
      var a := DropTrailingSlash(prefix) + "/";
      var b := DropLeadingSlash(path);
      var url := a + b;
      assert url[..|a|] == a;
      assert url[|url| - |b|..] == b;
    }
  }

  /** A prefix ending in exactly one `/` and a path starting with exactly one `/` meet in a
      single `/`: the URL is prefix + path less one `/`, with no `//` at the seam. */
  lemma ImageUrlSeam(prefix: string, path: string)
    requires |prefix| >= 2 && prefix[|prefix| - 1] == '/' && prefix[|prefix| - 2] != '/'
    requires |path| >= 2 && path[0] == '/' && path[1] != '/'
    ensures ImageUrlFromPath(prefix, Some(path)) == Some(prefix + path[1..])
    ensures
      var url := prefix + path[1..];
      var seam := |prefix| - 1;
      url[seam] == '/' && url[seam - 1] != '/' && url[seam + 1] != '/'
  {
    assert DropTrailingSlash(prefix) + "/" == prefix;
  }
}
