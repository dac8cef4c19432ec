// Image assets: the file extension inferred from a download's content type, and the
// upload-if-absent protocol against the storage bucket. The bucket is an external service;
// it is modelled as the set of object paths it holds, which each operation takes and returns.
module Assets {
  import opened Wrappers
  import opened Text

  // ------------------------------------------------------------------ content types

  /** `header || fallback`. */
  function HeaderOr(header: Option<string>, fallback: string): (ct: string)
    ensures Truthy(header) ==> ct == header.value
    ensures !Truthy(header) ==> ct == fallback
  {
    if Truthy(header) then header.value else fallback
  }

  /** `bufferFromUrl`'s extension: the first of png, jpeg or jpg, webp that the content type
      mentions, with "" for anything else. */
  function ExtOf(contentType: string): string
  {
    if Contains(contentType, "png") then ".png"
    else if Contains(contentType, "jpeg") || Contains(contentType, "jpg") then ".jpg"
    else if Contains(contentType, "webp") then ".webp"
    else ""
  }

  /** The content type of a download that sent no header. */
  function OctetStream(): string
  {
    "application/octet-stream"
  }

  /** The extension of a download, a missing header counting as `application/octet-stream`. */
  function DownloadExt(header: Option<string>): string
  {
    ExtOf(HeaderOr(header, OctetStream()))
  }

  /** The extension is one of four, chosen by precedence: png over jpeg/jpg over webp. */
  lemma ExtOfSpec(ct: string)
    ensures ExtOf(ct) in {".png", ".jpg", ".webp", ""}
    ensures ExtOf(ct) == ".png" <==> Contains(ct, "png")
    ensures ExtOf(ct) == ".jpg" <==> !Contains(ct, "png") && (Contains(ct, "jpeg") || Contains(ct, "jpg"))
    ensures ExtOf(ct) == ".webp" <==>
      !Contains(ct, "png") && !Contains(ct, "jpeg") && !Contains(ct, "jpg") && Contains(ct, "webp")
    ensures ExtOf(ct) == "" <==>
      !Contains(ct, "png") && !Contains(ct, "jpeg") && !Contains(ct, "jpg") && !Contains(ct, "webp")
  {
  }

  /** No position from i on holds the two characters a, b in a row; computed position by
      position, so that it can be evaluated on a literal. */
  function NoPair(s: string, a: char, b: char, i: nat): bool
    decreases |s| - i
  {
    i + 1 >= |s| || (!(s[i] == a && s[i + 1] == b) && NoPair(s, a, b, i + 1))
  }

  /** A pattern whose first two characters never occur together does not occur. */
  lemma {:induction false} NoPairNotContains(s: string, t: string, i: nat)
    requires |t| >= 2 && NoPair(s, t[0], t[1], i)
    ensures forall j :: i <= j <= |s| ==> !OccursAt(s, j, t)
    decreases |s| - i
  {
    if i + 1 < |s| {
      NoPairNotContains(s, t, i + 1);
      if i + |t| <= |s| {
        assert s[i..i + |t|][0] == s[i] && s[i..i + |t|][1] == s[i + 1];
      }
    } else {
      forall j | i <= j <= |s| ensures !OccursAt(s, j, t) {
        assert j + |t| > |s|;
      }
    }
  }

  /** `image/png`, `image/jpeg` and `image/webp` give their own extensions. */
  lemma ExtOfImageTypes()
    ensures ExtOf("image/png") == ".png" && ExtOf("image/jpeg") == ".jpg" && ExtOf("image/webp") == ".webp"
  {
    assert OccursAt("image/png", 6, "png");
    assert OccursAt("image/jpeg", 6, "jpeg");
    assert OccursAt("image/webp", 6, "webp");
    assert NoPair("image/jpeg", 'p', 'n', 0) && NoPair("image/webp", 'p', 'n', 0);
    assert NoPair("image/webp", 'j', 'p', 0) && NoPair("image/webp", 'j', 'p', 0);
    NoPairNotContains("image/jpeg", "png", 0);
    NoPairNotContains("image/webp", "png", 0);
    NoPairNotContains("image/webp", "jpeg", 0);
    NoPairNotContains("image/webp", "jpg", 0);
  }

  /** A download with no content type gets no extension. */
  lemma OctetStreamNoExt()
    ensures DownloadExt(None) == ""
  {
    OctetStreamLacks("png");
    OctetStreamLacks("jpeg");
    OctetStreamLacks("jpg");
    OctetStreamLacks("webp");
  }

  lemma OctetStreamLacks(t: string)
    requires t in {"png", "jpeg", "jpg", "webp"}
    ensures !Contains(OctetStream(), t)
  {
    var s := OctetStream();
    assert t[0] in {'p', 'j', 'w'};
    OctetStreamNoPair(t[0], t[1]);
    NoPairNotContains(s, t, 0);
  }

  /** Neither `pn`, `jp` nor `we` occurs in `application/octet-stream`. */
  lemma OctetStreamNoPair(a: char, b: char)
    requires (a, b) in {('p', 'n'), ('j', 'p'), ('w', 'e')}
    ensures NoPair(OctetStream(), a, b, 0)
  {
    var s := OctetStream();
    assert NoPair(s, a, b, 16);
    assert NoPair(s, a, b, 8);
  }

  // ------------------------------------------------------------------ file names per asset

  /** The extension a player image is stored under: `ext || ".jpg"`. */
  function PlayerImageExt(ext: string): string
  {
    if ext == "" then ".jpg" else ext
  }

  /** The content type a player image is uploaded with. */
  function PlayerImageType(ext: string): string
  {
    if ext == ".png" then "image/png" else if ext == ".webp" then "image/webp" else "image/jpeg"
  }

  /** The extension a college logo found beside a player is stored under: `ext || ".png"`. */
  function LogoExt(ext: string): string
  {
    if ext == "" then ".png" else ext
  }

  /** The content type a college logo found beside a player is uploaded with. */
  function LogoType(ext: string): string
  {
    if ext == ".jpg" || ext == ".jpeg" then "image/jpeg"
    else if ext == ".webp" then "image/webp"
    else "image/png"
  }

  /** `ensureCollegeId`'s own extension rule: png, else webp, else `.jpg`. */
  function CollegeExt(contentType: string): (ext: string)
    ensures ext in {".png", ".webp", ".jpg"}
  {
    if Contains(contentType, "png") then ".png"
    else if Contains(contentType, "webp") then ".webp"
    else ".jpg"
  }

  /** For every download, the content type an image or logo is uploaded with names the very
      extension its file is stored under. */
  lemma UploadTypeMatchesExt(ct: string)
    ensures ExtOf(PlayerImageType(ExtOf(ct))) == PlayerImageExt(ExtOf(ct))
    ensures ExtOf(LogoType(ExtOf(ct))) == LogoExt(ExtOf(ct))
  {
    ExtOfImageTypes();
  }

  /** The college rule agrees with `bufferFromUrl`'s on png and webp. A type naming none of
      png, jpeg, jpg and webp gets `.jpg` instead of "". A type naming jpeg or jpg and also
      webp gets `.webp` from the college rule, which tests webp first, where `bufferFromUrl`'s
      gives `.jpg`. */
  lemma CollegeExtAgrees(ct: string)
    ensures ExtOf(ct) in {".png", ".webp"} ==> CollegeExt(ct) == ExtOf(ct)
    ensures ExtOf(ct) == "" ==> CollegeExt(ct) == ".jpg"
    ensures ExtOf(ct) == ".jpg" ==> CollegeExt(ct) == (if Contains(ct, "webp") then ".webp" else ".jpg")
  {
  }

  // ------------------------------------------------------------------ storage

  /** `path.posix.join(dir, name)` for a directory and a file name without `/`. */
  function StoragePath(dir: string, name: string): string
  {
    dir + "/" + name
  }

  /** The names the bucket lists in `dir` for the search `search`: entries directly under dir
      whose name contains the search text. */
  function Listing(objects: set<string>, dir: string, search: string): set<string>
  {
    set p | p in objects && StartsWith(p, dir + "/") && Contains(p[|dir| + 1..], search)
      :: p[|dir| + 1..]
  }

  /** Looking for the exact name in the search listing of its directory finds it exactly when
      the object is stored. */
  lemma ListingFindsExactly(objects: set<string>, dir: string, name: string)
    ensures name in Listing(objects, dir, name) <==> StoragePath(dir, name) in objects
  {
    var p := StoragePath(dir, name);
    assert p[|dir| + 1..] == name;
    assert StartsWith(p, dir + "/");
    assert OccursAt(name, 0, name);
    if name in Listing(objects, dir, name) {
      var q :| q in objects && StartsWith(q, dir + "/") && Contains(q[|dir| + 1..], name)
        && q[|dir| + 1..] == name;
      assert q == q[..|dir| + 1] + q[|dir| + 1..];
      assert q == p;
    }
  }

  datatype Stored = Stored(path: string, alreadyExisted: bool)

  /** A storage call's outcome and the bucket's contents after it. */
  datatype Put = Put(result: Result<Stored, string>, objects: set<string>)

  /** A storage call stored nothing when it failed, and otherwise left the bucket holding
      exactly what it held before and the returned path, which lies under dir. */
  predicate StoresUnder(objects: set<string>, put: Put, dir: string)
  {
    && (put.result.Err? ==> put.objects == objects)
    && (put.result.Ok? ==>
          put.objects == objects + {put.result.value.path} && StartsWith(put.result.value.path, dir + "/"))
  }

  /** `uploadIfNeeded(bucket, join(dir, name), …)`. The directory listing is searched for the
      exact name (listFails: the listing call returned no data); when found, nothing is
      uploaded. Otherwise the upload, which refuses to overwrite, stores the object unless it
      fails (uploadFails) or the object is there after all, and the thrown error is the result.
      The storage service is taken to report back the path it was given. */
  function UploadIfNeeded(objects: set<string>, dir: string, name: string, listFails: bool,
                          uploadFails: bool): (put: Put)
    ensures StoresUnder(objects, put, dir)
    ensures put.result.Ok? ==> put.result.value.path == StoragePath(dir, name)
  {
    var path := StoragePath(dir, name);
    ListingFindsExactly(objects, dir, name);
    assert path[..|dir| + 1] == dir + "/";
    if !listFails && name in Listing(objects, dir, name) then
      Put(Ok(Stored(path, true)), objects)
    else if uploadFails || path in objects then
      Put(Err("upload failed"), objects)
    else
      Put(Ok(Stored(path, false)), objects + {path})
  }

  /** A plain upload that refuses to overwrite (`upsert: false`). */
  function Upload(objects: set<string>, path: string, fails: bool): (put: Put)
    ensures put.result.Ok? <==> !fails && path !in objects
    ensures put.objects == if put.result.Ok? then objects + {path} else objects
  {
    if fails || path in objects then Put(Err("upload failed"), objects)
    else Put(Ok(Stored(path, false)), objects + {path})
  }

  /** Upload-if-absent never removes an object and adds at most the one asked for; a success
      leaves the object stored at the returned path, reports `alreadyExisted` exactly when it
      was stored before, and uploads only when it was not. */
  lemma UploadIfNeededSpec(objects: set<string>, dir: string, name: string, listFails: bool,
                           uploadFails: bool)
    ensures
      var put := UploadIfNeeded(objects, dir, name, listFails, uploadFails);
      var path := StoragePath(dir, name);
      && objects <= put.objects <= objects + {path}
      && (put.result.Ok? ==> put.result.value.path == path && path in put.objects)
      && (put.result.Ok? ==> (put.result.value.alreadyExisted <==> path in objects))
      && (put.objects != objects <==> put.result == Ok(Stored(path, false)))
      && (put.result.Err? ==> put.objects == objects)
      && (!listFails && path in objects ==> put == Put(Ok(Stored(path, true)), objects))
  {
    ListingFindsExactly(objects, dir, name);
  }

  /** Uploading the same object twice: the second call finds it and changes nothing. */
  lemma UploadIfNeededIdempotent(objects: set<string>, dir: string, name: string,
                                 listFails: bool, uploadFails: bool)
    requires UploadIfNeeded(objects, dir, name, listFails, uploadFails).result.Ok?
    ensures
      var once := UploadIfNeeded(objects, dir, name, listFails, uploadFails);
      var twice := UploadIfNeeded(once.objects, dir, name, false, uploadFails);
      twice.objects == once.objects && twice.result == Ok(Stored(StoragePath(dir, name), true))
  {
    var once := UploadIfNeeded(objects, dir, name, listFails, uploadFails);
    UploadIfNeededSpec(objects, dir, name, listFails, uploadFails);
    UploadIfNeededSpec(once.objects, dir, name, false, uploadFails);
  }

  // ------------------------------------------------------------------ downloads and transfers

  /** The image download: its content-type header, or failure. */
  datatype Download = Downloaded(contentType: Option<string>) | DownloadFailed

  /** What one image transfer meets: the download, the file stem (the slug of the owner's
      name and a random UUID, joined by `-`), and the storage calls' failures. */
  datatype Transfer = Transfer(download: Download, stem: string, listFails: bool, uploadFails: bool)

  /** The player image upload of the player loop: `players/<stem><ext || .jpg>`. */
  function StorePlayerImage(objects: set<string>, t: Transfer): (put: Put)
    ensures StoresUnder(objects, put, "players")
  {
    match t.download
    case DownloadFailed => Put(Err("download failed"), objects)
    case Downloaded(header) =>
      var name := t.stem + PlayerImageExt(DownloadExt(header));
      UploadIfNeeded(objects, "players", name, t.listFails, t.uploadFails)
  }

  /** The college logo upload of the player loop: `logos/<stem><ext || .png>`. */
  function StoreLogo(objects: set<string>, t: Transfer): (put: Put)
    ensures StoresUnder(objects, put, "logos")
  {
    match t.download
    case DownloadFailed => Put(Err("download failed"), objects)
    case Downloaded(header) =>
      var name := t.stem + LogoExt(DownloadExt(header));
      UploadIfNeeded(objects, "logos", name, t.listFails, t.uploadFails)
  }

  /** The logo upload of a newly created college: `college_logos/<stem><ext>`, the extension
      by the college rule with a missing header counting as `image/png`. */
  function StoreCollegeLogo(objects: set<string>, t: Transfer): (put: Put)
    ensures StoresUnder(objects, put, "college_logos")
  {
    match t.download
    case DownloadFailed => Put(Err("download failed"), objects)
    case Downloaded(header) =>
      var name := t.stem + CollegeExt(HeaderOr(header, "image/png"));
      UploadIfNeeded(objects, "college_logos", name, t.listFails, t.uploadFails)
  }

  /** The high-school logo upload: `hs_logos/<stem><ext || .png>`, a plain upload. */
  function StoreSchoolLogo(objects: set<string>, t: Transfer): (put: Put)
    ensures StoresUnder(objects, put, "hs_logos")
  {
    match t.download
    case DownloadFailed => Put(Err("download failed"), objects)
    case Downloaded(header) =>
      var path := StoragePath("hs_logos", t.stem + LogoExt(DownloadExt(header)));
      assert StartsWith(path, "hs_logos/");
      Upload(objects, path, t.uploadFails)
  }
}
