/**
 * Image file-name and extension helpers and the write-with-collision rule
 * of `save_image_from_url` (utils/image_process.py).
 */
module ImageProcess {
  import opened Wrappers
  import opened Strings

  newtype byte = x: int | 0 <= x < 256
  type Bytes = seq<byte>

  /** `IMG_EXTS`: the supported extensions, each written WITH its leading dot. */
  const IMG_EXTS: seq<string> := [".png", ".jpg", ".tiff", ".bmp"]

  /** The four alternatives of the file-name pattern, written without the dot. */
  const PATTERN_EXTS: seq<string> := ["png", "jpg", "tiff", "bmp"]

  /** Membership in the character class `[-_A-Za-z0-9]`. */
  predicate IsNameChar(c: char) {
    c == '-' || c == '_' || 'A' <= c <= 'Z' || 'a' <= c <= 'z' || '0' <= c <= '9'
  }

  /** End of the maximal run of name characters starting at `i` (the greedy `+`). */
  function RunEnd(s: string, i: nat): (j: nat)
    requires i <= |s|
    ensures i <= j <= |s|
    ensures forall k :: i <= k < j ==> IsNameChar(s[k])
    ensures j < |s| ==> !IsNameChar(s[j])
    decreases |s| - i
  {
    if i == |s| || !IsNameChar(s[i]) then i else RunEnd(s, i + 1)
  }

  /** The alternative of `(png|jpg|tiff|bmp)` that matches at `i`, tried in order. */
  function ExtAt(s: string, i: nat): Option<string>
    requires i <= |s|
  {
    if i + 3 <= |s| && s[i] == 'p' && s[i + 1] == 'n' && s[i + 2] == 'g' then Some("png")
    else if i + 3 <= |s| && s[i] == 'j' && s[i + 1] == 'p' && s[i + 2] == 'g' then Some("jpg")
    else if i + 4 <= |s| && s[i] == 't' && s[i + 1] == 'i' && s[i + 2] == 'f' && s[i + 3] == 'f' then Some("tiff")
    else if i + 3 <= |s| && s[i] == 'b' && s[i + 1] == 'm' && s[i + 2] == 'p' then Some("bmp")
    else None
  }

  /**
   * `ExtAt` finds an alternative exactly when the text at `i` starts with
   * one, and what it finds is such an alternative.
   */
  lemma ExtAtMeaning(s: string, i: nat)
    requires i <= |s|
    ensures ExtAt(s, i).Some? ==> ExtAt(s, i).value in PATTERN_EXTS && StartsWith(s[i..], ExtAt(s, i).value)
    ensures ExtAt(s, i).None? ==> forall x :: x in PATTERN_EXTS ==> !StartsWith(s[i..], x)
  {
    var t := s[i..];
    if ExtAt(s, i).Some? {
      var e := ExtAt(s, i).value;
      assert t[..|e|] == e;
    }
    forall x | x in PATTERN_EXTS && StartsWith(t, x) ensures ExtAt(s, i).Some? {
      assert t[..|x|] == x;
      assert t[0] == x[0] && t[1] == x[1] && t[2] == x[2];
      if x == "tiff" { assert t[3] == x[3]; }
    }
  }

  /**
   * Group 1 of `/([-_A-Za-z0-9]+[.](png|jpg|tiff|bmp))\??` when the match
   * starts with the `/` at index `p`. Backtracking into the run cannot help,
   * since `.` is not a name character, and the optional `\??` never makes a
   * match fail, so it is not represented.
   */
  function MatchAt(s: string, p: nat): (m: Option<string>)
    requires p < |s|
  {
    if s[p] != '/' then None
    else
      var j := RunEnd(s, p + 1);
      if j == p + 1 || j == |s| || s[j] != '.' then None
      else
        match ExtAt(s, j + 1)
        case None => None
        case Some(e) => Some(s[p + 1..j] + "." + e)
  }

  /** `re.search`: the leftmost index at or after `from` where the pattern matches, or -1. */
  function SearchFrom(s: string, from: nat): (p: int)
    requires from <= |s|
    ensures p == -1 || from <= p < |s|
    ensures p >= 0 ==> MatchAt(s, p).Some?
    ensures forall q :: from <= q < |s| && (p == -1 || q < p) ==> MatchAt(s, q).None?
    decreases |s| - from
  {
    if from == |s| then -1
    else if MatchAt(s, from).Some? then from
    else SearchFrom(s, from + 1)
  }

  /** `get_img_name_from_url` */
  function ImgNameFromUrl(url: string): string {
    var p := SearchFrom(url, 0);
    if p >= 0 then MatchAt(url, p).value else AfterLast(url, '/')
  }

  /**
   * When the pattern matches, the name is a non-empty run of name
   * characters, a dot and one of the four lower-case extensions;
   * in particular it holds no `/` and no `?`.
   */
  lemma ImgNameMatched(url: string)
    requires SearchFrom(url, 0) >= 0
    ensures var name := ImgNameFromUrl(url);
      exists k, e :: 0 < k && k + 1 + |e| == |name| && e in PATTERN_EXTS &&
        (forall i :: 0 <= i < k ==> IsNameChar(name[i])) &&
        name[k] == '.' && name[k + 1..] == e
    ensures '/' !in ImgNameFromUrl(url) && '?' !in ImgNameFromUrl(url)
  {
    var p := SearchFrom(url, 0);
    var j := RunEnd(url, p + 1);
    var e := ExtAt(url, j + 1).value;
    ExtAtMeaning(url, j + 1);
    var run := url[p + 1..j];
    assert ImgNameFromUrl(url) == run + "." + e;
    assert forall i :: 0 <= i < |run| ==> run[i] == url[p + 1 + i];
    NameOfRun(run, e);
  }

  /** A run of name characters, a dot and an extension: the shape of every matched name. */
  lemma NameOfRun(run: string, e: string)
    requires |run| > 0 && forall i :: 0 <= i < |run| ==> IsNameChar(run[i])
    requires e in PATTERN_EXTS
    ensures var name := run + "." + e;
      exists k, e' :: 0 < k && k + 1 + |e'| == |name| && e' in PATTERN_EXTS &&
        (forall i :: 0 <= i < k ==> IsNameChar(name[i])) &&
        name[k] == '.' && name[k + 1..] == e'
    ensures '/' !in run + "." + e && '?' !in run + "." + e
  {
    var name := run + "." + e;
    var k := |run|;
    assert name[k] == '.' && name[k + 1..] == e;
    assert forall i :: 0 <= i < k ==> name[i] == run[i];
    assert forall x :: x in PATTERN_EXTS ==> '/' !in x && '?' !in x;
    forall i | 0 <= i < |name|
      ensures name[i] != '/' && name[i] != '?'
    {
      if i > k {
        assert name[i] == e[i - k - 1];
      }
    }
  }

  /**
   * Without a match the name is everything after the last `/`, or the
   * whole URL when it has no `/`; it holds no `/` either way.
   */
  lemma ImgNameFallback(url: string)
    requires SearchFrom(url, 0) == -1
    ensures '/' !in ImgNameFromUrl(url)
    ensures '/' !in url ==> ImgNameFromUrl(url) == url
    ensures '/' in url ==> EndsWith(url, "/" + ImgNameFromUrl(url))
  {
    assert ImgNameFromUrl(url) == AfterLast(url, '/');
    if '/' in url {
      AfterLastIsSuffix(url, '/');
    }
  }

  /**
   * The derived file name never contains a `/`: joined to the folder it
   * names an entry directly inside it (or, for `''`, `.` and `..`, the
   * folder itself or its parent; see `ImgNameOfDirectoryEntry`).
   */
  lemma ImgNameHasNoSlash(url: string)
    ensures '/' !in ImgNameFromUrl(url)
  {
    if SearchFrom(url, 0) >= 0 { ImgNameMatched(url); } else { ImgNameFallback(url); }
  }

  /** No position of such a URL starts a match. */
  lemma NoMatchBeforeDirectoryEntry(a: string, d: string, q: nat)
    requires '.' !in a && d in {"", ".", ".."} && q < |a + "/" + d|
    ensures MatchAt(a + "/" + d, q).None?
  {
    var u := a + "/" + d;
    assert u[|a|] == '/';
    assert forall k :: |a| < k < |u| ==> u[k] == '.';
    if u[q] == '/' && q < |a| {
      var j := RunEnd(u, q + 1);
      assert j <= |a|;
      if j < |a| {
        assert u[j] == a[j];
      }
    }
  }

  /**
   * A URL without `.` before its last `/` and ending in `/`, `/.` or `/..`
   * gives the name `''`, `.` or `..`: the pattern cannot match, because a
   * match needs a name character right after its `/` and a `.` right after
   * the run, and the fallback takes what follows the last `/`.
   */
  lemma ImgNameOfDirectoryEntry(a: string, d: string)
    requires '.' !in a && d in {"", ".", ".."}
    ensures ImgNameFromUrl(a + "/" + d) == d
    ensures IsDirName(ImgNameFromUrl(a + "/" + d))
  {
    var u := a + "/" + d;
    forall q | 0 <= q < |u| ensures MatchAt(u, q).None? {
      NoMatchBeforeDirectoryEntry(a, d, q);
    }
    assert u[|a|] == '/' && u[|a| + 1..] == d;
    assert LastIndexOf(u, '/') == |a|;
  }

  /** The example URL of the docstring, split so that its characters can be read off. */
  const DOC_URL: string := "https://www.something.com/" + "something1/something2/fire.png"

  lemma DocMatch()
    ensures MatchAt(DOC_URL, 47) == Some("fire.png")
  {
    var u := DOC_URL;
    assert u[47] == '/' && u[48..52] == "fire" && u[52] == '.';
    assert forall k :: 48 <= k < 52 ==> IsNameChar(u[k]);
    assert RunEnd(u, 48) == 52;
    assert u[53..] == "png";
    assert ExtAt(u, 53) == Some("png");
    assert u[48..52] + "." + "png" == "fire.png";
  }

  lemma DocSlashes(q: nat)
    requires q < 47 && DOC_URL[q] == '/'
    ensures q == 6 || q == 7 || q == 25 || q == 36
  {
    var u := DOC_URL;
    assert forall k :: 0 <= k < 6 ==> u[k] != '/';
    assert forall k :: 8 <= k < 25 ==> u[k] != '/';
    assert forall k :: 26 <= k < 36 ==> u[k] != '/';
    assert forall k :: 37 <= k < 47 ==> u[k] != '/';
  }

  lemma DocNoMatchAfterScheme()
    ensures MatchAt(DOC_URL, 6).None? && MatchAt(DOC_URL, 7).None?
  {
    var u := DOC_URL;
    assert RunEnd(u, 7) == 7;
    assert forall k :: 8 <= k < 11 ==> IsNameChar(u[k]);
    assert u[11] == '.' && RunEnd(u, 8) == 11;
    assert u[12] == 's';
  }

  lemma DocNoMatchAtFirstDirectory()
    ensures MatchAt(DOC_URL, 25).None?
  {
    var u := DOC_URL;
    assert u[36] == '/';
    assert forall k :: 26 <= k < 36 ==> IsNameChar(u[k]);
    assert RunEnd(u, 26) == 36;
  }

  lemma DocNoMatchAtSecondDirectory()
    ensures MatchAt(DOC_URL, 36).None?
  {
    var u := DOC_URL;
    assert u[47] == '/';
    assert forall k :: 37 <= k < 47 ==> IsNameChar(u[k]);
    assert RunEnd(u, 37) == 47;
  }

  lemma DocNoEarlierMatch(q: nat)
    requires q < 47
    ensures MatchAt(DOC_URL, q).None?
  {
    if DOC_URL[q] == '/' {
      DocSlashes(q);
      DocNoMatchAfterScheme();
      DocNoMatchAtFirstDirectory();
      DocNoMatchAtSecondDirectory();
    }
  }

  /** The example in the docstring of `get_img_name_from_url`. */
  lemma ImgNameDocExample()
    ensures ImgNameFromUrl("https://www.something.com/" + "something1/something2/fire.png") == "fire.png"
  {
    var u := DOC_URL;
    DocMatch();
    forall q | 0 <= q < 47 ensures MatchAt(u, q).None? {
      DocNoEarlierMatch(q);
    }
    assert SearchFrom(u, 0) == 47;
  }

  /** `get_img_ext`: the lower-cased text after the last `.`, when `IMG_EXTS` holds it. */
  function GetImgExt(src: string): Option<string> {
    var dot := LastIndexOf(src, '.');
    if dot == -1 then None
    else
      var ext := Lower(src[dot + 1..]);
      if ext in IMG_EXTS then Some(ext) else None
  }

  /**
   * `get_img_ext` never finds an extension: the text after the last `.`
   * holds no `.`, while every entry of `IMG_EXTS` starts with one.
   */
  lemma GetImgExtAlwaysNone(src: string)
    ensures GetImgExt(src) == None
  {
    var dot := LastIndexOf(src, '.');
    if dot != -1 {
      var tail := src[dot + 1..];
      var ext := Lower(tail);
      forall x | x in IMG_EXTS ensures ext != x {
        assert x[0] == '.';
        if |ext| > 0 {
          assert tail[0] == src[dot + 1];
          assert ext[0] != '.';
        }
      }
    }
  }

  /** `trim_img_ext`: drop the text from the last `.` when what follows it is in `IMG_EXTS`. */
  function TrimImgExt(fname: string): string {
    var dot := LastIndexOf(fname, '.');
    if dot == -1 then fname
    else if fname[dot + 1..] in IMG_EXTS then fname[..dot]
    else fname
  }

  /** `trim_img_ext` returns every name unchanged, for the same reason as `GetImgExtAlwaysNone`. */
  lemma TrimImgExtIsIdentity(fname: string)
    ensures TrimImgExt(fname) == fname
  {
    var dot := LastIndexOf(fname, '.');
    if dot != -1 {
      var tail := fname[dot + 1..];
      forall x | x in IMG_EXTS ensures tail != x {
        assert x[0] == '.';
        if |tail| > 0 { assert tail[0] == fname[dot + 1]; }
      }
    }
  }

  /** `is_valid_img_ext`, with Python's `None` as `None`. */
  function IsValidImgExt(ext: Option<string>): bool {
    ext.Some? && Lower(ext.value) in IMG_EXTS
  }

  /**
   * A valid extension is one of the four dotted extensions in any letter
   * case: the dot is required, and `None` is never valid.
   */
  lemma IsValidImgExtMeaning(ext: Option<string>)
    ensures IsValidImgExt(ext) ==> |ext.value| >= 4 && ext.value[0] == '.'
    ensures ext.Some? ==> (IsValidImgExt(ext) <==> IsValidImgExt(Some(Lower(ext.value))))
    ensures ext.Some? && '.' !in ext.value ==> !IsValidImgExt(ext)
    ensures !IsValidImgExt(None)
  {
    if ext.Some? {
      var low := Lower(ext.value);
      assert Lower(low) == low;
      if IsValidImgExt(ext) {
        assert low[0] == '.';
      }
      if '.' !in ext.value && |low| > 0 {
        assert low[0] != '.';
      }
    }
  }

  /** Letter case does not matter, the dot does. */
  lemma IsValidImgExtExamples()
    ensures IsValidImgExt(Some(".PNG")) && IsValidImgExt(Some(".Tiff")) && !IsValidImgExt(Some("png"))
  {
    assert Lower(".PNG") == ".png";
    assert Lower(".Tiff") == ".tiff";
  }

  /**
   * The names `os.listdir` never lists and under which `open` cannot create
   * a file: joined to the folder they name the folder itself or its parent.
   */
  predicate IsDirName(name: string) {
    name == "" || name == "." || name == ".."
  }

  /**
   * `save_image_from_url(url, ...)` raises: the download succeeded, the
   * derived name is not listed (these names never are), and
   * `open(os.path.join(dest, name), 'wb')` names a directory, which raises
   * `IsADirectoryError` before anything is written.
   */
  predicate SaveRaises(download: string -> Option<Bytes>, url: string) {
    download(url).Some? && IsDirName(ImgNameFromUrl(url))
  }

  /**
   * The folder after one `save_image_from_url` call that derived the file
   * name `name`, given what the download produced (`None` when
   * `requests.get` raised; the HTTP status is never looked at, so any body
   * counts as content). A directory name leaves the folder as it was.
   */
  function Saved(files: map<string, Bytes>, name: string, got: Option<Bytes>, overwrite: bool): (r: map<string, Bytes>)
    ensures forall k :: k != name ==> (k in r <==> k in files) && (k in files ==> r[k] == files[k])
    ensures got.None? || IsDirName(name) || (!overwrite && name in files) ==> r == files
    ensures got.Some? && !IsDirName(name) && (overwrite || name !in files) ==> name in r && r[name] == got.value
  {
    if got.None? then files
    else if !overwrite && name in files && !IsDirName(name) then files
    else if IsDirName(name) then files
    else files[name := got.value]
  }

  /** The folder after a sequence of `save_image_from_url` calls, in order. */
  function ApplySaves(files: map<string, Bytes>, urls: seq<string>, download: string -> Option<Bytes>, overwrite: bool): map<string, Bytes> {
    if urls == [] then files
    else
      var last := urls[|urls| - 1];
      Saved(ApplySaves(files, urls[..|urls| - 1], download, overwrite), ImgNameFromUrl(last), download(last), overwrite)
  }

  /** Saving one more URL applies one more `save_image_from_url` step to the folder. */
  lemma ApplySavesSnoc(files: map<string, Bytes>, urls: seq<string>, url: string, download: string -> Option<Bytes>, overwrite: bool)
    ensures ApplySaves(files, urls + [url], download, overwrite)
         == Saved(ApplySaves(files, urls, download, overwrite), ImgNameFromUrl(url), download(url), overwrite)
  {
    assert (urls + [url])[..|urls|] == urls;
  }

  /** Without overwrite, no sequence of saves changes or removes a file that was already there. */
  lemma {:induction false} NoOverwriteKeepsExisting(files: map<string, Bytes>, urls: seq<string>, download: string -> Option<Bytes>)
    ensures forall k :: k in files ==> k in ApplySaves(files, urls, download, false) && ApplySaves(files, urls, download, false)[k] == files[k]
  {
    if urls != [] {
      var last := urls[|urls| - 1];
      NoOverwriteKeepsExisting(files, urls[..|urls| - 1], download);
    }
  }

  /** No sequence of saves creates a file named `''`, `.` or `..`. */
  lemma {:induction false} SavesNeverWriteDirNames(files: map<string, Bytes>, urls: seq<string>, download: string -> Option<Bytes>, overwrite: bool)
    ensures forall k :: k in ApplySaves(files, urls, download, overwrite) && IsDirName(k) ==> k in files
  {
    if urls != [] {
      SavesNeverWriteDirNames(files, urls[..|urls| - 1], download, overwrite);
    }
  }

  /**
   * `save_image_from_url(url, dest, overwrite)` on the folder `dest`, given
   * as its files' names and contents; `download` stands in for
   * `requests.get(url).content`. The method returns the folder after the
   * call and whether the call raised.
   */
  method SaveImageFromUrl(dest: map<string, Bytes>, url: string, download: string -> Option<Bytes>, overwrite: bool)
    returns (folder: map<string, Bytes>, raised: bool)
    ensures folder == Saved(dest, ImgNameFromUrl(url), download(url), overwrite)
    ensures raised == SaveRaises(download, url)
  {
    folder, raised := dest, false;
    var img := download(url);
    if img.None? {
      return;
    }
    var imgName := ImgNameFromUrl(url);
    var listing := set k | k in folder && !IsDirName(k);
    if !overwrite && imgName in listing {
      return;
    }
    if IsDirName(imgName) {
      raised := true;
      return;
    }
    folder := folder[imgName := img.value];
  }
}
