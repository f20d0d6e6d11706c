/**
 * String handling on URLs and local paths: POSIX `os.path.basename` and
 * `os.path.join`, the query-string cut applied to asset names, and the
 * allow-list of file extensions an asset must end in to be downloaded.
 */
module Paths {

  /** POSIX basename: the part of `path` after its last '/', or all of it when it has none. */
  function Basename(path: string): (r: string)
    ensures '/' !in r
  {
    if path == [] || path[|path| - 1] == '/' then []
    else Basename(path[..|path| - 1]) + [path[|path| - 1]]
  }

  /** The basename is the longest '/'-free suffix: it is a suffix, and whatever precedes it ends in '/'. */
  lemma {:induction false} BasenameIsLastSegment(path: string)
    ensures var r := Basename(path);
      && |r| <= |path| && r == path[|path| - |r|..]
      && (|r| < |path| ==> path[|path| - |r| - 1] == '/')
  {
    if path != [] && path[|path| - 1] != '/' {
      var init := path[..|path| - 1];
      BasenameIsLastSegment(init);
      assert path == init + [path[|path| - 1]];
    }
  }

  /** The Page Identifier of a URL: its final path segment, used as the name of its files and its metadata key. */
  function PageId(url: string): string
  {
    Basename(url)
  }

  /** `s.split('?', 1)[0]`: everything before the first '?', or all of `s` when it has none. */
  function BeforeQuery(s: string): (r: string)
    ensures '?' !in r
  {
    if s == [] || s[0] == '?' then [] else [s[0]] + BeforeQuery(s[1..])
  }

  /** The cut keeps the longest '?'-free prefix: a prefix, followed in `s` by a '?' when shorter. */
  lemma {:induction false} BeforeQueryIsFirstPart(s: string)
    ensures var r := BeforeQuery(s);
      && |r| <= |s| && r == s[..|r|]
      && (|r| < |s| ==> s[|r|] == '?')
  {
    if s != [] && s[0] != '?' {
      BeforeQueryIsFirstPart(s[1..]);
    }
  }

  /** The file name an asset is saved under: the last '/'-segment of its resolved URL, cut before the first '?'. */
  function AssetFileName(url: string): (r: string)
    ensures '/' !in r && '?' !in r
  {
    BeforeQueryIsFirstPart(Basename(url));
    BeforeQuery(Basename(url))
  }

  /** Python's `str.endswith` for a single suffix. */
  predicate EndsWith(s: string, suffix: string)
  {
    |suffix| <= |s| && s[|s| - |suffix|..] == suffix
  }

  /** The suffixes an asset's file name must end in to be downloaded (matched case-sensitively). */
  const PopularExtensions: seq<string> :=
    [".jpg", ".jpeg", ".png", ".gif", ".bmp", ".svg", ".webp", ".mp4", ".avi", ".mkv",
     ".mov", ".wmv", ".flv", ".webm", ".js", ".css"]

  /** Python's `str.endswith` given a tuple: tries each suffix in turn. */
  predicate EndsWithAny(s: string, suffixes: seq<string>)
  {
    suffixes != [] && (EndsWith(s, suffixes[0]) || EndsWithAny(s, suffixes[1..]))
  }

  /** `name.endswith(POPULAR_EXTENSIONS)`. */
  predicate HasPopularExtension(name: string)
  {
    EndsWithAny(name, PopularExtensions)
  }

  /** Trying the suffixes in turn succeeds exactly when one of them is a suffix of `s`. */
  lemma {:induction false} EndsWithAnyMeansSomeSuffix(s: string, suffixes: seq<string>)
    ensures EndsWithAny(s, suffixes) <==> exists ext :: ext in suffixes && EndsWith(s, ext)
  {
    if suffixes != [] {
      EndsWithAnyMeansSomeSuffix(s, suffixes[1..]);
      assert forall ext :: ext in suffixes <==> ext == suffixes[0] || ext in suffixes[1..];
    }
  }

  /** POSIX `os.path.join` of two components. */
  function JoinPath(dir: string, name: string): (r: string)
    ensures EndsWith(r, name)
    ensures (name == [] || name[0] != '/') ==> |dir| <= |r| && r[..|dir|] == dir
  {
    if name != [] && name[0] == '/' then name
    else if dir == [] || dir[|dir| - 1] == '/' then dir + name
    else dir + "/" + name
  }

  /** Appending a '/'-free tail to a path that is empty or ends in '/' makes that tail the basename. */
  lemma {:induction false} BasenameOfAppend(dir: string, name: string)
    requires dir == [] || dir[|dir| - 1] == '/'
    requires '/' !in name
    ensures Basename(dir + name) == name
  {
    if name == [] {
      assert dir + name == dir;
    } else {
      var init := name[..|name| - 1];
      BasenameOfAppend(dir, init);
      assert dir + name == (dir + init) + [name[|name| - 1]];
      assert (dir + name)[..|dir + name| - 1] == dir + init;
      assert init + [name[|name| - 1]] == name;
    }
  }

  /** The local path an asset is written to has that asset's file name as its basename. */
  lemma BasenameOfJoin(dir: string, name: string)
    requires name != [] && '/' !in name
    ensures Basename(JoinPath(dir, name)) == name
  {
    if dir == [] || dir[|dir| - 1] == '/' {
      BasenameOfAppend(dir, name);
    } else {
      assert dir + "/" + name == (dir + "/") + name;
      BasenameOfAppend(dir + "/", name);
    }
  }

  /** When the directory is a non-empty basename, the joined path is exactly `dir/name`. */
  lemma JoinPageDirectory(url: string, name: string)
    requires PageId(url) != [] && name != [] && '/' !in name
    ensures JoinPath(PageId(url), name) == PageId(url) + "/" + name
  {
  }

  /** The allow-list is case-sensitive: a name ending in the upper-case `.JPG` is not matched. */
  lemma UpperCaseJpgNotAllowed(name: string)
    requires EndsWith(name, ".JPG")
    ensures !HasPopularExtension(name)
  {
    assert name[|name| - 1] == name[|name| - 4..][3] == 'G';
    LastCharacterMismatch(name, PopularExtensions);
  }

  /** The allow-list is case-sensitive: `photo.jpg` is matched and `photo.JPG` is not. */
  lemma ExtensionMatchIsCaseSensitive()
    ensures HasPopularExtension("photo.jpg")
    ensures !HasPopularExtension("photo.JPG")
  {
    assert EndsWith("photo.jpg", ".jpg");
    UpperCaseJpgNotAllowed("photo.JPG");
  }

  /** No suffix in the list can match when each ends in a character other than the last of `s`. */
  lemma {:induction false} LastCharacterMismatch(s: string, suffixes: seq<string>)
    requires s != []
    requires forall i :: 0 <= i < |suffixes| ==> suffixes[i] != [] && suffixes[i][|suffixes[i]| - 1] != s[|s| - 1]
    ensures !EndsWithAny(s, suffixes)
  {
    if suffixes != [] {
      LastCharacterMismatch(s, suffixes[1..]);
    }
  }

  /** A query string is cut before the extension test: `photo.JPG?v=2` is judged as `photo.JPG`. */
  lemma QueryStrippedBeforeExtensionTest()
    ensures AssetFileName("https://example.com/img/photo.JPG?v=2") == "photo.JPG"
  {
    var dir, name := "https://example.com/img/", "photo.JPG?v=2";
    BasenameOfAppend(dir, name);
    assert dir + name == "https://example.com/img/photo.JPG?v=2";
    assert name == "photo.JPG" + "?v=2";
    BeforeQueryOfAppend("photo.JPG", "?v=2");
  }

  /** Cutting at the first '?' keeps exactly the '?'-free head. */
  lemma {:induction false} BeforeQueryOfAppend(head: string, tail: string)
    requires '?' !in head
    requires tail == [] || tail[0] == '?'
    ensures BeforeQuery(head + tail) == head
  {
    if head != [] {
      assert (head + tail)[1..] == head[1..] + tail;
      BeforeQueryOfAppend(head[1..], tail);
    }
  }

  /** Every allowed name is longer than its shortest extension, so it is never empty. */
  lemma AllowedNameNotEmpty(name: string)
    requires HasPopularExtension(name)
    ensures |name| >= 3
  {
    EndsWithAnyMeansSomeSuffix(name, PopularExtensions);
  }
}
