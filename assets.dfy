/**
 * The asset rewriter: picks the base URL of a page, and for every asset tag
 * whose reference resolves to a file with an allowed extension and downloads
 * with status 200, rewrites that reference to `<page id>/<file name>`.
 * URL resolution and the asset download are parameters: `resolve` stands for
 * `urljoin(base, ref)`, None where it raises (an unbalanced '[' in an
 * authority), and `assetStatus` gives, by URL, the status of a plain
 * GET, or None where `requests.get` raises (a URL without a usable scheme, a
 * failed connection). A raising GET ends the whole run.
 */
module Assets {
  import opened Options
  import opened Paths
  import opened Html

  /** Which attribute of each asset tag kind holds its reference: `src` for `img` and `script`, `href` for `link`. */
  function LinkAttribute(kind: string): (r: Option<string>)
    ensures r == Some("src") <==> kind == "img" || kind == "script"
    ensures r == Some("href") <==> kind == "link"
    ensures r.Some? ==> r.value == "src" || r.value == "href"
  {
    if kind == "img" || kind == "script" then Some("src")
    else if kind == "link" then Some("href")
    else None
  }

  /** A tag of one of the three asset kinds. */
  predicate IsAsset(t: Tag)
  {
    LinkAttribute(t.name).Some?
  }

  /** The attribute that holds an asset tag's reference. */
  function RefAttribute(t: Tag): string
    requires IsAsset(t)
  {
    LinkAttribute(t.name).value
  }

  /** The first two guards of the loop: an asset tag whose reference is present and non-empty. */
  predicate Referenced(t: Tag)
  {
    IsAsset(t) && HasValue(t, RefAttribute(t))
  }

  /** `urljoin(base, ref)` on a referenced tag: the absolute URL, or None where it raises. */
  function Resolved(t: Tag, base: string, resolve: (string, string) -> Option<string>): Option<string>
    requires Referenced(t)
  {
    resolve(base, t.attrs[RefAttribute(t)])
  }

  /** The absolute URL of an asset tag's reference, resolved against `base`. */
  function AssetUrl(t: Tag, base: string, resolve: (string, string) -> Option<string>): string
    requires Referenced(t) && Resolved(t, base, resolve).Some?
  {
    Resolved(t, base, resolve).value
  }

  /** The URL relative references resolve against: the first `base` tag's `href` when non-empty, else the page URL. */
  function BaseUrl(doc: seq<Tag>, pageUrl: string): (r: string)
    ensures forall i: nat :: IsFirstNamed(doc, i, "base") && HasValue(doc[i], "href") ==> r == doc[i].attrs["href"]
    ensures (forall i: nat :: IsFirstNamed(doc, i, "base") ==> !HasValue(doc[i], "href")) ==> r == pageUrl
  {
    match FindFirst(doc, "base")
    case Some(i) => if HasValue(doc[i], "href") then doc[i].attrs["href"] else pageUrl
    case None => pageUrl
  }

  /** The tags the loop issues a GET for: referenced, resolved without raising, and with an allowed file name. */
  predicate Requested(t: Tag, base: string, resolve: (string, string) -> Option<string>)
  {
    && Referenced(t)
    && Resolved(t, base, resolve).Some?
    && HasPopularExtension(AssetFileName(AssetUrl(t, base, resolve)))
  }

  /**
   * The loop body raises on this tag: `urljoin` raises on its reference
   * (whatever its extension), or its asset is requested and the GET raises.
   */
  predicate StepRaises(t: Tag, base: string, resolve: (string, string) -> Option<string>, assetStatus: string -> Option<int>)
  {
    Referenced(t)
      && (Resolved(t, base, resolve).None? || (Requested(t, base, resolve) && assetStatus(AssetUrl(t, base, resolve)).None?))
  }

  /** The loop body raises on no tag of the page. */
  predicate NoStepRaises(doc: seq<Tag>, base: string, resolve: (string, string) -> Option<string>, assetStatus: string -> Option<int>)
  {
    forall i :: 0 <= i < |doc| ==> !StepRaises(doc[i], base, resolve, assetStatus)
  }

  /** The conditions under which the loop downloads a tag's asset and rewrites its reference. */
  predicate Downloadable(t: Tag, base: string, resolve: (string, string) -> Option<string>, assetStatus: string -> Option<int>)
  {
    Requested(t, base, resolve) && assetStatus(AssetUrl(t, base, resolve)) == Some(200)
  }

  /** One step of the rewrite loop: the tag as the loop leaves it. */
  function RewriteTag(t: Tag, base: string, dir: string, resolve: (string, string) -> Option<string>, assetStatus: string -> Option<int>): (r: Tag)
    ensures r.name == t.name && r.attrs.Keys == t.attrs.Keys
    ensures !IsAsset(t) ==> r == t
    ensures IsAsset(t) ==> forall k :: k in t.attrs && k != RefAttribute(t) ==> k in r.attrs && r.attrs[k] == t.attrs[k]
    ensures r != t ==> Downloadable(t, base, resolve, assetStatus)
  {
    if Downloadable(t, base, resolve, assetStatus) then
      var attr := RefAttribute(t);
      var fileName := AssetFileName(AssetUrl(t, base, resolve));
      t.(attrs := t.attrs[attr := JoinPath(dir, fileName)])
    else t
  }

  /** A downloaded asset's reference becomes `<dir>/<file name>`, a local path whose basename is the file name. */
  lemma RewrittenReferenceIsLocal(t: Tag, base: string, dir: string, resolve: (string, string) -> Option<string>, assetStatus: string -> Option<int>)
    requires Downloadable(t, base, resolve, assetStatus)
    ensures var r := RewriteTag(t, base, dir, resolve, assetStatus);
      var fileName := AssetFileName(AssetUrl(t, base, resolve));
      && RefAttribute(t) in r.attrs
      && Basename(r.attrs[RefAttribute(t)]) == fileName
      && (dir != [] && '/' !in dir ==> r.attrs[RefAttribute(t)] == dir + "/" + fileName)
  {
    var fileName := AssetFileName(AssetUrl(t, base, resolve));
    AllowedNameNotEmpty(fileName);
    BasenameOfJoin(dir, fileName);
  }

  /** The page as download_assets leaves it. */
  function RewritePage(doc: seq<Tag>, pageUrl: string, resolve: (string, string) -> Option<string>, assetStatus: string -> Option<int>): (r: seq<Tag>)
    ensures |r| == |doc|
    ensures forall i: nat :: 0 <= i < |doc| ==> r[i].name == doc[i].name
    ensures forall i: nat :: 0 <= i < |doc| && !IsAsset(doc[i]) ==> r[i] == doc[i]
    ensures forall i: nat :: 0 <= i < |doc| && r[i] != doc[i] ==> Downloadable(doc[i], BaseUrl(doc, pageUrl), resolve, assetStatus)
  {
    var base := BaseUrl(doc, pageUrl);
    seq(|doc|, i requires 0 <= i < |doc| => RewriteTag(doc[i], base, PageId(pageUrl), resolve, assetStatus))
  }

  /**
   * The body of download_assets' loop for one tag: the tag with its reference
   * rewritten when its asset downloads, or `raised` when `urljoin` or the GET
   * raises. The
   * guards are kept apart from the loop so that the loop's proof stays small.
   */
  method RewriteOne(asset: Tag, base: string, directory: string, resolve: (string, string) -> Option<string>, assetStatus: string -> Option<int>)
    returns (r: Tag, raised: bool)
    ensures raised == StepRaises(asset, base, resolve, assetStatus)
    ensures !raised ==> r == RewriteTag(asset, base, directory, resolve, assetStatus)
  {
    // Each nested test is one of the loop's `continue` guards, in the same order.
    r, raised := asset, false;
    if IsAsset(asset) {
      var linkAttribute := RefAttribute(asset);
      if HasValue(asset, linkAttribute) {
        var joined := resolve(base, asset.attrs[linkAttribute]);
        if joined.None? {
          raised := true;
        } else {
          var fullUrl := joined.value;
          var fileName := AssetFileName(fullUrl);
          if HasPopularExtension(fileName) {
            var response := assetStatus(fullUrl);
            if response.None? {
              raised := true;
            } else if response.value == 200 {
              r := asset.(attrs := asset.attrs[linkAttribute := JoinPath(directory, fileName)]);
            }
          }
        }
      }
    }
  }

  /**
   * download_assets: rewrites, in place, the reference of every asset that was
   * downloaded. The page directory is created first: for a page URL with an
   * empty basename that creation raises and the loop never runs. A `urljoin`
   * or an asset GET that raises stops the loop. Either way `ok` is false.
   */
  method DownloadAssets(doc: array<Tag>, pageUrl: string, resolve: (string, string) -> Option<string>, assetStatus: string -> Option<int>)
    returns (ok: bool)
    modifies doc
    ensures ok <==> PageId(pageUrl) != [] && NoStepRaises(old(doc[..]), BaseUrl(old(doc[..]), pageUrl), resolve, assetStatus)
    ensures PageId(pageUrl) == [] ==> doc[..] == old(doc[..])
    ensures ok ==> forall j :: 0 <= j < doc.Length ==>
      doc[j] == RewriteTag(old(doc[j]), BaseUrl(old(doc[..]), pageUrl), PageId(pageUrl), resolve, assetStatus)
  {
    var page := doc[..];
    var base := BaseUrl(page, pageUrl);
    var directory := PageId(pageUrl);
    if directory == [] {
      return false;
    }
    for i := 0 to doc.Length
      invariant forall j :: 0 <= j < i ==> !StepRaises(page[j], base, resolve, assetStatus)
      invariant forall j :: 0 <= j < i ==> doc[j] == RewriteTag(page[j], base, directory, resolve, assetStatus)
      invariant forall j :: i <= j < doc.Length ==> doc[j] == page[j]
    {
      var tag, raised := RewriteOne(doc[i], base, directory, resolve, assetStatus);
      if raised {
        assert page[i] == doc[i];
        return false;
      }
      doc[i] := tag;
    }
    assert NoStepRaises(page, base, resolve, assetStatus);
    ok := true;
  }

  /** A page whose every tag is that tag rewritten is the rewritten page. */
  lemma RewritePageAt(r: seq<Tag>, doc: seq<Tag>, pageUrl: string, resolve: (string, string) -> Option<string>, assetStatus: string -> Option<int>)
    requires |r| == |doc|
    requires forall j :: 0 <= j < |doc| ==> r[j] == RewriteTag(doc[j], BaseUrl(doc, pageUrl), PageId(pageUrl), resolve, assetStatus)
    ensures r == RewritePage(doc, pageUrl, resolve, assetStatus)
  {
  }

  /** Only the first `base` tag is consulted: one with an empty `href` hides any later one. */
  lemma OnlyFirstBaseCounts(pageUrl: string)
    ensures BaseUrl([Tag("base", map["href" := ""]), Tag("base", map["href" := "https://cdn.example.com/"])], pageUrl) == pageUrl
    ensures BaseUrl([Tag("base", map["href" := "https://cdn.example.com/"])], pageUrl) == "https://cdn.example.com/"
  {
  }

  /** An asset whose file name ends in the upper-case `.JPG` is never requested, so never downloaded, whatever the download would report. */
  lemma UppercaseExtensionNotRewritten(t: Tag, base: string, dir: string, resolve: (string, string) -> Option<string>, assetStatus: string -> Option<int>)
    requires Referenced(t) && Resolved(t, base, resolve).Some?
    requires EndsWith(AssetFileName(AssetUrl(t, base, resolve)), ".JPG")
    ensures !Requested(t, base, resolve) && !StepRaises(t, base, resolve, assetStatus)
    ensures RewriteTag(t, base, dir, resolve, assetStatus) == t
  {
    UpperCaseJpgNotAllowed(AssetFileName(AssetUrl(t, base, resolve)));
  }
}
