/**
 * The batch driver: for each URL in order, skip it when it is not a valid URL
 * or its page does not come back with status 200; otherwise count its links,
 * rewrite its assets, write `<page id>.html`, and upsert its metadata record.
 * The validator, the page fetch, URL resolution, the asset fetch and the clock
 * are the parameters of a run. A GET that raises, a page directory that cannot
 * be created, or an asset GET that raises ends the whole run.
 */
module Batch {
  import opened Options
  import opened Paths
  import opened Html
  import opened Assets
  import opened Metadata

  /** The answer to the page GET: its status, and the page parsed from its body. */
  datatype Response = Response(status: int, page: seq<Tag>)

  /**
   * The outside world of one run. `get` and `assetStatus` answer by URL, with
   * None where `requests.get` raises (no usable scheme, a failed connection);
   * `resolve` is `urljoin`, with None where it raises.
   * `clock(i)` is the time read when the record of the i-th URL is stored.
   */
  datatype Env = Env(
    isValid: string -> bool,
    get: string -> Option<Response>,
    resolve: (string, string) -> Option<string>,
    assetStatus: string -> Option<int>,
    clock: nat -> string)

  /** The two skip guards of download: a URL that passes validation and whose page comes back with status 200. */
  predicate Accepted(env: Env, url: string)
  {
    env.isValid(url) && env.get(url).Some? && env.get(url).value.status == 200
  }

  /** The page an accepted URL returns. */
  function PageOf(env: Env, url: string): seq<Tag>
    requires Accepted(env, url)
  {
    env.get(url).value.page
  }

  /** The metadata store after a run over `urls`, starting from `store`. */
  function StoreAfter(env: Env, store: map<string, Record>, urls: seq<string>): map<string, Record>
  {
    if urls == [] then store
    else
      var before := StoreAfter(env, store, urls[..|urls| - 1]);
      var url := urls[|urls| - 1];
      if Accepted(env, url) then Upsert(before, PageId(url), LinkCount(PageOf(env, url)), env.clock(|urls| - 1))
      else before
  }

  /** The `.html` pages a run over `urls` writes, by Page Identifier; a later page overwrites an earlier one. */
  function PagesAfter(env: Env, urls: seq<string>): map<string, seq<Tag>>
  {
    if urls == [] then map[]
    else
      var before := PagesAfter(env, urls[..|urls| - 1]);
      var url := urls[|urls| - 1];
      if Accepted(env, url) then before[PageId(url) := RewritePage(PageOf(env, url), url, env.resolve, env.assetStatus)]
      else before
  }

  /** The Page Identifiers of the accepted URLs among the first `n`. */
  function AcceptedIds(env: Env, urls: seq<string>, n: nat): set<string>
    requires n <= |urls|
  {
    set i | 0 <= i < n && Accepted(env, urls[i]) :: PageId(urls[i])
  }

  /** download_assets returns for an accepted URL: its Page Identifier is not empty, so its directory can be created, and neither `urljoin` nor an asset GET raises. */
  predicate AssetsComplete(env: Env, url: string)
    requires Accepted(env, url)
  {
    var page := PageOf(env, url);
    PageId(url) != [] && NoStepRaises(page, BaseUrl(page, url), env.resolve, env.assetStatus)
  }

  /** A valid URL whose page GET raises, or an accepted URL whose download_assets raises: either ends the run. */
  predicate Aborts(env: Env, url: string)
  {
    env.isValid(url) && (env.get(url).None? || (Accepted(env, url) && !AssetsComplete(env, url)))
  }

  /** How many URLs a run processes: all of them, or those before the first one that aborts it. */
  function Completed(env: Env, urls: seq<string>): (n: nat)
    ensures n <= |urls|
    ensures forall j :: 0 <= j < n ==> !Aborts(env, urls[j])
    ensures n < |urls| ==> Aborts(env, urls[n])
  {
    if urls == [] || Aborts(env, urls[0]) then 0 else 1 + Completed(env, urls[1..])
  }

  /** A run stops at the first URL that aborts it. */
  lemma CompletedAt(env: Env, urls: seq<string>, i: nat)
    requires i < |urls| && Aborts(env, urls[i])
    requires forall j :: 0 <= j < i ==> !Aborts(env, urls[j])
    ensures Completed(env, urls) == i
  {
  }

  /**
   * The work of download's loop body for an accepted URL: count its links,
   * rewrite its assets and, unless that raises, upsert its record stamped
   * `now`. Returns the page to be written to `<page id>.html`. Kept apart from
   * the loop so that the loop's proof stays small.
   */
  method ProcessPage(env: Env, url: string, now: string, store: MetadataFile) returns (page: seq<Tag>, ok: bool)
    requires Accepted(env, url) && store.Valid()
    modifies store
    ensures store.Valid()
    ensures ok <==> AssetsComplete(env, url)
    ensures ok ==> page == RewritePage(PageOf(env, url), url, env.resolve, env.assetStatus)
    ensures ok ==> store.present && store.records == Upsert(old(store.records), PageId(url), LinkCount(PageOf(env, url)), now)
    ensures !ok ==> store.present == old(store.present) && store.records == old(store.records)
  {
    var content := PageOf(env, url);
    var linkCount := CountLinks(content);
    var doc := new Tag[|content|](j requires 0 <= j < |content| => content[j]);
    assert doc[..] == content;
    ok := DownloadAssets(doc, url, env.resolve, env.assetStatus);
    page := doc[..];
    if !ok {
      return;
    }
    RewritePageAt(page, content, url, env.resolve, env.assetStatus);
    store.StoreMetadata(PageId(url), linkCount, now);
  }

  /**
   * download: processes the URLs in order, skipping the rejected ones. The run
   * stops at the first URL that aborts it, before anything is written for it.
   */
  method Download(env: Env, urls: seq<string>, store: MetadataFile) returns (written: map<string, seq<Tag>>, aborted: bool)
    requires store.Valid()
    modifies store
    ensures store.Valid()
    ensures aborted <==> Completed(env, urls) < |urls|
    ensures store.records == StoreAfter(env, old(store.records), urls[..Completed(env, urls)])
    ensures store.present == (old(store.present) || exists i :: 0 <= i < Completed(env, urls) && Accepted(env, urls[i]))
    ensures written == PagesAfter(env, urls[..Completed(env, urls)])
  {
    written, aborted := map[], false;
    for i := 0 to |urls|
      invariant forall j :: 0 <= j < i ==> !Aborts(env, urls[j])
      invariant store.Valid()
      invariant store.records == StoreAfter(env, old(store.records), urls[..i])
      invariant store.present == (old(store.present) || exists j :: 0 <= j < i && Accepted(env, urls[j]))
      invariant written == PagesAfter(env, urls[..i])
    {
      var url := urls[i];
      assert urls[..i + 1][..i] == urls[..i];
      if !env.isValid(url) {
        continue;
      }
      var answer := env.get(url);
      if answer.None? {
        CompletedAt(env, urls, i);
        aborted := true;
        return;
      }
      if answer.value.status != 200 {
        continue;
      }
      var page, ok := ProcessPage(env, url, env.clock(i), store);
      if !ok {
        CompletedAt(env, urls, i);
        aborted := true;
        return;
      }
      written := written[PageId(url) := page];
    }
    assert Completed(env, urls) == |urls|;
    assert urls[..|urls|] == urls;
  }

  /** The store after a run holds the old keys plus the identifiers of the accepted URLs, and no other. */
  lemma {:induction false} StoreAfterKeys(env: Env, store: map<string, Record>, urls: seq<string>)
    ensures StoreAfter(env, store, urls).Keys == store.Keys + AcceptedIds(env, urls, |urls|)
  {
    if urls != [] {
      var n := |urls| - 1;
      var init := urls[..n];
      StoreAfterKeys(env, store, init);
      assert forall i :: 0 <= i < n ==> init[i] == urls[i];
      assert AcceptedIds(env, init, n) == AcceptedIds(env, urls, n);
      if Accepted(env, urls[n]) {
        assert AcceptedIds(env, urls, |urls|) == AcceptedIds(env, urls, n) + {PageId(urls[n])};
      } else {
        assert AcceptedIds(env, urls, |urls|) == AcceptedIds(env, urls, n);
      }
    }
  }

  /** A record whose identifier no accepted URL has is left exactly as it was. */
  lemma {:induction false} StoreAfterKeepsOthers(env: Env, store: map<string, Record>, urls: seq<string>, id: string)
    requires forall i :: 0 <= i < |urls| && Accepted(env, urls[i]) ==> PageId(urls[i]) != id
    ensures id in StoreAfter(env, store, urls) <==> id in store
    ensures id in store ==> StoreAfter(env, store, urls)[id] == store[id]
  {
    if urls != [] {
      StoreAfterKeepsOthers(env, store, urls[..|urls| - 1], id);
    }
  }

  /**
   * The record under an accepted URL's identifier comes from the last accepted
   * URL with that identifier: its link count, its identifier and its fetch time.
   */
  lemma {:induction false} StoreAfterLastWins(env: Env, store: map<string, Record>, urls: seq<string>, i: nat)
    requires i < |urls| && Accepted(env, urls[i])
    requires forall j :: i < j < |urls| && Accepted(env, urls[j]) ==> PageId(urls[j]) != PageId(urls[i])
    ensures var after := StoreAfter(env, store, urls);
      PageId(urls[i]) in after && after[PageId(urls[i])] == Record(LinkCount(PageOf(env, urls[i])), PageId(urls[i]), env.clock(i))
  {
    var n := |urls| - 1;
    if i < n {
      StoreAfterLastWins(env, store, urls[..n], i);
    }
  }

  /** A run keeps every record under its own identifier. */
  lemma {:induction false} StoreAfterKeepsSitesMatchingKeys(env: Env, store: map<string, Record>, urls: seq<string>)
    requires SitesMatchKeys(store)
    ensures SitesMatchKeys(StoreAfter(env, store, urls))
  {
    if urls != [] {
      StoreAfterKeepsSitesMatchingKeys(env, store, urls[..|urls| - 1]);
    }
  }

  /** A rejected URL leaves no trace: no record, no page. */
  lemma RejectedUrlLeavesNoTrace(env: Env, store: map<string, Record>, urls: seq<string>, url: string)
    requires !Accepted(env, url)
    ensures StoreAfter(env, store, urls + [url]) == StoreAfter(env, store, urls)
    ensures PagesAfter(env, urls + [url]) == PagesAfter(env, urls)
  {
    assert (urls + [url])[..|urls|] == urls;
  }

  /** The pages written are those of the accepted URLs, one per identifier. */
  lemma {:induction false} PagesAfterKeys(env: Env, urls: seq<string>)
    ensures PagesAfter(env, urls).Keys == AcceptedIds(env, urls, |urls|)
  {
    if urls != [] {
      var n := |urls| - 1;
      var init := urls[..n];
      PagesAfterKeys(env, init);
      assert forall i :: 0 <= i < n ==> init[i] == urls[i];
      assert AcceptedIds(env, init, n) == AcceptedIds(env, urls, n);
      if Accepted(env, urls[n]) {
        assert AcceptedIds(env, urls, |urls|) == AcceptedIds(env, urls, n) + {PageId(urls[n])};
      } else {
        assert AcceptedIds(env, urls, |urls|) == AcceptedIds(env, urls, n);
      }
    }
  }

  /** The page written under an accepted URL's identifier is that URL's rewritten page, unless a later accepted URL has the same identifier. */
  lemma {:induction false} PagesAfterLastWins(env: Env, urls: seq<string>, i: nat)
    requires i < |urls| && Accepted(env, urls[i])
    requires forall j :: i < j < |urls| && Accepted(env, urls[j]) ==> PageId(urls[j]) != PageId(urls[i])
    ensures var pages := PagesAfter(env, urls);
      PageId(urls[i]) in pages && pages[PageId(urls[i])] == RewritePage(PageOf(env, urls[i]), urls[i], env.resolve, env.assetStatus)
  {
    var n := |urls| - 1;
    if i < n {
      PagesAfterLastWins(env, urls[..n], i);
    }
  }

  /** A run that reaches a site's root URL stops there: its basename is empty, so nothing after it is processed. */
  lemma RootUrlEndsRun(env: Env, rest: seq<string>)
    requires Accepted(env, "https://example.com/")
    ensures Completed(env, ["https://example.com/"] + rest) == 0
  {
    assert (["https://example.com/"] + rest)[0] == "https://example.com/";
  }

  /** The root-relative script `/main.js` is saved as `main.js`, an allowed name. */
  lemma MainScriptName()
    ensures AssetFileName("/main.js") == "main.js"
    ensures HasPopularExtension("main.js")
  {
    BasenameOfAppend("/", "main.js");
    assert "/" + "main.js" == "/main.js";
    BeforeQueryOfAppend("main.js", "");
    assert "main.js" + "" == "main.js";
    EndsWithAnyMeansSomeSuffix("main.js", PopularExtensions);
    assert ".js" in PopularExtensions && EndsWith("main.js", ".js");
  }

  /** An accepted URL appended to a run puts its own record and its rewritten page under its identifier. */
  lemma LastAcceptedUrlRecorded(env: Env, store: map<string, Record>, urls: seq<string>, url: string)
    requires Accepted(env, url)
    ensures var after := StoreAfter(env, store, urls + [url]);
      PageId(url) in after && after[PageId(url)] == Record(LinkCount(PageOf(env, url)), PageId(url), env.clock(|urls|))
    ensures var pages := PagesAfter(env, urls + [url]);
      PageId(url) in pages && pages[PageId(url)] == RewritePage(PageOf(env, url), url, env.resolve, env.assetStatus)
  {
    StoreAfterLastWins(env, store, urls + [url], |urls|);
    PagesAfterLastWins(env, urls + [url], |urls|);
  }

  /**
   * An image whose reference `urljoin` rejects (an unbalanced '[' in its
   * authority) ends the run at its page, though its name has no extension.
   */
  lemma MalformedRefEndsRun(env: Env, rest: seq<string>)
    requires Accepted(env, "https://e.com/p")
    requires PageOf(env, "https://e.com/p") == [Tag("img", map["src" := "http://[x"])]
    requires env.resolve("https://e.com/p", "http://[x") == None
    ensures Completed(env, ["https://e.com/p"] + rest) == 0
  {
    var url := "https://e.com/p";
    var page := PageOf(env, url);
    assert FindFirst(page, "base").None?;
    assert StepRaises(page[0], url, env.resolve, env.assetStatus);
    assert (["https://e.com/p"] + rest)[0] == url;
  }

  /** A page whose first tag is `<base href="/">` resolves against `/`. */
  lemma RootBase(page: seq<Tag>, pageUrl: string)
    requires page != [] && page[0] == Tag("base", map["href" := "/"])
    ensures BaseUrl(page, pageUrl) == "/"
  {
    assert HasValue(page[0], "href");
    assert IsFirstNamed(page, 0, "base");
  }

  /** Against the base `/`, the script `main.js` is requested at `/main.js`, a URL with no scheme. */
  lemma MainScriptRequested(t: Tag, resolve: (string, string) -> Option<string>)
    requires t == Tag("script", map["src" := "main.js"])
    requires resolve("/", "main.js") == Some("/main.js")
    ensures Requested(t, "/", resolve) && AssetUrl(t, "/", resolve) == "/main.js"
  {
    assert RefAttribute(t) == "src";
    assert AssetUrl(t, "/", resolve) == "/main.js";
    MainScriptName();
  }

  /**
   * Under `<base href="/">`, a script `main.js` resolves to `/main.js`, which
   * has no scheme: its GET raises and the run ends at that page.
   */
  lemma SchemeLessAssetEndsRun(env: Env, rest: seq<string>)
    requires Accepted(env, "https://e.com/app")
    requires PageOf(env, "https://e.com/app") == [Tag("base", map["href" := "/"]), Tag("script", map["src" := "main.js"])]
    requires env.resolve("/", "main.js") == Some("/main.js")
    requires env.assetStatus("/main.js") == None
    ensures Completed(env, ["https://e.com/app"] + rest) == 0
  {
    var url := "https://e.com/app";
    var page := PageOf(env, url);
    RootBase(page, url);
    MainScriptRequested(page[1], env.resolve);
    assert StepRaises(page[1], "/", env.resolve, env.assetStatus);
    assert (["https://e.com/app"] + rest)[0] == url;
  }

  /** The example page of the scenario below: one link, one image, no `base` tag. */
  function ExamplePage(): seq<Tag>
  {
    [Tag("a", map["href" := "https://x.com"]), Tag("img", map["src" := "pic.png"])]
  }

  /** The example page's identifier. */
  lemma ExamplePageId()
    ensures PageId("https://example.com/page") == "page"
  {
    BasenameOfAppend("https://example.com/", "page");
    assert "https://example.com/" + "page" == "https://example.com/page";
  }

  /** The name the example image is saved under, and that it is allowed. */
  lemma ExampleImageName()
    ensures AssetFileName("https://example.com/pic.png") == "pic.png"
    ensures HasPopularExtension("pic.png")
  {
    BasenameOfAppend("https://example.com/", "pic.png");
    assert "https://example.com/" + "pic.png" == "https://example.com/pic.png";
    BeforeQueryOfAppend("pic.png", "");
    assert "pic.png" + "" == "pic.png";
    EndsWithAnyMeansSomeSuffix("pic.png", PopularExtensions);
    assert ".png" in PopularExtensions && EndsWith("pic.png", ".png");
  }

  /** The local path of the example image. */
  lemma ExampleLocalPath()
    ensures JoinPath("page", "pic.png") == "page/pic.png"
  {
  }

  /** The example image, resolved against the page URL, downloads and is rewritten to `page/pic.png`. */
  lemma ExampleImageRewrite(resolve: (string, string) -> Option<string>, assetStatus: string -> Option<int>)
    requires resolve("https://example.com/page", "pic.png") == Some("https://example.com/pic.png")
    requires assetStatus("https://example.com/pic.png") == Some(200)
    ensures RewriteTag(Tag("img", map["src" := "pic.png"]), "https://example.com/page", "page", resolve, assetStatus)
      == Tag("img", map["src" := "page/pic.png"])
  {
    var img := Tag("img", map["src" := "pic.png"]);
    ExampleImageName();
    ExampleLocalPath();
    assert RefAttribute(img) == "src" && Referenced(img);
    assert Resolved(img, "https://example.com/page", resolve) == Some("https://example.com/pic.png");
    assert AssetUrl(img, "https://example.com/page", resolve) == "https://example.com/pic.png";
    assert Downloadable(img, "https://example.com/page", resolve, assetStatus);
  }

  /** In the example page, the image downloads and is rewritten to `page/pic.png`; the link is untouched. */
  lemma ExamplePageRewrite(resolve: (string, string) -> Option<string>, assetStatus: string -> Option<int>)
    requires resolve("https://example.com/page", "pic.png") == Some("https://example.com/pic.png")
    requires assetStatus("https://example.com/pic.png") == Some(200)
    ensures RewritePage(ExamplePage(), "https://example.com/page", resolve, assetStatus)
      == [Tag("a", map["href" := "https://x.com"]), Tag("img", map["src" := "page/pic.png"])]
  {
    var url, page := "https://example.com/page", ExamplePage();
    ExamplePageId();
    ExampleImageName();
    assert FindFirst(page, "base").None?;
    assert BaseUrl(page, url) == url;
    ExampleImageRewrite(resolve, assetStatus);
    assert RewriteTag(page[0], url, "page", resolve, assetStatus) == page[0];
  }

  /** The example page has one link. */
  lemma ExampleLinkCount()
    ensures LinkCount(ExamplePage()) == 1
  {
    assert LinkPositions(ExamplePage(), 2) == {0};
  }

  /** A run over the example page records one link under `page`, stamped with the clock's first reading. */
  lemma OnePageRecord(env: Env)
    requires env.isValid("https://example.com/page")
    requires env.get("https://example.com/page") == Some(Response(200, ExamplePage()))
    ensures StoreAfter(env, map[], ["https://example.com/page"]) == map["page" := Record(1, "page", env.clock(0))]
  {
    var url := "https://example.com/page";
    ExamplePageId();
    ExampleImageName();
    ExampleLinkCount();
    assert [url][..0] == [];
  }

  /** A run over the example page whose image downloads writes `page.html` with the image pointing at `page/pic.png`. */
  lemma OnePageWritten(env: Env)
    requires env.isValid("https://example.com/page")
    requires env.get("https://example.com/page") == Some(Response(200, ExamplePage()))
    requires env.resolve("https://example.com/page", "pic.png") == Some("https://example.com/pic.png")
    requires env.assetStatus("https://example.com/pic.png") == Some(200)
    ensures var pages := PagesAfter(env, ["https://example.com/page"]);
      && pages.Keys == {"page"}
      && pages["page"] == [Tag("a", map["href" := "https://x.com"]), Tag("img", map["src" := "page/pic.png"])]
  {
    var url := "https://example.com/page";
    ExamplePageId();
    ExampleImageName();
    ExamplePageRewrite(env.resolve, env.assetStatus);
    assert [url][..0] == [];
  }

  /** A run over the example page whose image downloads is not ended by it. */
  lemma ExampleRunCompletes(env: Env)
    requires env.isValid("https://example.com/page")
    requires env.get("https://example.com/page") == Some(Response(200, ExamplePage()))
    requires env.resolve("https://example.com/page", "pic.png") == Some("https://example.com/pic.png")
    requires env.assetStatus("https://example.com/pic.png") == Some(200)
    ensures Completed(env, ["https://example.com/page"]) == 1
  {
    var url, page := "https://example.com/page", ExamplePage();
    ExamplePageId();
    ExampleImageName();
    assert FindFirst(page, "base").None?;
    assert BaseUrl(page, url) == url;
    assert !IsAsset(page[0]);
    assert AssetUrl(page[1], url, env.resolve) == "https://example.com/pic.png";
    assert NoStepRaises(page, url, env.resolve, env.assetStatus);
    assert !Aborts(env, url);
  }
}
