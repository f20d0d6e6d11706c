# WebpageDownloader: a verified model of `fetch.py`

`fetch.py` is a command-line tool. For each URL it is given, it does five things:

- it fetches the page;
- it counts the page's links;
- it downloads the page's images, scripts and stylesheets into a directory named after the page;
- it rewrites their references to the local copies and saves the page as `<page id>.html`;
- it records the link count and the fetch time in `metadata.json`.

With `--metadata`, it instead prints the stored record of each URL.

This project models that core in Dafny and proves what it promises. The modules are:

- `Options`: the `Option` type.
- `Paths`: strings on URLs and paths.
  - POSIX `basename` and `join`.
  - The query-string cut.
  - The case-sensitive extension allow-list.
  - The Page Identifier: a URL's basename, which names its `.html` file, its asset directory and its metadata key.
- `Html`: a parsed page, as the sequence of its tags in document order.
  - `get_number_of_links`, as a loop proved against a counting function.
  - `soup.find`, as the first tag of a name.
- `Assets`: `download_assets`.
  - The choice of base URL.
  - The per-tag rewrite step.
  - The loop that rewrites an `array<Tag>` in place.
- `Metadata`: the store `metadata.json`, as a class. Its fields say whether the file exists and which map it holds.
  - `read_metadata_file`.
  - `store_metadata` (read, merge, write).
  - `fetch_metadata`.
  - The pure `Upsert` and `Lookup` they are proved against.
- `Batch`: the driver `download`, proved against functions that give the store and the written pages after a run over a list of URLs.

The run's contact with the outside world is a parameter of type `Batch.Env`:

- URL validation (`validators.url`);
- the page GET, answered by URL: its status and its parsed page, or nothing where `requests.get` raises;
- `urljoin`, answered by base and reference: the absolute URL, or nothing where it raises;
- the asset GET, answered by URL: a status, or nothing where `requests.get` raises;
- the clock read by each `store_metadata`.

Four behaviours of `fetch.py` that a reader may not expect, all kept by the model:

- Only the first `<base>` tag is consulted (`soup.find('base')`). If it has an empty `href`, the page URL is used even when a later `<base>` has one (`Assets.OnlyFirstBaseCounts`).
- `fetch_metadata` goes through `read_metadata_file`, so display mode creates an empty `metadata.json` when none exists (`Metadata.MetadataFile.FetchMetadata` ensures `present`).
- A page URL with an empty basename, such as `https://example.com/`, makes `os.makedirs('')` raise. This ends the whole run: that URL's page is fetched but nothing is written for it or for any URL after it (`Batch.Completed`, `Batch.Download`, `Batch.RootUrlEndsRun`).
- No exception from `requests.get` or `urljoin` is caught, so a page GET, an asset GET or a `urljoin` that raises also ends the whole run. The input alone can cause this. An asset reference such as `http://[x`, with an unbalanced '[' in its authority, makes `urljoin` raise before its extension is even tested (`Batch.MalformedRefEndsRun`). A valid page URL such as `ftp://e.com/x` has a scheme `requests` does not support. Under `<base href="/">`, an asset `main.js` resolves to `/main.js`, which has no scheme at all (`Assets.DownloadAssets`, `Batch.Completed`, `Batch.SchemeLessAssetEndsRun`).

## Model

| member | source | states |
|---|---|---|
| Paths.Basename | fetch.py:93 | the Page Identifier / basename never contains '/' |
| Paths.BasenameIsLastSegment | fetch.py:93 | the basename is a suffix of the path, and whatever precedes it ends in '/', so it is the whole last segment |
| Paths.BeforeQuery | fetch.py:107 | `split('?', 1)[0]` never contains '?' |
| Paths.BeforeQueryIsFirstPart | fetch.py:107 | the cut is a prefix of its input, followed by '?' whenever it is shorter, so it stops at the first '?' |
| Paths.AssetFileName | fetch.py:107 | an asset's file name contains neither '/' nor '?' |
| Paths.QueryStrippedBeforeExtensionTest | fetch.py:107-108 | `.../img/photo.JPG?v=2` is judged by the name `photo.JPG`, without its query |
| Paths.EndsWithAnyMeansSomeSuffix | fetch.py:108 | `endswith` given the extension tuple holds exactly when some extension of the tuple is a suffix |
| Paths.UpperCaseJpgNotAllowed | fetch.py:108 | no name ending in the upper-case `.JPG` passes the allow-list |
| Paths.ExtensionMatchIsCaseSensitive | fetch.py:108 | `photo.jpg` is allowed and `photo.JPG` is not |
| Paths.AllowedNameNotEmpty | fetch.py:108 | an allowed file name has at least three characters, so it is never empty |
| Paths.JoinPath | fetch.py:115 | `os.path.join(directory, file_name)` ends in the file name and, for a relative name, starts with the directory |
| Paths.BasenameOfAppend | fetch.py:93 | a '/'-free tail appended after a '/' (or to nothing) is the basename of the result |
| Paths.BasenameOfJoin | fetch.py:115 | the local path an asset is saved to has the asset's file name as its basename |
| Paths.JoinPageDirectory | fetch.py:115 | under a non-empty page directory the asset path is exactly `<page id>/<file name>` |
| Html.CountLinks | fetch.py:68-75 | the loop's count equals the number of `a` tags whose `href` is present and non-empty |
| Html.LinkCountAtMostAnchors | fetch.py:69-75 | the link count never exceeds the number of `a` tags |
| Html.EmptyHrefIsNotALink | fetch.py:72 | in a page with a missing, an empty and a present `href`, only the last counts |
| Html.FindFirst | fetch.py:92 | `soup.find(name)` gives the first tag of that name, and nothing only when no tag has it |
| Assets.LinkAttribute | fetch.py:13-17 | `img` and `script` tags hold their reference in `src`, `link` tags in `href`, and no other tag is an asset |
| Assets.BaseUrl | fetch.py:91-98 | the base URL is the first `base` tag's `href` when that is non-empty, and the page URL otherwise |
| Assets.OnlyFirstBaseCounts | fetch.py:92-98 | a first `base` with an empty `href` hides a later one with a value; a `base` with a value replaces the page URL |
| Assets.RewriteTag | fetch.py:100-119 | one loop step changes a tag only when the tag is an asset with a non-empty reference, an allowed file name and an asset GET answering 200; it keeps the tag's name, its attribute names and every attribute other than the reference |
| Assets.RewrittenReferenceIsLocal | fetch.py:115-119 | a downloaded asset's reference becomes a path whose basename is its file name, exactly `<page id>/<file name>` under a plain page directory |
| Assets.UppercaseExtensionNotRewritten | fetch.py:106-109 | an asset whose resolved file name ends in the upper-case `.JPG` is never requested, so no GET of it raises, and it is left untouched whatever its download would return |
| Assets.RewriteOne | fetch.py:101-119 | the loop body's chain of `continue` guards raises exactly when the tag has a non-empty reference and `urljoin` raises on it, or its asset is requested and its GET raises; otherwise it leaves the tag exactly as the rewrite step says |
| Assets.RewritePage | fetch.py:89-121 | the rewritten page has the same length and tag names; non-asset tags are unchanged; a changed tag was downloadable against the page's base URL |
| Assets.DownloadAssets | fetch.py:89-121 | it completes exactly when the page URL's basename is not empty (so the page directory can be created) and neither `urljoin` on a non-empty reference nor a requested asset GET raises; with an empty basename the page is untouched; when it completes, every tag of the array becomes its rewrite against the page's base URL and directory |
| Metadata.Upsert | fetch.py:131-135 | storing gives the old keys plus the page's, a record holding the link count, the page identifier and the fetch time, and every other record unchanged |
| Metadata.Lookup | fetch.py:166-171 | a URL is "not found" exactly when its basename is not a key, and otherwise gives the stored record unchanged |
| Metadata.UpsertKeepsSitesMatchingKeys | fetch.py:133-135 | every record's `site` equals its key, before and after a store |
| Metadata.UpsertTwiceKeepsLast | fetch.py:135 | storing twice under one identifier leaves only the second record |
| Metadata.LookupAfterUpsert | fetch.py:164-171 | fetching a page's metadata right after storing it returns exactly the stored record |
| Metadata.LookupOtherAfterUpsert | fetch.py:164-171 | storing one page's record does not change what is found for a page with another identifier |
| Metadata.MetadataFile.ReadAll | fetch.py:141-155 | reading returns the whole store, leaves it unchanged, and first creates an empty file when there is none |
| Metadata.MetadataFile.StoreMetadata | fetch.py:123-138 | after storing, the file exists and holds the old store upserted with the new record |
| Metadata.MetadataFile.FetchMetadata | fetch.py:157-171 | for each URL in order it reports the lookup of the URL's basename in the store; the store is unchanged, and the file exists afterwards |
| Batch.Completed | fetch.py:39-55 | a run processes the URLs before the first one that ends it (a valid URL whose page GET raises, or an accepted URL whose `download_assets` raises: an empty basename, a `urljoin` or an asset GET that raises), and stops at that one |
| Batch.CompletedAt | fetch.py:39-55 | a run stops at the first URL that ends it |
| Batch.ProcessPage | fetch.py:49-55 | for an accepted URL, the page is rewritten and its record upserted exactly when `download_assets` completes; otherwise the store is untouched |
| Batch.Download | fetch.py:32-55 | after a run, the store and the written pages are those of the accepted URLs among the processed ones, in order; the store file exists exactly when it did before or some processed URL was accepted; the run reports whether it stopped early, and stops before writing anything for the URL that ends it |
| Batch.StoreAfterKeys | fetch.py:39-55 | after a run the store's keys are the old keys plus the identifiers of the accepted URLs |
| Batch.StoreAfterKeepsOthers | fetch.py:39-55 | a record whose identifier no accepted URL has is kept exactly |
| Batch.StoreAfterLastWins | fetch.py:39-55 | the record under an identifier comes from the last accepted URL with it: its link count, identifier and clock reading |
| Batch.StoreAfterKeepsSitesMatchingKeys | fetch.py:39-55 | a run keeps every record's `site` equal to its key |
| Batch.RejectedUrlLeavesNoTrace | fetch.py:40-47 | an invalid URL or a non-200 page adds no record and writes no page |
| Batch.LastAcceptedUrlRecorded | fetch.py:49-55 | an accepted URL at the end of a run leaves its own record (its link count, identifier and clock reading) and its rewritten page under its identifier |
| Batch.PagesAfterKeys | fetch.py:49-53 | the pages written are one per identifier of an accepted URL |
| Batch.PagesAfterLastWins | fetch.py:49-53 | the page written under an identifier is the rewritten page of the last accepted URL with that identifier |
| Batch.RootUrlEndsRun | fetch.py:93-95 | an accepted `https://example.com/` first in the list stops the run before anything is processed |
| Batch.MainScriptName | fetch.py:107-108 | the asset URL `/main.js` gives the file name `main.js`, which is allowed |
| Batch.RootBase | fetch.py:92-98 | a page whose first tag is `<base href="/">` resolves its assets against `/` |
| Batch.MainScriptRequested | fetch.py:101-111 | against the base `/`, a script `main.js` passes every guard and is requested at `/main.js` |
| Batch.MalformedRefEndsRun | fetch.py:102-108 | an accepted page whose image reference `http://[x` makes `urljoin` raise ends the run at that page, though the name has no allowed extension |
| Batch.SchemeLessAssetEndsRun | fetch.py:106-111 | a page with `<base href="/">` and a script `main.js` whose GET raises ends the run at that page |
| Batch.ExamplePageId | fetch.py:51 | `https://example.com/page` has identifier `page` |
| Batch.ExampleImageName | fetch.py:107-108 | `https://example.com/pic.png` is saved as `pic.png`, an allowed name |
| Batch.ExampleLocalPath | fetch.py:115 | the image's local path is `page/pic.png` |
| Batch.ExampleImageRewrite | fetch.py:100-119 | an image whose download succeeds is rewritten to `page/pic.png` |
| Batch.ExamplePageRewrite | fetch.py:89-121 | in a page with a link and an image and no `base`, only the image's reference changes |
| Batch.ExampleLinkCount | fetch.py:68-75 | that page has one link |
| Batch.OnePageRecord | fetch.py:49-55 | a run over that page stores the record (1 link, `page`, the first clock reading) under `page` |
| Batch.ExampleRunCompletes | fetch.py:39-55 | a run over the example page whose image downloads is not ended by it |
| Batch.OnePageWritten | fetch.py:49-53 | a run over that page writes `page` with the image pointing at `page/pic.png` |

## Left out

- HTTP: the page GET and the asset GETs are parameters that answer by URL. An exception is modelled only as the absence of an answer, which ends the run; the exception's kind is not modelled. A response is only a status and, for a page, its parsed tags, so the same URL always gets the same answer within a run.
- HTML parsing and serialisation (BeautifulSoup): a page is the sequence of its tags with their attribute maps. Text, nesting and `str(soup)` are not modelled. Tags are values in an array, so tag identity and aliasing are not modelled.
- `get_number_of_links` and `download_assets` each parse the response body themselves; the model hands both the same parsed page.
- `urljoin` and `validators.url`: the parameters `resolve` and `isValid`. Nothing is proved about URL resolution itself, nor about which references make `urljoin` raise.
- `datetime.now()`: the parameter `clock`, read once per stored record.
- File contents:
  - the bytes of the downloaded assets and of `<page id>.html`;
  - JSON (de)serialisation of `metadata.json` with `indent=2`.

  The store is the map the file holds. The pages written are a map from Page Identifier to rewritten page.
- The filesystem beyond that. The model does not cover:
  - `os.path.exists` on the page directory when it already exists, or exists as a regular file;
  - permission failures;
  - names longer than the filesystem allows: a page basename at `os.makedirs` or at `open(f'{file_name}.html')`, or an asset file name at `open(file_path)` (fetch.py:52, 95, 116). Like `makedirs('')`, this follows from the URL, given the platform's limit, and ends the run;
  - asset files that overwrite each other within one directory;
  - interleaved runs.

  The only filesystem failure modelled is `os.makedirs('')` for an empty page basename. It follows from the URL alone. The over-long names above depend on the platform's limit as well, and the other failures listed here depend on files the model does not track.
- Batch.Completed: does not end the run on an over-long name (above), nor on a collision of names in the working directory, where page directories, `<page id>.html` files and `metadata.json` all live. For example, `https://e.com/a.html` followed by `https://e.com/a` makes `open('a.html', 'wb')` raise on the directory `a.html` (fetch.py:52, 94-95), and the page URL `https://e.com/metadata.json` with no store yet makes `read_metadata_file` open a directory (fetch.py:94-95, 152). The files already in the directory before a run are not part of the model, so these failures cannot be decided from the URLs alone.
- Batch.Download: for the same reason, its store, its written pages and its `aborted` flag describe a run with no such collision. On the two inputs above the program stops with an exception, while the model stores a record and writes a page for each accepted URL.
- The messages printed for invalid URLs, failed downloads and missing records. `fetch_metadata` returns the list of lookups it would print.
- `main` and argument parsing: they only choose between `download` and `fetch_metadata`.
