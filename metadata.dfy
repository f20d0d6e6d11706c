/**
 * The metadata store: the file `metadata.json`, a map from Page Identifier to
 * the record of the last fetch of that page. Reading it creates an empty store
 * when none exists; storing a record is a read-merge-write upsert.
 */
module Metadata {
  import opened Options
  import opened Paths

  /** What is recorded about a fetched page: its link count, its identifier and when it was fetched. */
  datatype Record = Record(links: nat, site: string, lastFetch: string)

  /** Every record sits under its own identifier: the `site` field repeats the key. */
  ghost predicate SitesMatchKeys(store: map<string, Record>)
  {
    forall id :: id in store ==> store[id].site == id
  }

  /** The merge step of store_metadata: the record for `site`, completed with `site` and the fetch time, replaces any earlier one. */
  function Upsert(store: map<string, Record>, site: string, links: nat, now: string): (r: map<string, Record>)
    ensures r.Keys == store.Keys + {site}
    ensures site in r && r[site] == Record(links, site, now)
    ensures forall id :: id in store && id != site ==> id in r && r[id] == store[id]
  {
    store[site := Record(links, site, now)]
  }

  /** The lookup of fetch_metadata: the record stored under the URL's basename, or nothing. */
  function Lookup(store: map<string, Record>, url: string): (r: Option<Record>)
    ensures r.None? <==> PageId(url) !in store
    ensures r.Some? ==> r.value == store[PageId(url)]
  {
    var id := PageId(url);
    if id !in store then None else Some(store[id])
  }

  /** Upserting keeps every record under its own identifier. */
  lemma UpsertKeepsSitesMatchingKeys(store: map<string, Record>, site: string, links: nat, now: string)
    requires SitesMatchKeys(store)
    ensures SitesMatchKeys(Upsert(store, site, links, now))
  {
  }

  /** Two upserts for one identifier leave one record, holding the second call's values. */
  lemma UpsertTwiceKeepsLast(store: map<string, Record>, site: string, links1: nat, now1: string, links2: nat, now2: string)
    ensures Upsert(Upsert(store, site, links1, now1), site, links2, now2) == Upsert(store, site, links2, now2)
  {
  }

  /** Fetching a page's metadata right after storing it returns exactly what was stored. */
  lemma LookupAfterUpsert(store: map<string, Record>, url: string, links: nat, now: string)
    ensures Lookup(Upsert(store, PageId(url), links, now), url) == Some(Record(links, PageId(url), now))
  {
  }

  /** Storing one page's metadata does not change what is found for a page with another identifier. */
  lemma LookupOtherAfterUpsert(store: map<string, Record>, site: string, url: string, links: nat, now: string)
    requires PageId(url) != site
    ensures Lookup(Upsert(store, site, links, now), url) == Lookup(store, url)
  {
  }

  /** The file `metadata.json`: whether it exists, and the store it holds. */
  class MetadataFile {
    var present: bool
    var records: map<string, Record>

    /** A file that does not exist holds nothing. */
    ghost predicate Valid()
      reads this
    {
      !present ==> records == map[]
    }

    /** A working directory with no metadata file yet. */
    constructor ()
      ensures Valid() && !present
    {
      present := false;
      records := map[];
    }

    /** read_metadata_file: returns the whole store, first creating an empty file when there is none. */
    method ReadAll() returns (store: map<string, Record>)
      requires Valid()
      modifies this
      ensures Valid() && present
      ensures records == old(records)
      ensures store == records
      ensures !old(present) ==> store == map[]
    {
      if !present {
        present := true;
        records := map[];
      }
      store := records;
    }

    /** store_metadata: reads the store, upserts the record for `site` stamped with `now`, and writes the store back. */
    method StoreMetadata(site: string, links: nat, now: string)
      requires Valid()
      modifies this
      ensures Valid() && present
      ensures records == Upsert(old(records), site, links, now)
    {
      var metadata := ReadAll();
      var newMetadata := Record(links, site, now);
      metadata := metadata[site := newMetadata];
      records := metadata;
    }

    /** fetch_metadata: for each URL, the stored record under its basename, or None where it reports "not found". */
    method FetchMetadata(urls: seq<string>) returns (found: seq<Option<Record>>)
      requires Valid()
      modifies this
      ensures Valid() && present
      ensures records == old(records)
      ensures |found| == |urls|
      ensures forall i :: 0 <= i < |urls| ==> found[i] == Lookup(records, urls[i])
    {
      var metadata := ReadAll();
      found := [];
      for i := 0 to |urls|
        invariant |found| == i
        invariant forall j :: 0 <= j < i ==> found[j] == Lookup(metadata, urls[j])
      {
        var baseUrl := PageId(urls[i]);
        if baseUrl !in metadata {
          found := found + [None];
          continue;
        }
        found := found + [Some(metadata[baseUrl])];
      }
    }
  }
}
