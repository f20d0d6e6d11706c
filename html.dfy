/**
 * A parsed page, as the rest of the program sees it: the sequence of its tags
 * in document order, each with a name and its attributes. Counting links and
 * finding the first tag of a name are the two queries made of it.
 */
module Html {
  import opened Options

  /** One element of a page: its (lower-case) tag name and its attribute values. */
  datatype Tag = Tag(name: string, attrs: map<string, string>)

  /** `tag.get(attr)` is truthy: the attribute is present and its value is not empty. */
  predicate HasValue(t: Tag, attr: string)
  {
    attr in t.attrs && t.attrs[attr] != ""
  }

  /** An anchor that counts as a link: an `a` tag with a non-empty `href`. */
  predicate IsLink(t: Tag)
  {
    t.name == "a" && HasValue(t, "href")
  }

  /** The positions below `n` that hold a link. */
  function LinkPositions(doc: seq<Tag>, n: nat): set<nat>
    requires n <= |doc|
  {
    set i: nat | i < n && IsLink(doc[i])
  }

  /** The positions of all `a` tags, with or without an `href`. */
  function AnchorPositions(doc: seq<Tag>): set<nat>
  {
    set i: nat | i < |doc| && doc[i].name == "a"
  }

  /** The number of links on a page: how many anchors have a non-empty `href`. */
  function LinkCount(doc: seq<Tag>): nat
  {
    |LinkPositions(doc, |doc|)|
  }

  /** get_number_of_links: scans the anchors, counting those whose `href` is present and non-empty. */
  method CountLinks(doc: seq<Tag>) returns (count: nat)
    ensures count == LinkCount(doc)
  {
    count := 0;
    for i := 0 to |doc|
      invariant count == |LinkPositions(doc, i)|
    {
      if doc[i].name != "a" {
        assert LinkPositions(doc, i + 1) == LinkPositions(doc, i);
        continue;
      }
      if HasValue(doc[i], "href") {
        assert LinkPositions(doc, i + 1) == LinkPositions(doc, i) + {i};
        count := count + 1;
      } else {
        assert LinkPositions(doc, i + 1) == LinkPositions(doc, i);
      }
    }
  }

  /** There are never more links than anchors. */
  lemma {:induction false} LinkCountAtMostAnchors(doc: seq<Tag>)
    ensures LinkCount(doc) <= |AnchorPositions(doc)|
  {
    SubsetCardinality(LinkPositions(doc, |doc|), AnchorPositions(doc));
  }

  lemma {:induction false} SubsetCardinality(a: set<nat>, b: set<nat>)
    requires a <= b
    ensures |a| <= |b|
  {
    if a != {} {
      var x :| x in a;
      SubsetCardinality(a - {x}, b - {x});
    }
  }

  /** Anchors without an `href`, or with an empty one, are not links. */
  lemma EmptyHrefIsNotALink()
    ensures LinkCount([Tag("a", map["href" := ""]), Tag("a", map[]), Tag("a", map["href" := "https://x.com"])]) == 1
  {
    var doc := [Tag("a", map["href" := ""]), Tag("a", map[]), Tag("a", map["href" := "https://x.com"])];
    assert !IsLink(doc[0]) && !IsLink(doc[1]) && IsLink(doc[2]);
    assert LinkPositions(doc, |doc|) == {2};
  }

  /** Position `i` holds the first tag named `name`. */
  predicate IsFirstNamed(doc: seq<Tag>, i: nat, name: string)
  {
    i < |doc| && doc[i].name == name && forall j :: 0 <= j < i ==> doc[j].name != name
  }

  /** `soup.find(name)`: the position of the first tag with that name, if there is one. */
  function FindFirst(doc: seq<Tag>, name: string): (r: Option<nat>)
    ensures r.Some? ==> IsFirstNamed(doc, r.value, name)
    ensures r.None? ==> forall j :: 0 <= j < |doc| ==> doc[j].name != name
  {
    if doc == [] then None
    else if doc[0].name == name then Some(0)
    else
      match FindFirst(doc[1..], name)
      case None => None
      case Some(k) => Some(k + 1)
  }
}
