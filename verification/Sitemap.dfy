/**
  Sitemap collection: a depth-bounded recursion over an index graph that may be cyclic. The fetch with its
  decompression and XML decoding is an arbitrary function of the URL.
*/
module Sitemap {
  import opened Basics
  import opened Strings

  /** The two decodings that `parseSitemapXML` tries: the `loc` texts, if the document has that root element. */
  datatype Document = Document(urlset: Option<seq<string>>, index: Option<seq<string>>)

  /** None: the fetch failed, answered with an error status, or could not be decompressed. */
  type Fetcher = string -> Option<Document>

  datatype Parsed = Parsed(urls: seq<string>, nested: seq<string>)

  const MAX_DEPTH: nat := 5

  /** The entries with a location, trimmed. */
  function Locations(locs: seq<string>): seq<string> {
    if locs == [] then [] else Locations(locs[..|locs| - 1]) + Location(locs[|locs| - 1])
  }

  function Location(loc: string): seq<string> {
    if loc == "" then [] else [Trim(loc)]
  }

  method CollectLocations(locs: seq<string>) returns (out: seq<string>)
    ensures out == Locations(locs)
  {
    out := [];
    for i := 0 to |locs|
      invariant out == Locations(locs[..i])
    {
      assert locs[..i + 1][..i] == locs[..i];
      if locs[i] != "" {
        out := out + [Trim(locs[i])];
      }
    }
    assert locs[..|locs|] == locs;
  }

  /** A document is a set of URLs, or else an index, or else an error. An empty list of entries does not count. */
  function Parse(d: Document): Option<Parsed> {
    if d.urlset.Some? && d.urlset.value != [] then Some(Parsed(Locations(d.urlset.value), []))
    else if d.index.Some? && d.index.value != [] then Some(Parsed([], Locations(d.index.value)))
    else None
  }

  method ParseSitemapXml(d: Document) returns (r: Option<Parsed>)
    ensures r == Parse(d)
  {
    if d.urlset.Some? && |d.urlset.value| > 0 {
      var urls := CollectLocations(d.urlset.value);
      return Some(Parsed(urls, []));
    }
    if d.index.Some? && |d.index.value| > 0 {
      var nested := CollectLocations(d.index.value);
      return Some(Parsed([], nested));
    }
    r := None;
  }

  ghost predicate HasEntries(locs: Option<seq<string>>) {
    locs.Some? && locs.value != []
  }

  /** Some entry has a location, and this is it without the blanks around it. */
  ghost predicate Lists(locs: Option<seq<string>>, url: string) {
    locs.Some? && exists loc :: loc in locs.value && loc != "" && Trim(loc) == url
  }

  lemma {:induction false} LocationsAre(locs: seq<string>, url: string)
    ensures url in Locations(locs) <==> exists loc :: loc in locs && loc != "" && Trim(loc) == url
  {
    if locs != [] {
      var init, last := locs[..|locs| - 1], locs[|locs| - 1];
      LocationsAre(init, url);
      assert locs == init + [last];
    }
  }

  /** What a document yields: an error exactly when neither list has entries, and otherwise the URLs listed by the URL
      set, or the sitemaps listed by the index if there are no entries in the URL set. An entry of blanks only passes as
      the empty URL; a URL set of empty entries only still hides the index. */
  lemma ParseYields(d: Document, url: string)
    ensures Parse(d).None? <==> !HasEntries(d.urlset) && !HasEntries(d.index)
    ensures Parse(d).Some? ==> (url in Parse(d).value.urls <==> Lists(d.urlset, url))
    ensures Parse(d).Some? ==> (url in Parse(d).value.nested <==> !HasEntries(d.urlset) && Lists(d.index, url))
    ensures Parse(d).Some? && url in Parse(d).value.urls + Parse(d).value.nested ==> Trimmed(url)
  {
    TrimTrims(url);
    if d.urlset.Some? {
      LocationsAre(d.urlset.value, url);
    }
    if d.index.Some? {
      LocationsAre(d.index.value, url);
    }
    forall loc | Trim(loc) == url ensures Trimmed(url) {
      TrimTrims(loc);
    }
  }

  /** The sitemap at `url` when it is reached at this depth: its contents, unless too deep or in error. */
  function Visit(fetch: Fetcher, url: string, depth: nat): Option<Parsed> {
    if depth > MAX_DEPTH || fetch(url).None? then None else Parse(fetch(url).value)
  }

  function Collect(fetch: Fetcher, url: string, depth: nat): Option<seq<string>>
    decreases if depth > MAX_DEPTH then 0 else MAX_DEPTH + 1 - depth, 0
  {
    var visit := Visit(fetch, url, depth);
    if visit.None? then None
    else Some(visit.value.urls + CollectAll(fetch, visit.value.nested, depth + 1))
  }

  function CollectAll(fetch: Fetcher, nested: seq<string>, depth: nat): seq<string>
    requires depth > 0
    decreases if depth > MAX_DEPTH then 0 else MAX_DEPTH + 1 - depth, |nested| + 1
  {
    if nested == [] then []
    else
      var init, last := nested[..|nested| - 1], Collect(fetch, nested[|nested| - 1], depth);
      CollectAll(fetch, init, depth) + if last.Some? then last.value else []
  }

  lemma CollectNext(fetch: Fetcher, nested: seq<string>, i: nat, depth: nat)
    requires depth > 0 && i < |nested|
    ensures var next := Collect(fetch, nested[i], depth);
      CollectAll(fetch, nested[..i + 1], depth)
      == CollectAll(fetch, nested[..i], depth) + if next.Some? then next.value else []
  {
    assert nested[..i + 1][..i] == nested[..i];
  }

  function Nested(fetch: Fetcher, url: string, depth: nat): seq<string> {
    var visit := Visit(fetch, url, depth);
    if visit.None? then [] else visit.value.nested
  }

  /** What is collected from a sitemap that is there and its first `n` nested ones. */
  function FirstCollected(fetch: Fetcher, url: string, depth: nat, n: nat): seq<string>
    requires Visit(fetch, url, depth).Some? && n <= |Nested(fetch, url, depth)|
  {
    Visit(fetch, url, depth).value.urls + CollectAll(fetch, Nested(fetch, url, depth)[..n], depth + 1)
  }

  function Collected(fetch: Fetcher, url: string, depth: nat): seq<string> {
    var r := Collect(fetch, url, depth);
    if r.Some? then r.value else []
  }

  lemma CollectedNext(fetch: Fetcher, url: string, depth: nat, n: nat)
    requires Visit(fetch, url, depth).Some? && n < |Nested(fetch, url, depth)|
    ensures FirstCollected(fetch, url, depth, n + 1)
         == FirstCollected(fetch, url, depth, n) + Collected(fetch, Nested(fetch, url, depth)[n], depth + 1)
  {
    var nested := Nested(fetch, url, depth);
    CollectNext(fetch, nested, n, depth + 1);
    Regroup(Visit(fetch, url, depth).value.urls, CollectAll(fetch, nested[..n], depth + 1),
            Collected(fetch, nested[n], depth + 1));
  }

  lemma AllCollected(fetch: Fetcher, url: string, depth: nat)
    requires Visit(fetch, url, depth).Some?
    ensures FirstCollected(fetch, url, depth, |Nested(fetch, url, depth)|) == Collected(fetch, url, depth)
  {
    var nested := Nested(fetch, url, depth);
    assert nested[..|nested|] == nested;
  }

  method ParseSitemap(fetch: Fetcher, url: string) returns (r: Option<seq<string>>)
    ensures r == Collect(fetch, url, 0)
  {
    r := ParseRecursive(fetch, url, 0);
  }

  method ParseRecursive(fetch: Fetcher, url: string, depth: nat) returns (r: Option<seq<string>>)
    ensures r == Collect(fetch, url, depth)
    decreases if depth > MAX_DEPTH then 0 else MAX_DEPTH + 1 - depth
  {
    if depth > MAX_DEPTH {
      return None;
    }
    var doc := fetch(url);
    if doc.None? {
      return None;
    }
    var parsed := ParseSitemapXml(doc.value);
    if parsed.None? {
      return None;
    }
    var urls, nested := parsed.value.urls, parsed.value.nested;
    assert urls == FirstCollected(fetch, url, depth, 0);
    for i := 0 to |nested|
      invariant urls == FirstCollected(fetch, url, depth, i)
    {
      var below := ParseRecursive(fetch, nested[i], depth + 1);
      CollectedNext(fetch, url, depth, i);
      if below.None? {
        continue;
      }
      urls := urls + below.value;
    }
    AllCollected(fetch, url, depth);
    r := Some(urls);
  }

  // What is collected

  /** An entry of some sitemap: which nested index entries lead there, and its place in that sitemap. */
  datatype Entry = Entry(chain: seq<nat>, place: nat)

  /** Walks the chain, every link of which must be fetched, parsed and not too deep, and looks the entry up. */
  function Lookup(fetch: Fetcher, url: string, depth: nat, e: Entry): Option<string>
    decreases |e.chain|
  {
    var visit := Visit(fetch, url, depth);
    if visit.None? then None
    else if e.chain == [] then
      if e.place < |visit.value.urls| then Some(visit.value.urls[e.place]) else None
    else if e.chain[0] < |visit.value.nested| then
      Lookup(fetch, visit.value.nested[e.chain[0]], depth + 1, Entry(e.chain[1..], e.place))
    else None
  }

  predicate ChainBefore(a: seq<nat>, b: seq<nat>) {
    b != [] && (a == [] || a[0] < b[0] || (a[0] == b[0] && ChainBefore(a[1..], b[1..])))
  }

  /** Preorder. */
  predicate Before(a: Entry, b: Entry) {
    ChainBefore(a.chain, b.chain) || (a.chain == b.chain && a.place < b.place)
  }

  ghost predicate Preorder(es: seq<Entry>) {
    forall i, j | 0 <= i < j < |es| :: Before(es[i], es[j])
  }

  ghost predicate Listing(fetch: Fetcher, url: string, depth: nat, es: seq<Entry>, urls: seq<string>) {
    && |es| == |urls| && Preorder(es)
    && (forall i | 0 <= i < |es| :: Lookup(fetch, url, depth, es[i]) == Some(urls[i]))
    && (forall e | Lookup(fetch, url, depth, e).Some? :: e in es)
  }

  function Under(i: nat, es: seq<Entry>): seq<Entry> {
    seq(|es|, k requires 0 <= k < |es| => Entry([i] + es[k].chain, es[k].place))
  }

  /** The entries of a sitemap that is there: its own, then those under its first `n` nested sitemaps. */
  ghost predicate PartialListing(fetch: Fetcher, url: string, depth: nat, n: nat, es: seq<Entry>, urls: seq<string>) {
    && |es| == |urls| && Preorder(es)
    && (forall i | 0 <= i < |es| :: Lookup(fetch, url, depth, es[i]) == Some(urls[i]))
    && (forall e | e in es :: e.chain == [] || e.chain[0] < n)
    && (forall e | Lookup(fetch, url, depth, e).Some? && (e.chain == [] || e.chain[0] < n) :: e in es)
  }

  lemma OwnEntries(fetch: Fetcher, url: string, depth: nat) returns (es: seq<Entry>)
    requires Visit(fetch, url, depth).Some?
    ensures PartialListing(fetch, url, depth, 0, es, Visit(fetch, url, depth).value.urls)
  {
    var urls := Visit(fetch, url, depth).value.urls;
    es := seq(|urls|, i requires 0 <= i < |urls| => Entry([], i));
    forall e | Lookup(fetch, url, depth, e).Some? && e.chain == [] ensures e in es {
      assert es[e.place] == e;
    }
  }

  lemma UnderLookup(fetch: Fetcher, url: string, depth: nat, n: nat, e: Entry)
    requires Visit(fetch, url, depth).Some? && n < |Visit(fetch, url, depth).value.nested|
    ensures Lookup(fetch, url, depth, Entry([n] + e.chain, e.place))
         == Lookup(fetch, Visit(fetch, url, depth).value.nested[n], depth + 1, e)
  {
    assert ([n] + e.chain)[1..] == e.chain;
  }

  lemma UnderOrder(n: nat, below: seq<Entry>)
    requires Preorder(below)
    ensures Preorder(Under(n, below))
  {
    forall i, j | 0 <= i < j < |below| ensures Before(Under(n, below)[i], Under(n, below)[j]) {
      assert Before(below[i], below[j]);
      assert ([n] + below[i].chain)[1..] == below[i].chain && ([n] + below[j].chain)[1..] == below[j].chain;
    }
  }

  lemma JoinOrder(n: nat, es: seq<Entry>, under: seq<Entry>)
    requires Preorder(es) && Preorder(under)
    requires forall e | e in es :: e.chain == [] || e.chain[0] < n
    requires forall e | e in under :: e.chain != [] && e.chain[0] == n
    ensures Preorder(es + under)
  {
    var all := es + under;
    forall i, j | 0 <= i < j < |all| ensures Before(all[i], all[j]) {
      if i < |es| <= j {
        assert all[i] in es && all[j] in under;
      }
    }
  }

  lemma SubtreeComplete(fetch: Fetcher, url: string, depth: nat, n: nat, below: seq<Entry>, e: Entry)
    requires Visit(fetch, url, depth).Some? && n < |Visit(fetch, url, depth).value.nested|
    requires forall e | Lookup(fetch, Visit(fetch, url, depth).value.nested[n], depth + 1, e).Some? :: e in below
    requires Lookup(fetch, url, depth, e).Some? && e.chain != [] && e.chain[0] == n
    ensures e in Under(n, below)
  {
    var sub := Entry(e.chain[1..], e.place);
    assert [n] + sub.chain == e.chain;
    UnderLookup(fetch, url, depth, n, sub);
    assert Entry([n] + sub.chain, sub.place) == e && sub in below;
    var k :| 0 <= k < |below| && below[k] == sub;
    assert Under(n, below)[k] == e;
  }

  lemma AddSubtree(fetch: Fetcher, url: string, depth: nat, n: nat, es: seq<Entry>, urls: seq<string>,
                   below: seq<Entry>, belowUrls: seq<string>)
    requires Visit(fetch, url, depth).Some? && n < |Visit(fetch, url, depth).value.nested|
    requires PartialListing(fetch, url, depth, n, es, urls)
    requires Listing(fetch, Visit(fetch, url, depth).value.nested[n], depth + 1, below, belowUrls)
    ensures PartialListing(fetch, url, depth, n + 1, es + Under(n, below), urls + belowUrls)
  {
    var under := Under(n, below);
    UnderOrder(n, below);
    JoinOrder(n, es, under);
    forall k | 0 <= k < |below| ensures Lookup(fetch, url, depth, under[k]) == Some(belowUrls[k]) {
      UnderLookup(fetch, url, depth, n, below[k]);
    }
    forall e | Lookup(fetch, url, depth, e).Some? && (e.chain == [] || e.chain[0] < n + 1)
      ensures e in es + under
    {
      if e.chain != [] && e.chain[0] == n {
        SubtreeComplete(fetch, url, depth, n, below, e);
      }
    }
    JoinLookups(fetch, url, depth, es, urls, under, belowUrls);
    assert forall e | e in es + under :: e in es || e in under;
  }

  lemma JoinLookups(fetch: Fetcher, url: string, depth: nat, es: seq<Entry>, urls: seq<string>,
                    under: seq<Entry>, belowUrls: seq<string>)
    requires |es| == |urls| && |under| == |belowUrls|
    requires forall i | 0 <= i < |es| :: Lookup(fetch, url, depth, es[i]) == Some(urls[i])
    requires forall i | 0 <= i < |under| :: Lookup(fetch, url, depth, under[i]) == Some(belowUrls[i])
    ensures forall i | 0 <= i < |es + under| ::
              Lookup(fetch, url, depth, (es + under)[i]) == Some((urls + belowUrls)[i])
  {
  }

  /** What is collected from a sitemap and its first `n` nested ones can be listed. */
  ghost predicate HasFirst(fetch: Fetcher, url: string, depth: nat, n: nat)
    requires Visit(fetch, url, depth).Some? && n <= |Nested(fetch, url, depth)|
  {
    exists es :: PartialListing(fetch, url, depth, n, es, FirstCollected(fetch, url, depth, n))
  }

  /** What is collected from `url` can be listed. */
  ghost predicate HasListing(fetch: Fetcher, url: string, depth: nat) {
    exists es :: Listing(fetch, url, depth, es, Collected(fetch, url, depth))
  }

  lemma HasOwn(fetch: Fetcher, url: string, depth: nat)
    requires Visit(fetch, url, depth).Some?
    ensures HasFirst(fetch, url, depth, 0)
  {
    var es := OwnEntries(fetch, url, depth);
    assert FirstCollected(fetch, url, depth, 0) == Visit(fetch, url, depth).value.urls;
  }

  lemma HasNext(fetch: Fetcher, url: string, depth: nat, n: nat, below: string)
    requires Visit(fetch, url, depth).Some? && n < |Nested(fetch, url, depth)| && Nested(fetch, url, depth)[n] == below
    requires HasFirst(fetch, url, depth, n) && HasListing(fetch, below, depth + 1)
    ensures HasFirst(fetch, url, depth, n + 1)
  {
    var urls, more := FirstCollected(fetch, url, depth, n), Collected(fetch, below, depth + 1);
    var es :| PartialListing(fetch, url, depth, n, es, urls);
    var sub :| Listing(fetch, below, depth + 1, sub, more);
    AddSubtree(fetch, url, depth, n, es, urls, sub, more);
    CollectedNext(fetch, url, depth, n);
  }

  lemma LookupWithin(fetch: Fetcher, url: string, depth: nat, e: Entry)
    requires Lookup(fetch, url, depth, e).Some?
    ensures e.chain == [] || e.chain[0] < |Nested(fetch, url, depth)|
  {
  }

  lemma WholeListing(fetch: Fetcher, url: string, depth: nat, es: seq<Entry>, urls: seq<string>)
    requires Visit(fetch, url, depth).Some?
    requires PartialListing(fetch, url, depth, |Nested(fetch, url, depth)|, es, urls)
    ensures Listing(fetch, url, depth, es, urls)
  {
    forall e | Lookup(fetch, url, depth, e).Some? ensures e in es {
      LookupWithin(fetch, url, depth, e);
    }
  }

  lemma HasAll(fetch: Fetcher, url: string, depth: nat)
    requires Visit(fetch, url, depth).Some? && HasFirst(fetch, url, depth, |Nested(fetch, url, depth)|)
    ensures HasListing(fetch, url, depth)
  {
    var n := |Nested(fetch, url, depth)|;
    var es :| PartialListing(fetch, url, depth, n, es, FirstCollected(fetch, url, depth, n));
    AllCollected(fetch, url, depth);
    WholeListing(fetch, url, depth, es, Collected(fetch, url, depth));
  }

  lemma HasNone(fetch: Fetcher, url: string, depth: nat)
    requires Visit(fetch, url, depth).None?
    ensures HasListing(fetch, url, depth)
  {
    assert Listing(fetch, url, depth, [], Collected(fetch, url, depth));
  }

  lemma {:induction false} FirstListed(fetch: Fetcher, url: string, depth: nat, n: nat)
    requires Visit(fetch, url, depth).Some? && n <= |Nested(fetch, url, depth)|
    ensures HasFirst(fetch, url, depth, n)
    decreases MAX_DEPTH + 1 - depth, n
  {
    if n == 0 {
      HasOwn(fetch, url, depth);
    } else {
      var below := Nested(fetch, url, depth)[n - 1];
      FirstListed(fetch, url, depth, n - 1);
      Listed(fetch, below, depth + 1);
      HasNext(fetch, url, depth, n - 1, below);
    }
  }

  lemma {:induction false} Listed(fetch: Fetcher, url: string, depth: nat)
    ensures HasListing(fetch, url, depth)
    decreases if depth > MAX_DEPTH then 0 else MAX_DEPTH + 1 - depth, |Nested(fetch, url, depth)| + 1
  {
    if Visit(fetch, url, depth).None? {
      HasNone(fetch, url, depth);
    } else {
      FirstListed(fetch, url, depth, |Nested(fetch, url, depth)|);
      HasAll(fetch, url, depth);
    }
  }

  lemma {:induction false} ChainsAreShort(fetch: Fetcher, url: string, depth: nat, e: Entry)
    requires Lookup(fetch, url, depth, e).Some?
    ensures |e.chain| + depth <= MAX_DEPTH
    decreases |e.chain|
  {
    if e.chain != [] {
      ChainsAreShort(fetch, Visit(fetch, url, depth).value.nested[e.chain[0]], depth + 1,
                     Entry(e.chain[1..], e.place));
    }
  }

  /** Follows a chain of nested sitemaps, however long, and looks the entry up at its end. */
  function Follow(fetch: Fetcher, url: string, e: Entry): Option<string>
    decreases |e.chain|
  {
    if fetch(url).None? || Parse(fetch(url).value).None? then None
    else
      var parsed := Parse(fetch(url).value).value;
      if e.chain == [] then if e.place < |parsed.urls| then Some(parsed.urls[e.place]) else None
      else if e.chain[0] < |parsed.nested| then Follow(fetch, parsed.nested[e.chain[0]], Entry(e.chain[1..], e.place))
      else None
  }

  lemma {:induction false} LookupFollows(fetch: Fetcher, url: string, depth: nat, e: Entry)
    ensures Lookup(fetch, url, depth, e) == if |e.chain| + depth <= 5 then Follow(fetch, url, e) else None
    decreases |e.chain|
  {
    if e.chain != [] && Visit(fetch, url, depth).Some? {
      var visit := Visit(fetch, url, depth).value;
      if e.chain[0] < |visit.nested| {
        LookupFollows(fetch, visit.nested[e.chain[0]], depth + 1, Entry(e.chain[1..], e.place));
      }
    }
  }

  /** The entries, in preorder, that chains of at most five nested sitemaps lead to, each once. */
  ghost predicate AllWithinFive(fetch: Fetcher, url: string, es: seq<Entry>, urls: seq<string>) {
    && |es| == |urls| && Preorder(es)
    && (forall i | 0 <= i < |es| :: |es[i].chain| <= 5 && Follow(fetch, url, es[i]) == Some(urls[i]))
    && (forall e: Entry | |e.chain| <= 5 && Follow(fetch, url, e).Some? :: e in es)
  }

  /** Over any fetch function, cyclic or not: the result is exactly the entries at the end of a chain of at most five
      nested sitemaps all of which are fetched and parsed, each entry once, in preorder; and it is an error exactly
      when the sitemap itself is. */
  lemma CollectionIsExact(fetch: Fetcher, url: string)
    ensures Collect(fetch, url, 0).None? <==> fetch(url).None? || Parse(fetch(url).value).None?
    ensures Collect(fetch, url, 0).Some? ==>
              exists es :: AllWithinFive(fetch, url, es, Collect(fetch, url, 0).value)
                           && Listing(fetch, url, 0, es, Collect(fetch, url, 0).value)
  {
    Listed(fetch, url, 0);
    if Collect(fetch, url, 0).Some? {
      var urls := Collect(fetch, url, 0).value;
      var es :| Listing(fetch, url, 0, es, urls);
      forall e: Entry
        ensures Lookup(fetch, url, 0, e) == if |e.chain| <= 5 then Follow(fetch, url, e) else None {
        LookupFollows(fetch, url, 0, e);
      }
      assert AllWithinFive(fetch, url, es, urls);
    }
  }

  /** The locations of a list are taken one by one, in order. */
  lemma {:induction false} LocationsInOrder(x: seq<string>, y: seq<string>, loc: string)
    ensures Locations(x + y) == Locations(x) + Locations(y)
    ensures Locations([loc]) == if loc == "" then [] else [Trim(loc)]
  {
    assert [loc][..0] == [];
    if y == [] {
      assert x + y == x;
    } else {
      InitOfConcat(x, y);
      LocationsInOrder(x, y[..|y| - 1], loc);
      Regroup(Locations(x), Locations(y[..|y| - 1]), Location(y[|y| - 1]));
    }
  }
}
