/**
  The near-duplicate index that the workers of one crawl share: fingerprints seen so far, each with the URL that
  brought it. `bits.OnesCount64(a ^ b)` is written out on natural numbers.
*/
module Duplicates {
  import opened Basics

  type Url = string

  const BITS: nat := 64

  /** `a ^ b` on the lowest `bits` bits. */
  function Xor(a: nat, b: nat, bits: nat): nat {
    if bits == 0 then 0 else (if a % 2 != b % 2 then 1 else 0) + 2 * Xor(a / 2, b / 2, bits - 1)
  }

  function OnesCount(x: nat, bits: nat): nat {
    if bits == 0 then 0 else x % 2 + OnesCount(x / 2, bits - 1)
  }

  function HammingDistance(a: nat, b: nat): nat {
    OnesCount(Xor(a, b, BITS), BITS)
  }

  /** The number of differing bits, counted directly. */
  function Differing(a: nat, b: nat, bits: nat): nat {
    if bits == 0 then 0 else (if a % 2 != b % 2 then 1 else 0) + Differing(a / 2, b / 2, bits - 1)
  }

  lemma {:induction false} DistanceCountsBits(a: nat, b: nat, bits: nat)
    ensures OnesCount(Xor(a, b, bits), bits) == Differing(a, b, bits)
  {
    if bits > 0 {
      DistanceCountsBits(a / 2, b / 2, bits - 1);
      assert Xor(a, b, bits) / 2 == Xor(a / 2, b / 2, bits - 1);
    }
  }

  function Pow2(n: nat): nat {
    if n == 0 then 1 else 2 * Pow2(n - 1)
  }

  lemma {:induction false} DifferingIsMetric(a: nat, b: nat, d: nat, bits: nat)
    ensures Differing(a, b, bits) == Differing(b, a, bits)
    ensures Differing(a, d, bits) <= Differing(a, b, bits) + Differing(b, d, bits)
    ensures a < Pow2(bits) && b < Pow2(bits) ==> (Differing(a, b, bits) == 0 <==> a == b)
    ensures Differing(a, a, bits) == 0
  {
    if bits > 0 {
      DifferingIsMetric(a / 2, b / 2, d / 2, bits - 1);
    }
  }

  /** The Hamming distance of 64-bit fingerprints is a metric. */
  lemma HammingIsMetric(a: nat, b: nat, d: nat)
    ensures HammingDistance(a, b) == HammingDistance(b, a)
    ensures HammingDistance(a, d) <= HammingDistance(a, b) + HammingDistance(b, d)
    ensures a < Pow2(64) && b < Pow2(64) ==> (HammingDistance(a, b) == 0 <==> a == b)
    ensures HammingDistance(a, a) == 0
  {
    DistanceCountsBits(a, b, BITS);
    DistanceCountsBits(b, a, BITS);
    DistanceCountsBits(a, d, BITS);
    DistanceCountsBits(b, d, BITS);
    DistanceCountsBits(a, a, BITS);
    DifferingIsMetric(a, b, d, BITS);
  }

  /** What one page's turn under the lock may do to the index. Which of several close fingerprints is reported is left
      open, as the iteration order of a Go map is. */
  ghost predicate Turn(threshold: nat, seen: map<nat, Url>, page: Page, seen': map<nat, Url>) {
    match page.duplicateOf
    case Some(url) =>
      seen' == seen && exists h | h in seen :: seen[h] == url && HammingDistance(page.hash, h) <= threshold
    case None =>
      if page.checked then
        seen' == seen[page.hash := page.url] && forall h | h in seen :: HammingDistance(page.hash, h) > threshold
      else seen' == seen
  }

  /** A page as it leaves the check: its URL, fingerprint, whether it was checked at all, and the verdict. */
  datatype Page = Page(url: Url, hash: nat, checked: bool, duplicateOf: Option<Url>)

  function ChosenThreshold(requested: int): (threshold: nat)
    ensures threshold == requested || (requested < 0 && threshold == 3)
  {
    if requested < 0 then 3 else requested
  }

  class Index {
    const threshold: nat
    const skipDuplicates: bool
    var seen: map<nat, Url>

    constructor (requestedThreshold: int, skipDuplicates: bool)
      ensures seen == map[] && this.skipDuplicates == skipDuplicates
      ensures threshold == ChosenThreshold(requestedThreshold)
    {
      this.threshold := ChosenThreshold(requestedThreshold);
      this.skipDuplicates := skipDuplicates;
      seen := map[];
    }

    /** The check-and-insert of `processPage`, all of it under the lock. */
    method Check(url: Url, hash: nat) returns (page: Page)
      modifies this
      ensures page.url == url && page.hash == hash && page.checked == (skipDuplicates && hash != 0)
      ensures !page.checked ==> page.duplicateOf.None?
      ensures Turn(threshold, old(seen), page, seen)
    {
      page := Page(url, hash, skipDuplicates && hash != 0, None);
      if page.checked {
        var todo := seen.Keys;
        while todo != {}
          invariant todo <= seen.Keys && seen == old(seen)
          invariant forall h | h in seen && h !in todo :: HammingDistance(hash, h) > threshold
          decreases |todo|
        {
          var h :| h in todo;
          if HammingDistance(hash, h) <= threshold {
            page := page.(duplicateOf := Some(seen[h]));
            return;
          }
          todo := todo - {h};
        }
        seen := seen[hash := url];
      }
    }
  }

  // Over a whole crawl

  /** The index after the pages had their turns, in the order in which they got the lock. */
  ghost predicate Crawled(threshold: nat, pages: seq<Page>, seen: map<nat, Url>)
    decreases |pages|
  {
    if pages == [] then seen == map[]
    else
      var last := pages[|pages| - 1];
      && (!last.checked ==> last.duplicateOf.None?)
      && exists before :: Crawled(threshold, pages[..|pages| - 1], before) && Turn(threshold, before, last, seen)
  }

  ghost predicate Original(p: Page) {
    p.checked && p.duplicateOf.None?
  }

  ghost predicate DistinctUrls(pages: seq<Page>) {
    forall i, j | 0 <= i < j < |pages| :: pages[i].url != pages[j].url
  }

  /** The index holds exactly the original pages. */
  ghost predicate Mirrors(pages: seq<Page>, seen: map<nat, Url>) {
    && (forall h | h in seen :: exists p | p in pages :: Original(p) && p.hash == h && p.url == seen[h])
    && (forall p | p in pages && Original(p) :: p.hash in seen && seen[p.hash] == p.url)
  }

  ghost predicate Packed(threshold: nat, seen: map<nat, Url>) {
    forall g, h | g in seen && h in seen && g != h :: HammingDistance(g, h) > threshold
  }

  /** The page a duplicate points to: an original, close enough, that had its turn earlier. */
  ghost predicate PointsTo(threshold: nat, pages: seq<Page>, i: nat, j: nat)
    requires i < |pages| && j < |pages|
  {
    && j < i && Original(pages[j])
    && pages[i].duplicateOf == Some(pages[j].url)
    && HammingDistance(pages[i].hash, pages[j].hash) <= threshold
  }

  ghost predicate Explained(threshold: nat, pages: seq<Page>) {
    forall i: nat | i < |pages| && pages[i].duplicateOf.Some? ::
      exists j: nat :: j < i && PointsTo(threshold, pages, i, j)
  }

  lemma {:induction false} IndexInvariant(threshold: nat, pages: seq<Page>, seen: map<nat, Url>)
    requires Crawled(threshold, pages, seen)
    ensures Mirrors(pages, seen) && Packed(threshold, seen)
    ensures Explained(threshold, pages)
    decreases |pages|
  {
    if pages != [] {
      var n := |pages| - 1;
      var rest, last := pages[..n], pages[n];
      var before :| Crawled(threshold, rest, before) && Turn(threshold, before, last, seen);
      IndexInvariant(threshold, rest, before);
      assert pages == rest + [last];
      NextMirrors(threshold, rest, before, last, seen);
      NextExplained(threshold, rest, before, last, seen);
    }
  }

  lemma NextExplained(threshold: nat, rest: seq<Page>, before: map<nat, Url>, last: Page, seen: map<nat, Url>)
    requires Mirrors(rest, before) && Explained(threshold, rest) && Turn(threshold, before, last, seen)
    ensures Explained(threshold, rest + [last])
  {
    var pages, n := rest + [last], |rest|;
    forall i: nat | i < |pages| && pages[i].duplicateOf.Some?
      ensures exists j: nat :: j < i && PointsTo(threshold, pages, i, j)
    {
      if i < n {
        assert rest[i] == pages[i];
        var j: nat :| j < i && PointsTo(threshold, rest, i, j);
        assert PointsTo(threshold, pages, i, j);
      } else {
        var h :| h in before && before[h] == last.duplicateOf.value && HammingDistance(last.hash, h) <= threshold;
        var p :| p in rest && Original(p) && p.hash == h && p.url == before[h];
        var j: nat :| j < n && rest[j] == p;
        assert PointsTo(threshold, pages, i, j);
      }
    }
  }

  lemma NextMirrors(threshold: nat, rest: seq<Page>, before: map<nat, Url>, last: Page, seen: map<nat, Url>)
    requires Mirrors(rest, before) && Packed(threshold, before) && Turn(threshold, before, last, seen)
    requires !last.checked ==> last.duplicateOf.None?
    ensures Mirrors(rest + [last], seen) && Packed(threshold, seen)
  {
    var pages := rest + [last];
    assert forall p | p in rest :: p in pages;
    assert last in pages;
    HammingIsMetric(last.hash, last.hash, last.hash);
    forall g | g in before ensures HammingDistance(last.hash, g) == HammingDistance(g, last.hash) {
      HammingIsMetric(last.hash, g, g);
    }
    forall h | h in seen ensures exists p | p in pages :: Original(p) && p.hash == h && p.url == seen[h] {
      if h in before && seen[h] == before[h] {
        var p :| p in rest && Original(p) && p.hash == h && p.url == before[h];
        assert p in pages;
      } else {
        assert Original(last) && last.hash == h && last.url == seen[h];
      }
    }
  }

  ghost predicate Apart(threshold: nat, pages: seq<Page>) {
    forall i, j | 0 <= i < j < |pages| && Original(pages[i]) && Original(pages[j]) ::
      HammingDistance(pages[i].hash, pages[j].hash) > threshold
  }

  /** Every duplicate names an earlier original with another URL. */
  ghost predicate Stars(threshold: nat, pages: seq<Page>) {
    forall i: nat | i < |pages| && pages[i].duplicateOf.Some? ::
      exists j: nat :: j < i && PointsTo(threshold, pages, i, j) && pages[j].url != pages[i].url
  }

  ghost predicate Near(threshold: nat, pages: seq<Page>) {
    forall i, j | 0 <= i < j < |pages| && pages[i].duplicateOf.Some? && pages[i].duplicateOf == pages[j].duplicateOf ::
      HammingDistance(pages[i].hash, pages[j].hash) <= 2 * threshold
  }

  lemma DuplicatesNear(threshold: nat, pages: seq<Page>, i: nat, j: nat, a: nat)
    requires a < |pages| && i < |pages| && j < |pages|
    requires PointsTo(threshold, pages, i, a) && PointsTo(threshold, pages, j, a)
    ensures HammingDistance(pages[i].hash, pages[j].hash) <= 2 * threshold
  {
    HammingIsMetric(pages[i].hash, pages[a].hash, pages[j].hash);
    HammingIsMetric(pages[a].hash, pages[j].hash, pages[j].hash);
  }

  lemma ClustersAreSmall(threshold: nat, pages: seq<Page>)
    requires Explained(threshold, pages) && DistinctUrls(pages)
    ensures Near(threshold, pages)
  {
    forall i, j | 0 <= i < j < |pages| && pages[i].duplicateOf.Some? && pages[i].duplicateOf == pages[j].duplicateOf
      ensures HammingDistance(pages[i].hash, pages[j].hash) <= 2 * threshold
    {
      var a: nat :| a < i && PointsTo(threshold, pages, i, a);
      var b: nat :| b < j && PointsTo(threshold, pages, j, b);
      assert a == b;
      DuplicatesNear(threshold, pages, i, j, a);
    }
  }

  /** For every order of turns: the originals are pairwise more than the threshold apart; a duplicate names the URL of
      an earlier original page within the threshold, which is another page when URLs are not visited twice; and two
      duplicates of one original are within twice the threshold. */
  lemma ClustersAreStars(threshold: nat, pages: seq<Page>, seen: map<nat, Url>)
    requires Crawled(threshold, pages, seen) && DistinctUrls(pages)
    ensures Apart(threshold, pages) && Stars(threshold, pages) && Near(threshold, pages)
  {
    IndexInvariant(threshold, pages, seen);
    ClustersAreSmall(threshold, pages);
  }
}
