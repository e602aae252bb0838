/**
  The order-preserving merge that headers, cookies and tokens share: one item per non-blank key, at the place of the
  key's first occurrence, with the value of its last.
*/
module Dedup {
  import opened Basics

  /** How items are keyed, and the form in which they are kept. */
  datatype Scheme<!T> = Scheme(key: T -> string, canon: T -> T)

  ghost predicate Lawful<T(!new)>(m: Scheme<T>) {
    forall x: T :: m.key(m.canon(x)) == m.key(x) && m.canon(m.canon(x)) == m.canon(x)
  }

  /** The non-blank keys in the order of their first occurrence. */
  function Order<T>(m: Scheme<T>, items: seq<T>): seq<string> {
    if items == [] then [] else Add(Order(m, items[..|items| - 1]), m.key(items[|items| - 1]))
  }

  function Add(order: seq<string>, key: string): seq<string> {
    if key == "" || key in order then order else order + [key]
  }

  /** The last item with the key. */
  function Latest<T>(m: Scheme<T>, items: seq<T>, key: string): Option<T> {
    if items == [] then None
    else if m.key(items[|items| - 1]) == key then Some(items[|items| - 1])
    else Latest(m, items[..|items| - 1], key)
  }

  ghost predicate Distinct(ks: seq<string>) {
    forall i, j | 0 <= i < j < |ks| :: ks[i] != ks[j]
  }

  lemma {:induction false} OrderKeys<T>(m: Scheme<T>, items: seq<T>)
    ensures forall k :: k in Order(m, items) <==> k != "" && Latest(m, items, k).Some?
    ensures Distinct(Order(m, items))
  {
    if items != [] {
      OrderKeys(m, items[..|items| - 1]);
    }
  }

  lemma {:induction false} LatestHasKey<T>(m: Scheme<T>, items: seq<T>, key: string)
    ensures Latest(m, items, key).Some? ==>
              Latest(m, items, key).value in items && m.key(Latest(m, items, key).value) == key
  {
    if items != [] {
      LatestHasKey(m, items[..|items| - 1], key);
    }
  }

  lemma {:induction false} LatestExists<T>(m: Scheme<T>, items: seq<T>, x: T)
    requires x in items
    ensures Latest(m, items, m.key(x)).Some?
  {
    var init, last := items[..|items| - 1], items[|items| - 1];
    assert items == init + [last];
    if m.key(last) != m.key(x) {
      LatestExists(m, init, x);
    }
  }

  /** One item per key: its first place, its last value. */
  function Norm<T>(m: Scheme<T>, items: seq<T>): seq<T> {
    OrderKeys(m, items);
    var order := Order(m, items);
    seq(|order|, i requires 0 <= i < |order| =>
      assert order[i] in order; m.canon(Latest(m, items, order[i]).value))
  }

  /** `Norm` depends on the key order and on each key's last item only. */
  lemma NormDetermined<T>(m: Scheme<T>, x: seq<T>, y: seq<T>)
    requires Order(m, x) == Order(m, y)
    requires forall k | k in Order(m, x) && Latest(m, x, k).Some? && Latest(m, y, k).Some? ::
               m.canon(Latest(m, x, k).value) == m.canon(Latest(m, y, k).value)
    ensures Norm(m, x) == Norm(m, y)
  {
    OrderKeys(m, x);
    OrderKeys(m, y);
    assert forall i | 0 <= i < |Order(m, x)| :: Order(m, x)[i] in Order(m, x);
  }

  // Concatenation

  function Extend(order: seq<string>, more: seq<string>): seq<string> {
    if more == [] then order else Add(Extend(order, more[..|more| - 1]), more[|more| - 1])
  }

  lemma {:induction false} ExtendKeys(order: seq<string>, more: seq<string>)
    ensures forall k | k != "" :: k in Extend(order, more) <==> k in order || k in more
  {
    if more != [] {
      ExtendKeys(order, more[..|more| - 1]);
      assert more == more[..|more| - 1] + [more[|more| - 1]];
    }
  }

  lemma {:induction false} OrderConcat<T>(m: Scheme<T>, x: seq<T>, y: seq<T>)
    ensures Order(m, x + y) == Extend(Order(m, x), Order(m, y))
  {
    if y == [] {
      assert x + y == x;
    } else {
      var init, key := y[..|y| - 1], m.key(y[|y| - 1]);
      OrderConcat(m, x, init);
      assert (x + y)[..|x + y| - 1] == x + init;
      AddToExtend(Order(m, x), Order(m, init), key);
    }
  }

  lemma AddToExtend(order: seq<string>, more: seq<string>, key: string)
    ensures Extend(order, Add(more, key)) == Add(Extend(order, more), key)
  {
    ExtendKeys(order, more);
    if key != "" && key !in more {
      assert (more + [key])[..|more|] == more;
    }
  }

  lemma {:induction false} LatestConcat<T>(m: Scheme<T>, x: seq<T>, y: seq<T>, key: string)
    ensures Latest(m, x + y, key) == if Latest(m, y, key).Some? then Latest(m, y, key) else Latest(m, x, key)
  {
    if y == [] {
      assert x + y == x;
    } else {
      assert (x + y)[..|x + y| - 1] == x + y[..|y| - 1];
      LatestConcat(m, x, y[..|y| - 1], key);
    }
  }

  // Items that are already one per key

  /** A sequence with one item per key of `ks`, in that order. */
  ghost predicate Keyed<T>(m: Scheme<T>, items: seq<T>, ks: seq<string>) {
    && |items| == |ks| && Distinct(ks) && "" !in ks
    && forall i | 0 <= i < |ks| :: m.key(items[i]) == ks[i]
  }

  lemma {:induction false} KeyedOrder<T>(m: Scheme<T>, items: seq<T>, ks: seq<string>)
    requires Keyed(m, items, ks)
    ensures Order(m, items) == ks
    ensures forall i | 0 <= i < |ks| :: Latest(m, items, ks[i]) == Some(items[i])
    decreases |items|
  {
    if items != [] {
      var n := |items| - 1;
      assert ks == ks[..n] + [ks[n]];
      KeyedOrder(m, items[..n], ks[..n]);
      assert forall i | 0 <= i < n :: ks[..n][i] == ks[i] && items[..n][i] == items[i];
      assert ks[n] !in ks[..n];
    }
  }

  lemma NormKeyed<T(!new)>(m: Scheme<T>, items: seq<T>)
    requires Lawful(m)
    ensures Keyed(m, Norm(m, items), Order(m, items))
    ensures Order(m, Norm(m, items)) == Order(m, items)
    ensures forall k | k != "" && Latest(m, items, k).Some? ::
              Latest(m, Norm(m, items), k) == Some(m.canon(Latest(m, items, k).value))
    ensures forall k | k != "" && Latest(m, items, k).None? :: Latest(m, Norm(m, items), k).None?
  {
    var order := Order(m, items);
    OrderKeys(m, items);
    forall i | 0 <= i < |order| ensures m.key(Norm(m, items)[i]) == order[i] {
      assert order[i] in order;
      LatestHasKey(m, items, order[i]);
    }
    KeyedOrder(m, Norm(m, items), order);
    OrderKeys(m, Norm(m, items));
    forall k | k != "" && Latest(m, items, k).Some?
      ensures Latest(m, Norm(m, items), k) == Some(m.canon(Latest(m, items, k).value))
    {
      var i :| 0 <= i < |order| && order[i] == k;
    }
  }

  /** Normalising a part first changes nothing. */
  lemma NormAbsorbs<T(!new)>(m: Scheme<T>, x: seq<T>, y: seq<T>)
    requires Lawful(m)
    ensures Norm(m, Norm(m, x) + y) == Norm(m, x + y) == Norm(m, x + Norm(m, y))
  {
    NormKeyed(m, x);
    NormKeyed(m, y);
    OrderConcat(m, x, y);
    OrderConcat(m, Norm(m, x), y);
    OrderConcat(m, x, Norm(m, y));
    OrderKeys(m, x + y);
    forall k | k in Order(m, x + y)
      ensures Latest(m, x + y, k).Some?
      ensures Latest(m, Norm(m, x) + y, k).Some? ==>
                m.canon(Latest(m, Norm(m, x) + y, k).value) == m.canon(Latest(m, x + y, k).value)
      ensures Latest(m, x + Norm(m, y), k).Some? ==>
                m.canon(Latest(m, x + Norm(m, y), k).value) == m.canon(Latest(m, x + y, k).value)
    {
      LatestConcat(m, x, y, k);
      LatestConcat(m, Norm(m, x), y, k);
      LatestConcat(m, x, Norm(m, y), k);
    }
    NormDetermined(m, Norm(m, x) + y, x + y);
    NormDetermined(m, x + Norm(m, y), x + y);
  }

  /** The merge of a base and an overlay. */
  function Merge<T>(m: Scheme<T>, base: seq<T>, overlay: seq<T>): seq<T> {
    Norm(m, base + overlay)
  }

  lemma MergeAssociative<T(!new)>(m: Scheme<T>, a: seq<T>, b: seq<T>, c: seq<T>)
    requires Lawful(m)
    ensures Merge(m, Merge(m, a, b), c) == Merge(m, a, Merge(m, b, c)) == Norm(m, a + b + c)
  {
    NormAbsorbs(m, a + b, c);
    NormAbsorbs(m, a, b + c);
    assert a + (b + c) == a + b + c;
  }

  lemma NormIdempotent<T(!new)>(m: Scheme<T>, a: seq<T>)
    requires Lawful(m)
    ensures Norm(m, Norm(m, a)) == Norm(m, a)
  {
    NormAbsorbs(m, a, []);
    assert Norm(m, a) + [] == Norm(m, a) && a + [] == a;
  }

  // What a merge keeps, by places

  /** Item `k` is the last one with its key. */
  ghost predicate LastWithKey<T>(m: Scheme<T>, items: seq<T>, k: nat) {
    k < |items| && forall j | k < j < |items| :: m.key(items[j]) != m.key(items[k])
  }

  ghost predicate FirstWithKey<T>(m: Scheme<T>, items: seq<T>, k: nat) {
    k < |items| && forall j | 0 <= j < k :: m.key(items[j]) != m.key(items[k])
  }

  lemma {:induction false} LatestIsLast<T>(m: Scheme<T>, items: seq<T>, key: string) returns (k: nat)
    requires Latest(m, items, key).Some?
    ensures LastWithKey(m, items, k) && m.key(items[k]) == key && Latest(m, items, key) == Some(items[k])
  {
    var n := |items| - 1;
    if m.key(items[n]) == key {
      k := n;
    } else {
      k := LatestIsLast(m, items[..n], key);
      assert items[..n][k] == items[k];
      assert forall j | k < j < n :: items[..n][j] == items[j];
    }
  }

  /** Some item before place `k` has the key. */
  ghost predicate HasBefore<T>(m: Scheme<T>, items: seq<T>, k: nat, key: string)
    requires k <= |items|
  {
    exists f: nat :: f < k && m.key(items[f]) == key
  }

  lemma HasBeforeMore<T>(m: Scheme<T>, items: seq<T>, n: nat, k: nat, key: string)
    requires n <= |items| && k <= n && HasBefore(m, items[..n], k, key)
    ensures HasBefore(m, items, k, key)
  {
    var f: nat :| f < k && m.key(items[..n][f]) == key;
    assert items[f] == items[..n][f];
  }

  /** The keys come in the order of the places where they first occur. */
  lemma {:induction false} OrderIsFirst<T>(m: Scheme<T>, items: seq<T>, i: nat) returns (k: nat)
    requires i < |Order(m, items)|
    ensures FirstWithKey(m, items, k) && m.key(items[k]) == Order(m, items)[i]
    ensures forall j | 0 <= j < i :: HasBefore(m, items, k, Order(m, items)[j])
    decreases |items|
  {
    var n := |items| - 1;
    var init := items[..n];
    assert forall j | 0 <= j < n :: init[j] == items[j];
    if i < |Order(m, init)| {
      k := OrderIsFirst(m, init, i);
      forall j | 0 <= j < i ensures HasBefore(m, items, k, Order(m, items)[j]) {
        HasBeforeMore(m, items, n, k, Order(m, init)[j]);
      }
    } else {
      k := n;
      NewKeyIsFirst(m, items);
      forall j | 0 <= j < i ensures HasBefore(m, items, k, Order(m, items)[j]) {
        var f := OrderIsFirst(m, init, j);
        assert m.key(items[f]) == Order(m, items)[j];
      }
    }
  }

  lemma NewKeyIsFirst<T>(m: Scheme<T>, items: seq<T>)
    requires items != [] && Order(m, items) != Order(m, items[..|items| - 1])
    ensures FirstWithKey(m, items, |items| - 1)
  {
    var n := |items| - 1;
    OrderKeys(m, items[..n]);
    forall j | 0 <= j < n ensures m.key(items[j]) != m.key(items[n]) {
      assert items[..n][j] == items[j];
      LatestThere(m, items[..n], items[j]);
    }
  }

  lemma LatestThere<T>(m: Scheme<T>, items: seq<T>, x: T)
    requires x in items
    ensures Latest(m, items, m.key(x)).Some?
  {
    LatestExists(m, items, x);
  }

  /** A merge has one item for each key that is not blank: in the order of the first places, with the last items. */
  ghost predicate IsMergeOf<T>(m: Scheme<T>, items: seq<T>, out: seq<T>, firsts: seq<nat>, lasts: seq<nat>) {
    && |out| == |firsts| == |lasts|
    && (forall i | 0 <= i < |out| ::
          && FirstWithKey(m, items, firsts[i]) && LastWithKey(m, items, lasts[i])
          && m.key(items[firsts[i]]) == m.key(items[lasts[i]]) != "" && out[i] == m.canon(items[lasts[i]]))
    && (forall i, j | 0 <= i < j < |out| :: firsts[i] < firsts[j])
    && (forall x | x in items && m.key(x) != "" :: exists i: nat :: i < |out| && m.key(items[lasts[i]]) == m.key(x))
  }

  lemma {:induction false} Places<T>(m: Scheme<T>, items: seq<T>, n: nat) returns (firsts: seq<nat>, lasts: seq<nat>)
    requires n <= |Order(m, items)|
    ensures |firsts| == |lasts| == n
    ensures forall i | 0 <= i < n ::
              && FirstWithKey(m, items, firsts[i]) && LastWithKey(m, items, lasts[i])
              && m.key(items[firsts[i]]) == m.key(items[lasts[i]]) == Order(m, items)[i]
              && Latest(m, items, Order(m, items)[i]) == Some(items[lasts[i]])
    ensures forall i, j | 0 <= i < j < n :: firsts[i] < firsts[j]
  {
    if n == 0 {
      firsts, lasts := [], [];
    } else {
      firsts, lasts := Places(m, items, n - 1);
      var first := OrderIsFirst(m, items, n - 1);
      OrderKeys(m, items);
      assert Order(m, items)[n - 1] in Order(m, items);
      var last := LatestIsLast(m, items, Order(m, items)[n - 1]);
      forall i | 0 <= i < n - 1 ensures firsts[i] < first {
        assert HasBefore(m, items, first, Order(m, items)[i]);
        var f: nat :| f < first && m.key(items[f]) == Order(m, items)[i];
        assert f >= firsts[i];
      }
      firsts, lasts := firsts + [first], lasts + [last];
    }
  }

  lemma MergeKeepsLast<T>(m: Scheme<T>, base: seq<T>, overlay: seq<T>) returns (firsts: seq<nat>, lasts: seq<nat>)
    ensures IsMergeOf(m, base + overlay, Merge(m, base, overlay), firsts, lasts)
  {
    var items := base + overlay;
    firsts, lasts := Places(m, items, |Order(m, items)|);
    OrderKeys(m, items);
    assert forall i | 0 <= i < |Order(m, items)| :: Order(m, items)[i] in Order(m, items);
    forall x | x in items && m.key(x) != ""
      ensures exists i: nat :: i < |Order(m, items)| && m.key(items[lasts[i]]) == m.key(x)
    {
      LatestExists(m, items, x);
      var i :| 0 <= i < |Order(m, items)| && Order(m, items)[i] == m.key(x);
      assert m.key(items[lasts[i]]) == m.key(x);
    }
  }
}
