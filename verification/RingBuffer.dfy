/**
  The fixed-size buffer of the metrics collector. Its mutex makes every operation one step.
*/
module Metrics {

  /** The last `capacity` items of a history, oldest first. */
  function Recent<T>(history: seq<T>, capacity: nat): seq<T> {
    if |history| <= capacity then history else history[|history| - capacity..]
  }

  lemma Multiples(c: int, g: int)
    requires c > 0
    ensures g == 0 || c * g >= c || c * g <= -c
  {
    if g > 0 {
      AtLeastOnce(c, g);
    } else if g < 0 {
      AtLeastOnce(c, -g);
      assert c * -g == -(c * g);
    }
  }

  lemma {:induction false} AtLeastOnce(c: nat, g: nat)
    requires g > 0
    ensures c * g >= c
  {
    if g > 1 {
      AtLeastOnce(c, g - 1);
      assert c * g == c * (g - 1) + c;
    }
  }

  lemma ModWraps(k: nat, n: nat, c: nat)
    requires c > 0 && k < n < k + c
    ensures k % c != n % c
  {
    Multiples(c, n / c - k / c);
    assert n - k == c * (n / c - k / c) + (n % c - k % c);
  }

  lemma ModNext(n: nat, c: nat)
    requires c > 0
    ensures (n % c + 1) % c == (n + 1) % c
  {
    ModShift(n, 1, c);
  }

  lemma ModShift(n: nat, i: nat, c: nat)
    requires c > 0
    ensures (n % c + i) % c == (n + i) % c
  {
    var q := n / c;
    assert n + i == c * q + (n % c + i);
    ModMultiple(n % c + i, q, c);
  }

  lemma ModMultiple(x: nat, q: nat, c: nat)
    requires c > 0
    ensures (c * q + x) % c == x % c
  {
    var a := c * q + x;
    var gap := q + x / c - a / c;
    Multiples(c, gap);
    assert c * gap == a % c - x % c;
  }

  class RingBuffer<T(0)> {
    const data: array<T>
    const capacity: nat
    var head: nat
    var size: nat
    /** Everything that was ever pushed. */
    ghost var history: seq<T>

    ghost predicate Valid()
      reads this, data
    {
      && data.Length == capacity
      && size == (if |history| < capacity then |history| else capacity)
      && (capacity == 0 ==> head == 0 && history == [])
      && (capacity > 0 ==>
            && head == |history| % capacity
            && forall k | |history| - size <= k < |history| :: data[k % capacity] == history[k])
    }

    constructor (capacity: nat)
      ensures Valid() && fresh(data) && this.capacity == capacity && history == []
    {
      this.data := new T[capacity];
      this.capacity := capacity;
      head, size := 0, 0;
      history := [];
    }

    /** With no capacity the program panics here. */
    method Push(item: T)
      requires Valid() && capacity > 0
      modifies this, data
      ensures Valid() && history == old(history) + [item]
    {
      ghost var n := |history|;
      data[head] := item;
      history := history + [item];
      ModNext(n, capacity);
      head := (head + 1) % capacity;
      if size < capacity {
        size := size + 1;
      }
      forall k | |history| - size <= k < |history| ensures data[k % capacity] == history[k] {
        if k < n {
          ModWraps(k, n, capacity);
        }
      }
    }

    method GetAll() returns (all: seq<T>)
      requires Valid()
      ensures all == Recent(history, capacity)
    {
      if size == 0 {
        return [];
      }
      var result := new T[size];
      if size < capacity {
        for i := 0 to size
          invariant forall k | 0 <= k < i :: result[k] == history[k]
          modifies result
        {
          result[i] := data[i];
          assert i % capacity == i;
        }
      } else {
        for i := 0 to size
          invariant forall k | 0 <= k < i :: result[k] == history[|history| - capacity + k]
          modifies result
        {
          var idx := (head + i) % capacity;
          ModShift(|history|, i, capacity);
          ghost var k := |history| - capacity + i;
          assert k % capacity == (k + capacity) % capacity by {
            ModMultiple(k, 1, capacity);
          }
          result[i] := data[idx];
        }
      }
      all := result[..];
    }

    method Size() returns (n: nat)
      requires Valid()
      ensures n == |Recent(history, capacity)|
    {
      n := size;
    }
  }
}
