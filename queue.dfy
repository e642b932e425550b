/** The bounded message buffer of a channel (`queue.rs`): pushing past the capacity drops
    the oldest entries. */
module Queues {
  /** The newest `n` entries of `s`, oldest first. */
  function Newest<T>(s: seq<T>, n: nat): seq<T> {
    if |s| <= n then s else s[|s| - n..]
  }

  /** What the newest `n` are: at most `n` of them, the tail of `s`, all of `s` when it fits. */
  lemma NewestIsBoundedSuffix<T>(s: seq<T>, n: nat)
    ensures |Newest(s, n)| == if |s| <= n then |s| else n
    ensures Newest(s, n) == s[|s| - |Newest(s, n)|..]
    ensures |s| <= n ==> Newest(s, n) == s
  {
  }

  /** After adding one to a buffer that fits, the newest are the old entries that still
      fit, then the new one last. */
  lemma NewestOfPush<T>(s: seq<T>, x: T, n: nat)
    requires 0 < n
    ensures Newest(s + [x], n) == Newest(s, n - 1) + [x]
  {
    if |s| + 1 > n {
      assert (s + [x])[|s| + 1 - n..] == s[|s| - (n - 1)..] + [x];
    }
  }

  /** Keeping the newest twice is keeping them once. */
  lemma NewestIdempotent<T>(s: seq<T>, n: nat)
    ensures Newest(Newest(s, n), n) == Newest(s, n)
  {
  }

  class Queue<T> {
    var inner: seq<T>
    const max: nat

    ghost predicate Valid()
      reads this
    {
      0 < max && |inner| <= max
    }

    /** `with_capacity`: the source asserts a non-zero capacity. */
    constructor WithCapacity(max: nat)
      requires 0 < max
      ensures Valid() && this.max == max && inner == []
    {
      this.max := max;
      inner := [];
    }

    /** `push`: drop from the front while full, then append. */
    method Push(item: T)
      requires Valid()
      modifies this
      ensures Valid()
      ensures inner == Newest(old(inner) + [item], max)
      ensures |old(inner)| < max ==> inner == old(inner) + [item]
    {
      while |inner| >= max
        invariant 0 < max && |inner| <= max
        invariant inner == old(inner)[|old(inner)| - |inner|..]
        invariant |inner| <= |old(inner)|
        invariant |old(inner)| >= max ==> |inner| >= max - 1
        invariant |old(inner)| < max ==> inner == old(inner)
        decreases |inner|
      {
        inner := inner[1..];
      }
      assert inner == Newest(old(inner), max - 1);
      NewestOfPush(old(inner), item, max);
      inner := inner + [item];
    }

    /** `iter`: the entries, oldest first. */
    function Iter(): (r: seq<T>)
      reads this
      ensures Valid() ==> |r| <= max
      ensures r == inner
    {
      inner
    }

    /** `populate`: append all, then keep only the newest `max`. */
    method Populate(items: seq<T>)
      requires Valid()
      modifies this
      ensures Valid()
      ensures inner == Newest(old(inner) + items, max)
    {
      inner := inner + items;
      var len := |inner|;
      if len >= max {
        inner := inner[len - max..];
      }
    }
  }
}
