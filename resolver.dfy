/** The keyed resolution cache (`src/resolver`): the readiness of one entry, the one-shot
    task handle, the entry writer handed to `poll` callbacks, and the cache itself. */
module Resolver {
  import opened Wrappers
  import opened Maps

  // ---------------------------------------------------------------- ready.rs

  /** A cache entry: either a resolved value or a fetch that is still outstanding. */
  datatype Ready<V> = Ready(value: V) | NotReady

  predicate IsReady<V>(r: Ready<V>) {
    r.Ready?
  }

  /** `Ready::as_option`: the value of a resolved entry, nothing for an outstanding one. */
  function AsOption<V>(r: Ready<V>): (o: Option<V>)
    ensures o.Some? <==> IsReady(r)
    ensures o.Some? ==> r == Ready(o.value)
  {
    match r
    case Ready(v) => Some(v)
    case NotReady => None
  }

  /** `Ready::into_option`: the by-value twin of `as_option`. */
  function IntoOption<V>(r: Ready<V>): (o: Option<V>)
    ensures o == AsOption(r)
  {
    if r.Ready? then Some(r.value) else None
  }

  /** `Ready::as_option_mut`: a handle on the value exactly when the entry is resolved. */
  function AsOptionMut<V>(r: Ready<V>): (o: Option<V>)
    ensures o.Some? <==> IsReady(r)
    ensures o.Some? ==> o.value == r.value
  {
    if r.NotReady? then None else Some(r.value)
  }

  // ------------------------------------------------------------------ fut.rs

  /** A spawned background unit of work with a one-shot result slot. The environment
      (the background task) fills the slot; the cache only looks at it. */
  class Fut<T> {
    var slot: Option<T>
    /** The results the spawned work can deliver. A fetch passed through `wrap` fixes part
        of its result when it is spawned (the badge lists' channel tag). */
    ghost const admits: T -> bool

    /** Whatever has arrived is something the work could deliver. */
    ghost predicate Valid()
      reads this
    {
      slot.Some? ==> admits(slot.value)
    }

    /** `Fut::spawn`: the work has started and nothing has arrived yet. */
    constructor Spawn(ghost admits: T -> bool)
      ensures slot == None && this.admits == admits && Valid()
    {
      slot := None;
      this.admits := admits;
    }

    /** The background task finishes and sends its result. */
    method Complete(v: T)
      requires admits(v)
      modifies this
      ensures slot == Some(v) && Valid()
    {
      slot := Some(v);
    }
  }

  /** The results of the finished handles of `ps`, in the order of `ps`. */
  function Completed<T>(ps: seq<Fut<T>>): seq<T>
    reads ps
  {
    if ps == [] then []
    else
      var last := ps[|ps| - 1];
      Completed(ps[..|ps| - 1]) + (if last.slot.Some? then [last.slot.value] else [])
  }

  /** The handles of `ps` that have not finished, in the order of `ps`. */
  function Unfinished<T>(ps: seq<Fut<T>>): seq<Fut<T>>
    reads ps
  {
    if ps == [] then []
    else
      var last := ps[|ps| - 1];
      Unfinished(ps[..|ps| - 1]) + (if last.slot.Some? then [] else [last])
  }

  /** A finished handle's result is among those polling hands over, at the returned index. */
  lemma {:induction false} CompletedHas<T>(ps: seq<Fut<T>>, k: nat) returns (i: nat)
    requires k < |ps| && ps[k].slot.Some?
    ensures i < |Completed(ps)| && Completed(ps)[i] == ps[k].slot.value
  {
    var init := ps[..|ps| - 1];
    if k == |ps| - 1 {
      i := |Completed(init)|;
    } else {
      assert init[k] == ps[k];
      i := CompletedHas(init, k);
    }
  }

  /** Every result polling hands over is one its handle admitted. */
  lemma {:induction false} CompletedAdmitted<T>(ps: seq<Fut<T>>, p: T -> bool)
    requires forall i :: 0 <= i < |ps| ==> ps[i].Valid() && forall v :: ps[i].admits(v) ==> p(v)
    ensures forall k :: 0 <= k < |Completed(ps)| ==> p(Completed(ps)[k])
  {
    if ps != [] {
      CompletedAdmitted(ps[..|ps| - 1], p);
    }
  }

  /** Handles whose slots did not change deliver and keep what they did before. */
  twostate lemma {:induction false} SlotsKept<T>(ps: seq<Fut<T>>)
    requires forall i :: 0 <= i < |ps| ==> old(ps[i].slot) == ps[i].slot
    ensures Completed(ps) == old(Completed(ps)) && Unfinished(ps) == old(Unfinished(ps))
  {
    if ps != [] {
      SlotsKept(ps[..|ps| - 1]);
    }
  }

  /** Every handle is either delivered or kept: never both, never neither. */
  lemma {:induction false} PollPartition<T>(ps: seq<Fut<T>>)
    ensures |Completed(ps)| + |Unfinished(ps)| == |ps|
  {
    if ps != [] {
      PollPartition(ps[..|ps| - 1]);
    }
  }

  /** The kept handles are exactly unfinished ones taken from `ps`. */
  lemma {:induction false} UnfinishedAreUnfinished<T>(ps: seq<Fut<T>>)
    ensures forall f :: f in Unfinished(ps) ==> f in ps && f.slot.None?
  {
    if ps != [] {
      UnfinishedAreUnfinished(ps[..|ps| - 1]);
    }
  }

  /** With nothing finished, polling delivers nothing and keeps every handle in place. */
  lemma {:induction false} PollIdleIsNoop<T>(ps: seq<Fut<T>>)
    requires forall i :: 0 <= i < |ps| ==> ps[i].slot.None?
    ensures Completed(ps) == [] && Unfinished(ps) == ps
  {
    if ps != [] {
      PollIdleIsNoop(ps[..|ps| - 1]);
      assert ps[..|ps| - 1] + [ps[|ps| - 1]] == ps;
    }
  }

  /** A second poll, with no handle finishing in between, delivers nothing: every result
      is handed over once. */
  lemma PollDrainsOnce<T>(ps: seq<Fut<T>>)
    ensures Completed(Unfinished(ps)) == []
    ensures Unfinished(Unfinished(ps)) == Unfinished(ps)
  {
    UnfinishedAreUnfinished(ps);
    var u := Unfinished(ps);
    assert forall i :: 0 <= i < |u| ==> u[i] in u;
    PollIdleIsNoop(u);
  }

  /** When every handle has finished, polling hands over every result, in pending order. */
  lemma {:induction false} PollAllFinished<T>(ps: seq<Fut<T>>)
    requires forall i :: 0 <= i < |ps| ==> ps[i].slot.Some?
    ensures |Completed(ps)| == |ps| && Unfinished(ps) == []
    ensures forall i :: 0 <= i < |ps| ==> Completed(ps)[i] == ps[i].slot.value
  {
    if ps != [] {
      PollAllFinished(ps[..|ps| - 1]);
    }
  }

  // --------------------------------------------------------- resolver_entry.rs

  /** `ResolverEntry::set` on the key map: the key becomes resolved to `v`. */
  function SetEntry<K, V>(m: map<K, Ready<V>>, k: K, v: V): (r: map<K, Ready<V>>)
    ensures k in r && r[k] == Ready(v)
    ensures r.Keys == m.Keys + {k}
    ensures forall j :: j in m && j != k ==> r[j] == m[j]
  {
    m[k := Ready(v)]
  }

  /** `ResolverEntry::get_mut` on the key map: only a resolved entry yields a value. */
  function GetMutEntry<K, V>(m: map<K, Ready<V>>, k: K): (o: Option<V>)
    ensures o.Some? <==> k in m && IsReady(m[k])
    ensures o.Some? ==> m[k] == Ready(o.value)
  {
    if k in m then AsOptionMut(m[k]) else None
  }

  /** `ResolverEntry::remove` on the key map: the key always goes; its value is returned
      only when the entry was resolved. */
  function RemoveEntry<K, V>(m: map<K, Ready<V>>, k: K): (r: (Option<V>, map<K, Ready<V>>))
    ensures r.1.Keys == m.Keys - {k}
    ensures forall j :: j in r.1 ==> r.1[j] == m[j]
    ensures r.0.Some? <==> k in m && IsReady(m[k])
    ensures r.0.Some? ==> m[k] == Ready(r.0.value)
  {
    (if k in m then IntoOption(m[k]) else None, m - {k})
  }

  /** The writer `poll` hands to its callback (and `update` returns): a mutable borrow of
      the cache's key map. */
  class ResolverEntry<K(==,!new), V, T> {
    const inner: ResolverMap<K, V, T>

    constructor Borrow(m: ResolverMap<K, V, T>)
      ensures inner == m
    {
      inner := m;
    }

    method Set(key: K, value: V)
      modifies inner
      ensures inner.entries == SetEntry(old(inner.entries), key, value)
      ensures inner.pending == old(inner.pending)
    {
      inner.entries := inner.entries[key := Ready(value)];
    }

    method GetMut(key: K) returns (o: Option<V>)
      ensures o == GetMutEntry(inner.entries, key)
    {
      o := if key in inner.entries then AsOptionMut(inner.entries[key]) else None;
    }

    method Remove(key: K) returns (o: Option<V>)
      modifies inner
      ensures (o, inner.entries) == RemoveEntry(old(inner.entries), key)
      ensures inner.pending == old(inner.pending)
    {
      o := if key in inner.entries then IntoOption(inner.entries[key]) else None;
      inner.entries := inner.entries - {key};
    }
  }

  /** Applying `set` for each update in turn. */
  function SetAll<K, V>(m: map<K, Ready<V>>, updates: seq<(K, V)>): map<K, Ready<V>> {
    if updates == [] then m
    else
      var u := updates[|updates| - 1];
      SetEntry(SetAll(m, updates[..|updates| - 1]), u.0, u.1)
  }

  /** One more prefix update is one more `SetEntry`. */
  lemma SetAllSnoc<K, V>(m: map<K, Ready<V>>, updates: seq<(K, V)>, i: nat)
    requires i < |updates|
    ensures SetAll(m, updates[..i + 1]) == SetEntry(SetAll(m, updates[..i]), updates[i].0, updates[i].1)
  {
    assert updates[..i + 1][..i] == updates[..i];
  }

  /** Setting entries only ever adds the updated keys. */
  lemma {:induction false} SetAllKeys<K, V>(m: map<K, Ready<V>>, updates: seq<(K, V)>)
    ensures SetAll(m, updates).Keys == m.Keys + Firsts(updates)
  {
    if updates != [] {
      SetAllKeys(m, updates[..|updates| - 1]);
      FirstsSnoc(updates);
    }
  }

  /** Keys no update names keep their entry, resolved or not. */
  lemma {:induction false} SetAllUntouched<K, V>(m: map<K, Ready<V>>, updates: seq<(K, V)>, k: K)
    requires k !in Firsts(updates)
    ensures k in SetAll(m, updates) <==> k in m
    ensures k in m ==> SetAll(m, updates)[k] == m[k]
  {
    if updates != [] {
      FirstsSnoc(updates);
      SetAllUntouched(m, updates[..|updates| - 1], k);
    }
  }

  /** Every updated key ends resolved to its last update: last write wins. */
  lemma {:induction false} SetAllLastWins<K, V>(m: map<K, Ready<V>>, updates: seq<(K, V)>, k: K)
    requires k in Firsts(updates)
    ensures k in SetAll(m, updates) && SetAll(m, updates)[k] == Ready(LastFor(updates, k))
  {
    if updates[|updates| - 1].0 != k {
      FirstsSnoc(updates);
      SetAllLastWins(m, updates[..|updates| - 1], k);
    }
  }

  /** Applying two runs of updates one after the other is applying their concatenation. */
  lemma {:induction false} SetAllAppend<K, V>(m: map<K, Ready<V>>, a: seq<(K, V)>, b: seq<(K, V)>)
    ensures SetAll(m, a + b) == SetAll(SetAll(m, a), b)
    decreases |b|
  {
    if b == [] {
      assert a + b == a;
    } else {
      assert (a + b)[..|a + b| - 1] == a + b[..|b| - 1];
      SetAllAppend(m, a, b[..|b| - 1]);
    }
  }

  // ----------------------------------------------------------- resolver_map.rs

  /** A keyed store of resolved / outstanding values plus the outstanding fetches. */
  class ResolverMap<K(==,!new), V, T> {
    var entries: map<K, Ready<V>>
    var pending: seq<Fut<T>>

    constructor ()
      ensures entries == map[] && pending == []
    {
      entries := map[];
      pending := [];
    }

    /** True for any key a fetch was started for, resolved or not. */
    function Contains(key: K): (b: bool)
      reads this
      ensures b <==> key in entries
    {
      key in entries
    }

    /** The value of a resolved key; nothing for an absent or outstanding one. */
    function TryGet(key: K): (o: Option<V>)
      reads this
      ensures o.Some? <==> key in entries && entries[key].Ready?
      ensures o.Some? ==> entries[key] == Ready(o.value)
    {
      if key in entries then AsOption(entries[key]) else None
    }

    /** The first request for a key records it as outstanding and starts exactly one fetch,
        whose results are those `admits` allows (what the caller's fetch for `key` can
        bring); any later request starts nothing and answers from the entry. */
    method GetOrUpdate(key: K, ghost admits: T -> bool) returns (o: Option<V>)
      modifies this
      ensures key in old(entries) ==>
        entries == old(entries) && pending == old(pending) && o == AsOption(old(entries)[key])
      ensures key !in old(entries) ==>
        && entries == old(entries)[key := NotReady]
        && o == None
        && |pending| == |old(pending)| + 1
        && pending[..|old(pending)|] == old(pending)
        && fresh(pending[|old(pending)|])
        && pending[|old(pending)|].slot == None
        && pending[|old(pending)|].admits == admits
    {
      if key in entries {
        o := AsOption(entries[key]);
      } else {
        entries := entries[key := NotReady];
        var f := new Fut<T>.Spawn(admits);
        pending := pending + [f];
        o := None;
      }
    }

    /** Like GetOrUpdate, but the first request runs the caller's side effect (`first`)
        instead of starting a fetch. */
    method GetOrElse(key: K) returns (o: Option<V>, first: bool)
      modifies this
      ensures first <==> key !in old(entries)
      ensures pending == old(pending)
      ensures entries == if first then old(entries)[key := NotReady] else old(entries)
      ensures o == if first then None else AsOption(old(entries)[key])
    {
      first := key !in entries;
      if first {
        entries := entries[key := NotReady];
        o := None;
      } else {
        o := AsOption(entries[key]);
      }
    }

    /** Registers a fetch that is not tied to one key. */
    method Add(fut: Fut<T>)
      modifies this
      ensures pending == old(pending) + [fut]
      ensures entries == old(entries)
    {
      pending := pending + [fut];
    }

    /** The entry writer over this cache's key map. */
    method Update() returns (e: ResolverEntry<K, V, T>)
      ensures fresh(e) && e.inner == this
    {
      e := new ResolverEntry.Borrow(this);
    }

    method RemoveByKey(key: K) returns (b: bool)
      modifies this
      ensures b == (key in old(entries))
      ensures entries == old(entries) - {key} && key !in entries
      ensures pending == old(pending)
    {
      b := key in entries;
      entries := entries - {key};
    }

    /** The resolved (key, value) pairs, as a map (the iteration order is the hash map's). */
    function ReadyIter(): (m: map<K, V>)
      reads this
      ensures forall k :: k in m <==> k in entries && entries[k].Ready?
      ensures forall k :: k in m ==> entries[k] == Ready(m[k])
    {
      map k | k in entries && entries[k].Ready? :: entries[k].value
    }

    function IsReady(key: K): (b: bool)
      reads this
      ensures b <==> key in entries && entries[key].Ready?
    {
      key in entries && entries[key].Ready?
    }

    /** Hands over the result of every finished fetch, in pending order, and keeps the
        unfinished ones in their order. The caller applies its resolve callback to each
        result in turn; the callback can reach only the key map, never `pending`. */
    method Poll() returns (done: seq<T>)
      modifies this
      ensures done == Completed(old(pending))
      ensures pending == Unfinished(old(pending))
      ensures entries == old(entries)
    {
      var ps := pending;
      var keep: seq<Fut<T>> := [];
      done := [];
      for i := 0 to |ps|
        invariant done == Completed(ps[..i])
        invariant keep == Unfinished(ps[..i])
      {
        assert ps[..i + 1][..i] == ps[..i];
        var f := ps[i];
        match f.slot {
          case Some(v) => done := done + [v];
          case None => keep := keep + [f];
        }
      }
      assert ps[..|ps|] == ps;
      pending := keep;
    }
  }

  /** Two requests for the same key before it resolves start exactly one fetch. */
  method RequestTwice<K(==,!new), V, T>(cache: ResolverMap<K, V, T>, key: K)
    modifies cache
    ensures key in cache.entries
    ensures |cache.pending| == |old(cache.pending)| + (if key in old(cache.entries) then 0 else 1)
  {
    var first := cache.GetOrUpdate(key, _ => true);
    var second := cache.GetOrUpdate(key, _ => true);
  }
}
