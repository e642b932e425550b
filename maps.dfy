/** Plain hash-map updates (`HashMap::insert` in a loop), the counterpart of
    `Resolver.SetAll` for maps whose values are stored directly, and the sequence facts
    the other modules share. */
module Maps {
  /** Inserting each pair in turn; a later pair overwrites an earlier one. */
  function InsertAll<K, V>(m: map<K, V>, pairs: seq<(K, V)>): map<K, V> {
    if pairs == [] then m
    else
      var p := pairs[|pairs| - 1];
      InsertAll(m, pairs[..|pairs| - 1])[p.0 := p.1]
  }

  /** One more prefix pair is one more insert. */
  lemma InsertAllSnoc<K, V>(m: map<K, V>, pairs: seq<(K, V)>, i: nat)
    requires i < |pairs|
    ensures InsertAll(m, pairs[..i + 1]) == InsertAll(m, pairs[..i])[pairs[i].0 := pairs[i].1]
  {
    assert pairs[..i + 1][..i] == pairs[..i];
  }

  function Firsts<K, V>(pairs: seq<(K, V)>): set<K> {
    set i | 0 <= i < |pairs| :: pairs[i].0
  }

  lemma FirstsSnoc<K, V>(pairs: seq<(K, V)>)
    requires pairs != []
    ensures Firsts(pairs) == Firsts(pairs[..|pairs| - 1]) + {pairs[|pairs| - 1].0}
  {
    var init := pairs[..|pairs| - 1];
    forall k | k in Firsts(pairs) ensures k in Firsts(init) + {pairs[|pairs| - 1].0} {
      var i :| 0 <= i < |pairs| && pairs[i].0 == k;
      if i < |pairs| - 1 { assert init[i].0 == k; }
    }
    forall k | k in Firsts(init) ensures k in Firsts(pairs) {
      var i :| 0 <= i < |init| && init[i].0 == k;
      assert pairs[i].0 == k;
    }
  }

  /** Inserting adds exactly the inserted keys. */
  lemma {:induction false} InsertAllKeys<K, V>(m: map<K, V>, pairs: seq<(K, V)>)
    ensures InsertAll(m, pairs).Keys == m.Keys + Firsts(pairs)
  {
    if pairs != [] {
      InsertAllKeys(m, pairs[..|pairs| - 1]);
      FirstsSnoc(pairs);
    }
  }

  /** Keys no pair names keep their value. */
  lemma {:induction false} InsertAllUntouched<K, V>(m: map<K, V>, pairs: seq<(K, V)>, k: K)
    requires k !in Firsts(pairs) && k in m
    ensures k in InsertAll(m, pairs) && InsertAll(m, pairs)[k] == m[k]
  {
    if pairs != [] {
      FirstsSnoc(pairs);
      InsertAllUntouched(m, pairs[..|pairs| - 1], k);
    }
  }

  /** Inserting two runs one after the other is inserting their concatenation. */
  lemma {:induction false} InsertAllAppend<K, V>(m: map<K, V>, a: seq<(K, V)>, b: seq<(K, V)>)
    ensures InsertAll(m, a + b) == InsertAll(InsertAll(m, a), b)
    decreases |b|
  {
    if b == [] {
      assert a + b == a;
    } else {
      assert (a + b)[..|a + b| - 1] == a + b[..|b| - 1];
      InsertAllAppend(m, a, b[..|b| - 1]);
    }
  }

  /** Concatenation of a sequence of runs, built from the back like the loops that
      produce it. */
  function Concat<X>(xss: seq<seq<X>>): seq<X> {
    if xss == [] then [] else Concat(xss[..|xss| - 1]) + xss[|xss| - 1]
  }

  /** Every element of every run is in the concatenation. */
  lemma {:induction false} ConcatMember<X>(xss: seq<seq<X>>, i: nat, j: nat)
    requires i < |xss| && j < |xss[i]|
    ensures xss[i][j] in Concat(xss)
  {
    if i < |xss| - 1 {
      ConcatMember(xss[..|xss| - 1], i, j);
    } else {
      var pre := Concat(xss[..|xss| - 1]);
      assert Concat(xss)[|pre| + j] == xss[i][j];
    }
  }

  /** A pair in the sequence names its key. */
  lemma FirstsMember<K, V>(pairs: seq<(K, V)>, p: (K, V))
    requires p in pairs
    ensures p.0 in Firsts(pairs)
  {
    var i :| 0 <= i < |pairs| && pairs[i] == p;
  }

  /** Any element of a run is in the concatenation. */
  lemma ConcatMemberOf<X>(xss: seq<seq<X>>, i: nat, x: X)
    requires i < |xss| && x in xss[i]
    ensures x in Concat(xss)
  {
    var j :| 0 <= j < |xss[i]| && xss[i][j] == x;
    ConcatMember(xss, i, j);
  }

  /** One more run extends the concatenation by that run. */
  lemma ConcatPrefixSnoc<X>(xss: seq<seq<X>>, i: nat)
    requires i < |xss|
    ensures Concat(xss[..i + 1]) == Concat(xss[..i]) + xss[i]
  {
    assert xss[..i + 1][..i] == xss[..i];
  }

  /** No element occurs twice. */
  predicate Distinct<X(==)>(s: seq<X>) {
    forall i, j :: 0 <= i < j < |s| ==> s[i] != s[j]
  }

  /** The value of the last pair for `k`. */
  function LastFor<K(==), V>(pairs: seq<(K, V)>, k: K): V
    requires k in Firsts(pairs)
  {
    var u := pairs[|pairs| - 1];
    if u.0 == k then u.1
    else
      assert k in Firsts(pairs[..|pairs| - 1]) by {
        var i :| 0 <= i < |pairs| && pairs[i].0 == k;
        assert pairs[..|pairs| - 1][i].0 == k;
      }
      LastFor(pairs[..|pairs| - 1], k)
  }

  /** Every inserted key ends with the value of its last pair: last write wins. */
  lemma {:induction false} InsertAllLastWins<K, V>(m: map<K, V>, pairs: seq<(K, V)>, k: K)
    requires k in Firsts(pairs)
    ensures k in InsertAll(m, pairs) && InsertAll(m, pairs)[k] == LastFor(pairs, k)
  {
    if pairs[|pairs| - 1].0 != k {
      FirstsSnoc(pairs);
      InsertAllLastWins(m, pairs[..|pairs| - 1], k);
    }
  }

  lemma Associate<T>(a: seq<T>, b: seq<T>, c: seq<T>)
    ensures (a + b) + c == a + (b + c)
  {
  }

  /** `order` lists, each once, the elements of `whole` that are not `left`: the state of
      a loop that takes elements out of a set one by one. */
  ghost predicate Drained<T>(order: seq<T>, left: set<T>, whole: set<T>) {
    && left <= whole
    && (set x | x in order) == whole - left
    && Distinct(order)
  }

  /** A sequence without repeats has as many elements as the set of its elements. */
  lemma {:induction false} DistinctSize<T>(s: seq<T>)
    requires Distinct(s)
    ensures |(set x | x in s)| == |s|
  {
    if s != [] {
      var init := s[..|s| - 1];
      DistinctSize(init);
      assert (set x | x in s) == (set x | x in init) + {s[|s| - 1]};
    }
  }

  lemma DrainedStep<T>(order: seq<T>, left: set<T>, whole: set<T>, x: T)
    requires Drained(order, left, whole) && x in left
    ensures Drained(order + [x], left - {x}, whole)
  {
    assert (set y | y in order + [x]) == (set y | y in order) + {x};
  }
}
