/** The Helix metadata client (`src/helix.rs`): the records it returns, how it shapes a
    response into what each caller wants, how a large query is split into requests of at
    most 100 items and merged back, and the retry-on-401 loop. HTTP, OAuth and JSON
    decoding are the environment: a response arrives as an `Answer`. */
module Helix {
  import opened Wrappers

  datatype User = User(displayName: string, id: string, login: string, profileImageUrl: string)

  datatype Game = Game(boxArtUrl: string, id: string, igdbId: string, name: string)

  datatype Stream = Stream(
    gameName: string, gameId: string, id: string, title: string,
    userId: string, userLogin: string, viewerCount: int)

  datatype EmoteSet = EmoteSet(
    format: seq<string>, id: string, name: string, scale: seq<string>, themeMode: seq<string>)

  datatype BadgeVersion = BadgeVersion(id: string, description: string, imageUrl1x: string)

  datatype Badge = Badge(setId: string, versions: seq<BadgeVersion>)

  /** What `get_response` yields: the decoded `data` list, or an error. */
  datatype Response<T> = Ok(data: seq<T>) | Failed

  /** The largest number of query items one Helix request carries. */
  const MaxPerRequest: nat := 100

  // ------------------------------------------------------------ result shaping

  /** `flatten_result_vec`: the list, or an empty list on error. */
  function FlattenResultVec<T>(r: Response<T>): (items: seq<T>)
    ensures r.Ok? ==> items == r.data
    ensures r.Failed? ==> items == []
  {
    match r
    case Ok(data) => data
    case Failed => []
  }

  /** `result_vec_single`: the LAST element of the list, nothing on error or empty list. */
  function ResultVecSingle<T>(r: Response<T>): (o: Option<T>)
    ensures o.Some? <==> r.Ok? && r.data != []
    ensures o.Some? ==> o.value == r.data[|r.data| - 1]
  {
    var items := FlattenResultVec(r);
    if items == [] then None else Some(items[|items| - 1])
  }

  /** The mapping `get_user` applies: the requested login paired with the FIRST user. */
  function GetUserResult(login: string, r: Response<User>): (o: Option<(string, User)>)
    ensures o.Some? <==> r.Ok? && r.data != []
    ensures o.Some? ==> o.value.0 == login && o.value.1 == r.data[0]
  {
    if r.Ok? && r.data != [] then Some((login, r.data[0])) else None
  }

  /** The mapping `get_user_from_id` applies: the FIRST user, if any. */
  function GetUserFromIdResult(r: Response<User>): (o: Option<User>)
    ensures o.Some? <==> r.Ok? && r.data != []
    ensures o.Some? ==> o.value == r.data[0]
  {
    match r
    case Ok(data) => if data == [] then None else Some(data[0])
    case Failed => None
  }

  /** For a one-element answer the two single-item shapings agree. */
  lemma SingleShapingsAgree(u: User)
    ensures ResultVecSingle(Ok([u])) == GetUserFromIdResult(Ok([u])) == Some(u)
  {
  }

  // ------------------------------------------------------------------ chunking

  function Flatten<T>(cs: seq<seq<T>>): seq<T> {
    if cs == [] then [] else cs[0] + Flatten(cs[1..])
  }

  /** `query.chunks(n)`: consecutive pieces of `n` items, the last one possibly shorter. */
  function Chunks<Q>(q: seq<Q>, n: nat): (cs: seq<seq<Q>>)
    requires n > 0
    ensures forall i :: 0 <= i < |cs| ==> 0 < |cs[i]| <= n
    ensures forall i :: 0 <= i < |cs| - 1 ==> |cs[i]| == n
    decreases |q|
  {
    if q == [] then []
    else if |q| <= n then [q]
    else [q[..n]] + Chunks(q[n..], n)
  }

  /** The chunks, laid end to end, are the query: nothing lost, duplicated or reordered. */
  lemma {:induction false} ChunksCover<Q>(q: seq<Q>, n: nat)
    requires n > 0
    ensures Flatten(Chunks(q, n)) == q
    decreases |q|
  {
    if q == [] {
    } else if |q| <= n {
      assert Flatten([q]) == q + Flatten([q][1..]);
    } else {
      var rest := Chunks(q[n..], n);
      ChunksCover(q[n..], n);
      assert ([q[..n]] + rest)[1..] == rest;
      assert q[..n] + q[n..] == q;
    }
  }

  /** The answer of each chunk, failures read as empty lists. */
  function ChunkResults<Q, T>(cs: seq<seq<Q>>, respond: seq<Q> -> Response<T>): (rs: seq<seq<T>>)
  {
    seq(|cs|, i requires 0 <= i < |cs| => FlattenResultVec(respond(cs[i])))
  }

  function Indices(n: nat): (r: seq<nat>)
    ensures |r| == n && forall i :: 0 <= i < n ==> r[i] == i
  {
    seq(n, i requires 0 <= i => i)
  }

  /** The order in which the spawned chunk requests finish: each chunk exactly once. */
  predicate IsCompletionOrder(order: seq<nat>, n: nat) {
    && (forall k :: 0 <= k < |order| ==> order[k] < n)
    && multiset(order) == multiset(Indices(n))
  }

  /** `out.extend(...)` over the chunk results, in completion order. */
  function Merged<T>(results: seq<seq<T>>, order: seq<nat>): seq<T>
    requires forall k :: 0 <= k < |order| ==> order[k] < |results|
  {
    if order == [] then []
    else Merged(results, order[..|order| - 1]) + results[order[|order| - 1]]
  }

  /** `get_many_inner`: one request per chunk of at most 100 items; the answers are
      appended as the requests finish, a failed chunk contributing nothing. */
  method GetManyInner<Q, T>(query: seq<Q>, respond: seq<Q> -> Response<T>, order: seq<nat>)
    returns (out: seq<T>)
    requires IsCompletionOrder(order, |Chunks(query, MaxPerRequest)|)
    ensures out == Merged(ChunkResults(Chunks(query, MaxPerRequest), respond), order)
  {
    var chunks := Chunks(query, MaxPerRequest);
    var results := ChunkResults(chunks, respond);
    out := [];
    for k := 0 to |order|
      invariant out == Merged(results, order[..k])
    {
      assert order[..k + 1][..k] == order[..k];
      out := out + results[order[k]];
    }
    assert order[..|order|] == order;
  }

  /** The items `get_many_inner` returns are exactly those of the chunk answers, each once,
      whatever order the requests finish in. */
  lemma GetManyInnerKeepsEverything<Q, T>(query: seq<Q>, respond: seq<Q> -> Response<T>, order: seq<nat>)
    requires IsCompletionOrder(order, |Chunks(query, MaxPerRequest)|)
    ensures var results := ChunkResults(Chunks(query, MaxPerRequest), respond);
      multiset(Merged(results, order)) == multiset(Flatten(results))
  {
    var results := ChunkResults(Chunks(query, MaxPerRequest), respond);
    MergedIsPermutation(results, order);
  }

  lemma {:induction false} MergedAppend<T>(results: seq<seq<T>>, a: seq<nat>, b: seq<nat>)
    requires forall k :: 0 <= k < |a| ==> a[k] < |results|
    requires forall k :: 0 <= k < |b| ==> b[k] < |results|
    ensures forall k :: 0 <= k < |a + b| ==> (a + b)[k] < |results|
    ensures Merged(results, a + b) == Merged(results, a) + Merged(results, b)
    decreases |b|
  {
    if b != [] {
      var b' := b[..|b| - 1];
      assert (a + b)[..|a + b| - 1] == a + b';
      MergedAppend(results, a, b');
    } else {
      assert a + b == a;
    }
  }

  /** Only indices named by the order matter: results beyond them can be dropped. */
  lemma {:induction false} MergedPrefix<T>(results: seq<seq<T>>, order: seq<nat>, n: nat)
    requires n <= |results|
    requires forall k :: 0 <= k < |order| ==> order[k] < n
    ensures Merged(results, order) == Merged(results[..n], order)
  {
    if order != [] {
      MergedPrefix(results, order[..|order| - 1], n);
    }
  }

  /** Whatever order the chunk requests finish in, the merged output holds every chunk's
      items exactly once. */
  lemma {:induction false} MergedIsPermutation<T>(results: seq<seq<T>>, order: seq<nat>)
    requires IsCompletionOrder(order, |results|)
    ensures multiset(Merged(results, order)) == multiset(Flatten(results))
    decreases |results|
  {
    var n := |results|;
    if n == 0 {
      assert |multiset(order)| == 0;
    } else {
      // the position at which the last chunk finished
      assert Indices(n)[n - 1] == n - 1;
      assert n - 1 in multiset(order);
      var p :| 0 <= p < |order| && order[p] == n - 1;
      var rest := order[..p] + order[p + 1..];
      WithoutLast(order, n, p);
      MergedSplit(results, order, p);
      MergedPrefix(results, rest, n - 1);
      MergedIsPermutation(results[..n - 1], rest);
      FlattenSnoc(results);
    }
  }

  /** Taking the last chunk's position out of a completion order leaves one for the
      other chunks. */
  lemma WithoutLast(order: seq<nat>, n: nat, p: nat)
    requires n > 0 && IsCompletionOrder(order, n) && p < |order| && order[p] == n - 1
    ensures IsCompletionOrder(order[..p] + order[p + 1..], n - 1)
  {
    var rest := order[..p] + order[p + 1..];
    assert order == order[..p] + [n - 1] + order[p + 1..];
    assert Indices(n) == Indices(n - 1) + [n - 1];
    assert multiset(order) == multiset(order[..p]) + multiset([n - 1]) + multiset(order[p + 1..]);
    assert multiset(Indices(n)) == multiset(Indices(n - 1)) + multiset([n - 1]);
    assert multiset(rest) == multiset(order[..p]) + multiset(order[p + 1..]);
    assert multiset(rest) == multiset(order) - multiset([n - 1]);
    assert multiset(Indices(n - 1)) == multiset(Indices(n)) - multiset([n - 1]);
    forall k | 0 <= k < |rest| ensures rest[k] < n - 1 {
      assert rest[k] in multiset(Indices(n - 1));
    }
  }

  /** The merged output splits around the chunk finishing at position `p`. */
  lemma MergedSplit<T>(results: seq<seq<T>>, order: seq<nat>, p: nat)
    requires forall k :: 0 <= k < |order| ==> order[k] < |results|
    requires p < |order|
    ensures var rest := order[..p] + order[p + 1..];
      multiset(Merged(results, order))
        == multiset(Merged(results, rest)) + multiset(results[order[p]])
  {
    var x := order[p];
    assert order == order[..p] + [x] + order[p + 1..];
    MergedAppend(results, order[..p], [x]);
    MergedAppend(results, order[..p] + [x], order[p + 1..]);
    MergedAppend(results, order[..p], order[p + 1..]);
    assert Merged(results, [x]) == results[x] by {
      assert [x][..0] == [];
    }
  }

  lemma {:induction false} FlattenSnoc<T>(cs: seq<seq<T>>)
    requires cs != []
    ensures Flatten(cs) == Flatten(cs[..|cs| - 1]) + cs[|cs| - 1]
  {
    if |cs| == 1 {
      assert Flatten(cs[1..]) == [];
      assert cs[..0] == [];
    } else {
      assert cs[1..][..|cs[1..]| - 1] == cs[..|cs| - 1][1..];
      FlattenSnoc(cs[1..]);
    }
  }

  // ------------------------------------------------------------------ 401 loop

  /** What one attempt of `get_response` runs into. */
  datatype Answer<T> =
    | SendFailed                      // the request could not be sent
    | Unauthorized                    // status 401: the bearer token is stale
    | Answered(body: Option<seq<T>>)  // any other status; None when the body does not decode

  /** The bearer token shared by every clone of the client. */
  class TokenCache {
    var bearer: Option<string>

    constructor ()
      ensures bearer == None
    {
      bearer := None;
    }
  }

  /** The server eventually answers with something other than 401. */
  predicate EventuallyAnswers<T>(answers: seq<Answer<T>>) {
    exists k :: 0 <= k < |answers| && !answers[k].Unauthorized?
  }

  /** The index of the first attempt that is not refused with 401. */
  function FirstAnswer<T>(answers: seq<Answer<T>>): (k: nat)
    requires EventuallyAnswers(answers)
    ensures k < |answers| && !answers[k].Unauthorized?
    ensures forall j :: 0 <= j < k ==> answers[j].Unauthorized?
  {
    if !answers[0].Unauthorized? then 0
    else
      assert EventuallyAnswers(answers[1..]) by {
        var k :| 0 <= k < |answers| && !answers[k].Unauthorized?;
        assert answers[1..][k - 1] == answers[k];
      }
      1 + FirstAnswer(answers[1..])
  }

  /** The result one non-401 answer turns into. */
  function Outcome<T>(a: Answer<T>): (r: Response<T>)
    requires !a.Unauthorized?
    ensures r.Ok? <==> a.Answered? && a.body.Some?
    ensures r.Ok? ==> r.data == a.body.value
  {
    match a
    case SendFailed => Failed
    case Answered(body) => if body.Some? then Ok(body.value) else Failed
  }

  /** `get_response`: every attempt uses the cached token, fetching one (`issued`, from the
      OAuth endpoint) when none is cached; a 401 discards the token and tries again, for
      as long as 401s come back. */
  method GetResponse<T>(cache: TokenCache, answers: seq<Answer<T>>, issued: string)
    returns (r: Response<T>, tries: nat)
    requires EventuallyAnswers(answers)
    modifies cache
    ensures tries == FirstAnswer(answers) + 1
    ensures r == Outcome(answers[tries - 1])
    ensures cache.bearer == Some(if tries == 1 && old(cache.bearer).Some? then old(cache.bearer).value else issued)
  {
    var k := FirstAnswer(answers);
    var i := 0;
    while true
      invariant 0 <= i <= k
      invariant i == 0 ==> cache.bearer == old(cache.bearer)
      invariant i > 0 ==> cache.bearer == None
      decreases k - i
    {
      if cache.bearer.None? {
        cache.bearer := Some(issued);
      }
      if !answers[i].Unauthorized? {
        break;
      }
      cache.bearer := None;
      i := i + 1;
    }
    r := Outcome(answers[i]);
    tries := i + 1;
  }
}
