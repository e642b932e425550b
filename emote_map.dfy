/** The emote and badge directory (`src/runtime/emote_map.rs`): emote names to ids, emote
    ids to image URLs (from whole emote sets and from single ids probed by the fetcher),
    and badge image URLs keyed by a hash of (channel or "-", set id, version id). */
module Emotes {
  import opened Wrappers
  import opened Maps
  import opened Resolver
  import opened EmoteFetching
  import Helix

  // ------------------------------------------------------------ URL synthesis

  /** The first option equal to `k`, scanning from the front. */
  function FindOption(options: seq<string>, k: string): (o: Option<string>)
    ensures o.Some? <==> k in options
    ensures o.Some? ==> o.value == k
  {
    if options == [] then None
    else if options[0] == k then Some(options[0])
    else
      assert options == [options[0]] + options[1..];
      FindOption(options[1..], k)
  }

  /** `filter`: the wanted option when offered; otherwise the given default, or the last
      option when there is no default (an empty list with no default is a panic). */
  function Filter(options: seq<string>, k: string, or: Option<string>): (r: string)
    requires or.Some? || options != []
    ensures k in options ==> r == k
    ensures k !in options && or.Some? ==> r == or.value
    ensures k !in options && or.None? ==> r == options[|options| - 1]
  {
    match FindOption(options, k)
    case Some(t) => t
    case None => if or.Some? then or.value else options[|options| - 1]
  }

  /** `make_emote_url`. */
  function MakeEmoteUrl(es: Helix.EmoteSet): string
    requires es.scale != []
  {
    EmoteCdnUrl(
      es.id,
      Filter(es.format, "animated", Some("static")),
      Filter(es.themeMode, "dark", Some("light")),
      Filter(es.scale, "1.0", None))
  }

  /** The URL picks the animated format when offered (else static), the dark theme when
      offered (else light), and scale 1.0 when offered (else the last scale listed). */
  lemma EmoteUrlSegments(es: Helix.EmoteSet)
    requires es.scale != []
    ensures MakeEmoteUrl(es) == EmoteCdnUrl(
      es.id,
      if "animated" in es.format then "animated" else "static",
      if "dark" in es.themeMode then "dark" else "light",
      if "1.0" in es.scale then "1.0" else es.scale[|es.scale| - 1])
  {
  }

  /** For a set offering everything the fetcher asks for, both build the same URL. */
  lemma PreferredUrlIsFetcherUrl(es: Helix.EmoteSet)
    requires "animated" in es.format && "dark" in es.themeMode && "1.0" in es.scale
    ensures MakeEmoteUrl(es) == AnimatedUrl(es.id)
  {
  }

  // ------------------------------------------------------- what poll writes

  predicate ScalesPresent(lists: seq<seq<Helix.EmoteSet>>) {
    forall i, j :: 0 <= i < |lists| && 0 <= j < |lists[i]| ==> lists[i][j].scale != []
  }

  predicate ListScalesPresent(list: seq<Helix.EmoteSet>) {
    forall j :: 0 <= j < |list| ==> list[j].scale != []
  }

  /** The entries one emote-set list writes: (set id, its URL), in list order. */
  function SetUrls(list: seq<Helix.EmoteSet>): (us: seq<(string, string)>)
    requires ListScalesPresent(list)
    ensures |us| == |list|
  {
    seq(|list|, j requires 0 <= j < |list| => (list[j].id, MakeEmoteUrl(list[j])))
  }

  /** The names one emote-set list maps: (set name, set id), in list order. */
  function SetNames(list: seq<Helix.EmoteSet>): (us: seq<(string, string)>)
    ensures |us| == |list|
  {
    seq(|list|, j requires 0 <= j < |list| => (list[j].name, list[j].id))
  }

  /** Per finished emote-set request, the entries its list writes. */
  function UrlRuns(lists: seq<seq<Helix.EmoteSet>>): (runs: seq<seq<(string, string)>>)
    requires ScalesPresent(lists)
    ensures |runs| == |lists|
  {
    seq(|lists|, i requires 0 <= i < |lists| => SetUrls(lists[i]))
  }

  function NameRuns(lists: seq<seq<Helix.EmoteSet>>): (runs: seq<seq<(string, string)>>)
    ensures |runs| == |lists|
  {
    seq(|lists|, i requires 0 <= i < |lists| => SetNames(lists[i]))
  }

  /** The badge key of a finished badge request: its channel id, or "-" for the global
      badges. */
  function ChannelKey(cid: Option<string>): string {
    cid.UnwrapOr("-")
  }

  /** The entries one badge set writes: (hash of (channel, set, version), 1x image URL). */
  function VersionUpdates(hash: (string, string, string) -> nat, cid: string, badge: Helix.Badge)
    : (us: seq<(nat, string)>)
  {
    seq(|badge.versions|, k requires 0 <= k < |badge.versions| =>
      (hash(cid, badge.setId, badge.versions[k].id), badge.versions[k].imageUrl1x))
  }

  function BadgeRuns(hash: (string, string, string) -> nat, cid: string, list: seq<Helix.Badge>)
    : (runs: seq<seq<(nat, string)>>)
  {
    seq(|list|, j requires 0 <= j < |list| => VersionUpdates(hash, cid, list[j]))
  }

  function ResultRuns(hash: (string, string, string) -> nat, done: seq<(Option<string>, seq<Helix.Badge>)>)
    : (runs: seq<seq<(nat, string)>>)
  {
    seq(|done|, i requires 0 <= i < |done| => Concat(BadgeRuns(hash, ChannelKey(done[i].0), done[i].1)))
  }

  /** Every set of every finished emote-set list ends up resolved under its id. */
  lemma EverySetStored(m: map<string, Ready<string>>, lists: seq<seq<Helix.EmoteSet>>, i: nat, j: nat)
    requires ScalesPresent(lists) && i < |lists| && j < |lists[i]|
    ensures var us := Concat(UrlRuns(lists));
      lists[i][j].id in SetAll(m, us) && IsReady(SetAll(m, us)[lists[i][j].id])
  {
    var us := Concat(UrlRuns(lists));
    ConcatMember(UrlRuns(lists), i, j);
    FirstsMember(us, (lists[i][j].id, MakeEmoteUrl(lists[i][j])));
    SetAllLastWins(m, us, lists[i][j].id);
  }

  /** Every set of every finished emote-set list ends up with its name mapped. */
  lemma EveryNameStored(m: map<string, string>, lists: seq<seq<Helix.EmoteSet>>, i: nat, j: nat)
    requires i < |lists| && j < |lists[i]|
    ensures lists[i][j].name in InsertAll(m, Concat(NameRuns(lists)))
  {
    var us := Concat(NameRuns(lists));
    ConcatMember(NameRuns(lists), i, j);
    FirstsMember(us, (lists[i][j].name, lists[i][j].id));
    InsertAllKeys(m, us);
  }

  /** Every version of every badge set of every finished badge list ends up resolved under
      the hash of its (channel or "-", set id, version id). */
  lemma EveryBadgeVersionStored(
    m: map<nat, Ready<string>>, hash: (string, string, string) -> nat,
    done: seq<(Option<string>, seq<Helix.Badge>)>, i: nat, j: nat, k: nat)
    requires i < |done| && j < |done[i].1| && k < |done[i].1[j].versions|
    ensures var key := hash(ChannelKey(done[i].0), done[i].1[j].setId, done[i].1[j].versions[k].id);
      var us := Concat(ResultRuns(hash, done));
      key in SetAll(m, us) && IsReady(SetAll(m, us)[key])
  {
    var cid := ChannelKey(done[i].0);
    var badge := done[i].1[j];
    var pair := (hash(cid, badge.setId, badge.versions[k].id), badge.versions[k].imageUrl1x);
    var runs := BadgeRuns(hash, cid, done[i].1);
    ConcatMember(runs, j, k);
    ConcatMemberOf(ResultRuns(hash, done), i, pair);
    var us := Concat(ResultRuns(hash, done));
    FirstsMember(us, pair);
    SetAllLastWins(m, us, pair.0);
  }

  // --------------------------------------------------- what insert_emote asks for

  /** The ids of (name, id) pairs, in order. */
  function Ids(pairs: seq<(string, string)>): seq<string> {
    seq(|pairs|, i requires 0 <= i < |pairs| => pairs[i].1)
  }

  lemma IdsAppend(a: seq<(string, string)>, b: seq<(string, string)>)
    ensures Ids(a + b) == Ids(a) + Ids(b)
  {
  }

  /** The ids a run of `insert_emote` calls hands to the fetcher, in order: an id with no
      probed URL (`known`) that the fetcher has not seen, either before the run (`seen`)
      or earlier in it. */
  function Requests(seen: set<string>, known: set<string>, ids: seq<string>): seq<string> {
    if ids == [] then []
    else
      var init := ids[..|ids| - 1];
      var id := ids[|ids| - 1];
      Requests(seen, known, init) + (if id in known || id in seen || id in init then [] else [id])
  }

  /** The fetcher's seen set after a run of `insert_emote` calls. */
  function SeenAfter(seen: set<string>, known: set<string>, ids: seq<string>): set<string> {
    seen + (set x | x in ids && x !in known)
  }

  /** The requests of a run are exactly the ids of the run that are neither probed nor
      seen, each once, in the order of their first appearance in the run. */
  lemma RequestsAreNewIds(seen: set<string>, known: set<string>, ids: seq<string>)
    ensures var r := Requests(seen, known, ids);
      && (forall x :: x in r <==> x in ids && x !in known && x !in seen)
      && Distinct(r)
      && forall j, k :: 0 <= j < k < |r| ==> Before(ids, r[j], r[k])
  {
    RequestsMembers(seen, known, ids);
    RequestsDistinct(seen, known, ids);
    RequestsOrdered(seen, known, ids);
  }

  lemma {:induction false} RequestsMembers(seen: set<string>, known: set<string>, ids: seq<string>)
    ensures forall x :: x in Requests(seen, known, ids) <==> x in ids && x !in known && x !in seen
  {
    if ids != [] {
      var init := ids[..|ids| - 1];
      RequestsMembers(seen, known, init);
      assert ids == init + [ids[|ids| - 1]];
    }
  }

  lemma {:induction false} RequestsDistinct(seen: set<string>, known: set<string>, ids: seq<string>)
    ensures Distinct(Requests(seen, known, ids))
  {
    if ids != [] {
      var init := ids[..|ids| - 1];
      RequestsDistinct(seen, known, init);
      RequestsMembers(seen, known, init);
    }
  }

  lemma {:induction false} RequestsOrdered(seen: set<string>, known: set<string>, ids: seq<string>)
    ensures forall j, k :: 0 <= j < k < |Requests(seen, known, ids)| ==>
      Before(ids, Requests(seen, known, ids)[j], Requests(seen, known, ids)[k])
  {
    if ids != [] {
      var init := ids[..|ids| - 1];
      var id := ids[|ids| - 1];
      RequestsOrdered(seen, known, init);
      RequestsMembers(seen, known, init);
      var r0 := Requests(seen, known, init);
      var r := Requests(seen, known, ids);
      forall j, k | 0 <= j < k < |r| ensures Before(ids, r[j], r[k]) {
        assert r[j] == r0[j];
        if k < |r0| {
          assert Before(init, r0[j], r0[k]);
          var p :| 0 <= p < |init| && init[p] == r0[j] && r0[k] !in init[..p + 1];
          assert ids[..p + 1] == init[..p + 1];
          assert ids[p] == r[j] && r[k] !in ids[..p + 1];
        } else {
          assert r[k] == id && id !in init;
          assert r0[j] in init;
          var p :| 0 <= p < |init| && init[p] == r0[j];
          assert ids[..p + 1] == init[..p + 1];
          assert ids[p] == r[j] && r[k] !in ids[..p + 1];
        }
      }
    }
  }

  /** `x` appears in `ids` before `y` appears there at all. */
  ghost predicate Before(ids: seq<string>, x: string, y: string) {
    exists p :: 0 <= p < |ids| && ids[p] == x && y !in ids[..p + 1]
  }

  /** One more `insert_emote` call: its id is requested exactly when it is neither probed
      nor seen by then. */
  lemma RequestsSnoc(seen: set<string>, known: set<string>, ids: seq<string>, id: string)
    ensures Requests(seen, known, ids + [id])
      == Requests(seen, known, ids) + (if id in known || id in SeenAfter(seen, known, ids) then [] else [id])
    ensures SeenAfter(seen, known, ids + [id]) == SeenAfter(seen, known, ids) + (if id in known then {} else {id})
  {
    assert (ids + [id])[..|ids|] == ids;
  }

  /** Two runs of `insert_emote` calls in a row request what the joined run requests. */
  lemma {:induction false} RequestsAppend(seen: set<string>, known: set<string>, a: seq<string>, b: seq<string>)
    ensures Requests(seen, known, a + b) == Requests(seen, known, a) + Requests(SeenAfter(seen, known, a), known, b)
  {
    if b == [] {
      assert a + b == a;
    } else {
      var b' := b[..|b| - 1];
      var y := b[|b| - 1];
      var seen' := SeenAfter(seen, known, a);
      RequestsAppend(seen, known, a, b');
      assert (a + b)[..|a + b| - 1] == a + b';
      assert (a + b)[|a + b| - 1] == y;
      assert (y in known || y in seen || y in a + b') <==> (y in known || y in seen' || y in b');
    }
  }

  /** ... and leave the seen set the joined run leaves. */
  lemma SeenAfterAppend(seen: set<string>, known: set<string>, a: seq<string>, b: seq<string>)
    ensures SeenAfter(seen, known, a + b) == SeenAfter(SeenAfter(seen, known, a), known, b)
  {
    assert forall x :: x in a + b <==> x in a || x in b;
  }

  /** The fetcher holds `seen` and has `items` queued after a run `ids` of `insert_emote`
      calls that started from `seen0` and `items0`, with `known` probed. */
  ghost predicate FetcherAfter(
    seen: set<string>, items: seq<string>, seen0: set<string>, items0: seq<string>,
    known: set<string>, ids: seq<string>)
  {
    && seen == SeenAfter(seen0, known, ids)
    && items == items0 + Requests(seen0, known, ids)
  }

  /** One more `insert_emote` call extends the run. */
  lemma FetcherAfterSnoc(
    seen: set<string>, items: seq<string>, seen0: set<string>, items0: seq<string>,
    known: set<string>, ids: seq<string>, id: string, seen': set<string>, items': seq<string>)
    requires FetcherAfter(seen, items, seen0, items0, known, ids)
    requires seen' == seen + (if id in known then {} else {id})
    requires items' == items + (if id in known || id in seen then [] else [id])
    ensures FetcherAfter(seen', items', seen0, items0, known, ids + [id])
  {
    RequestsSnoc(seen0, known, ids, id);
  }

  /** Two runs in a row make one run. */
  lemma FetcherAfterAppend(
    seen: set<string>, items: seq<string>, seen0: set<string>, items0: seq<string>,
    known: set<string>, a: seq<string>, b: seq<string>, seen': set<string>, items': seq<string>)
    requires FetcherAfter(seen, items, seen0, items0, known, a)
    requires FetcherAfter(seen', items', seen, items, known, b)
    ensures FetcherAfter(seen', items', seen0, items0, known, a + b)
  {
    RequestsAppend(seen0, known, a, b);
    SeenAfterAppend(seen0, known, a, b);
  }

  // ------------------------------------------------------------------ the map

  class EmoteMap {
    var nameToId: map<string, string>
    var emoteMap: map<string, string>
    const fetcher: EmoteFetcher
    const emoteSets: ResolverMap<string, string, seq<Helix.EmoteSet>>
    const badges: ResolverMap<nat, string, (Option<string>, seq<Helix.Badge>)>
    /** `hash_badge`: some function of the three strings; nothing assumes it injective. */
    const hashBadge: (string, string, string) -> nat
    /** The tags badge lists were requested under: `None` for the global list, `Some(id)`
        for channel `id`'s. */
    ghost var badgeTags: set<Option<string>>

    ghost predicate Valid()
      reads this, fetcher
    {
      fetcher.Valid()
    }

    /** Everything recording an emote can change, in one value. */
    ghost function Recorded(): (map<string, string>, map<string, string>, set<Option<string>>, set<string>, seq<string>)
      reads this, fetcher, fetcher.requests
    {
      (nameToId, emoteMap, badgeTags, fetcher.seen, fetcher.requests.items)
    }

    /** Every outstanding badge fetch can deliver only a list tagged as it was requested. */
    ghost predicate BadgesTagged()
      reads this, badges, badges.pending
    {
      forall i :: 0 <= i < |badges.pending| ==>
        && badges.pending[i].Valid()
        && forall r :: badges.pending[i].admits(r) ==> r.0 in badgeTags
    }

    /** `create`: empty maps, then the global badges and global emotes requested. */
    constructor Create(hash: (string, string, string) -> nat)
      ensures Valid() && hashBadge == hash
      ensures BadgesTagged() && badgeTags == {None}
      ensures nameToId == map[] && emoteMap == map[]
      ensures fresh(fetcher) && fresh(emoteSets) && fresh(badges)
      ensures fetcher.seen == {} && fetcher.requests.items == [] && fetcher.ready.items == []
      ensures emoteSets.entries == map[] && |emoteSets.pending| == 1 && fresh(emoteSets.pending[0])
      ensures badges.entries == map[] && |badges.pending| == 1 && fresh(badges.pending[0])
    {
      nameToId := map[];
      emoteMap := map[];
      fetcher := new EmoteFetcher.Create();
      emoteSets := new ResolverMap();
      badges := new ResolverMap();
      hashBadge := hash;
      badgeTags := {};
      new;
      PopulateGlobalBadges();
      PopulateGlobalEmotes();
    }

    /** `populate_global_badges` (and, with the channel id travelling in the result,
        `populate_channel_badges`): one more badge request outstanding. */
    method PopulateGlobalBadges()
      requires BadgesTagged()
      modifies this`badgeTags, badges
      ensures BadgesTagged() && badgeTags == old(badgeTags) + {None}
      ensures badges.entries == old(badges.entries)
      ensures |badges.pending| == |old(badges.pending)| + 1
      ensures badges.pending[..|old(badges.pending)|] == old(badges.pending)
      ensures var f := badges.pending[|old(badges.pending)|];
        && fresh(f) && f.slot == None
        && forall r :: f.admits(r) <==> r.0 == None
    {
      var request := new Fut.Spawn((r: (Option<string>, seq<Helix.Badge>)) => r.0 == None);
      badgeTags := badgeTags + {None};
      badges.Add(request);
    }

    method PopulateChannelBadges(id: string)
      requires BadgesTagged()
      modifies this`badgeTags, badges
      ensures BadgesTagged() && badgeTags == old(badgeTags) + {Some(id)}
      ensures badges.entries == old(badges.entries)
      ensures |badges.pending| == |old(badges.pending)| + 1
      ensures badges.pending[..|old(badges.pending)|] == old(badges.pending)
      ensures var f := badges.pending[|old(badges.pending)|];
        && fresh(f) && f.slot == None
        && forall r :: f.admits(r) <==> r.0 == Some(id)
    {
      var request := new Fut.Spawn((r: (Option<string>, seq<Helix.Badge>)) => r.0 == Some(id));
      badgeTags := badgeTags + {Some(id)};
      badges.Add(request);
    }

    /** `populate_global_emotes`, `populate_channel_emotes`, `populate_emote_set`: one more
        emote-set request outstanding. The broadcaster or set `id` only chooses which
        Helix request the task makes; the request is not modelled and the list it brings
        carries no id, so the new slot admits any list. */
    method PopulateGlobalEmotes()
      modifies emoteSets
      ensures emoteSets.entries == old(emoteSets.entries)
      ensures |emoteSets.pending| == |old(emoteSets.pending)| + 1
      ensures emoteSets.pending[..|old(emoteSets.pending)|] == old(emoteSets.pending)
      ensures fresh(emoteSets.pending[|old(emoteSets.pending)|])
    {
      var request := new Fut.Spawn(_ => true);
      emoteSets.Add(request);
    }

    method PopulateChannelEmotes(id: string)
      modifies emoteSets
      ensures emoteSets.entries == old(emoteSets.entries)
      ensures |emoteSets.pending| == |old(emoteSets.pending)| + 1
      ensures emoteSets.pending[..|old(emoteSets.pending)|] == old(emoteSets.pending)
      ensures fresh(emoteSets.pending[|old(emoteSets.pending)|])
    {
      var request := new Fut.Spawn(_ => true);
      emoteSets.Add(request);
    }

    method PopulateEmoteSet(id: string)
      modifies emoteSets
      ensures emoteSets.entries == old(emoteSets.entries)
      ensures |emoteSets.pending| == |old(emoteSets.pending)| + 1
      ensures emoteSets.pending[..|old(emoteSets.pending)|] == old(emoteSets.pending)
      ensures fresh(emoteSets.pending[|old(emoteSets.pending)|])
    {
      var request := new Fut.Spawn(_ => true);
      emoteSets.Add(request);
    }

    /** `get_badge_url`: the global badge image for (set id, version id). */
    function GetBadgeUrl(setId: string, id: string): (o: Option<string>)
      reads this, badges
      ensures var key := hashBadge("-", setId, id);
        && (o.Some? <==> badges.IsReady(key))
        && (o.Some? ==> badges.entries[key] == Ready(o.value))
    {
      badges.TryGet(hashBadge("-", setId, id))
    }

    /** `get_channel_badge_url`: the channel's own badge image, falling back to the global
        one when the channel has none resolved. */
    function GetChannelBadgeUrl(userId: string, setId: string, id: string): (o: Option<string>)
      reads this, badges
      ensures var own := hashBadge(userId, setId, id);
        && (badges.IsReady(own) ==> o.Some? && badges.entries[own] == Ready(o.value))
        && (!badges.IsReady(own) ==> o == GetBadgeUrl(setId, id))
    {
      match badges.TryGet(hashBadge(userId, setId, id))
      case Some(url) => Some(url)
      case None => badges.TryGet(hashBadge("-", setId, id))
    }

    /** `insert_emote`: the name now maps to the id; an id with no probed URL yet is handed
        to the fetcher (which itself ignores ids it has seen). */
    method InsertEmote(id: string, name: string)
      requires Valid()
      modifies this, fetcher, fetcher.requests
      ensures Valid()
      ensures nameToId == old(nameToId)[name := id]
      ensures emoteMap == old(emoteMap) && badgeTags == old(badgeTags)
      ensures id in old(emoteMap) ==>
        fetcher.seen == old(fetcher.seen) && fetcher.requests.items == old(fetcher.requests.items)
      ensures id !in old(emoteMap) ==>
        && fetcher.seen == old(fetcher.seen) + {id}
        && fetcher.requests.items
           == old(fetcher.requests.items) + (if id in old(fetcher.seen) then [] else [id])
    {
      if id !in emoteMap {
        fetcher.Lookup(id);
      }
      nameToId := nameToId[name := id];
    }

    /** `get_emote_id`. */
    function GetEmoteId(name: string): (o: Option<string>)
      reads this
      ensures o.Some? <==> name in nameToId
      ensures o.Some? ==> o.value == nameToId[name]
    {
      if name in nameToId then Some(nameToId[name]) else None
    }

    /** `get_emote_url`: the URL from the emote sets when resolved there, else the one the
        fetcher found. */
    function GetEmoteUrl(id: string): (o: Option<string>)
      reads this, emoteSets
      ensures o.Some? <==> emoteSets.IsReady(id) || id in emoteMap
      ensures emoteSets.IsReady(id) ==> emoteSets.entries[id] == Ready(o.value)
      ensures !emoteSets.IsReady(id) && id in emoteMap ==> o == Some(emoteMap[id])
    {
      match emoteSets.TryGet(id)
      case Some(url) => Some(url)
      case None => if id in emoteMap then Some(emoteMap[id]) else None
    }

    /** `poll`: the fetcher's findings go into `emoteMap`; each finished emote-set list
        writes id to URL and name to id for every set; each finished badge list writes the
        1x image of every version of every badge set. */
    method Poll()
      requires ScalesPresent(Completed(emoteSets.pending))
      requires BadgesTagged()
      modifies this, fetcher.ready, emoteSets, badges
      ensures BadgesTagged() && badgeTags == old(badgeTags)
      ensures forall k :: 0 <= k < |old(Completed(badges.pending))| ==>
        old(Completed(badges.pending))[k].0 in badgeTags
      ensures fetcher.ready.items == []
      ensures emoteMap == InsertAll(old(emoteMap), old(fetcher.ready.items))
      ensures emoteSets.pending == old(Unfinished(emoteSets.pending))
      ensures emoteSets.entries
        == SetAll(old(emoteSets.entries), Concat(UrlRuns(old(Completed(emoteSets.pending)))))
      ensures nameToId == InsertAll(old(nameToId), Concat(NameRuns(old(Completed(emoteSets.pending)))))
      ensures badges.pending == old(Unfinished(badges.pending))
      ensures badges.entries
        == SetAll(old(badges.entries), Concat(ResultRuns(hashBadge, old(Completed(badges.pending)))))
    {
      DrainFetcher();
      SlotsKept(emoteSets.pending);
      PollEmoteSets();
      SlotsKept(badges.pending);
      ghost var tags := badgeTags;
      ghost var before := badges.pending;
      CompletedAdmitted(before, (r: (Option<string>, seq<Helix.Badge>)) => r.0 in tags);
      UnfinishedAreUnfinished(before);
      PollBadges();
      forall i | 0 <= i < |badges.pending|
        ensures badges.pending[i].Valid() && forall r :: badges.pending[i].admits(r) ==> r.0 in tags
      {
        assert badges.pending[i] in before;
      }
    }

    method DrainFetcher()
      modifies this`emoteMap, fetcher.ready
      ensures fetcher.ready.items == []
      ensures emoteMap == InsertAll(old(emoteMap), old(fetcher.ready.items))
    {
      ghost var arrived := fetcher.ready.items;
      ghost var k := 0;
      while true
        invariant 0 <= k <= |arrived|
        invariant fetcher.ready.items == arrived[k..]
        invariant emoteMap == InsertAll(old(emoteMap), arrived[..k])
        decreases |fetcher.ready.items|
      {
        var next := fetcher.Poll();
        if next.None? {
          break;
        }
        var (id, url) := next.value;
        assert arrived[..k + 1][..k] == arrived[..k];
        emoteMap := emoteMap[id := url];
        k := k + 1;
      }
      assert arrived[..k] == arrived;
    }

    method PollEmoteSets()
      requires ScalesPresent(Completed(emoteSets.pending))
      modifies this`nameToId, emoteSets
      ensures emoteSets.pending == old(Unfinished(emoteSets.pending))
      ensures emoteSets.entries
        == SetAll(old(emoteSets.entries), Concat(UrlRuns(old(Completed(emoteSets.pending)))))
      ensures nameToId == InsertAll(old(nameToId), Concat(NameRuns(old(Completed(emoteSets.pending)))))
    {
      var done := emoteSets.Poll();
      var entry := emoteSets.Update();
      ghost var urls := UrlRuns(done);
      ghost var names := NameRuns(done);
      ghost var start := emoteSets.entries;
      ghost var names0 := nameToId;
      for i := 0 to |done|
        invariant emoteSets.entries == SetAll(start, Concat(urls[..i]))
        invariant nameToId == InsertAll(names0, Concat(names[..i]))
        invariant emoteSets.pending == old(Unfinished(emoteSets.pending))
      {
        SetEmoteList(entry, done[i]);
        ConcatPrefixSnoc(urls, i);
        ConcatPrefixSnoc(names, i);
        SetAllAppend(start, Concat(urls[..i]), urls[i]);
        InsertAllAppend(names0, Concat(names[..i]), names[i]);
      }
      assert urls[..|done|] == urls && names[..|done|] == names;
    }

    /** Every set of one finished emote-set list: id to URL, name to id. */
    method SetEmoteList(entry: ResolverEntry<string, string, seq<Helix.EmoteSet>>, list: seq<Helix.EmoteSet>)
      requires entry.inner == emoteSets && ListScalesPresent(list)
      modifies this`nameToId, emoteSets
      ensures emoteSets.pending == old(emoteSets.pending)
      ensures emoteSets.entries == SetAll(old(emoteSets.entries), SetUrls(list))
      ensures nameToId == InsertAll(old(nameToId), SetNames(list))
    {
      ghost var urls := SetUrls(list);
      ghost var names := SetNames(list);
      ghost var start, names0 := emoteSets.entries, nameToId;
      for j := 0 to |list|
        invariant emoteSets.entries == SetAll(start, urls[..j])
        invariant nameToId == InsertAll(names0, names[..j])
        invariant emoteSets.pending == old(emoteSets.pending)
      {
        var es := list[j];
        var url := EmoteCdnUrl(
          es.id,
          Filter(es.format, "animated", Some("static")),
          Filter(es.themeMode, "dark", Some("light")),
          Filter(es.scale, "1.0", None));
        assert urls[j] == (es.id, url) && names[j] == (es.name, es.id);
        SetAllSnoc(start, urls, j);
        InsertAllSnoc(names0, names, j);
        entry.Set(es.id, url);
        nameToId := nameToId[es.name := es.id];
      }
      assert urls[..|list|] == urls && names[..|list|] == names;
    }

    method PollBadges()
      modifies badges
      ensures badges.pending == old(Unfinished(badges.pending))
      ensures badges.entries
        == SetAll(old(badges.entries), Concat(ResultRuns(hashBadge, old(Completed(badges.pending)))))
    {
      var done := badges.Poll();
      var entry := badges.Update();
      ghost var runs := ResultRuns(hashBadge, done);
      ghost var start := badges.entries;
      for i := 0 to |done|
        invariant badges.entries == SetAll(start, Concat(runs[..i]))
        invariant badges.pending == old(Unfinished(badges.pending))
      {
        var (cid, list) := done[i];
        var key := if cid.Some? then cid.value else "-";
        SetBadgeList(entry, key, list);
        ConcatPrefixSnoc(runs, i);
        SetAllAppend(start, Concat(runs[..i]), runs[i]);
      }
      assert runs[..|done|] == runs;
    }

    /** Every version of every set of one finished badge list, keyed under `cid`. */
    method SetBadgeList(entry: ResolverEntry<nat, string, (Option<string>, seq<Helix.Badge>)>, cid: string, list: seq<Helix.Badge>)
      requires entry.inner == badges
      modifies badges
      ensures badges.pending == old(badges.pending)
      ensures badges.entries == SetAll(old(badges.entries), Concat(BadgeRuns(hashBadge, cid, list)))
    {
      ghost var runs := BadgeRuns(hashBadge, cid, list);
      ghost var start := badges.entries;
      for j := 0 to |list|
        invariant badges.entries == SetAll(start, Concat(runs[..j]))
        invariant badges.pending == old(badges.pending)
      {
        ghost var entries0 := badges.entries;
        var es := list[j];
        for k := 0 to |es.versions|
          invariant badges.entries == SetAll(entries0, runs[j][..k])
          invariant badges.pending == old(badges.pending)
        {
          var version := es.versions[k];
          entry.Set(hashBadge(cid, es.setId, version.id), version.imageUrl1x);
          assert runs[j][..k + 1][..k] == runs[j][..k];
        }
        assert runs[j][..|es.versions|] == runs[j];
        ConcatPrefixSnoc(runs, j);
        SetAllAppend(start, Concat(runs[..j]), runs[j]);
      }
      assert runs[..|list|] == runs;
    }
  }
}
