/** The game cache (`src/runtime/game_map.rs`): Helix game records keyed by game id, with
    the box-art URL template filled in for a 144 x 152 image. */
module Games {
  import opened Wrappers
  import opened Text
  import opened Maps
  import opened Resolver
  import Helix

  const Width: string := "144"
  const Height: string := "152"

  /** The box-art URL with every "{width}" and then every "{height}" filled in. */
  function BoxArt(url: string): string {
    Replace(Replace(url, "{width}", Width), "{height}", Height)
  }

  /** Neither placeholder survives the substitution. */
  lemma BoxArtHasNoPlaceholders(url: string)
    ensures !Occurs(BoxArt(url), "{width}") && !Occurs(BoxArt(url), "{height}")
  {
    var once := Replace(url, "{width}", Width);
    ReplaceRemovesAll(url, "{width}", Width);
    ReplaceKeepsAbsent(once, "{height}", Height, "{width}");
    ReplaceRemovesAll(once, "{height}", Height);
  }

  /** A URL without placeholders is left as it is. */
  lemma BoxArtIdentity(url: string)
    requires !Occurs(url, "{width}") && !Occurs(url, "{height}")
    ensures BoxArt(url) == url
  {
    ReplaceIdentity(url, "{width}", Width);
    ReplaceIdentity(url, "{height}", Height);
  }

  /** The game as stored: box art filled in, everything else as returned. */
  function Sized(g: Helix.Game): (s: Helix.Game)
    ensures s.id == g.id && s.name == g.name && s.igdbId == g.igdbId
    ensures !Occurs(s.boxArtUrl, "{width}") && !Occurs(s.boxArtUrl, "{height}")
  {
    BoxArtHasNoPlaceholders(g.boxArtUrl);
    g.(boxArtUrl := BoxArt(g.boxArtUrl))
  }

  /** The entries a batch of finished lookups writes: each found game under its own id. */
  function GameUpdates(done: seq<Option<Helix.Game>>): seq<(string, Helix.Game)> {
    if done == [] then []
    else
      var last := done[|done| - 1];
      GameUpdates(done[..|done| - 1]) + (if last.Some? then [(last.value.id, Sized(last.value))] else [])
  }

  function ReturnedIds(done: seq<Option<Helix.Game>>): set<string> {
    set i | 0 <= i < |done| && done[i].Some? :: done[i].value.id
  }

  /** The keys written are exactly the ids of the games found. */
  lemma {:induction false} GameUpdatesKeys(done: seq<Option<Helix.Game>>)
    ensures Firsts(GameUpdates(done)) == ReturnedIds(done)
  {
    if done != [] {
      var init := done[..|done| - 1];
      var us := GameUpdates(done);
      GameUpdatesKeys(init);
      var last := done[|done| - 1];
      if last.Some? {
        FirstsSnoc(us);
        assert us[..|us| - 1] == GameUpdates(init);
      } else {
        assert us == GameUpdates(init);
      }
      assert ReturnedIds(done) == ReturnedIds(init) + (if last.Some? then {last.value.id} else {}) by {
        forall u | u in ReturnedIds(done)
          ensures u in ReturnedIds(init) + (if last.Some? then {last.value.id} else {})
        {
          var i :| 0 <= i < |done| && done[i].Some? && done[i].value.id == u;
          if i < |init| { assert init[i] == done[i]; }
        }
        forall u | u in ReturnedIds(init) ensures u in ReturnedIds(done) {
          var i :| 0 <= i < |init| && init[i].Some? && init[i].value.id == u;
          assert done[i] == init[i];
        }
      }
    }
  }

  /** Every game written is stored under its own id, with its box art filled in. */
  lemma {:induction false} GameUpdatesAreSized(done: seq<Option<Helix.Game>>)
    ensures forall j :: 0 <= j < |GameUpdates(done)| ==>
      var (id, g) := GameUpdates(done)[j];
      id == g.id && !Occurs(g.boxArtUrl, "{width}") && !Occurs(g.boxArtUrl, "{height}")
  {
    if done != [] {
      GameUpdatesAreSized(done[..|done| - 1]);
    }
  }

  /** A game id that no lookup found keeps its entry: a failed lookup leaves the id
      outstanding for good. */
  lemma MissingGameStaysOutstanding(
    m: map<string, Ready<Helix.Game>>, done: seq<Option<Helix.Game>>, id: string)
    requires id in m && id !in ReturnedIds(done)
    ensures id in SetAll(m, GameUpdates(done)) && SetAll(m, GameUpdates(done))[id] == m[id]
  {
    GameUpdatesKeys(done);
    SetAllUntouched(m, GameUpdates(done), id);
  }

  class GameMap {
    const games: ResolverMap<string, Helix.Game, Option<Helix.Game>>

    constructor ()
      ensures fresh(games) && games.entries == map[] && games.pending == []
    {
      games := new ResolverMap();
    }

    /** `get`: the game if known; the first request for an id starts its one fetch. */
    method Get(gameId: string) returns (o: Option<Helix.Game>)
      modifies games
      ensures o == old(games.TryGet(gameId))
      ensures gameId in old(games.entries) ==>
        games.entries == old(games.entries) && games.pending == old(games.pending)
      ensures gameId !in old(games.entries) ==>
        && games.entries == old(games.entries)[gameId := NotReady]
        && |games.pending| == |old(games.pending)| + 1
        && games.pending[..|old(games.pending)|] == old(games.pending)
        && fresh(games.pending[|old(games.pending)|])
    {
      o := games.GetOrUpdate(gameId, _ => true);
    }

    /** `poll`: each found game is stored under its id with the box art sized; a lookup
        that found nothing changes nothing. */
    method Poll()
      modifies games
      ensures games.entries == SetAll(old(games.entries), GameUpdates(old(Completed(games.pending))))
      ensures games.pending == old(Unfinished(games.pending))
    {
      var done := games.Poll();
      var entry := games.Update();
      ghost var start := games.entries;
      for i := 0 to |done|
        invariant games.entries == SetAll(start, GameUpdates(done[..i]))
        invariant games.pending == old(Unfinished(games.pending))
      {
        assert done[..i + 1][..i] == done[..i];
        ghost var before := GameUpdates(done[..i]);
        match done[i] {
          case Some(game) =>
            var sized := game.(boxArtUrl := Replace(Replace(game.boxArtUrl, "{width}", Width), "{height}", Height));
            entry.Set(game.id, sized);
            assert GameUpdates(done[..i + 1]) == before + [(game.id, sized)];
            assert (before + [(game.id, sized)])[..|before|] == before;
          case None =>
            assert GameUpdates(done[..i + 1]) == before;
        }
      }
      assert done[..|done|] == done;
    }
  }
}
