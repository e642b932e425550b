/** The user cache (`src/runtime/user_map.rs`): Helix user records keyed by login, with
    channel-style names ("#login") folded onto the bare login. */
module Users {
  import opened Wrappers
  import opened Text
  import opened Maps
  import opened Resolver
  import Helix

  /** The cache key for a requested name: one leading '#' removed. */
  function LoginKey(login: string): (key: string)
    ensures StartsWith(login, "#") ==> ['#'] + key == login
    ensures !StartsWith(login, "#") ==> key == login
  {
    StripPrefix(login, '#')
  }

  /** "#name" and "name" share one cache entry. */
  lemma ChannelNameSharesEntry(name: string)
    requires !StartsWith(name, "#")
    ensures LoginKey(['#'] + name) == LoginKey(name) == name
  {
    StripPrefixOfPrefixed(name, '#');
  }

  /** The entries a batch of finished lookups writes: each found user under its own
      login, whatever name was asked for. */
  function UserUpdates(done: seq<Option<(string, Helix.User)>>): seq<(string, Helix.User)> {
    if done == [] then []
    else
      var last := done[|done| - 1];
      UserUpdates(done[..|done| - 1])
        + (if last.Some? then [(last.value.1.login, last.value.1)] else [])
  }

  function ReturnedLogins(done: seq<Option<(string, Helix.User)>>): set<string> {
    set i | 0 <= i < |done| && done[i].Some? :: done[i].value.1.login
  }

  /** The keys written are exactly the logins of the users found. */
  lemma {:induction false} UserUpdatesKeys(done: seq<Option<(string, Helix.User)>>)
    ensures Firsts(UserUpdates(done)) == ReturnedLogins(done)
  {
    if done != [] {
      var init := done[..|done| - 1];
      var us := UserUpdates(done);
      UserUpdatesKeys(init);
      var last := done[|done| - 1];
      if last.Some? {
        FirstsSnoc(us);
        assert us[..|us| - 1] == UserUpdates(init);
      } else {
        assert us == UserUpdates(init);
      }
      assert ReturnedLogins(done)
        == ReturnedLogins(init) + (if last.Some? then {last.value.1.login} else {}) by {
        forall u | u in ReturnedLogins(done)
          ensures u in ReturnedLogins(init) + (if last.Some? then {last.value.1.login} else {})
        {
          var i :| 0 <= i < |done| && done[i].Some? && done[i].value.1.login == u;
          if i < |init| { assert init[i] == done[i]; }
        }
        forall u | u in ReturnedLogins(init) ensures u in ReturnedLogins(done) {
          var i :| 0 <= i < |init| && init[i].Some? && init[i].value.1.login == u;
          assert done[i] == init[i];
        }
      }
    }
  }

  /** A requested key that no returned user has as login keeps its entry (an outstanding
      request stays outstanding, even when the user was found under another spelling). */
  lemma UnmatchedKeyUntouched(
    m: map<string, Ready<Helix.User>>, done: seq<Option<(string, Helix.User)>>, key: string)
    requires key in m && key !in ReturnedLogins(done)
    ensures key in SetAll(m, UserUpdates(done)) && SetAll(m, UserUpdates(done))[key] == m[key]
  {
    UserUpdatesKeys(done);
    SetAllUntouched(m, UserUpdates(done), key);
  }

  /** A found user can be looked up by its login afterwards. */
  lemma FoundUserIsStored(
    m: map<string, Ready<Helix.User>>, done: seq<Option<(string, Helix.User)>>, i: nat)
    requires i < |done| && done[i].Some?
    ensures var login := done[i].value.1.login;
      login in SetAll(m, UserUpdates(done)) && IsReady(SetAll(m, UserUpdates(done))[login])
  {
    UserUpdatesKeys(done);
    assert done[i].value.1.login in ReturnedLogins(done);
    SetAllLastWins(m, UserUpdates(done), done[i].value.1.login);
  }

  class UserMap {
    const users: ResolverMap<string, Helix.User, Option<(string, Helix.User)>>

    constructor ()
      ensures fresh(users) && users.entries == map[] && users.pending == []
    {
      users := new ResolverMap();
    }

    /** `get`: the user if known; the first request for a login starts its one fetch. */
    method Get(login: string) returns (o: Option<Helix.User>)
      modifies users
      ensures o == old(users.TryGet(LoginKey(login)))
      ensures LoginKey(login) in old(users.entries) ==>
        users.entries == old(users.entries) && users.pending == old(users.pending)
      ensures LoginKey(login) !in old(users.entries) ==>
        && users.entries == old(users.entries)[LoginKey(login) := NotReady]
        && |users.pending| == |old(users.pending)| + 1
        && users.pending[..|old(users.pending)|] == old(users.pending)
        && fresh(users.pending[|old(users.pending)|])
    {
      var key := StripPrefix(login, '#');
      o := users.GetOrUpdate(key, _ => true);
    }

    /** `poll`: each found user is stored under its login; a lookup that found nothing
        changes nothing. */
    method Poll()
      modifies users
      ensures users.entries == SetAll(old(users.entries), UserUpdates(old(Completed(users.pending))))
      ensures users.pending == old(Unfinished(users.pending))
    {
      var done := users.Poll();
      var entry := users.Update();
      ghost var start := users.entries;
      for i := 0 to |done|
        invariant users.entries == SetAll(start, UserUpdates(done[..i]))
        invariant users.pending == old(Unfinished(users.pending))
      {
        assert done[..i + 1][..i] == done[..i];
        ghost var before := UserUpdates(done[..i]);
        match done[i] {
          case Some((_, user)) =>
            entry.Set(user.login, user);
            assert UserUpdates(done[..i + 1]) == before + [(user.login, user)];
            assert (before + [(user.login, user)])[..|before|] == before;
          case None =>
            assert UserUpdates(done[..i + 1]) == before;
        }
      }
      assert done[..|done|] == done;
    }
  }
}
