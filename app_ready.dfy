/** The connected application (`app/ready.rs`): how a message from the chat connection
    changes the channel list, the screen and the channel buffers, and which view the
    connected screen shows. */
module ReadyApps {
  import opened Wrappers
  import Str = Text
  import opened Queues
  import opened Messages
  import opened Channels
  import opened States
  import opened SavedStates
  import Emotes
  import Users
  import Resolver
  import Irc
  import IrcClient

  /** The view switch of `update` on the connected screen: the main view with no channels
      falls back to the empty view, any other view with channels becomes the main view. */
  function SwitchView(view: ViewState, noChannels: bool): (r: ViewState)
    ensures r.MainView? <==> !noChannels
    ensures (view.MainView? <==> !noChannels) ==> r == view
  {
    if view.MainView? && noChannels then Empty("")
    else if !view.MainView? && !noChannels then MainView
    else view
  }

  /** Switching twice is switching once: the view settles after one frame. */
  lemma SwitchViewSettles(view: ViewState, noChannels: bool)
    ensures SwitchView(SwitchView(view, noChannels), noChannels) == SwitchView(view, noChannels)
  {
  }

  /** The history table of the database (`db/history.rs`): every chat line inserted, in
      order; the columns, the timestamp and the SQL are not modelled. */
  class HistoryStore {
    var lines: seq<Irc.ChatMessage>

    constructor ()
      ensures lines == []
    {
      lines := [];
    }

    /** `insert`: one more row, after the others. */
    method Insert(msg: Irc.ChatMessage)
      modifies this`lines
      ensures lines == old(lines) + [msg]
    {
      lines := lines + [msg];
    }
  }

  /** The options of a message received live: not old, not a local echo. */
  const Live := MessageOpts(false, false)

  class ReadyApp {
    const state: State
    var screen: Screen
    const emoteMap: Emotes.EmoteMap
    const userMap: Users.UserMap
    const history: HistoryStore

    ghost predicate Valid()
      reads state, state.Repr, emoteMap, emoteMap.fetcher
    {
      && state.Valid() && emoteMap.Valid()
      && state !in state.Repr && this !in state.Repr && history !in state.Repr
      && {emoteMap, emoteMap.fetcher, emoteMap.fetcher.requests, userMap.users} !! state.Repr
    }

    constructor (state: State, emoteMap: Emotes.EmoteMap, userMap: Users.UserMap, history: HistoryStore)
      ensures this.state == state && this.emoteMap == emoteMap && this.userMap == userMap
      ensures this.history == history && screen == Disconnected
    {
      this.state := state;
      this.emoteMap := emoteMap;
      this.userMap := userMap;
      this.history := history;
      screen := Disconnected;
    }

    /** A join: the channel list changes as `State.Join` says, and a channel not listed
        before has its user record requested. */
    method HandleJoin(channel: string)
      requires Valid()
      modifies state, userMap.users
      ensures Valid()
      ensures var key := Str.StripPrefix(channel, '#');
        var pos := Position(Keys(old(Names(state.channels))), key);
        && state.active == (if pos.Some? then pos.value else |old(state.channels)|)
        && (pos.Some? ==> state.channels == old(state.channels) && unchanged(userMap.users))
        && (pos.None? ==>
              && |state.channels| == |old(state.channels)| + 1
              && state.channels[..|old(state.channels)|] == old(state.channels)
              && state.channels[|old(state.channels)|].name == key
              && Users.LoginKey(key) in userMap.users.entries)
    {
      var added := state.Join(channel);
      if added {
        var _ := userMap.Get(Str.StripPrefix(channel, '#'));
      }
    }

    /** A received chat line is appended to the first channel named like it, '#' removed,
        as `from_pm` builds it (not old, not local); no other buffer changes. */
    method Receive(msg: Irc.ChatMessage, pm: Privmsg, urls: iset<string>, parseUuid: string -> Option<Uuid>)
      requires Valid()
      requires Str.StripPrefix(msg.channel, '#') in Names(state.channels)
      requires Placeable(pm.data, SortByPos(pm.emotes))
      modifies state.Repr, emoteMap, emoteMap.fetcher, emoteMap.fetcher.requests
      ensures Valid() && history.lines == old(history.lines)
      ensures state.channels == old(state.channels) && state.active == old(state.active)
      ensures var pos := Position(Names(state.channels), Str.StripPrefix(msg.channel, '#')).value;
        && state.channels[pos].marker == None
        && state.Buffers() == PushedAt(old(state.Buffers()), pos, Made(pm, Live, urls, parseUuid))
      ensures emoteMap.nameToId == Maps.InsertAll(old(emoteMap.nameToId), NameIds(SortByPos(pm.emotes)))
      ensures emoteMap.emoteMap == old(emoteMap.emoteMap) && emoteMap.badgeTags == old(emoteMap.badgeTags)
      ensures emoteMap.fetcher.seen == Emotes.SeenAfter(
        old(emoteMap.fetcher.seen), old(emoteMap.emoteMap).Keys, Emotes.Ids(NameIds(SortByPos(pm.emotes))))
      ensures emoteMap.fetcher.requests.items == old(emoteMap.fetcher.requests.items) + Emotes.Requests(
        old(emoteMap.fetcher.seen), old(emoteMap.emoteMap).Keys, Emotes.Ids(NameIds(SortByPos(pm.emotes))))
    {
      ghost var before := emoteMap.Recorded();
      ghost var ids := Emotes.Ids(NameIds(SortByPos(pm.emotes)));
      ghost var after := (Maps.InsertAll(before.0, NameIds(SortByPos(pm.emotes))), before.1, before.2,
        Emotes.SeenAfter(before.3, before.1.Keys, ids), before.4 + Emotes.Requests(before.3, before.1.Keys, ids));
      var m := Build(pm, emoteMap, Live, urls, parseUuid);
      assert emoteMap.Recorded() == after;
      assert unchanged(state.Repr) && state.Buffers() == old(state.Buffers());
      state.Deliver(Str.StripPrefix(msg.channel, '#'), m);
      assert emoteMap.Recorded() == after;
    }
  
    /** `handle_message`. A join goes to `HandleJoin`; a credentials rejection opens the
        credentials screen for the chat login. A chat line, received or the echo of one
        sent (`Finished`), is stored in the history first and must belong to a joined
        channel (the source panics otherwise); only a received line reaches the channel's
        buffer. `pm` is the received line seen through its tags. */
    method HandleMessage(
      message: IrcClient.Message, pm: Privmsg, urls: iset<string>, parseUuid: string -> Option<Uuid>)
      requires Valid()
      requires (message.Privmsg? || message.Finished?) ==>
        Str.StripPrefix(message.msg.channel, '#') in Names(state.channels)
      requires message.Privmsg? ==>
        && pm.sender == message.msg.sender && pm.data == message.msg.data
        && Placeable(pm.data, SortByPos(pm.emotes))
      modifies this, state, state.Repr, userMap.users, emoteMap, emoteMap.fetcher, emoteMap.fetcher.requests,
        history
      ensures Valid()
      ensures message.InvalidCredentials? ==> screen == InvalidCredentials(Twitch)
      ensures !message.InvalidCredentials? ==> screen == old(screen)
      ensures (message.Privmsg? || message.Finished?) ==> history.lines == old(history.lines) + [message.msg]
      ensures !(message.Privmsg? || message.Finished?) ==> history.lines == old(history.lines)
      ensures !message.Join? ==> state.channels == old(state.channels) && state.active == old(state.active)
      ensures message.Join? ==> state.active < |state.channels|
      ensures message.Join? ==>
        var key := Str.StripPrefix(message.channel, '#');
        var pos := Position(Keys(old(Names(state.channels))), key);
        && state.active == (if pos.Some? then pos.value else |old(state.channels)|)
        && (pos.Some? ==> state.channels == old(state.channels) && unchanged(userMap.users))
        && (pos.None? ==>
              && |state.channels| == |old(state.channels)| + 1
              && state.channels[..|old(state.channels)|] == old(state.channels)
              && state.channels[|old(state.channels)|].name == key
              && Users.LoginKey(key) in userMap.users.entries)
      ensures |old(state.channels)| <= |state.channels|
      ensures !message.Privmsg? ==> state.Buffers()[..|old(state.channels)|] == old(state.Buffers())
      ensures message.Privmsg? ==>
        var pos := Position(Names(state.channels), Str.StripPrefix(message.msg.channel, '#')).value;
        && state.channels[pos].marker == None
        && state.Buffers() == PushedAt(old(state.Buffers()), pos, Made(pm, Live, urls, parseUuid))
      ensures !message.Privmsg? ==> unchanged(emoteMap, emoteMap.fetcher, emoteMap.fetcher.requests)
      ensures message.Privmsg? ==>
        && emoteMap.nameToId == Maps.InsertAll(old(emoteMap.nameToId), NameIds(SortByPos(pm.emotes)))
        && emoteMap.emoteMap == old(emoteMap.emoteMap) && emoteMap.badgeTags == old(emoteMap.badgeTags)
        && emoteMap.fetcher.seen == Emotes.SeenAfter(
             old(emoteMap.fetcher.seen), old(emoteMap.emoteMap).Keys, Emotes.Ids(NameIds(SortByPos(pm.emotes))))
        && emoteMap.fetcher.requests.items == old(emoteMap.fetcher.requests.items) + Emotes.Requests(
             old(emoteMap.fetcher.seen), old(emoteMap.emoteMap).Keys, Emotes.Ids(NameIds(SortByPos(pm.emotes))))
    {
      match message
      case Join(channel) =>
        HandleJoin(channel);
      case InvalidCredentials =>
        screen := InvalidCredentials(Twitch);
      case Finished(_) =>
        history.Insert(message.msg);
        assert unchanged(state, state.Repr) && state.Buffers() == old(state.Buffers());
      case Privmsg(_) =>
        history.Insert(message.msg);
        assert unchanged(state, state.Repr) && state.Buffers() == old(state.Buffers());
        assert emoteMap.Recorded() == old(emoteMap.Recorded());
        Receive(message.msg, pm, urls, parseUuid);
    }
  }
}
