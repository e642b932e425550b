/** The vocabulary of the Twitch chat connection (`src/twitch/`): the commands the UI
    queues for the socket, the events the connection reports back, and the user's
    identity with its per-channel badges (`identity.rs`, `writer.rs`, `events.rs`). */
module Irc {
  import opened Wrappers
  import opened Maps
  import opened Text
  import opened Mpsc

  /** `WriteKind`: a command queued for the socket. */
  datatype WriteKind =
    | Join(channel: string)
    | Part(channel: string)
    | Privmsg(target: string, data: string)

  /** `Signal`: whether the connection should start at all. */
  datatype Signal = Start | Ignore

  /** A chat message as received (or as echoed locally): its channel, sender, text and
      IRCv3 tags in order. */
  datatype ChatMessage = ChatMessage(channel: string, sender: string, data: string, tags: seq<(string, string)>)

  /** A USERSTATE: the channel, the user's (set id, version) badges there, and the id of
      the message it acknowledges, when attached. */
  datatype UserState = UserState(channel: string, badges: seq<(string, string)>, msgId: Option<string>)

  /** `Identity`. The colour is left out. */
  datatype Identity = Identity(
    name: string,
    displayName: Option<string>,
    userId: string,
    emoteSets: seq<string>,
    badgeMap: map<string, map<string, string>>)

  /** `Event`: what the connection reports to the UI. `InvalidCredentials` is one the
      client handles but the connection never raises. */
  datatype Event =
    | Connecting
    | Connected(identity: Identity)
    | PrivmsgEvent(msg: ChatMessage)
    | JoinEvent(channel: string)
    | ChannelId(channel: string, roomId: string)
    | UserStateEvent(state: UserState)
    | Reconnecting(duration: nat)
    | InvalidCredentials

  // --------------------------------------------------------------- identity.rs

  /** The badge-map key of a channel: its name without one leading '#'. */
  function ChannelKey(channel: string): (k: string)
    ensures |channel| > 0 && channel[0] == '#' ==> "#" + k == channel
    ensures !(|channel| > 0 && channel[0] == '#') ==> k == channel
  {
    StripPrefix(channel, '#')
  }

  /** "#c" and "c" name the same badge map. */
  lemma HashedAndPlainAgree(c: string)
    requires !(|c| > 0 && c[0] == '#')
    ensures ChannelKey("#" + c) == ChannelKey(c) == c
  {
    StripPrefixOfPrefixed(c, '#');
  }

  /** `get_badges_for`: the channel's (set id, version) pairs, none for an unknown
      channel; "#c" and "c" name the same channel. */
  function BadgesFor(identity: Identity, channel: string): (badges: map<string, string>)
    ensures ChannelKey(channel) !in identity.badgeMap ==> badges == map[]
    ensures ChannelKey(channel) in identity.badgeMap ==> badges == identity.badgeMap[ChannelKey(channel)]
  {
    var key := ChannelKey(channel);
    if key in identity.badgeMap then identity.badgeMap[key] else map[]
  }

  /** What `append_badges` leaves behind: the channel's map, created empty when unseen,
      with every (set id, version) inserted in turn. */
  function WithBadges(identity: Identity, channel: string, badges: seq<(string, string)>): Identity {
    identity.(badgeMap := identity.badgeMap[ChannelKey(channel) := InsertAll(BadgesFor(identity, channel), badges)])
  }

  /** `append_badges`. */
  method AppendBadges(identity: Identity, channel: string, badges: seq<(string, string)>) returns (r: Identity)
    ensures r == WithBadges(identity, channel, badges)
  {
    var key := if |channel| > 0 && channel[0] == '#' then channel[1..] else channel;
    var inner := if key in identity.badgeMap then identity.badgeMap[key] else map[];
    ghost var start := inner;
    for i := 0 to |badges|
      invariant inner == InsertAll(start, badges[..i])
    {
      assert badges[..i + 1][..i] == badges[..i];
      var (setId, id) := badges[i];
      inner := inner[setId := id];
    }
    assert badges[..|badges|] == badges;
    r := identity.(badgeMap := identity.badgeMap[key := inner]);
  }

  /** After `append_badges(c, bs)`, `get_badges_for(c)` holds, for every set id in `bs`,
      the version of its last occurrence, and every other set id it held before. */
  lemma BadgesRoundTrip(identity: Identity, channel: string, badges: seq<(string, string)>)
    ensures var after := BadgesFor(WithBadges(identity, channel, badges), channel);
      && after.Keys == BadgesFor(identity, channel).Keys + Firsts(badges)
      && (forall setId :: setId in Firsts(badges) ==> after[setId] == LastFor(badges, setId))
      && (forall setId :: setId in BadgesFor(identity, channel) && setId !in Firsts(badges) ==>
            after[setId] == BadgesFor(identity, channel)[setId])
  {
    var before := BadgesFor(identity, channel);
    InsertAllKeys(before, badges);
    forall setId | setId in Firsts(badges)
      ensures InsertAll(before, badges)[setId] == LastFor(badges, setId)
    {
      InsertAllLastWins(before, badges, setId);
    }
    forall setId | setId in before && setId !in Firsts(badges)
      ensures InsertAll(before, badges)[setId] == before[setId]
    {
      InsertAllUntouched(before, badges, setId);
    }
  }

  /** `append_badges` leaves every other channel's badges as they were, and the rest of
      the identity too. */
  lemma BadgesOfOtherChannels(identity: Identity, channel: string, badges: seq<(string, string)>, other: string)
    requires ChannelKey(other) != ChannelKey(channel)
    ensures BadgesFor(WithBadges(identity, channel, badges), other) == BadgesFor(identity, other)
    ensures WithBadges(identity, channel, badges).(badgeMap := identity.badgeMap) == identity
  {
  }

  // ----------------------------------------------------------------- writer.rs

  /** `Writer`: each call queues exactly one command; a closed queue is ignored, so no
      call reports an error. */
  class Writer {
    const send: Mailbox<WriteKind>

    constructor (send: Mailbox<WriteKind>)
      ensures this.send == send
    {
      this.send := send;
    }

    method Privmsg(target: string, data: string)
      modifies send
      ensures send.items == old(send.items) + [WriteKind.Privmsg(target, data)]
    {
      send.Send(WriteKind.Privmsg(target, data));
    }

    method Join(channel: string)
      modifies send
      ensures send.items == old(send.items) + [WriteKind.Join(channel)]
    {
      send.Send(WriteKind.Join(channel));
    }

    method Part(channel: string)
      modifies send
      ensures send.items == old(send.items) + [WriteKind.Part(channel)]
    {
      send.Send(WriteKind.Part(channel));
    }
  }
}
