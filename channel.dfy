/** A joined chat channel (`state/channel.rs`) and the history loader that fills its
    message buffer (`Queue<Message>::populate` in `queue.rs`). */
module Channels {
  import opened Wrappers
  import opened Maps
  import Str = Text
  import opened Queues
  import opened Messages
  import Emotes

  /** How many messages a channel keeps. */
  const Capacity: nat := 1000

  /** The options of a message loaded from history: old, and not a local echo. */
  const History := MessageOpts(true, false)

  class Channel {
    /** Never reassigned after `new`. */
    const name: string
    var buffer: string
    var marker: Option<Uuid>
    const messages: Queue<Message>

    ghost predicate Valid()
      reads this, messages
    {
      messages.Valid() && messages.max == Capacity
    }

    /** `new`: the name loses one leading `#`; nothing is buffered, marked or queued. */
    constructor (name: string)
      ensures Valid() && fresh(messages)
      ensures this.name == Str.StripPrefix(name, '#')
      ensures buffer == [] && marker == None && messages.inner == []
    {
      this.name := Str.StripPrefix(name, '#');
      buffer := [];
      marker := None;
      messages := new Queue.WithCapacity(Capacity);
    }

    /** `push`: a new message clears the end-of-history marker. */
    method Push(message: Message)
      requires Valid()
      modifies this, messages
      ensures Valid()
      ensures marker == None
      ensures messages.inner == Newest(old(messages.inner) + [message], Capacity)
      ensures buffer == old(buffer)
    {
      marker := None;
      messages.Push(message);
    }

    /** `mark_end_of_history`: the marker now names `uuid`, whatever it held. */
    method MarkEndOfHistory(uuid: Uuid)
      modifies this
      ensures marker == Some(uuid)
      ensures buffer == old(buffer)
    {
      marker := Some(uuid);
    }
  }

  /** The emote names each message of a history batch registers, message by message. */
  function HistoryRuns(pms: seq<Privmsg>): seq<seq<(string, string)>>
  {
    seq(|pms|, i requires 0 <= i < |pms| => NameIds(SortByPos(pms[i].emotes)))
  }

  /** Every emote name the messages of a history batch register, in order. */
  function HistoryNameIds(pms: seq<Privmsg>): (r: seq<(string, string)>)
    ensures forall i :: 0 <= i < |pms| ==> forall p :: p in NameIds(SortByPos(pms[i].emotes)) ==> p in r
  {
    var r := Concat(HistoryRuns(pms));
    assert forall i :: 0 <= i < |pms| ==> forall p :: p in NameIds(SortByPos(pms[i].emotes)) ==> p in r by {
      forall i, p | 0 <= i < |pms| && p in NameIds(SortByPos(pms[i].emotes)) ensures p in r {
        ConcatMemberOf(HistoryRuns(pms), i, p);
      }
    }
    r
  }

  /** The message `from_pm` makes of `pm` with options `opts`: the id parsed from the
      message-id tag, the sender, the colour (black when unset), the badges, the text,
      its spans, and the options. */
  function Made(
    pm: Privmsg, opts: MessageOpts, urls: iset<string>, parseUuid: string -> Option<Uuid>): Message
    requires Placeable(pm.data, SortByPos(pm.emotes))
  {
    Message(
      if pm.msgId.Some? then parseUuid(pm.msgId.value) else None,
      pm.sender, pm.color.UnwrapOr(Color(0, 0, 0)), pm.badges, pm.data,
      SpansFrom(pm.data, SortByPos(pm.emotes), urls, 0, 0), opts)
  }

  /** `populate`: each stored line becomes an old, non-local message registering its
      emotes, all are appended, and only the newest `max` are kept. */
  method PopulateMessages(
    q: Queue<Message>, pms: seq<Privmsg>, emoteMap: Emotes.EmoteMap,
    urls: iset<string>, parseUuid: string -> Option<Uuid>)
    returns (added: seq<Message>)
    requires q.Valid() && emoteMap.Valid()
    requires forall i :: 0 <= i < |pms| ==> Placeable(pms[i].data, SortByPos(pms[i].emotes))
    modifies q, emoteMap, emoteMap.fetcher, emoteMap.fetcher.requests
    ensures q.Valid() && emoteMap.Valid()
    ensures |added| == |pms|
    ensures forall i :: 0 <= i < |pms| ==> added[i] == Made(pms[i], History, urls, parseUuid)
    ensures q.inner == Newest(old(q.inner) + added, q.max)
    ensures emoteMap.nameToId == InsertAll(old(emoteMap.nameToId), HistoryNameIds(pms))
    ensures emoteMap.emoteMap == old(emoteMap.emoteMap) && emoteMap.badgeTags == old(emoteMap.badgeTags)
    ensures emoteMap.fetcher.seen == Emotes.SeenAfter(
      old(emoteMap.fetcher.seen), old(emoteMap.emoteMap).Keys, Emotes.Ids(HistoryNameIds(pms)))
    ensures emoteMap.fetcher.requests.items == old(emoteMap.fetcher.requests.items) + Emotes.Requests(
      old(emoteMap.fetcher.seen), old(emoteMap.emoteMap).Keys, Emotes.Ids(HistoryNameIds(pms)))
  {
    ghost var xss := HistoryRuns(pms);
    ghost var seen := emoteMap.fetcher.seen;
    ghost var known := emoteMap.emoteMap.Keys;
    added := [];
    for i := 0 to |pms|
      invariant emoteMap.Valid() && q.inner == old(q.inner) && q.Valid()
      invariant |added| == i
      invariant forall j :: 0 <= j < i ==> added[j] == Made(pms[j], History, urls, parseUuid)
      invariant emoteMap.nameToId == InsertAll(old(emoteMap.nameToId), Concat(xss[..i]))
      invariant emoteMap.emoteMap == old(emoteMap.emoteMap) && emoteMap.badgeTags == old(emoteMap.badgeTags)
      invariant Emotes.FetcherAfter(emoteMap.fetcher.seen, emoteMap.fetcher.requests.items,
        seen, old(emoteMap.fetcher.requests.items), known, Emotes.Ids(Concat(xss[..i])))
    {
      ghost var seenBefore := emoteMap.fetcher.seen;
      ghost var itemsBefore := emoteMap.fetcher.requests.items;
      var m := Build(pms[i], emoteMap, History, urls, parseUuid);
      ConcatPrefixSnoc(xss, i);
      InsertAllAppend(old(emoteMap.nameToId), Concat(xss[..i]), xss[i]);
      Emotes.IdsAppend(Concat(xss[..i]), xss[i]);
      Emotes.FetcherAfterAppend(seenBefore, itemsBefore, seen, old(emoteMap.fetcher.requests.items), known,
        Emotes.Ids(Concat(xss[..i])), Emotes.Ids(xss[i]), emoteMap.fetcher.seen, emoteMap.fetcher.requests.items);
      AppendKeepsHistory(added, m, pms, urls, parseUuid);
      added := added + [m];
    }
    assert xss[..|pms|] == xss;
    q.Populate(added);
  }

  /** Appending the message made of the next line keeps the batch made line by line. */
  lemma AppendKeepsHistory(
    added: seq<Message>, m: Message, pms: seq<Privmsg>,
    urls: iset<string>, parseUuid: string -> Option<Uuid>)
    requires |added| < |pms|
    requires forall j :: 0 <= j < |pms| ==> Placeable(pms[j].data, SortByPos(pms[j].emotes))
    requires forall j :: 0 <= j < |added| ==> added[j] == Made(pms[j], History, urls, parseUuid)
    requires m == Made(pms[|added|], History, urls, parseUuid)
    ensures forall j :: 0 <= j <= |added| ==> (added + [m])[j] == Made(pms[j], History, urls, parseUuid)
  {
  }

  /** `from_pm` seen from a channel: the message built from `pm`, with the names of its
      emotes recorded. */
  method Build(
    pm: Privmsg, emoteMap: Emotes.EmoteMap, opts: MessageOpts,
    urls: iset<string>, parseUuid: string -> Option<Uuid>)
    returns (m: Message)
    requires emoteMap.Valid() && Placeable(pm.data, SortByPos(pm.emotes))
    modifies emoteMap, emoteMap.fetcher, emoteMap.fetcher.requests
    ensures emoteMap.Valid() && m == Made(pm, opts, urls, parseUuid)
    ensures emoteMap.nameToId == InsertAll(old(emoteMap.nameToId), NameIds(SortByPos(pm.emotes)))
    ensures emoteMap.emoteMap == old(emoteMap.emoteMap) && emoteMap.badgeTags == old(emoteMap.badgeTags)
    ensures emoteMap.fetcher.seen == Emotes.SeenAfter(
      old(emoteMap.fetcher.seen), old(emoteMap.emoteMap).Keys, Emotes.Ids(NameIds(SortByPos(pm.emotes))))
    ensures emoteMap.fetcher.requests.items == old(emoteMap.fetcher.requests.items) + Emotes.Requests(
      old(emoteMap.fetcher.seen), old(emoteMap.emoteMap).Keys, Emotes.Ids(NameIds(SortByPos(pm.emotes))))
  {
    m := FromPm(pm, emoteMap, opts, urls, parseUuid);
  }
}
