/** What the application shows and holds (`state/mod.rs`): the screen, and the joined
    channels with the active one and the signed-in identity. */
module States {
  import opened Wrappers
  import Str = Text
  import opened Queues
  import opened Messages
  import opened Channels
  import Irc

  datatype CredentialsKind = Twitch | Helix

  /** `ViewState`: the view while connected; `Empty` carries its input buffer. */
  datatype ViewState = Empty(buffer: string) | MainView

  /** `Screen`, `Disconnected` by default. */
  datatype Screen = Disconnected | Connected(view: ViewState) | InvalidCredentials(kind: CredentialsKind)

  /** The names with one leading '#' removed, as joins compare them. */
  function Keys(names: seq<string>): (r: seq<string>)
  {
    seq(|names|, i requires 0 <= i < |names| => Str.StripPrefix(names[i], '#'))
  }

  /** `Iterator::position`: the first index holding `x`, if any. */
  function Position(xs: seq<string>, x: string): (r: Option<nat>)
    ensures r.None? <==> x !in xs
    ensures r.Some? ==> r.value < |xs| && xs[r.value] == x
    ensures r.Some? ==> forall j :: 0 <= j < r.value ==> xs[j] != x
  {
    if xs == [] then None
    else if xs[0] == x then Some(0)
    else match Position(xs[1..], x)
      case None => None
      case Some(i) => Some(i + 1)
  }

  /** The names of the joined channels, in order. */
  function Names(chs: seq<Channel>): (r: seq<string>)
  {
    seq(|chs|, i requires 0 <= i < |chs| => chs[i].name)
  }

  /** `bs` with the buffer at `pos` given `m` and cut to the newest `Capacity`. */
  function PushedAt(bs: seq<seq<Message>>, pos: nat, m: Message): (r: seq<seq<Message>>)
    requires pos < |bs|
  {
    bs[pos := Newest(bs[pos] + [m], Capacity)]
  }

  class State {
    var channels: seq<Channel>
    var active: nat
    var identity: Option<Irc.Identity>
    /** The channel objects and the buffers they own. */
    ghost var Repr: set<object>

    /** Every channel is sound and owns its own buffer. */
    ghost predicate Valid()
      reads this, Repr
    {
      && (forall i :: 0 <= i < |channels| ==> channels[i] in Repr && channels[i].messages in Repr)
      && (forall i :: 0 <= i < |channels| ==> channels[i].Valid())
      && (forall i, j :: 0 <= i < j < |channels| ==>
            channels[i] != channels[j] && channels[i].messages != channels[j].messages)
    }

    /** The message buffers of the channels, in order. */
    ghost function Buffers(): (r: seq<seq<Message>>)
      requires Valid()
      reads this, Repr
    {
      seq(|channels|, i requires 0 <= i < |channels| && channels[i].messages in Repr reads this, Repr =>
        channels[i].messages.inner)
    }

    /** `State::default()`: no channels, the first one active, nobody signed in. */
    constructor ()
      ensures Valid() && fresh(Repr)
      ensures channels == [] && active == 0 && identity == None
    {
      channels := [];
      active := 0;
      identity := None;
      Repr := {};
    }

    /** `channels.push`: one more channel, with a buffer of its own, at the end. */
    method Append(c: Channel)
      requires Valid() && c.Valid()
      requires forall i :: 0 <= i < |channels| ==> channels[i] != c && channels[i].messages != c.messages
      modifies this
      ensures Valid() && Repr == old(Repr) + {c, c.messages}
      ensures channels == old(channels) + [c]
      ensures active == old(active) && identity == old(identity)
    {
      channels := channels + [c];
      Repr := Repr + {c, c.messages};
    }

    /** Selects the channel at `pos`. */
    method Activate(pos: nat)
      requires Valid()
      modifies this
      ensures Valid() && Repr == old(Repr)
      ensures active == pos && channels == old(channels) && identity == old(identity)
    {
      active := pos;
    }

    /** The list side of a join: a channel already listed (names compared without a leading
        '#') becomes active; otherwise a new channel is appended and made active. */
    method Join(channel: string) returns (added: bool)
      requires Valid()
      modifies this
      ensures Valid() && identity == old(identity)
      ensures var pos := Position(Keys(old(Names(channels))), Str.StripPrefix(channel, '#'));
        && (added <==> pos.None?)
        && (pos.Some? ==> channels == old(channels) && active == pos.value && Repr == old(Repr))
        && (pos.None? ==>
              && |channels| == |old(channels)| + 1
              && channels[..|old(channels)|] == old(channels)
              && fresh(channels[|old(channels)|]) && fresh(channels[|old(channels)|].messages)
              && Repr == old(Repr) + {channels[|old(channels)|], channels[|old(channels)|].messages}
              && channels[|old(channels)|].name == Str.StripPrefix(channel, '#')
              && channels[|old(channels)|].marker == None
              && channels[|old(channels)|].messages.inner == []
              && active == |old(channels)|)
    {
      var pos := Position(Keys(Names(channels)), Str.StripPrefix(channel, '#'));
      if pos.Some? {
        active := pos.value;
        added := false;
      } else {
        var n := |channels|;
        var c := new Channel(channel);
        Append(c);
        active := n;
        added := true;
      }
    }

    /** `Channel::push` on the channel at `pos`: only that channel's marker and buffer
        change. */
    method PushTo(pos: nat, m: Message)
      requires Valid() && pos < |channels|
      modifies channels[pos], channels[pos].messages
      ensures Valid()
      ensures channels[pos].marker == None
      ensures Buffers() == PushedAt(old(Buffers()), pos, m)
    {
      channels[pos].Push(m);
    }

    /** A chat line reaches the first channel named `key`: its buffer ends with `m` and
        keeps the newest `Capacity`; no other buffer changes. */
    method Deliver(key: string, m: Message)
      requires Valid() && key in Names(channels)
      modifies Repr
      ensures Valid() && channels == old(channels)
      ensures var pos := Position(Names(channels), key).value;
        && channels[pos].marker == None
        && Buffers() == PushedAt(old(Buffers()), pos, m)
    {
      var pos := Position(Names(channels), key).value;
      PushTo(pos, m);
    }
  }
}
