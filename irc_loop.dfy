/** The connection task (`run` in `src/twitch/mod.rs`) as a transition system. Its state
    is the phase, the set of channels to be in, the name the server gave us, and what has
    been written to the socket. Each method is one turn of the loop, driven by an input
    the environment chooses: a queued command, a line from the server, an idle timeout, a
    failed read, the outcome of a connection attempt. */
module IrcLoop {
  import opened Wrappers
  import opened Maps
  import opened Text
  import opened Mpsc
  import opened Irc

  /** Seconds to wait before reconnecting. */
  const ReconnectSecs: nat := 5

  /** A server line the loop reacts to, as parsed (the parser is a foreign library). */
  datatype Frame =
    | PrivmsgFrame(msg: ChatMessage)
    | ReadyFrame(name: string)
    | JoinFrame(user: string, channel: string)
    | RoomStateFrame(channel: string, roomId: Option<string>)
    | UserStateFrame(state: UserState)
    | GlobalUserStateFrame(displayName: Option<string>, userId: Option<string>,
                           emoteSets: seq<string>, badges: seq<(string, string)>)
    | OtherFrame

  /** A command written to the socket (its wire encoding is the foreign library's). */
  datatype Command =
    | Register(name: string, token: string)
    | JoinCmd(channel: string)
    | PartCmd(channel: string)
    | PrivmsgCmd(target: string, data: string)
    | Ping(token: string)
    | Pong

  /** Where the loop is: waiting for the start signal, at the top of the outer loop (not
      connected), inside the connected inner loop, or finished. */
  datatype Phase = AwaitingStart | Offline | Online | Stopped

  function CommandFor(w: WriteKind): Command {
    match w
    case Join(c) => JoinCmd(c)
    case Part(c) => PartCmd(c)
    case Privmsg(t, d) => PrivmsgCmd(t, d)
  }

  /** A queued command's effect on the channels to be in. */
  function ApplyOne(active: set<string>, w: WriteKind): set<string> {
    match w
    case Join(c) => active + {c}
    case Part(c) => active - {c}
    case Privmsg(_, _) => active
  }

  /** The queued commands' effect, in order. */
  function ApplyQueued(active: set<string>, ws: seq<WriteKind>): set<string> {
    if ws == [] then active else ApplyOne(ApplyQueued(active, ws[..|ws| - 1]), ws[|ws| - 1])
  }

  predicate Touches(w: WriteKind, c: string) {
    (w.Join? || w.Part?) && w.channel == c
  }

  /** A channel is to be in after the queue is applied exactly when the last Join or Part
      naming it was a Join. */
  lemma {:induction false} QueuedLastWins(active: set<string>, ws: seq<WriteKind>, i: nat, c: string)
    requires i < |ws| && Touches(ws[i], c)
    requires forall j :: i < j < |ws| ==> !Touches(ws[j], c)
    ensures c in ApplyQueued(active, ws) <==> ws[i].Join?
  {
    if i < |ws| - 1 {
      QueuedLastWins(active, ws[..|ws| - 1], i, c);
    }
  }

  /** A channel no queued Join or Part names keeps its membership. */
  lemma {:induction false} QueuedUntouched(active: set<string>, ws: seq<WriteKind>, c: string)
    requires forall j :: 0 <= j < |ws| ==> !Touches(ws[j], c)
    ensures c in ApplyQueued(active, ws) <==> c in active
  {
    if ws != [] {
      QueuedUntouched(active, ws[..|ws| - 1], c);
    }
  }

  function JoinCommands(order: seq<string>): (cs: seq<Command>)
  {
    seq(|order|, i requires 0 <= i < |order| => JoinCmd(order[i]))
  }

  /** The identity a GLOBALUSERSTATE announces: our name, and our global badges filed
      under it. */
  function SelfIdentity(name: string, displayName: Option<string>, userId: string,
                        emoteSets: seq<string>, badges: seq<(string, string)>): (id: Identity)
    ensures id.name == name && id.badgeMap.Keys == {name}
    ensures id.badgeMap[name].Keys == Firsts(badges)
  {
    InsertAllKeys(map[], badges);
    Identity(name, displayName, userId, emoteSets, map[name := InsertAll(map[], badges)])
  }

  class Session {
    var phase: Phase
    var active: set<string>
    var ourName: Option<string>
    /** Everything written to a socket, across connections. */
    var wire: seq<Command>
    const name: string
    const token: string
    /** The UI's command queue (the `Writer`'s other end). */
    const write: Mailbox<WriteKind>
    /** The event queue to the UI (the `Client`'s other end). */
    const read: Mailbox<Event>

    constructor (name: string, token: string, write: Mailbox<WriteKind>, read: Mailbox<Event>)
      ensures phase == AwaitingStart && active == {} && ourName == None && wire == []
      ensures this.name == name && this.token == token && this.write == write && this.read == read
    {
      phase := AwaitingStart;
      active := {};
      ourName := None;
      wire := [];
      this.name := name;
      this.token := token;
      this.write := write;
      this.read := read;
    }

    /** The start signal: `Ignore` ends the connection task before any connection attempt. */
    method Begin(signal: Signal)
      requires phase == AwaitingStart
      modifies this
      ensures phase == (if signal == Start then Offline else Stopped)
      ensures active == old(active) && ourName == old(ourName) && wire == old(wire)
    {
      phase := if signal == Start then Offline else Stopped;
    }

    /** `reconnect!`: report the wait and go back to the top of the outer loop. */
    method Reconnect()
      modifies this, read
      ensures phase == Offline
      ensures read.items == old(read.items) + [Event.Reconnecting(ReconnectSecs)]
      ensures active == old(active) && ourName == old(ourName) && wire == old(wire)
    {
      read.Send(Event.Reconnecting(ReconnectSecs));
      phase := Offline;
    }

    /** The top of the outer loop: apply every queued Join and Part to the channel set
        with no socket, dropping queued messages unsent; report `Connecting`; connect and
        register, or report the reconnect wait. */
    method Attempt(connects: bool, registers: bool)
      requires phase == Offline
      modifies this, write, read
      ensures write.items == []
      ensures active == ApplyQueued(old(active), old(write.items))
      ensures var up := connects && registers;
        && read.items == old(read.items) + [Event.Connecting] + (if up then [] else [Event.Reconnecting(ReconnectSecs)])
        && wire == old(wire) + (if up then [Register(name, token)] else [])
        && phase == (if up then Online else Offline)
        && ourName == (if up then None else old(ourName))
    {
      DrainOffline();
      read.Send(Event.Connecting);
      if !connects {
        Reconnect();
        return;
      }
      if !registers {
        Reconnect();
        return;
      }
      wire := wire + [Register(name, token)];
      ourName := None;
      phase := Online;
    }

    method DrainOffline()
      modifies this`active, write
      ensures write.items == []
      ensures active == ApplyQueued(old(active), old(write.items))
    {
      ghost var queued := write.items;
      ghost var k := 0;
      while true
        invariant 0 <= k <= |queued|
        invariant write.items == queued[k..]
        invariant active == ApplyQueued(old(active), queued[..k])
        decreases |write.items|
      {
        var next := write.TryRecv();
        if next.None? {
          break;
        }
        assert queued[..k + 1][..k] == queued[..k];
        match next.value {
          case Join(c) => active := active + {c};
          case Part(c) => active := active - {c};
          case Privmsg(_, _) =>
        }
        k := k + 1;
      }
      assert queued[..k] == queued;
    }

    /** A queued command while connected: Join and Part update the channel set first,
        then the command is written; a failed write reconnects. */
    method HandleWrite(delivered: bool)
      requires phase == Online && write.items != []
      modifies this, write, read
      ensures write.items == old(write.items)[1..]
      ensures active == ApplyOne(old(active), old(write.items)[0])
      ensures ourName == old(ourName)
      ensures delivered ==>
        wire == old(wire) + [CommandFor(old(write.items)[0])] && phase == Online && read.items == old(read.items)
      ensures !delivered ==>
        && wire == old(wire) && phase == Offline
        && read.items == old(read.items) + [Event.Reconnecting(ReconnectSecs)]
    {
      var next := write.TryRecv();
      var w := next.value;
      var command;
      match w {
        case Join(c) =>
          active := active + {c};
          command := JoinCmd(c);
        case Part(c) =>
          active := active - {c};
          command := PartCmd(c);
        case Privmsg(t, d) =>
          command := PrivmsgCmd(t, d);
      }
      if delivered {
        wire := wire + [command];
      } else {
        Reconnect();
      }
    }

    /** The UI dropped its writer: the connection task ends. */
    method WriterClosed()
      requires phase == Online && write.items == []
      modifies this
      ensures phase == Stopped && active == old(active) && wire == old(wire) && ourName == old(ourName)
    {
      phase := Stopped;
    }

    /** The read side failed or reached its end: reconnect. */
    method ReadFailed()
      requires phase == Online
      modifies this, read
      ensures phase == Offline && active == old(active) && wire == old(wire)
      ensures read.items == old(read.items) + [Event.Reconnecting(ReconnectSecs)]
    {
      Reconnect();
    }

    /** Thirty seconds with nothing to do: reconnect when the ping tracker says the
        connection timed out, otherwise send a PING carrying the seconds since connecting. */
    method Idle(timedOut: bool, elapsedSecs: nat, delivered: bool)
      requires phase == Online
      modifies this, read
      ensures active == old(active) && ourName == old(ourName)
      ensures !timedOut && delivered ==>
        && wire == old(wire) + [Ping(NatToString(elapsedSecs))]
        && phase == Online && read.items == old(read.items)
      ensures timedOut || !delivered ==>
        && wire == old(wire) && phase == Offline
        && read.items == old(read.items) + [Event.Reconnecting(ReconnectSecs)]
    {
      if timedOut {
        Reconnect();
        return;
      }
      if delivered {
        wire := wire + [Ping(NatToString(elapsedSecs))];
      } else {
        Reconnect();
      }
    }

    /** A line from the server (`frame` is `None` when it does not parse; `pong` is whether
        the ping tracker wants a PONG; `pongWritten` whether that PONG can be written;
        `joinFail` the position, in the order the channels are visited, of the first JOIN
        that cannot be written, if any). An unparsable line or a failed write reconnects.
        Messages, channel ids and user states go to the UI; READY teaches us our name; a
        JOIN is reported only when it is our own; GLOBALUSERSTATE announces our identity and
        rejoins the channels, returning them in the order they were tried. A ROOMSTATE
        without a room id, or a GLOBALUSERSTATE before READY or without a user id, panics
        in the source. */
    method HandleLine(frame: Option<Frame>, pong: bool, pongWritten: bool, joinFail: Option<nat>)
      returns (order: seq<string>)
      requires phase == Online
      requires frame.Some? && frame.value.RoomStateFrame? && (pongWritten || !pong) ==>
        frame.value.roomId.Some?
      requires frame.Some? && frame.value.GlobalUserStateFrame? && (pongWritten || !pong) ==>
        ourName.Some? && frame.value.userId.Some?
      modifies this, read
      ensures active == old(active)
      ensures frame.None? || (pong && !pongWritten) ==>
        && wire == old(wire) && phase == Offline && ourName == old(ourName)
        && read.items == old(read.items) + [Event.Reconnecting(ReconnectSecs)]
      ensures frame.Some? && (pongWritten || !pong) ==>
        var sent := old(wire) + (if pong then [Pong] else []);
        match frame.value
        case PrivmsgFrame(m) =>
          && read.items == old(read.items) + [PrivmsgEvent(m)]
          && wire == sent && phase == Online && ourName == old(ourName)
        case ReadyFrame(n) =>
          && read.items == old(read.items) && wire == sent && phase == Online && ourName == Some(n)
        case JoinFrame(user, channel) =>
          && read.items == old(read.items) + (if old(ourName) == Some(user) then [JoinEvent(channel)] else [])
          && wire == sent && phase == Online && ourName == old(ourName)
        case RoomStateFrame(channel, roomId) =>
          && read.items == old(read.items) + [ChannelId(channel, roomId.value)]
          && wire == sent && phase == Online && ourName == old(ourName)
        case UserStateFrame(state) =>
          && read.items == old(read.items) + [UserStateEvent(state)]
          && wire == sent && phase == Online && ourName == old(ourName)
        case GlobalUserStateFrame(displayName, userId, emoteSets, badges) =>
          var announced := Connected(SelfIdentity(old(ourName).value, displayName, userId.value, emoteSets, badges));
          var fails := joinFail.Some? && joinFail.value < |old(active)|;
          && ourName == old(ourName)
          && read.items == old(read.items) + [announced] + (if fails then [Event.Reconnecting(ReconnectSecs)] else [])
          && phase == (if fails then Offline else Online)
          && Distinct(order) && (set c | c in order) <= old(active)
          && (fails ==> |order| == joinFail.value + 1 && wire == sent + JoinCommands(order[..joinFail.value]))
          && (!fails ==> (set c | c in order) == old(active) && wire == sent + JoinCommands(order))
        case OtherFrame =>
          read.items == old(read.items) && wire == sent && phase == Online && ourName == old(ourName)
    {
      order := [];
      if frame.None? {
        Reconnect();
        return;
      }
      if pong {
        if !pongWritten {
          Reconnect();
          return;
        }
        wire := wire + [Pong];
      }
      assert wire == old(wire) + (if pong then [Pong] else []);
      match frame.value {
        case PrivmsgFrame(m) =>
          read.Send(PrivmsgEvent(m));
        case ReadyFrame(n) =>
          ourName := Some(n);
        case JoinFrame(user, channel) =>
          if ourName == Some(user) {
            read.Send(JoinEvent(channel));
          }
        case RoomStateFrame(channel, roomId) =>
          read.Send(ChannelId(channel, roomId.value));
        case UserStateFrame(state) =>
          read.Send(UserStateEvent(state));
        case GlobalUserStateFrame(displayName, userId, emoteSets, badges) =>
          var me := ourName.value;
          var identity := Identity(me, displayName, userId.value, emoteSets, map[me := InsertAll(map[], badges)]);
          read.Send(Connected(identity));
          assert read.items == old(read.items) + [Connected(identity)];
          var failed;
          order, failed := Rejoin(joinFail);
          if failed {
            Reconnect();
          }
        case OtherFrame =>
      }
    }

    /** A JOIN for each channel in the set, in the set's order, each once, until one cannot
        be written (`failAt`, its position): the channels tried are returned, and on a
        failure the last of them is the one whose JOIN was not written. */
    method Rejoin(failAt: Option<nat>) returns (order: seq<string>, failed: bool)
      modifies this`wire
      ensures Distinct(order) && (set c | c in order) <= active
      ensures failed <==> failAt.Some? && failAt.value < |active|
      ensures !failed ==> (set c | c in order) == active && wire == old(wire) + JoinCommands(order)
      ensures failed ==>
        |order| == failAt.value + 1 && wire == old(wire) + JoinCommands(order[..failAt.value])
    {
      var left := active;
      order := [];
      failed := false;
      while left != {} && !failed
        invariant Drained(order, left, active)
        invariant Rejoined(old(wire), wire, order, failed, failAt)
        decreases |left|
      {
        var c :| c in left;
        if failAt == Some(|order|) {
          failed := true;
          assert (order + [c])[..|order|] == order;
        } else {
          JoinCommandsSnoc(order, c);
          Associate(old(wire), JoinCommands(order), [JoinCmd(c)]);
          wire := wire + [JoinCmd(c)];
        }
        DrainedStep(order, left, active, c);
        order := order + [c];
        left := left - {c};
      }
      TriedSize(order, active);
    }
  }

  /** The writes of a rejoin so far, from `w0` to `w`: every channel tried had its JOIN
      written, except the last one when a write failed. */
  ghost predicate Rejoined(w0: seq<Command>, w: seq<Command>, order: seq<string>, failed: bool,
                           failAt: Option<nat>) {
    if failed then
      failAt.Some? && |order| == failAt.value + 1 && w == w0 + JoinCommands(order[..failAt.value])
    else
      w == w0 + JoinCommands(order) && (failAt.None? || |order| <= failAt.value)
  }

  /** The channels tried, each once and all from the set, are no more than the set, and
      exactly as many when they are all of it. */
  lemma TriedSize(order: seq<string>, active: set<string>)
    requires Distinct(order) && (set c | c in order) <= active
    ensures |order| <= |active|
    ensures (set c | c in order) == active ==> |order| == |active|
  {
    var tried := set c | c in order;
    DistinctSize(order);
    assert active == tried + (active - tried);
  }

  lemma JoinCommandsSnoc(order: seq<string>, c: string)
    ensures JoinCommands(order + [c]) == JoinCommands(order) + [JoinCmd(c)]
  {
  }
}
