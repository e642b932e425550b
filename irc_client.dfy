/** The UI side of the chat connection (`src/twitch/client.rs`): the connection status,
    the one-shot start signal, and the translation of events into status changes and
    messages for the application. */
module IrcClient {
  import opened Wrappers
  import opened Mpsc
  import opened Irc

  /** `Status`; the instant a reconnect was scheduled is a clock reading and left out. */
  datatype Status = NotConnected | Connecting | Connected | Reconnecting(after: nat)

  /** `Message`: what `poll` hands to the application. */
  datatype Message =
    | Join(channel: string)
    | Privmsg(msg: ChatMessage)
    | Finished(msg: ChatMessage)
    | InvalidCredentials

  /** The local echo, completed: the message built when it was sent, with the server's
      message id attached as its "id" tag. */
  function Stamped(echo: ChatMessage, id: string): (m: ChatMessage)
    ensures m.channel == echo.channel && m.sender == echo.sender && m.data == echo.data
    ensures |m.tags| == |echo.tags| + 1
    ensures m.tags[..|echo.tags|] == echo.tags && m.tags[|echo.tags|..] == [("id", id)]
  {
    echo.(tags := echo.tags + [("id", id)])
  }

  class Client {
    const events: Mailbox<Event>
    const writer: Writer
    /** The start signal's sending half, while not yet used. */
    var signal: bool
    /** Whatever has gone down the one-shot start line. */
    const startLine: Mailbox<Signal>
    var status: Status
    const userName: string

    /** The start line carries nothing until it is used, and one `Start` after. */
    ghost predicate Valid()
      reads this, startLine
    {
      startLine.items == (if signal then [] else [Start])
    }

    /** `create`: not connected, start signal unused. */
    constructor Create(userName: string, events: Mailbox<Event>, send: Mailbox<WriteKind>)
      ensures Valid() && signal && status == NotConnected && this.userName == userName
      ensures this.events == events && writer.send == send && fresh(writer) && fresh(startLine)
    {
      this.events := events;
      writer := new Writer(send);
      signal := true;
      startLine := new Mailbox();
      status := NotConnected;
      this.userName := userName;
    }

    /** `connect`: sends `Start` the first time and does nothing after, so the connection
        is started at most once however often this is called. */
    method Connect()
      requires Valid()
      modifies this, startLine
      ensures Valid() && !signal && status == old(status)
      ensures startLine.items == [Start]
      ensures startLine.items == old(startLine.items) + (if old(signal) then [Start] else [])
    {
      if signal {
        signal := false;
        startLine.Send(Start);
      }
    }

    /** `poll`: takes the next event, if any. Status events update the status; a new
        identity replaces the old one; a USERSTATE merges its badges into the identity and
        completes the pending local echo, if any; the rest pass through as messages.
        Handling a USERSTATE with no identity, or completing an echo from a USERSTATE
        without a message id, panics in the source. */
    method Poll(identity: Option<Identity>, last: Option<ChatMessage>)
      returns (identity': Option<Identity>, last': Option<ChatMessage>, msg: Option<Message>)
      requires events.items != [] && events.items[0].UserStateEvent? ==>
        identity.Some? && (last.Some? ==> events.items[0].state.msgId.Some?)
      modifies this, events
      ensures old(events.items) == [] ==>
        && events.items == [] && msg.None? && status == old(status)
        && identity' == identity && last' == last
      ensures old(events.items) != [] ==> events.items == old(events.items)[1..]
      ensures old(events.items) != [] ==>
        match old(events.items)[0]
        case Connecting =>
          status == Status.Connecting && msg.None? && identity' == identity && last' == last
        case Connected(incoming) =>
          status == Status.Connected && msg.None? && identity' == Some(incoming) && last' == last
        case Reconnecting(d) =>
          status == Status.Reconnecting(d) && msg.None? && identity' == identity && last' == last
        case UserStateEvent(state) =>
          && status == old(status) && last' == None
          && identity' == Some(WithBadges(identity.value, state.channel, state.badges))
          && msg == (if last.Some? then Some(Finished(Stamped(last.value, state.msgId.value))) else None)
        case ChannelId(_, _) =>
          status == old(status) && msg.None? && identity' == identity && last' == last
        case InvalidCredentials =>
          status == old(status) && msg == Some(Message.InvalidCredentials) && identity' == identity && last' == last
        case JoinEvent(channel) =>
          status == old(status) && msg == Some(Message.Join(channel)) && identity' == identity && last' == last
        case PrivmsgEvent(m) =>
          status == old(status) && msg == Some(Message.Privmsg(m)) && identity' == identity && last' == last
      ensures signal == old(signal)
    {
      identity', last', msg := identity, last, None;
      var next := events.TryRecv();
      if next.None? {
        return;
      }
      match next.value
      case Connecting =>
        status := Status.Connecting;
      case Connected(incoming) =>
        identity' := Some(incoming);
        status := Status.Connected;
      case Reconnecting(d) =>
        status := Status.Reconnecting(d);
      case UserStateEvent(state) =>
        var merged := AppendBadges(identity.value, state.channel, state.badges);
        identity' := Some(merged);
        if last.Some? {
          var pm := last.value;
          last' := None;
          msg := Some(Finished(pm.(tags := pm.tags + [("id", state.msgId.value)])));
        }
      case ChannelId(_, _) =>
      case InvalidCredentials =>
        msg := Some(Message.InvalidCredentials);
      case JoinEvent(channel) =>
        msg := Some(Message.Join(channel));
      case PrivmsgEvent(m) =>
        msg := Some(Message.Privmsg(m));
    }
  }
}
