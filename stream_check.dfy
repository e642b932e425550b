/** The live-stream checker (`src/runtime/stream_check.rs`). The UI side keeps, per user
    id, whether the user is streaming (and the stream when so), subscribes an id the first
    time it is asked about, and turns every report into an event. The background batcher
    keeps the set of watched ids and a queue of newly watched ones, and asks Helix about
    them in batches: the queue after a short quiet spell, and the whole set when a long
    timer runs out. As written, the loop makes a fresh long timer every turn, beside a
    fresh short one, so the long one never runs out (`AsWrittenSleepNeverWins`);
    `StreamBatcher.Turn` keeps it across turns instead. */
module StreamChecks {
  import opened Wrappers
  import opened Maps
  import opened Resolver
  import opened Mpsc
  import Helix

  datatype Action<T> = Added(item: T) | Removed(item: T)

  datatype StreamStatus = StreamStatus(userId: string)

  /** A report from the batcher: the user id, and its stream when it is live. */
  type Report = (string, Option<Helix.Stream>)

  /** `update`'s event for a report: live is `Added`, offline is `Removed`. */
  function ActionFor(id: string, stream: Option<Helix.Stream>): (a: Action<StreamStatus>)
    ensures a.item == StreamStatus(id)
    ensures a.Added? <==> stream.Some?
  {
    if stream.None? then Removed(StreamStatus(id)) else Added(StreamStatus(id))
  }

  /** The events a sequence of reports raises, one each, in order. */
  function Events(reports: seq<Report>): (es: seq<Action<StreamStatus>>)
  {
    seq(|reports|, i requires 0 <= i < |reports| => ActionFor(reports[i].0, reports[i].1))
  }

  lemma EventsAppend(a: seq<Report>, b: seq<Report>)
    ensures Events(a + b) == Events(a) + Events(b)
  {
    assert forall i :: 0 <= i < |a + b| ==> Events(a + b)[i] == (Events(a) + Events(b))[i];
  }

  /** After a round of reports, a user's entry holds the stream of its last report:
      live exactly when that report carried a stream. */
  lemma LastReportWins(m: map<string, Ready<Option<Helix.Stream>>>, reports: seq<Report>, id: string)
    requires id in Firsts(reports)
    ensures id in SetAll(m, reports)
    ensures SetAll(m, reports)[id] == Ready(LastFor(reports, id))
  {
    SetAllLastWins(m, reports, id);
  }

  class StreamCheck {
    const streams: ResolverMap<string, Option<Helix.Stream>, Report>
    /** Subscriptions on their way to the batcher. */
    const watching: Mailbox<Action<string>>
    /** Reports on their way back from the batcher. */
    const updates: Mailbox<Report>
    /** Live/offline events for the UI. */
    const events: Mailbox<Action<StreamStatus>>

    /** The three channels are distinct. */
    ghost predicate Valid()
      reads this
    {
      watching != updates as object && updates != events as object && watching != events as object
    }

    constructor Create()
      ensures Valid()
      ensures fresh(streams) && fresh(watching) && fresh(updates) && fresh(events)
      ensures streams.entries == map[] && streams.pending == []
      ensures watching.items == [] && updates.items == [] && events.items == []
    {
      streams := new ResolverMap();
      watching := new Mailbox();
      updates := new Mailbox();
      events := new Mailbox();
    }

    /** `get_or_subscribe`: the stream when the user is known to be live; the first ask
        about a user subscribes it with the batcher and records it as outstanding. */
    method GetOrSubscribe(userId: string) returns (o: Option<Helix.Stream>)
      modifies streams, watching
      ensures o.Some? ==>
        userId in old(streams.entries) && old(streams.entries)[userId] == Ready(Some(o.value))
      ensures (userId in old(streams.entries) && old(streams.entries)[userId].Ready?
               && old(streams.entries)[userId].value.Some?) ==> o.Some?
      ensures userId in old(streams.entries) ==>
        streams.entries == old(streams.entries) && watching.items == old(watching.items)
      ensures userId !in old(streams.entries) ==>
        && streams.entries == old(streams.entries)[userId := NotReady]
        && watching.items == old(watching.items) + [Added(userId)]
      ensures streams.pending == old(streams.pending)
    {
      var found, first := streams.GetOrElse(userId);
      if first {
        watching.Send(Added(userId));
      }
      o := if found.Some? then found.value else None;
    }

    /** `unsubscribe`: the batcher stops watching; the entry itself stays, so a later
        `GetOrSubscribe` of the same user does not subscribe it again. */
    method Unsubscribe(userId: string)
      modifies watching
      ensures watching.items == old(watching.items) + [Removed(userId)]
    {
      watching.Send(Removed(userId));
    }

    /** `poll`: every report waiting from the batcher, then every finished request, is
        stored under its user id and raises its event. */
    method Poll()
      requires Valid()
      modifies updates, streams, events
      ensures updates.items == []
      ensures streams.entries
        == SetAll(old(streams.entries), old(updates.items) + old(Completed(streams.pending)))
      ensures streams.pending == old(Unfinished(streams.pending))
      ensures events.items == old(events.items) + Events(old(updates.items) + old(Completed(streams.pending)))
    {
      ghost var arrived := updates.items;
      ghost var finished := Completed(streams.pending);
      ghost var waiting := Unfinished(streams.pending);
      var entry := streams.Update();
      DrainUpdates(entry);
      SlotsKept(streams.pending);
      PollFinished(entry);
      PollComposes(old(streams.entries), old(events.items), arrived, finished);
    }

    /** Storing the waiting reports and then the finished ones is storing both runs, in
        that order. */
    static lemma PollComposes(
      entries: map<string, Ready<Option<Helix.Stream>>>, raised: seq<Action<StreamStatus>>,
      arrived: seq<Report>, finished: seq<Report>)
      ensures SetAll(SetAll(entries, arrived), finished) == SetAll(entries, arrived + finished)
      ensures raised + Events(arrived) + Events(finished) == raised + Events(arrived + finished)
    {
      SetAllAppend(entries, arrived, finished);
      EventsAppend(arrived, finished);
    }

    /** The second half of `poll`: the finished requests, in order. */
    method PollFinished(entry: ResolverEntry<string, Option<Helix.Stream>, Report>)
      requires entry.inner == streams
      modifies streams, events
      ensures streams.entries == SetAll(old(streams.entries), old(Completed(streams.pending)))
      ensures streams.pending == old(Unfinished(streams.pending))
      ensures events.items == old(events.items) + Events(old(Completed(streams.pending)))
    {
      var done := streams.Poll();
      ApplyAll(entry, done);
    }

    /** The first half of `poll`: the reports waiting from the batcher. */
    method DrainUpdates(entry: ResolverEntry<string, Option<Helix.Stream>, Report>)
      requires entry.inner == streams
      modifies updates, streams, events
      ensures updates.items == []
      ensures streams.entries == SetAll(old(streams.entries), old(updates.items))
      ensures streams.pending == old(streams.pending)
      ensures events.items == old(events.items) + Events(old(updates.items))
    {
      ghost var arrived := updates.items;
      ghost var k := 0;
      while true
        invariant 0 <= k <= |arrived|
        invariant updates.items == arrived[k..]
        invariant streams.entries == SetAll(old(streams.entries), arrived[..k])
        invariant streams.pending == old(streams.pending)
        invariant events.items == old(events.items) + Events(arrived[..k])
        decreases |updates.items|
      {
        var next := updates.TryRecv();
        if next.None? {
          break;
        }
        var (id, stream) := next.value;
        assert arrived[..k + 1][..k] == arrived[..k];
        Update(entry, id, stream);
        k := k + 1;
      }
      assert arrived[..k] == arrived;
    }

    /** Store a run of reports, raising their events. */
    method ApplyAll(entry: ResolverEntry<string, Option<Helix.Stream>, Report>, done: seq<Report>)
      requires entry.inner == streams
      modifies streams, events
      ensures streams.entries == SetAll(old(streams.entries), done)
      ensures streams.pending == old(streams.pending)
      ensures events.items == old(events.items) + Events(done)
    {
      for i := 0 to |done|
        invariant streams.entries == SetAll(old(streams.entries), done[..i])
        invariant streams.pending == old(streams.pending)
        invariant events.items == old(events.items) + Events(done[..i])
      {
        assert done[..i + 1][..i] == done[..i];
        var (id, stream) := done[i];
        Update(entry, id, stream);
      }
      assert done[..|done|] == done;
    }

    /** `update`: store the report and raise its event. */
    method Update(entry: ResolverEntry<string, Option<Helix.Stream>, Report>, id: string, stream: Option<Helix.Stream>)
      requires entry.inner == streams
      modifies streams, events
      ensures streams.entries == SetEntry(old(streams.entries), id, stream)
      ensures streams.pending == old(streams.pending)
      ensures events.items == old(events.items) + [ActionFor(id, stream)]
    {
      var action := if stream.None? then Removed(StreamStatus(id)) else Added(StreamStatus(id));
      entry.Set(id, stream);
      events.Send(action);
    }

    /** `poll_event`: the oldest event, if any. */
    method PollEvent() returns (o: Option<Action<StreamStatus>>)
      modifies events
      ensures old(events.items) == [] ==> o == None && events.items == []
      ensures old(events.items) != [] ==>
        o == Some(old(events.items)[0]) && events.items == old(events.items)[1..]
    {
      o := events.TryRecv();
    }
  }

  /** Asking twice about a user, unsubscribing in between, subscribes it only once. */
  method SubscribeUnsubscribeSubscribe(check: StreamCheck, userId: string)
    requires userId !in check.streams.entries
    modifies check.streams, check.watching
    ensures check.watching.items == old(check.watching.items) + [Added(userId), Removed(userId)]
  {
    var _ := check.GetOrSubscribe(userId);
    check.Unsubscribe(userId);
    var _ := check.GetOrSubscribe(userId);
  }

  // ---------------------------------------------------------------- the batcher

  function UserIds(streams: seq<Helix.Stream>): set<string> {
    set s | s in streams :: s.userId
  }

  /** The live reports of a batch answer, in answer order. */
  function Present(streams: seq<Helix.Stream>): (rs: seq<Report>)
  {
    seq(|streams|, i requires 0 <= i < |streams| => (streams[i].userId, Some(streams[i])))
  }

  /** The offline reports for the ids no stream answered for. */
  function NoneFor(absent: seq<string>): (rs: seq<Report>)
  {
    seq(|absent|, i requires 0 <= i < |absent| => (absent[i], None))
  }

  lemma NoneForSnoc(absent: seq<string>, x: string)
    ensures NoneFor(absent + [x]) == NoneFor(absent) + [(x, None)]
  {
  }

  lemma PresentSnoc(streams: seq<Helix.Stream>, i: nat)
    requires i < |streams|
    ensures UserIds(streams[..i + 1]) == UserIds(streams[..i]) + {streams[i].userId}
    ensures Present(streams[..i + 1]) == Present(streams[..i]) + [(streams[i].userId, Some(streams[i]))]
  {
    assert streams[..i + 1] == streams[..i] + [streams[i]];
  }

  /** What `batch_send` puts on the wire for a query over `ids`: nothing when the fetch
      task itself died (`None`); otherwise a live report per returned stream, then one
      offline report per queried id without a stream, each such id once, in some order. */
  ghost predicate Reported(ids: set<string>, reply: Option<seq<Helix.Stream>>,
                           before: seq<Report>, after: seq<Report>, absent: seq<string>)
  {
    if reply.None? then after == before && absent == []
    else
      && Distinct(absent)
      && (set x | x in absent) == ids - UserIds(reply.value)
      && after == before + Present(reply.value) + NoneFor(absent)
  }

  /** A delivered batch reports on every queried id, and reports an id offline only
      when it was queried and no stream came back for it. */
  lemma {:induction false} ReportsCoverQuery(ids: set<string>, streams: seq<Helix.Stream>, absent: seq<string>)
    requires (set x | x in absent) == ids - UserIds(streams)
    ensures ids <= Firsts(Present(streams) + NoneFor(absent))
    ensures var rs := Present(streams) + NoneFor(absent);
      forall k :: 0 <= k < |rs| ==>
        (rs[k].1.None? <==> k >= |streams|) && (rs[k].1.None? ==> rs[k].0 in ids - UserIds(streams))
  {
    var rs := Present(streams) + NoneFor(absent);
    forall id | id in ids ensures id in Firsts(rs) {
      if id in UserIds(streams) {
        var s :| s in streams && s.userId == id;
        var i :| 0 <= i < |streams| && streams[i] == s;
        assert rs[i].0 == id;
      } else {
        assert id in ids - UserIds(streams);
        assert id in (set x | x in absent);
        var i :| 0 <= i < |absent| && absent[i] == id;
        assert rs[|streams| + i].0 == id;
      }
    }
    forall k | |streams| <= k < |rs| ensures rs[k].0 in ids - UserIds(streams) {
      assert rs[k] == NoneFor(absent)[k - |streams|];
      assert absent[k - |streams|] in (set x | x in absent);
    }
  }

  /** A Helix failure reaches the batcher as an empty list: every queried id is then
      reported offline, once each, and nothing is reported live. */
  lemma EmptyReplyReportsAllOffline(ids: set<string>, before: seq<Report>, after: seq<Report>,
                                    absent: seq<string>)
    requires Reported(ids, Some([]), before, after, absent)
    ensures Distinct(absent) && (set x | x in absent) == ids
    ensures after == before + NoneFor(absent)
    ensures forall id :: id in ids ==> (id, None) in after[|before|..]
    ensures forall k :: |before| <= k < |after| ==> after[k].1.None?
  {
    assert UserIds([]) == {};
    assert (set x | x in absent) == ids - UserIds([]) == ids;
    assert Present([]) == [];
    assert after[|before|..] == NoneFor(absent);
    forall id | id in ids ensures (id, None) in after[|before|..] {
      assert id in (set x | x in absent);
      var i :| 0 <= i < |absent| && absent[i] == id;
      assert NoneFor(absent)[i] == (id, None);
    }
  }

  // ------------------------------------------------------------ the select

  /** `STREAM_CHECK_DURATION` and `BURST_WINDOW`, in milliseconds. */
  const CheckMs: nat := 30000
  const BurstMs: nat := 1000

  /** The arm of a turn's `select2` that finishes first: the long sleep, the receive, or
      the receive's timeout. */
  datatype Arm = SleepArm | RecvArm | TimeoutArm

  /** The arm that wins a turn whose long sleep has `sleepLeft` ms to go, when something
      (a subscription change or the hang-up) arrives `arrival` ms into the turn, if at
      all. `timeout` polls the receive before it looks at its deadline, so an arrival at
      the very end of the window is received. On a tie between the sleep and the other
      arm this is the select of the corrected loop, a `biased;` select listing the sleep
      first; the program's `select2` (`src/util.rs:11-14`) is unbiased and picks either
      arm of a tie at random, but as written it never meets one, since its sleep is
      always 29 s from running out when the turn ends (`AsWrittenSleepNeverWins`). */
  function FirstArm(sleepLeft: nat, arrival: Option<nat>): Arm
  {
    if sleepLeft <= BurstMs && (arrival.None? || sleepLeft <= arrival.value) then SleepArm
    else if arrival.Some? && arrival.value <= BurstMs then RecvArm
    else TimeoutArm
  }

  /** How long a turn lasts: until its winning arm finishes. */
  function TurnMs(sleepLeft: nat, arrival: Option<nat>): nat
  {
    match FirstArm(sleepLeft, arrival)
    case SleepArm => sleepLeft
    case RecvArm => arrival.value
    case TimeoutArm => BurstMs
  }

  /** The loop as written makes a new `CheckMs` sleep at the top of every turn: whatever
      arrives, the receive or its timeout ends the turn within `BurstMs`, so the arm that
      reports on the whole watched set never runs. */
  lemma AsWrittenSleepNeverWins(arrival: Option<nat>)
    ensures FirstArm(CheckMs, arrival) != SleepArm
    ensures TurnMs(CheckMs, arrival) <= BurstMs
    ensures CheckMs - TurnMs(CheckMs, arrival) >= CheckMs - BurstMs
  {
  }

  /** With the sleep kept across turns and listed first in a `biased;` select, a turn the
      sleep wins ends exactly when it runs out, and any other turn ends strictly before:
      the time left only shrinks until the sleep fires. */
  lemma KeptSleepStep(sleepLeft: nat, arrival: Option<nat>)
    requires 0 < sleepLeft
    ensures FirstArm(sleepLeft, arrival) == SleepArm ==> TurnMs(sleepLeft, arrival) == sleepLeft
    ensures FirstArm(sleepLeft, arrival) != SleepArm ==> 0 < sleepLeft - TurnMs(sleepLeft, arrival)
  {
  }

  /** What woke the batcher: the long timer with the stream fetch's reply for the watched
      set; a subscription change; the short quiet spell with the reply for the queue (only
      asked when the queue is not empty); or the UI side hanging up. A reply is `None`
      only when the fetch task itself died: a failed Helix request arrives as an empty
      list (`Helix.GetManyInner`). */
  datatype Wake =
    | Timer(reply: Option<seq<Helix.Stream>>)
    | Message
    | Quiet(reply: Option<seq<Helix.Stream>>)
    | Hangup

  class StreamBatcher {
    var watched: set<string>
    var queue: seq<string>
    var stopped: bool
    /** Every id some delivered batch has reported on. */
    ghost var reported: set<string>
    /** With the sleep kept across turns: what is left of it, and the time since the
        whole watched set was last asked about. */
    var sleepLeft: nat
    ghost var sinceCheck: nat
    const inbox: Mailbox<Action<string>>
    const outbox: Mailbox<Report>

    /** Every watched id has been reported on or waits in the queue. */
    ghost predicate Valid()
      reads this
    {
      watched <= (set x | x in queue) + reported
    }

    /** The kept sleep runs out `CheckMs` after the last whole-set check. */
    ghost predicate OnTime()
      reads this
    {
      0 < sleepLeft && sinceCheck + sleepLeft == CheckMs
    }

    constructor Spawn(inbox: Mailbox<Action<string>>, outbox: Mailbox<Report>)
      ensures Valid() && OnTime() && this.inbox == inbox && this.outbox == outbox
      ensures watched == {} && queue == [] && !stopped && reported == {}
      ensures sleepLeft == CheckMs && sinceCheck == 0
    {
      sleepLeft := CheckMs;
      sinceCheck := 0;
      watched := {};
      queue := [];
      stopped := false;
      reported := {};
      this.inbox := inbox;
      this.outbox := outbox;
    }

    /** `batch_send!`: a dead fetch task sends nothing and skips the rest of the turn. */
    method BatchSend(ids: set<string>, reply: Option<seq<Helix.Stream>>) returns (sent: bool, absent: seq<string>)
      modifies outbox
      ensures sent <==> reply.Some?
      ensures Reported(ids, reply, old(outbox.items), outbox.items, absent)
    {
      if reply.None? {
        return false, [];
      }
      var streams := reply.value;
      var delta := SendPresent(ids, streams);
      absent := SendAbsent(delta);
      sent := true;
    }

    /** The live half of a batch: a report per returned stream, in answer order; what is
        left are the queried ids no stream answered for. */
    method SendPresent(ids: set<string>, streams: seq<Helix.Stream>) returns (delta: set<string>)
      modifies outbox
      ensures delta == ids - UserIds(streams)
      ensures outbox.items == old(outbox.items) + Present(streams)
    {
      delta := ids;
      for i := 0 to |streams|
        invariant delta == ids - UserIds(streams[..i])
        invariant outbox.items == old(outbox.items) + Present(streams[..i])
      {
        PresentSnoc(streams, i);
        delta := delta - {streams[i].userId};
        outbox.Send((streams[i].userId, Some(streams[i])));
      }
      assert streams[..|streams|] == streams;
    }

    /** The offline half of a batch: one report per id left over, each once. */
    method SendAbsent(delta: set<string>) returns (absent: seq<string>)
      modifies outbox
      ensures Distinct(absent) && (set x | x in absent) == delta
      ensures outbox.items == old(outbox.items) + NoneFor(absent)
    {
      var left := delta;
      absent := [];
      while left != {}
        invariant Drained(absent, left, delta)
        invariant outbox.items == old(outbox.items) + NoneFor(absent)
        decreases |left|
      {
        var x :| x in left;
        NoneForSnoc(absent, x);
        Associate(old(outbox.items), NoneFor(absent), [(x, None)]);
        outbox.Send((x, None));
        DrainedStep(absent, left, delta, x);
        absent := absent + [x];
        left := left - {x};
      }
    }

    /** One turn of the batcher's loop. */
    method Step(w: Wake) returns (absent: seq<string>)
      requires Valid() && !stopped
      requires w.Message? ==> inbox.items != []
      modifies this, inbox, outbox
      ensures Valid()
      ensures sleepLeft == old(sleepLeft) && sinceCheck == old(sinceCheck)
      ensures w.Timer? ==>
        && Reported(old(watched), w.reply, old(outbox.items), outbox.items, absent)
        && watched == old(watched) && queue == old(queue) && !stopped
        && inbox.items == old(inbox.items)
        && reported == old(reported) + (if w.reply.Some? then old(watched) else {})
      ensures w.Message? ==>
        && inbox.items == old(inbox.items)[1..]
        && outbox.items == old(outbox.items) && reported == old(reported) && !stopped
        && match old(inbox.items)[0]
           case Added(id) =>
             watched == old(watched) + {id}
             && queue == old(queue) + (if id in old(watched) then [] else [id])
           case Removed(id) =>
             watched == old(watched) - {id} && queue == old(queue)
      ensures w.Quiet? && old(queue) == [] ==>
        && outbox.items == old(outbox.items) && queue == [] && watched == old(watched)
        && inbox.items == old(inbox.items) && reported == old(reported) && !stopped
      ensures w.Quiet? && old(queue) != [] ==>
        var ids := set x | x in old(queue);
        && Reported(ids, w.reply, old(outbox.items), outbox.items, absent)
        && queue == (if w.reply.Some? then [] else old(queue))
        && watched == old(watched) && inbox.items == old(inbox.items) && !stopped
        && reported == old(reported) + (if w.reply.Some? then ids else {})
      ensures w.Hangup? ==>
        && stopped && watched == old(watched) && queue == old(queue)
        && outbox.items == old(outbox.items) && inbox.items == old(inbox.items)
    {
      absent := [];
      match w
      case Timer(reply) =>
        var sent;
        sent, absent := BatchSend(watched, reply);
        if sent {
          reported := reported + watched;
        }
      case Message =>
        var next := inbox.TryRecv();
        match next.value {
          case Added(id) =>
            if id !in watched {
              watched := watched + {id};
              queue := queue + [id];
            }
          case Removed(id) =>
            watched := watched - {id};
        }
      case Quiet(reply) =>
        if queue != [] {
          var ids := set x | x in queue;
          var sent;
          sent, absent := BatchSend(ids, reply);
          if sent {
            queue := [];
            reported := reported + ids;
          }
        }
      case Hangup =>
        stopped := true;
    }

    /** One turn of the corrected loop: the long sleep is kept across turns, renewed only
        when it fires, and listed first in a `biased;` select; the winning arm picks the
        wake. `arrival` is when a subscription change
        or the hang-up (`hangup`) arrives in this turn, if it does; `reply` is the stream
        fetch's reply to the batch the turn sends, if it sends one. The whole watched set
        is then asked about again at most `CheckMs` after the last time. */
    method Turn(arrival: Option<nat>, hangup: bool, reply: Option<seq<Helix.Stream>>)
      returns (arm: Arm, absent: seq<string>)
      requires Valid() && OnTime() && !stopped
      requires FirstArm(sleepLeft, arrival) == RecvArm && !hangup ==> inbox.items != []
      modifies this, inbox, outbox
      ensures Valid() && OnTime() && sinceCheck < CheckMs
      ensures arm == FirstArm(old(sleepLeft), arrival)
      ensures arm == SleepArm ==>
        && sinceCheck == 0
        && Reported(old(watched), reply, old(outbox.items), outbox.items, absent)
        && reported == old(reported) + (if reply.Some? then old(watched) else {})
      ensures arm != SleepArm ==> sinceCheck == old(sinceCheck) + TurnMs(old(sleepLeft), arrival)
      ensures arm == RecvArm <==> stopped || inbox.items != old(inbox.items)
    {
      arm := FirstArm(sleepLeft, arrival);
      var turn := TurnMs(sleepLeft, arrival);
      KeptSleepStep(sleepLeft, arrival);
      var w := match arm
        case SleepArm => Timer(reply)
        case RecvArm => if hangup then Hangup else Message
        case TimeoutArm => Quiet(reply);
      absent := Step(w);
      if arm == SleepArm {
        sleepLeft := CheckMs;
        sinceCheck := 0;
      } else {
        sleepLeft := sleepLeft - turn;
        sinceCheck := sinceCheck + turn;
      }
    }
  }
}
