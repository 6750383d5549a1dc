/** What an SBE connection does deliver: every update is accounted for, the data
    queue reaches the wire in order, and a connection left to work answers every
    request and streams every update a client subscribed to. */
module ConnectionDelivery {
  import opened Bytes
  import opened Subscriptions
  import opened Connection

  // ---------------------------------------------------------------------
  // Every update is accounted for
  // ---------------------------------------------------------------------

  /** The updates that a step loses: to a lag, because nobody subscribed to the
      id, because it does not encode, because the queue is full or the writer
      gone, or because the connection ends. */
  function Lost(s: State, a: Action): nat {
    match a
    case Receive(kind, skipped) =>
      if s.forwarder == FIdle && s.Received(kind) + skipped < |s.Published(kind)| then skipped else 0
    case CheckSubscribed =>
      if s.forwarder.FLocked? && s.forwarder.frame.Update? && s.forwarder.frame.id !in s.subs.Of(s.forwarder.frame.kind) then 1 else 0
    case TrySend(encodes) =>
      if s.forwarder.FChecked? && (!encodes || s.writer == WStopped || |s.data| >= 256) then 1 else 0
    case Abort => if s.reader == RStopped then |Held(s.forwarder)| else 0
    case _ => 0
  }

  function LostIn(s: State, actions: seq<Action>): nat {
    if actions == [] then 0
    else
      var init, last := actions[..|actions| - 1], actions[|actions| - 1];
      LostIn(s, init) + Lost(Run(s, init), last)
  }

  function Gone(s: State): int {
    s.quotesReceived + s.statusReceived - |s.enqueued| - |Held(s.forwarder)|
  }

  lemma {:induction false} LostStep(s: State, a: Action)
    requires Typed(s)
    ensures Gone(Next(s, a)) == Gone(s) + Lost(s, a)
  {
  }

  lemma {:induction false} LostRun(s: State, actions: seq<Action>)
    requires Sound(s)
    ensures Gone(Run(s, actions)) == Gone(s) + LostIn(s, actions)
    decreases |actions|
  {
    hide Sound, Next, Gone, Lost;
    if actions != [] {
      var init := actions[..|actions| - 1];
      RunKeepsSound(s, init);
      LostRun(s, init);
      LostStep(Run(s, init), actions[|actions| - 1]) by {
        SoundIsTyped(Run(s, init));
      }
    }
  }

  lemma {:induction false} SoundIsTyped(s: State)
    requires Sound(s)
    ensures Typed(s)
  {
  }

  /** In every interleaving, each update the forwarder has come past was put on
      the data queue, is in its hands, or was lost for one of those reasons. */
  lemma {:induction false} UpdatesAccountedFor(max: nat, input: seq<Request>, actions: seq<Action>)
    ensures var s := Run(Initial(max, input), actions);
            s.quotesReceived + s.statusReceived == |s.enqueued| + |Held(s.forwarder)| + LostIn(Initial(max, input), actions)
  {
    hide Run, LostIn;
    InitialSound(max, input);
    LostRun(Initial(max, input), actions);
  }

  // ---------------------------------------------------------------------
  // The data queue reaches the wire
  // ---------------------------------------------------------------------

  function AllUpdates(frames: seq<Frame>): (r: seq<Frame>) {
    if frames == [] then []
    else
      var init, last := AllUpdates(frames[..|frames| - 1]), frames[|frames| - 1];
      if last.Update? then init + [last] else init
  }

  /** What was enqueued is on the wire, being written, or queued, in that order. */
  ghost predicate InOrder(s: State) {
    && AllUpdates(s.wire) <= s.enqueued
    && (s.writer != WStopped ==> AllUpdates(s.wire) + (AllUpdates(InFlight(s.writer)) + s.data) == s.enqueued)
  }

  lemma {:induction false} AllUpdatesAppend(frames: seq<Frame>, f: Frame)
    ensures AllUpdates(frames + [f]) == AllUpdates(frames) + AllUpdates([f])
    ensures AllUpdates([f]) == if f.Update? then [f] else []
    ensures AllUpdates([]) == []
  {
    assert (frames + [f])[..|frames|] == frames;
    assert [f][..0] == [];
  }

  lemma {:induction false} StepKeepsInOrder(s: State, a: Action)
    requires Typed(s) && InOrder(s)
    ensures InOrder(Next(s, a))
  {
    hide AllUpdates, Typed;
    if a.Write? {
      WriteKeepsInOrder(s, a);
    } else if a.PollControl? {
      PollControlKeepsInOrder(s, a);
    } else if a.PollData? {
      PollDataKeepsInOrder(s, a);
    } else {
      WriterIdles(s, a);
      hide Next;
      var r := Next(s, a);
      Shift(AllUpdates(s.wire) + AllUpdates(InFlight(s.writer)), s.data, r.data[|s.data|..]);
      Shift(AllUpdates(s.wire), AllUpdates(InFlight(s.writer)), s.data);
      Shift(AllUpdates(s.wire), AllUpdates(InFlight(s.writer)), r.data);
    }
  }

  lemma {:induction false} WriteKeepsInOrder(s: State, a: Action)
    requires InOrder(s) && a.Write?
    ensures InOrder(Next(s, a))
  {
    if s.writer.WWriting? {
      var r, now := Next(s, a), AllUpdates([s.writer.frame]);
      AllUpdatesAppend(s.wire, s.writer.frame);
      MoveOver(AllUpdates(s.wire), now, s.data, s.enqueued);
      assert AllUpdates(InFlight(s.writer)) == now && (r.writer == WIdle ==> AllUpdates(InFlight(r.writer)) == []);
      assert r == if a.ok then s.(writer := WIdle, wire := s.wire + [s.writer.frame]) else s.(writer := WStopped);
      hide AllUpdates, Next, InFlight;
    }
  }

  lemma {:induction false} MoveOver(wire: seq<Frame>, now: seq<Frame>, data: seq<Frame>, enqueued: seq<Frame>)
    ensures wire + (now + data) == enqueued ==> wire + now <= enqueued && (wire + now) + ([] + data) == enqueued
  {
    assert wire + (now + data) == (wire + now) + ([] + data);
  }

  lemma {:induction false} PollControlKeepsInOrder(s: State, a: Action)
    requires Typed(s) && InOrder(s) && a.PollControl?
    ensures InOrder(Next(s, a))
  {
    if s.control != [] {
      AllUpdatesAppend([], s.control[0]);
    }
    hide AllUpdates;
  }

  lemma {:induction false} PollDataKeepsInOrder(s: State, a: Action)
    requires Typed(s) && InOrder(s) && a.PollData?
    ensures InOrder(Next(s, a))
  {
    var r := Next(s, a);
    assert s.writer == WSawNoControl || r == s;
    AllUpdatesAppend([], if s.data != [] then s.data[0] else Response(0, LimitReached));
    if s.writer == WSawNoControl && s.data != [] {
      assert AllUpdates(InFlight(s.writer)) == [] && AllUpdates(InFlight(r.writer)) == [s.data[0]];
      assert r == s.(writer := WWriting(s.data[0]), data := s.data[1..]);
      hide AllUpdates, Next, InFlight, Typed;
      assert [] + s.data == [s.data[0]] + s.data[1..];
    } else {
      assert AllUpdates(InFlight(r.writer)) == AllUpdates(InFlight(s.writer)) && r.data == s.data;
      hide AllUpdates, InFlight, Typed;
    }
  }

  /** A step of the other tasks leaves wire and writer alone, unless it aborts
      the writer, and at most adds to the data queue what it adds to the history. */
  lemma {:induction false} WriterIdles(s: State, a: Action)
    requires !(a.Write? && s.writer.WWriting?) && !a.PollData? && !a.PollControl?
    ensures var r := Next(s, a);
            && r.wire == s.wire && (r.writer == s.writer || r.writer == WStopped)
            && s.data <= r.data && s.enqueued + r.data[|s.data|..] == r.enqueued
  {
  }

  lemma {:induction false} Shift(a: seq<Frame>, b: seq<Frame>, c: seq<Frame>)
    ensures a + b + c == a + (b + c)
  {
  }

  lemma {:induction false} RunKeepsInOrder(s: State, actions: seq<Action>)
    requires Sound(s) && InOrder(s)
    ensures InOrder(Run(s, actions))
    decreases |actions|
  {
    hide Sound, Next, InOrder;
    if actions != [] {
      var init := actions[..|actions| - 1];
      RunKeepsSound(s, init);
      RunKeepsInOrder(s, init);
      StepKeepsInOrder(Run(s, init), actions[|actions| - 1]) by {
        SoundIsTyped(Run(s, init));
      }
    }
  }

  /** In every interleaving the updates on the wire are a prefix of those put on
      the data queue, and while the writer runs none of them is missing. */
  lemma {:induction false} QueueReachesWire(max: nat, input: seq<Request>, actions: seq<Action>)
    ensures var s := Run(Initial(max, input), actions);
            && AllUpdates(s.wire) <= s.enqueued
            && (s.writer != WStopped ==> AllUpdates(s.wire) + (AllUpdates(InFlight(s.writer)) + s.data) == s.enqueued)
  {
    hide Run;
    InitialSound(max, input);
    RunKeepsInOrder(Initial(max, input), actions);
  }

  // ---------------------------------------------------------------------
  // When a task ends
  // ---------------------------------------------------------------------

  /** The tasks end for these reasons only. A client that holds a subscription is
      not timed out, and the writer leaves no response behind unless a write
      fails or the connection is torn down. */
  lemma {:induction false} TasksEndExactly(s: State, a: Action)
    ensures var r := Next(s, a);
            && (s.reader != RStopped ==>
                  (r.reader == RStopped <==>
                   || (s.reader == RIdle && (a == EndOfInput || (a == ReadTimeout && |s.subs.quotes| + |s.subs.status| == 0)))
                   || (s.reader.RSending? && a == SendResponse && s.writer == WStopped)))
            && (s.forwarder != FStopped ==>
                  (r.forwarder == FStopped <==>
                   || (s.forwarder == FIdle && a == BroadcastClosed)
                   || (s.forwarder.FChecked? && a == TrySend(true) && s.writer == WStopped)
                   || (s.reader == RStopped && a == Abort)))
            && (s.writer != WStopped ==>
                  (r.writer == WStopped <==>
                   || (s.writer.WWriting? && a == Write(false))
                   || (s.writer == WIdle && a == PollControl && s.control == [] && s.reader == RStopped)
                   || (s.reader == RStopped && a == Abort)))
  {
  }

  /** A writer that has not ended comes back to look at the control queue, whether
      or not there is any data. */
  lemma {:induction false} WriterComesBack(s: State)
    requires s.writer == WSawNoControl || s.writer.WWriting?
    ensures Run(s, [PollData, Write(true)]).writer == WIdle
  {
    hide Run;
    EmptyRun(s);
    var actions := Onward(s, [], PollData);
    assert Run(s, actions).writer == WIdle || Run(s, actions).writer.WWriting?;
    actions := Onward(s, actions, Write(true));
    assert actions == [PollData, Write(true)];
  }

  // ---------------------------------------------------------------------
  // A connection left to work
  // ---------------------------------------------------------------------

  /** All tasks are idle and nothing is on its way. */
  ghost predicate Quiet(s: State) {
    && s.reader == RIdle && s.forwarder == FIdle && s.writer == WIdle && s.lock == Free
    && s.control == [] && s.data == []
    && s.quotesReceived == |s.quotesPublished| && s.statusReceived == |s.statusPublished|
  }

  lemma {:induction false} Onward(s: State, actions: seq<Action>, a: Action) returns (longer: seq<Action>)
    ensures longer == actions + [a]
    ensures Run(s, longer) == Next(Run(s, actions), a)
  {
    hide Next;
    longer := actions + [a];
    assert longer[..|actions|] == actions;
  }

  lemma {:induction false} EmptyRun(s: State)
    ensures Run(s, []) == s
  {
  }

  /** A publication of an update. */
  datatype Event = Event(kind: Kind, id: RfqId)

  /** The updates among the events that a client with these subscriptions gets,
      numbered as they are published. */
  function Wanted(subs: Subs, quotes: nat, status: nat, events: seq<Event>): (r: seq<Frame>)
    decreases |events|
  {
    if events == [] then []
    else
      var first, others := events[0], events[1..];
      (if first.id in subs.Of(first.kind) then [Update(first.kind, if first.kind == Quotes then quotes else status, first.id)] else [])
      + if first.kind == Quotes then Wanted(subs, quotes + 1, status, others) else Wanted(subs, quotes, status + 1, others)
  }

  /** The forwarder enqueues an update that the client subscribed to. */
  lemma {:induction false} SubscribedIsEnqueued(s: State)
    requires s.forwarder.FLocked? && s.forwarder.frame.Update? && s.forwarder.frame.id in s.subs.Of(s.forwarder.frame.kind)
    requires s.writer != WStopped && |s.data| < 256
    ensures Run(s, [CheckSubscribed, TrySend(true)]) ==
            s.(forwarder := FIdle, lock := Free, data := s.data + [s.forwarder.frame], enqueued := s.enqueued + [s.forwarder.frame])
  {
    hide Run;
    EmptyRun(s);
    var actions := Onward(s, [], CheckSubscribed);
    actions := Onward(s, actions, TrySend(true));
    assert actions == [CheckSubscribed, TrySend(true)];
  }

  /** The writer puts the front of the data queue on the wire when no response
      waits. */
  lemma {:induction false} FrontIsWritten(s: State)
    requires s.writer == WIdle && s.control == [] && s.data != [] && s.reader != RStopped
    ensures Run(s, [PollControl, PollData, Write(true)]) == s.(data := s.data[1..], wire := s.wire + [s.data[0]])
  {
    hide Run;
    EmptyRun(s);
    var actions := Onward(s, [], PollControl);
    actions := Onward(s, actions, PollData);
    actions := Onward(s, actions, Write(true));
    assert actions == [PollControl, PollData, Write(true)];
  }

  /** An update is published, and the forwarder takes it and the read guard. */
  lemma {:induction false} TakeUp(s: State, e: Event) returns (actions: seq<Action>)
    requires Quiet(s)
    ensures Run(s, actions) ==
            AfterPublishing(s, e).(forwarder := FLocked(Update(e.kind, |s.Published(e.kind)|, e.id)), lock := ReadHeld)
  {
    hide Run;
    EmptyRun(s);
    actions := Onward(s, [], Publish(e.kind, e.id));
    actions := Onward(s, actions, Receive(e.kind, 0));
    actions := Onward(s, actions, LockForRead);
  }

  /** One update from its publication to the wire, or dropped. */
  lemma {:induction false} DeliverOne(s: State, e: Event) returns (actions: seq<Action>)
    requires Quiet(s)
    ensures var f := Update(e.kind, |s.Published(e.kind)|, e.id);
            Run(s, actions) ==
            if e.id in s.subs.Of(e.kind) then AfterPublishing(s, e).(wire := s.wire + [f], enqueued := s.enqueued + [f])
            else AfterPublishing(s, e)
  {
    hide Run;
    actions := TakeUp(s, e);
    var locked := Run(s, actions);
    if e.id in s.subs.Of(e.kind) {
      hide Next;
      SubscribedIsEnqueued(locked);
      RunConcat(s, actions, [CheckSubscribed, TrySend(true)]);
      actions := actions + [CheckSubscribed, TrySend(true)];
      FrontIsWritten(Run(s, actions));
      RunConcat(s, actions, [PollControl, PollData, Write(true)]);
      actions := actions + [PollControl, PollData, Write(true)];
    } else {
      actions := Onward(s, actions, CheckSubscribed);
    }
  }

  lemma {:induction false} QuietAgain(s: State, e: Event)
    requires Quiet(s)
    ensures Quiet(AfterPublishing(s, e))
    ensures var r := AfterPublishing(s, e);
            r.subs == s.subs && r.answered == s.answered && r.taken == s.taken && r.wire == s.wire
    ensures |AfterPublishing(s, e).quotesPublished| == |s.quotesPublished| + (if e.kind == Quotes then 1 else 0)
    ensures |AfterPublishing(s, e).statusPublished| == |s.statusPublished| + (if e.kind == Quotes then 0 else 1)
  {
  }

  function AfterPublishing(s: State, e: Event): State {
    if e.kind == Quotes then s.(quotesPublished := s.quotesPublished + [e.id], quotesReceived := |s.quotesPublished| + 1)
    else s.(statusPublished := s.statusPublished + [e.id], statusReceived := |s.statusPublished| + 1)
  }

  lemma {:induction false} RunConcat(s: State, first: seq<Action>, second: seq<Action>)
    ensures Run(s, first + second) == Run(Run(s, first), second)
    decreases |second|
  {
    hide Next;
    if second == [] {
      assert first + second == first;
    } else {
      RunConcat(s, first, second[..|second| - 1]);
      assert (first + second)[..|first + second| - 1] == first + second[..|second| - 1];
    }
  }

  /** Whatever is published, some run puts exactly the updates that the client
      subscribed to on the wire, each once and in order. */
  lemma {:induction false} DeliverAll(s: State, events: seq<Event>) returns (actions: seq<Action>)
    requires Quiet(s)
    ensures var r := Run(s, actions);
            && Quiet(r) && r.subs == s.subs && r.answered == s.answered && r.taken == s.taken
            && |r.quotesPublished| + |r.statusPublished| == |s.quotesPublished| + |s.statusPublished| + |events|
            && r.wire == s.wire + Wanted(s.subs, |s.quotesPublished|, |s.statusPublished|, events)
    decreases |events|
  {
    hide Run, Next, AfterPublishing, Quiet;
    if events == [] {
      actions := [];
      EmptyRun(s);
    } else {
      hide Wanted;
      var first := DeliverOne(s, events[0]);
      QuietAgain(s, events[0]);
      var next := Run(s, first);
      StillQuiet(AfterPublishing(s, events[0]), next.wire, next.enqueued);
      var others := DeliverAll(next, events[1..]);
      actions := first + others;
      RunConcat(s, first, others);
      WantedFirst(s, events);
    }
  }

  lemma {:induction false} StillQuiet(s: State, wire: seq<Frame>, enqueued: seq<Frame>)
    ensures Quiet(s) ==> Quiet(s.(wire := wire, enqueued := enqueued))
  {
  }

  lemma {:induction false} WantedFirst(s: State, events: seq<Event>)
    requires events != []
    ensures var e, next := events[0], AfterPublishing(s, events[0]);
            Wanted(s.subs, |s.quotesPublished|, |s.statusPublished|, events) ==
            (if e.id in s.subs.Of(e.kind) then [Update(e.kind, |s.Published(e.kind)|, e.id)] else [])
            + Wanted(s.subs, |next.quotesPublished|, |next.statusPublished|, events[1..])
  {
  }

  /** A response waits exactly while 32 others are queued in front of it. */
  lemma {:induction false} BackPressure(s: State)
    requires s.reader.RSending? && s.writer != WStopped
    ensures Next(s, SendResponse) ==
            if |s.control| < 32 then s.(control := s.control + [s.reader.frame], reader := RIdle) else s
  {
  }

  /** A response is put on the wire when nothing waits. */
  lemma {:induction false} ResponseIsWritten(s: State)
    requires s.reader.RSending? && s.writer == WIdle && s.control == []
    ensures Run(s, [SendResponse, PollControl, Write(true)]) == s.(reader := RIdle, wire := s.wire + [s.reader.frame])
  {
    hide Run;
    EmptyRun(s);
    var actions := Onward(s, [], SendResponse);
    actions := Onward(s, actions, PollControl);
    actions := Onward(s, actions, Write(true));
    assert actions == [SendResponse, PollControl, Write(true)];
  }

  /** One request from the client to its response on the wire. */
  lemma {:induction false} AnswerOne(s: State, reply: seq<byte>) returns (actions: seq<Action>)
    requires Quiet(s) && s.taken < |s.input|
    ensures var r := Run(s, actions);
            && Quiet(r) && r.max == s.max && r.input == s.input && r.taken == s.taken + 1
            && r.quotesPublished == s.quotesPublished && r.statusPublished == s.statusPublished
            && var body := match s.input[s.taken]
                 case Short => []
                 case Other => [Response(s.taken, Dispatched(reply))]
                 case Subscribe(kind, id) =>
                   [Response(s.taken, if |s.subs.quotes| + |s.subs.status| < s.max || id in s.subs.Of(kind) then Ack(id) else LimitReached)]
                 case Unsubscribe(id) => [Response(s.taken, Ack(id))];
               r.wire == s.wire + body && r.answered == s.answered + body
  {
    hide Run;
    EmptyRun(s);
    actions := Onward(s, [], Take(reply));
    if s.input[s.taken].Subscribe? || s.input[s.taken].Unsubscribe? {
      actions := Onward(s, actions, ApplyRequest);
    }
    if s.input[s.taken] != Short {
      ResponseIsWritten(Run(s, actions));
      RunConcat(s, actions, [SendResponse, PollControl, Write(true)]);
      actions := actions + [SendResponse, PollControl, Write(true)];
    }
  }

  /** Some run answers the first n requests, and puts nothing but the responses
      on the wire. */
  lemma {:induction false} AnswerAll(max: nat, input: seq<Request>, replies: seq<seq<byte>>, n: nat) returns (actions: seq<Action>)
    requires n <= |input| == |replies|
    ensures var s := Run(Initial(max, input), actions);
            && Quiet(s) && s.input == input && s.taken == n && s.wire == s.answered
            && s.quotesPublished == s.statusPublished == []
            && (forall i :: 0 <= i < |s.answered| ==>
                  && s.answered[i].Response? && s.answered[i].request < n
                  && (input[s.answered[i].request].Other? ==> s.answered[i].body == Dispatched(replies[s.answered[i].request])))
  {
    hide Run, Quiet;
    var s := Initial(max, input);
    if n == 0 {
      actions := [];
      EmptyRun(s);
      assert Quiet(s) by { InitiallyQuiet(max, input); }
    } else {
      var first := AnswerAll(max, input, replies, n - 1);
      var last := AnswerOne(Run(s, first), replies[n - 1]);
      actions := first + last;
      RunConcat(s, first, last);
    }
  }

  lemma {:induction false} InitiallyQuiet(max: nat, input: seq<Request>)
    ensures Quiet(Initial(max, input))
  {
  }

  /** Whatever the client sends and whatever is published then, some run answers
      every request, in order, and after that delivers every update for an id
      that is subscribed, in order, and nothing else. */
  lemma {:induction false} ServedAndStreamed(max: nat, input: seq<Request>, replies: seq<seq<byte>>, events: seq<Event>)
    returns (actions: seq<Action>)
    requires |replies| == |input|
    ensures var s := Run(Initial(max, input), actions);
            && AnswersRequests(s.answered, Answerable(input, |input|))
            && |s.quotesPublished| + |s.statusPublished| == |events|
            && s.wire == s.answered + Wanted(s.subs, 0, 0, events)
  {
    hide Run, Quiet, AnswersRequests, Answerable, Wanted;
    var answer := AnswerAll(max, input, replies, |input|);
    var deliver := DeliverAll(Run(Initial(max, input), answer), events);
    actions := answer + deliver;
    RunConcat(Initial(max, input), answer, deliver);
    ControlPlane(max, input, actions);
    RunKeepsConstants(Initial(max, input), actions);
  }
}
