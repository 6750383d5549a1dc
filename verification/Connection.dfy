/** One SBE connection: a reader, a lossy forwarder and a writer that prefers
    control frames, sharing two bounded queues and the subscription state. Each
    await point is a step; every interleaving of steps is a run. */
module Connection {
  import opened Bytes
  import opened Subscriptions

  const CTRL_CAPACITY: nat := 32
  const DATA_CAPACITY: nat := 256

  /** A frame the client sent. `Short` is below the header size; `Other` is
      anything answered by dispatch or by a decode error. */
  datatype Request = Short | Subscribe(kind: Kind, id: RfqId) | Unsubscribe(id: RfqId) | Other

  datatype Body = Ack(id: RfqId) | LimitReached | Dispatched(bytes: seq<byte>)

  /** An outbound frame: the response to a request, or a published update. */
  datatype Frame = Response(request: nat, body: Body) | Update(kind: Kind, number: nat, id: RfqId)

  datatype Reader = RIdle | RLocked(request: nat) | RSending(frame: Frame) | RStopped
  datatype Forwarder = FIdle | FReceived(frame: Frame) | FLocked(frame: Frame) | FChecked(frame: Frame) | FStopped
  datatype Writer = WIdle | WSawNoControl | WWriting(frame: Frame) | WStopped
  datatype Lock = Free | ReadHeld | WriteHeld

  datatype State = State(
    max: nat,
    input: seq<Request>,        // what the client sends, in order
    taken: nat,                 // how many of them have been answered or skipped
    subs: Subs,
    lock: Lock,
    reader: Reader,
    forwarder: Forwarder,
    writer: Writer,
    control: seq<Frame>,
    data: seq<Frame>,
    wire: seq<Frame>,
    quotesPublished: seq<RfqId>,
    statusPublished: seq<RfqId>,
    quotesReceived: nat,        // the forwarder's position in each broadcast
    statusReceived: nat,
    answered: seq<Frame>,       // history: the responses made
    enqueued: seq<Frame>)       // history: the updates put on the data queue
  {
    function Published(kind: Kind): seq<RfqId> {
      if kind == Quotes then quotesPublished else statusPublished
    }

    function Received(kind: Kind): nat {
      if kind == Quotes then quotesReceived else statusReceived
    }
  }

  function Initial(max: nat, input: seq<Request>): State {
    State(max, input, 0, NONE, Free, RIdle, FIdle, WIdle, [], [], [], [], [], 0, 0, [], [])
  }

  datatype Action =
    | Take(reply: seq<byte>)          // reader: next frame
    | ApplyRequest                   // reader: change the subscriptions, release the lock
    | SendResponse                   // reader: put the response on the control queue
    | ReadTimeout                    // reader: nothing arrived in time
    | EndOfInput                     // reader: connection closed or unreadable
    | Abort                          // the tasks are aborted once the reader is done
    | Publish(kind: Kind, id: RfqId)
    | Receive(kind: Kind, skipped: nat)  // forwarder: next update, after a lag
    | BroadcastClosed                // forwarder: nothing more to come
    | LockForRead                    // forwarder: take the read guard
    | CheckSubscribed                // forwarder
    | TrySend(encodes: bool)         // forwarder: enqueue or drop, release the guard
    | PollControl                    // writer: look at the control queue first
    | PollData                       // writer: then at the data queue
    | Write(ok: bool)                // writer: finish the frame, or fail

  /** One step; an action that is not enabled changes nothing. */
  function Next(s: State, a: Action): State {
    match a
    case Take(reply) => Taken(s, reply)
    case ApplyRequest => if s.reader.RLocked? && s.taken < |s.input| then Applied(s) else s
    case SendResponse => if s.reader.RSending? then Sent(s) else s
    case ReadTimeout => if s.reader == RIdle && s.subs.Count() == 0 then s.(reader := RStopped) else s
    case EndOfInput => if s.reader == RIdle then s.(reader := RStopped) else s
    case Abort =>
      if s.reader == RStopped then s.(forwarder := FStopped, writer := WStopped, lock := Free) else s
    case Publish(kind, id) =>
      if kind == Quotes then s.(quotesPublished := s.quotesPublished + [id])
      else s.(statusPublished := s.statusPublished + [id])
    case Receive(kind, skipped) =>
      var number := s.Received(kind) + skipped;
      if s.forwarder == FIdle && number < |s.Published(kind)| then
        var got := s.(forwarder := FReceived(Update(kind, number, s.Published(kind)[number])));
        if kind == Quotes then got.(quotesReceived := number + 1) else got.(statusReceived := number + 1)
      else s
    case BroadcastClosed => if s.forwarder == FIdle then s.(forwarder := FStopped) else s
    case LockForRead =>
      if s.forwarder.FReceived? && s.lock == Free then
        s.(forwarder := FLocked(s.forwarder.frame), lock := ReadHeld)
      else s
    case CheckSubscribed => if s.forwarder.FLocked? then Filtered(s) else s
    case TrySend(encodes) => if s.forwarder.FChecked? then Forwarded(s, encodes) else s
    case PollControl => if s.writer == WIdle then ControlPolled(s) else s
    case PollData =>
      if s.writer != WSawNoControl then s
      else if s.data == [] then s.(writer := WIdle)
      else s.(writer := WWriting(s.data[0]), data := s.data[1..])
    case Write(ok) =>
      if !s.writer.WWriting? then s
      else if ok then s.(writer := WIdle, wire := s.wire + [s.writer.frame])
      else s.(writer := WStopped)
  }

  /** The reader takes a frame: skips a short one, answers an ordinary one, and
      takes the write lock for one that changes the subscriptions. */
  function Taken(s: State, reply: seq<byte>): State {
    if s.reader != RIdle || s.taken >= |s.input| then s
    else match s.input[s.taken]
      case Short => s.(taken := s.taken + 1)
      case Other => Answer(s, Dispatched(reply))
      case _ => if s.lock == Free then s.(reader := RLocked(s.taken), lock := WriteHeld) else s
  }

  function Answer(s: State, body: Body): State {
    var frame := Response(s.taken, body);
    s.(taken := s.taken + 1, reader := RSending(frame), answered := s.answered + [frame])
  }

  function Applied(s: State): State
    requires s.taken < |s.input|
  {
    var free := s.(lock := Free);
    match s.input[s.taken]
    case Subscribe(kind, id) =>
      Answer(free.(subs := Subscribed(s.subs, s.max, kind, id)),
             if CanSubscribe(s.subs, s.max, kind, id) then Ack(id) else LimitReached)
    case Unsubscribe(id) => Answer(free.(subs := Unsubscribed(s.subs, id)), Ack(id))
    case _ => s
  }

  /** Waits while the control queue is full; gives up when the writer is gone. */
  function Sent(s: State): State
    requires s.reader.RSending?
  {
    if s.writer == WStopped then s.(reader := RStopped)
    else if |s.control| < CTRL_CAPACITY then s.(control := s.control + [s.reader.frame], reader := RIdle)
    else s
  }

  function Filtered(s: State): State
    requires s.forwarder.FLocked?
  {
    var f := s.forwarder.frame;
    if f.Update? && f.id in s.subs.Of(f.kind) then s.(forwarder := FChecked(f))
    else s.(forwarder := FIdle, lock := Free)
  }

  function Forwarded(s: State, encodes: bool): State
    requires s.forwarder.FChecked?
  {
    var free := s.(forwarder := FIdle, lock := Free);
    if !encodes then free
    else if s.writer == WStopped then free.(forwarder := FStopped)
    else if |s.data| < DATA_CAPACITY then
      free.(data := s.data + [s.forwarder.frame], enqueued := s.enqueued + [s.forwarder.frame])
    else free
  }

  /** The control queue is looked at first; when the reader is gone and nothing
      is queued there, the writer ends. */
  function ControlPolled(s: State): State {
    if s.control != [] then s.(writer := WWriting(s.control[0]), control := s.control[1..])
    else if s.reader == RStopped then s.(writer := WStopped)
    else s.(writer := WSawNoControl)
  }

  function Run(s: State, actions: seq<Action>): State
    decreases |actions|
  {
    if actions == [] then s else Next(Run(s, actions[..|actions| - 1]), actions[|actions| - 1])
  }

  // ---------------------------------------------------------------------
  // Control frames
  // ---------------------------------------------------------------------

  function Controls(frames: seq<Frame>): (r: seq<Frame>) {
    if frames == [] then []
    else
      var init, last := Controls(frames[..|frames| - 1]), frames[|frames| - 1];
      if last.Response? then init + [last] else init
  }

  function InFlight(w: Writer): seq<Frame> {
    if w.WWriting? then [w.frame] else []
  }

  function Unsent(r: Reader): seq<Frame> {
    if r.RSending? then [r.frame] else []
  }

  /** The positions of the requests, among the first n, that get a response. */
  function Answerable(input: seq<Request>, n: nat): (r: seq<nat>)
    requires n <= |input|
  {
    if n == 0 then []
    else if input[n - 1] == Short then Answerable(input, n - 1)
    else Answerable(input, n - 1) + [n - 1]
  }

  ghost predicate AnswersRequests(answered: seq<Frame>, requests: seq<nat>) {
    && |answered| == |requests|
    && forall i :: 0 <= i < |answered| ==> answered[i].Response? && answered[i].request == requests[i]
  }

  /** The responses still on their way, behind those already on the wire. */
  function Outgoing(s: State): seq<Frame> {
    Controls(s.wire) + (Controls(InFlight(s.writer)) + (s.control + Unsent(s.reader)))
  }

  ghost predicate Typed(s: State) {
    && s.taken <= |s.input|
    && (s.reader.RLocked? ==> s.taken < |s.input| && (s.input[s.taken].Subscribe? || s.input[s.taken].Unsubscribe?))
    && (s.reader.RSending? ==> s.reader.frame.Response?)
    && (forall i :: 0 <= i < |s.control| ==> s.control[i].Response?)
    && (forall i :: 0 <= i < |s.data| ==> s.data[i].Update?)
    && (s.forwarder.FReceived? || s.forwarder.FLocked? || s.forwarder.FChecked? ==> s.forwarder.frame.Update?)
  }

  ghost predicate ControlFlow(s: State) {
    && s.taken <= |s.input|
    && AnswersRequests(s.answered, Answerable(s.input, s.taken))
    && Controls(s.wire) <= s.answered
    && (s.writer != WStopped ==> Outgoing(s) == s.answered)
  }

  lemma {:induction false} ControlsAppend(frames: seq<Frame>, f: Frame)
    ensures Controls(frames + [f]) == if f.Response? then Controls(frames) + [f] else Controls(frames)
  {
    assert (frames + [f])[..|frames|] == frames;
  }

  lemma {:induction false} ControlsOfOne(f: Frame)
    ensures Controls([f]) == if f.Response? then [f] else []
  {
    ControlsAppend([], f);
    assert [] + [f] == [f];
  }

  predicate WriterAction(a: Action) { a.PollControl? || a.PollData? || a.Write? }

  predicate ReaderAction(a: Action) { a.Take? || a.ApplyRequest? || a.SendResponse? }

  lemma {:induction false} StepKeepsTyped(s: State, a: Action)
    requires Typed(s)
    ensures Typed(Next(s, a))
  {
  }

  lemma {:induction false} WriterKeepsOutgoing(s: State, a: Action)
    requires Typed(s) && WriterAction(a) && Next(s, a).writer != WStopped
    ensures Outgoing(Next(s, a)) == Outgoing(s)
  {
    NoControls();
    var rest := s.control + Unsent(s.reader);
    if a.Write? && s.writer.WWriting? {
      WriteMoves(s.wire, s.writer.frame, rest);
    } else if a.PollControl? && s.writer == WIdle && s.control != [] {
      ControlsOfOne(s.control[0]);
      assert [s.control[0]] + (s.control[1..] + Unsent(s.reader)) == [] + rest;
    } else if a.PollData? && s.writer == WSawNoControl && s.data != [] {
      ControlsOfOne(s.data[0]);
    }
    hide Controls, Typed;
  }

  lemma {:induction false} NoControls()
    ensures Controls([]) == []
  {
  }

  lemma {:induction false} WriteMoves(wire: seq<Frame>, f: Frame, rest: seq<Frame>)
    ensures Controls(wire + [f]) + ([] + rest) == Controls(wire) + (Controls([f]) + rest)
  {
    ControlsAppend(wire, f);
    ControlsOfOne(f);
    hide Controls;
    assert Controls(wire + [f]) == Controls(wire) + Controls([f]);
    Regroup(Controls(wire), Controls([f]), rest);
  }

  lemma {:induction false} Regroup(a: seq<Frame>, b: seq<Frame>, c: seq<Frame>)
    ensures (a + b) + ([] + c) == a + (b + c)
  {
  }

  lemma {:induction false} OthersKeepOutgoing(s: State, a: Action)
    requires Typed(s) && !WriterAction(a) && s.writer != WStopped && Next(s, a).writer != WStopped
    ensures Next(s, a).answered == s.answered ==> Outgoing(Next(s, a)) == Outgoing(s)
    ensures Next(s, a).answered != s.answered ==>
              Outgoing(Next(s, a)) == Outgoing(s) + [Next(s, a).answered[|s.answered|]]
  {
    var r := Next(s, a);
    if ReaderAction(a) {
      hide Controls, Answerable;
      ReaderMovesUnsent(s, a);
      var w, i, c := Controls(s.wire), Controls(InFlight(s.writer)), s.control + Unsent(s.reader);
      if r.answered != s.answered {
        var f := r.answered[|s.answered|];
        assert w + (i + (c + [f])) == w + (i + c) + [f];
      }
    } else {
      hide Controls, Typed;
    }
  }

  lemma {:induction false} ReaderMovesUnsent(s: State, a: Action)
    requires ReaderAction(a) && s.writer != WStopped
    requires s.reader.RLocked? ==> s.taken < |s.input|
    ensures var r := Next(s, a);
            && r.wire == s.wire && r.writer == s.writer
            && (r.answered == s.answered ==> r.control + Unsent(r.reader) == s.control + Unsent(s.reader))
            && (r.answered != s.answered ==>
                  |r.answered| == |s.answered| + 1
                  && r.control + Unsent(r.reader) == s.control + Unsent(s.reader) + [r.answered[|s.answered|]])
  {
  }

  lemma {:induction false} StepKeepsAnswers(s: State, a: Action)
    requires Typed(s) && AnswersRequests(s.answered, Answerable(s.input, s.taken))
    ensures var r := Next(s, a);
            && AnswersRequests(r.answered, Answerable(r.input, r.taken))
            && (r.answered == s.answered || (|r.answered| == |s.answered| + 1 && r.answered[..|s.answered|] == s.answered))
            && (WriterAction(a) ==> r.answered == s.answered)
  {
    if !ReaderAction(a) {
      hide Answerable, AnswersRequests;
    }
  }

  lemma {:induction false} StepKeepsControlFlow(s: State, a: Action)
    requires Typed(s) && ControlFlow(s)
    ensures ControlFlow(Next(s, a))
  {
    hide Next, Outgoing, Answerable;
    var r := Next(s, a);
    StepKeepsTyped(s, a);
    StepKeepsAnswers(s, a);
    StoppedWriter(s, a);
    if r.writer != WStopped {
      if WriterAction(a) {
        WriterKeepsOutgoing(s, a);
      } else {
        OthersKeepOutgoing(s, a);
      }
      OutgoingStartsWithWire(r);
    }
  }

  lemma {:induction false} OutgoingStartsWithWire(s: State)
    ensures Controls(s.wire) <= Outgoing(s)
  {
  }

  /** A writer that ends writes nothing more, and never comes back. */
  lemma {:induction false} StoppedWriter(s: State, a: Action)
    ensures Next(s, a).writer == WStopped ==> Next(s, a).wire == s.wire
    ensures s.writer == WStopped ==> Next(s, a).writer == WStopped
  {
  }

  // ---------------------------------------------------------------------
  // Data frames
  // ---------------------------------------------------------------------

  function Updates(kind: Kind, frames: seq<Frame>): (r: seq<Frame>) {
    if frames == [] then []
    else
      var init, last := Updates(kind, frames[..|frames| - 1]), frames[|frames| - 1];
      if last.Update? && last.kind == kind then init + [last] else init
  }

  function Held(f: Forwarder): seq<Frame> {
    if f.FReceived? || f.FLocked? || f.FChecked? then [f.frame] else []
  }

  /** Updates of one broadcast, each as published, each at most once, in the
      order of publication: a subsequence of what was published. */
  ghost predicate Faithful(updates: seq<Frame>, kind: Kind, published: seq<RfqId>, received: nat) {
    && received <= |published|
    && (forall i :: 0 <= i < |updates| ==>
          updates[i].Update? && updates[i].number < received
          && updates[i] == Update(kind, updates[i].number, published[updates[i].number]))
    && (forall i, j :: 0 <= i < j < |updates| ==> updates[i].number < updates[j].number)
  }

  /** Every update of the kind that is still on its way, front first. */
  function Stream(s: State, kind: Kind): seq<Frame> {
    Updates(kind, s.wire)
    + (Updates(kind, InFlight(s.writer)) + (Updates(kind, s.data) + Updates(kind, Held(s.forwarder))))
  }

  ghost predicate DataFlow(s: State, kind: Kind) {
    Faithful(Stream(s, kind), kind, s.Published(kind), s.Received(kind))
  }

  lemma {:induction false} UpdatesConcat(kind: Kind, a: seq<Frame>, b: seq<Frame>)
    ensures Updates(kind, a + b) == Updates(kind, a) + Updates(kind, b)
    decreases |b|
  {
    if b == [] {
      assert a + b == a;
    } else {
      UpdatesConcat(kind, a, b[..|b| - 1]);
      assert (a + b)[..|a + b| - 1] == a + b[..|b| - 1];
    }
  }

  lemma {:induction false} NoUpdates(kind: Kind)
    ensures Updates(kind, []) == []
  {
  }

  lemma {:induction false} FaithfulDrop(a: seq<Frame>, b: seq<Frame>, c: seq<Frame>, kind: Kind, published: seq<RfqId>, received: nat)
    requires Faithful(a + (b + c), kind, published, received)
    ensures Faithful(a + c, kind, published, received)
  {
    var all, some := a + (b + c), a + c;
    forall i | 0 <= i < |some| ensures some[i] == all[if i < |a| then i else i + |b|] {}
  }

  lemma {:induction false} FaithfulAppend(updates: seq<Frame>, kind: Kind, published: seq<RfqId>, received: nat, number: nat)
    requires Faithful(updates, kind, published, received) && received <= number < |published|
    ensures Faithful(updates + [Update(kind, number, published[number])], kind, published, number + 1)
  {
  }

  lemma {:induction false} WriterKeepsStream(s: State, a: Action, kind: Kind)
    requires Typed(s) && WriterAction(a) && DataFlow(s, kind)
    ensures DataFlow(Next(s, a), kind)
  {
    hide Updates, Faithful;
    NoUpdates(kind);
    var tail := Updates(kind, s.data) + Updates(kind, Held(s.forwarder));
    if a.Write? && s.writer.WWriting? {
      var f := s.writer.frame;
      UpdatesConcat(kind, s.wire, [f]);
      if a.ok {
        assert Updates(kind, s.wire) + Updates(kind, [f]) + ([] + tail) == Stream(s, kind);
      } else {
        FaithfulDrop(Updates(kind, s.wire), Updates(kind, [f]), tail, kind, s.Published(kind), s.Received(kind));
        assert [] + tail == tail;
      }
    } else if a.PollControl? && s.writer == WIdle && s.control != [] {
      ResponseIsNoUpdate(s.control[0], kind);
    } else if a.PollData? && s.writer == WSawNoControl && s.data != [] {
      UpdatesConcat(kind, [s.data[0]], s.data[1..]);
      assert [s.data[0]] + s.data[1..] == s.data;
      assert Updates(kind, [s.data[0]]) + (Updates(kind, s.data[1..]) + Updates(kind, Held(s.forwarder))) == [] + tail;
    }
  }

  lemma {:induction false} ResponseIsNoUpdate(f: Frame, kind: Kind)
    requires f.Response?
    ensures Updates(kind, [f]) == []
  {
    assert [f][..0] == [];
  }

  lemma {:induction false} OneUpdate(f: Frame, kind: Kind)
    requires f.Update?
    ensures Updates(kind, [f]) == if f.kind == kind then [f] else []
  {
    assert [f][..0] == [];
  }

  lemma {:induction false} ForwarderKeepsStream(s: State, a: Action, kind: Kind)
    requires Typed(s) && a.TrySend? && DataFlow(s, kind)
    ensures DataFlow(Next(s, a), kind)
  {
    hide Updates, Faithful;
    NoUpdates(kind);
    DropHeld(s, kind);
    if s.forwarder.FChecked? {
      UpdatesConcat(kind, s.data, [s.forwarder.frame]);
      assert Updates(kind, s.data + [s.forwarder.frame]) + [] == Updates(kind, s.data) + Updates(kind, Held(s.forwarder));
    }
  }

  /** Letting go of the update the forwarder holds. */
  lemma {:induction false} DropHeld(s: State, kind: Kind)
    requires DataFlow(s, kind)
    ensures Faithful(Updates(kind, s.wire) + (Updates(kind, InFlight(s.writer)) + (Updates(kind, s.data) + [])),
                     kind, s.Published(kind), s.Received(kind))
  {
    hide Updates, Faithful;
    var w, i, d, h := Updates(kind, s.wire), Updates(kind, InFlight(s.writer)), Updates(kind, s.data), Updates(kind, Held(s.forwarder));
    assert w + (i + (d + h)) == (w + i + d) + (h + []);
    FaithfulDrop(w + i + d, h, [], kind, s.Published(kind), s.Received(kind));
    assert w + (i + (d + [])) == (w + i + d) + [];
  }

  lemma {:induction false} ReceiveKeepsStream(s: State, a: Action, kind: Kind)
    requires Typed(s) && a.Receive? && DataFlow(s, kind)
    ensures DataFlow(Next(s, a), kind)
  {
    hide Updates, Faithful;
    NoUpdates(kind);
    var number := s.Received(a.kind) + a.skipped;
    if s.forwarder == FIdle && number < |s.Published(a.kind)| {
      var f := Update(a.kind, number, s.Published(a.kind)[number]);
      OneUpdate(f, kind);
      if a.kind == kind {
        FaithfulAppend(Stream(s, kind), kind, s.Published(kind), s.Received(kind), number);
        var w, i, d := Updates(kind, s.wire), Updates(kind, InFlight(s.writer)), Updates(kind, s.data);
        assert w + (i + (d + [])) + [f] == w + (i + (d + [f]));
      }
    }
  }

  lemma {:induction false} FaithfulGrows(updates: seq<Frame>, kind: Kind, published: seq<RfqId>, received: nat, id: RfqId)
    requires Faithful(updates, kind, published, received)
    ensures Faithful(updates, kind, published + [id], received)
  {
  }

  lemma {:induction false} PublishKeepsStream(s: State, a: Action, kind: Kind)
    requires DataFlow(s, kind) && a.Publish?
    ensures DataFlow(Next(s, a), kind)
  {
    hide Updates, Faithful;
    FaithfulGrows(Stream(s, kind), kind, s.Published(kind), s.Received(kind), a.id);
  }

  lemma {:induction false} CheckKeepsStream(s: State, kind: Kind)
    requires DataFlow(s, kind)
    ensures DataFlow(Next(s, CheckSubscribed), kind)
  {
    hide Updates, Faithful;
    NoUpdates(kind);
    DropHeld(s, kind);
  }

  lemma {:induction false} RestKeepsStream(s: State, a: Action, kind: Kind)
    requires DataFlow(s, kind) && !WriterAction(a)
    requires !a.TrySend? && !a.Receive? && !a.Abort? && !a.Publish? && !a.CheckSubscribed?
    ensures DataFlow(Next(s, a), kind)
  {
    hide Updates, Faithful;
  }

  lemma {:induction false} AbortKeepsStream(s: State, kind: Kind)
    requires DataFlow(s, kind)
    ensures DataFlow(Next(s, Abort), kind)
  {
    hide Updates, Faithful;
    NoUpdates(kind);
    DropHeld(s, kind);
    var w, i, d := Updates(kind, s.wire), Updates(kind, InFlight(s.writer)), Updates(kind, s.data);
    FaithfulDrop(w, i, d + [], kind, s.Published(kind), s.Received(kind));
    assert w + ([] + (d + [])) == w + (d + []);
  }

  lemma {:induction false} StepKeepsDataFlow(s: State, a: Action, kind: Kind)
    requires Typed(s) && DataFlow(s, kind)
    ensures DataFlow(Next(s, a), kind)
  {
    if WriterAction(a) {
      WriterKeepsStream(s, a, kind);
    } else if a.TrySend? {
      ForwarderKeepsStream(s, a, kind);
    } else if a.Receive? {
      ReceiveKeepsStream(s, a, kind);
    } else if a.Abort? {
      AbortKeepsStream(s, kind);
    } else if a.Publish? {
      PublishKeepsStream(s, a, kind);
    } else if a.CheckSubscribed? {
      CheckKeepsStream(s, kind);
    } else {
      RestKeepsStream(s, a, kind);
    }
  }

  // ---------------------------------------------------------------------
  // Lock, limits and subscriptions
  // ---------------------------------------------------------------------

  ghost predicate Guarded(s: State) {
    && (s.reader.RLocked? <==> s.lock == WriteHeld)
    && (s.forwarder.FLocked? || s.forwarder.FChecked? <==> s.lock == ReadHeld)
    && (s.forwarder.FChecked? ==> s.forwarder.frame.Update? && s.forwarder.frame.id in s.subs.Of(s.forwarder.frame.kind))
    && s.subs.Count() <= s.max
    && |s.control| <= CTRL_CAPACITY
    && |s.data| <= DATA_CAPACITY
  }

  lemma {:induction false} StepKeepsGuarded(s: State, a: Action)
    requires Typed(s) && Guarded(s)
    ensures Guarded(Next(s, a))
  {
    if a.ApplyRequest? && s.reader.RLocked? {
      var r := s.input[s.taken];
      LimitKept(s.subs, s.max, if r.Subscribe? then r.kind else Quotes, r.id);
    }
  }

  /** All that holds in every reachable state. */
  ghost predicate Sound(s: State) {
    Typed(s) && ControlFlow(s) && Guarded(s) && DataFlow(s, Quotes) && DataFlow(s, Status)
  }

  lemma {:induction false} RunKeepsSound(s: State, actions: seq<Action>)
    requires Sound(s)
    ensures Sound(Run(s, actions))
    decreases |actions|
  {
    if actions != [] {
      hide Typed, ControlFlow, Guarded, DataFlow, Next;
      var before, a := Run(s, actions[..|actions| - 1]), actions[|actions| - 1];
      RunKeepsSound(s, actions[..|actions| - 1]);
      StepKeepsTyped(before, a);
      StepKeepsControlFlow(before, a);
      StepKeepsGuarded(before, a);
      StepKeepsDataFlow(before, a, Quotes);
      StepKeepsDataFlow(before, a, Status);
    }
  }

  lemma {:induction false} InitialSound(max: nat, input: seq<Request>)
    ensures Sound(Initial(max, input))
  {
  }

  // ---------------------------------------------------------------------
  // Whole runs
  // ---------------------------------------------------------------------

  /** Control plane. In every interleaving the responses made are one per
      answerable request, in request order, and the control frames on the wire
      are a gap-free prefix of them. */
  lemma {:induction false} ControlPlane(max: nat, input: seq<Request>, actions: seq<Action>)
    ensures var s := Run(Initial(max, input), actions);
            && s.taken <= |s.input|
            && Controls(s.wire) <= s.answered
            && AnswersRequests(s.answered, Answerable(s.input, s.taken))
            && |s.control| <= CTRL_CAPACITY
  {
    InitialSound(max, input);
    RunKeepsSound(Initial(max, input), actions);
  }

  /** Data plane. The updates of either kind on the wire are a subsequence of
      the published ones. */
  lemma {:induction false} DataPlane(max: nat, input: seq<Request>, actions: seq<Action>, kind: Kind)
    ensures var s := Run(Initial(max, input), actions);
            && Faithful(Updates(kind, s.wire), kind, s.Published(kind), |s.Published(kind)|)
            && |s.data| <= DATA_CAPACITY
  {
    hide Updates;
    InitialSound(max, input);
    RunKeepsSound(Initial(max, input), actions);
    var s := Run(Initial(max, input), actions);
    assert DataFlow(s, kind);
    var w := Updates(kind, s.wire);
    var rest := Updates(kind, InFlight(s.writer)) + (Updates(kind, s.data) + Updates(kind, Held(s.forwarder)));
    assert w + (rest + []) == Stream(s, kind);
    FaithfulDrop(w, rest, [], kind, s.Published(kind), s.Received(kind));
    assert w + [] == w;
  }

  /** An update enters the data queue only while its id is subscribed, and the
      subscriptions never exceed their limit. */
  lemma {:induction false} OnlySubscribedEnqueued(max: nat, input: seq<Request>, actions: seq<Action>, a: Action)
    ensures var s := Run(Initial(max, input), actions);
            var r := Next(s, a);
            && s.subs.Count() <= max
            && (r.enqueued != s.enqueued ==>
                  var f := r.enqueued[|r.enqueued| - 1];
                  && r.enqueued == s.enqueued + [f] && f.Update?
                  && f.id in s.subs.Of(f.kind) && f.id in r.subs.Of(f.kind))
  {
    InitialSound(max, input);
    RunKeepsSound(Initial(max, input), actions);
    RunKeepsConstants(Initial(max, input), actions);
    EnqueueStep(Run(Initial(max, input), actions), a);
  }

  lemma {:induction false} EnqueueStep(s: State, a: Action)
    requires Guarded(s)
    ensures var r := Next(s, a);
            r.enqueued != s.enqueued ==>
              var f := s.forwarder;
              && f.FChecked? && f.frame.Update?
              && r.enqueued == s.enqueued + [f.frame]
              && f.frame.id in s.subs.Of(f.frame.kind) && r.subs == s.subs
  {
  }

  lemma {:induction false} StepKeepsConstants(s: State, a: Action)
    ensures Next(s, a).max == s.max && Next(s, a).input == s.input && s.taken <= Next(s, a).taken
  {
  }

  lemma {:induction false} RunKeepsConstants(s: State, actions: seq<Action>)
    ensures Run(s, actions).max == s.max && Run(s, actions).input == s.input
    ensures s.taken <= Run(s, actions).taken
    decreases |actions|
  {
    hide Next;
    if actions != [] {
      RunKeepsConstants(s, actions[..|actions| - 1]);
      StepKeepsConstants(Run(s, actions[..|actions| - 1]), actions[|actions| - 1]);
    }
  }

  /** The client's view is right: a subscribe request is acknowledged exactly
      when the id is subscribed afterwards, and refused exactly when the limit
      was reached and the id was not subscribed before. */
  lemma {:induction false} AcknowledgedMeansSubscribed(s: State)
    requires Sound(s) && s.reader.RLocked? && s.input[s.taken].Subscribe?
    ensures var (kind, id) := (s.input[s.taken].kind, s.input[s.taken].id);
            var r := Next(s, ApplyRequest);
            && |r.answered| == |s.answered| + 1
            && (r.answered[|s.answered|] == Response(s.taken, Ack(id)) <==> id in r.subs.Of(kind))
            && (r.answered[|s.answered|] == Response(s.taken, LimitReached) <==>
                  s.subs.Count() == s.max && id !in s.subs.Of(kind))
  {
    hide ControlFlow, DataFlow;
    LimitKept(s.subs, s.max, s.input[s.taken].kind, s.input[s.taken].id);
  }

  function EnqueuedFor(frames: seq<Frame>, kind: Kind, id: RfqId): nat {
    if frames == [] then 0
    else EnqueuedFor(frames[..|frames| - 1], kind, id)
         + var f := frames[|frames| - 1]; if f.Update? && f.kind == kind && f.id == id then 1 else 0
  }

  /** From a state in which an id is not subscribed, nothing is enqueued for it
      until the reader takes a request for it again. */
  lemma {:induction false} SilentWhileUnsubscribed(s: State, actions: seq<Action>, kind: Kind, id: RfqId)
    requires Sound(s) && id !in s.subs.Of(kind)
    requires forall i :: s.taken <= i < Run(s, actions).taken && i < |s.input| ==> s.input[i] != Subscribe(kind, id)
    ensures id !in Run(s, actions).subs.Of(kind)
    ensures EnqueuedFor(Run(s, actions).enqueued, kind, id) == EnqueuedFor(s.enqueued, kind, id)
    decreases |actions|
  {
    hide Next;
    if actions != [] {
      var before, a := Run(s, actions[..|actions| - 1]), actions[|actions| - 1];
      StepKeepsConstants(before, a);
      SilentWhileUnsubscribed(s, actions[..|actions| - 1], kind, id);
      RunKeepsSound(s, actions[..|actions| - 1]);
      RunKeepsConstants(s, actions[..|actions| - 1]);
      SilentStep(before, a, kind, id);
    }
  }

  lemma {:induction false} SilentStep(s: State, a: Action, kind: Kind, id: RfqId)
    requires Typed(s) && Guarded(s) && id !in s.subs.Of(kind)
    requires forall i :: s.taken <= i < Next(s, a).taken && i < |s.input| ==> s.input[i] != Subscribe(kind, id)
    ensures id !in Next(s, a).subs.Of(kind)
    ensures EnqueuedFor(Next(s, a).enqueued, kind, id) == EnqueuedFor(s.enqueued, kind, id)
  {
    if a.TrySend? && s.forwarder.FChecked? {
      assert (s.enqueued + [s.forwarder.frame])[..|s.enqueued|] == s.enqueued;
    }
  }

  /** Applying an unsubscribe request starts such a silence for both kinds. */
  lemma {:induction false} UnsubscribeSilences(s: State, actions: seq<Action>, kind: Kind)
    requires Sound(s) && s.reader.RLocked? && s.input[s.taken].Unsubscribe?
    requires forall i :: s.taken < i < Run(Next(s, ApplyRequest), actions).taken && i < |s.input| ==>
               s.input[i] != Subscribe(kind, s.input[s.taken].id)
    ensures var id := s.input[s.taken].id;
            EnqueuedFor(Run(Next(s, ApplyRequest), actions).enqueued, kind, id) == EnqueuedFor(s.enqueued, kind, id)
  {
    RunKeepsSound(s, [ApplyRequest]);
    assert [ApplyRequest][..0] == [];
    SilentWhileUnsubscribed(Next(s, ApplyRequest), actions, kind, s.input[s.taken].id);
  }

  /** The updates for an id that are on the wire or on their way there. */
  function OnTheWay(s: State, kind: Kind, id: RfqId): nat {
    EnqueuedFor(s.wire, kind, id) + EnqueuedFor(InFlight(s.writer), kind, id) + EnqueuedFor(s.data, kind, id)
  }

  lemma {:induction false} CountLast(frames: seq<Frame>, f: Frame, kind: Kind, id: RfqId)
    ensures EnqueuedFor(frames + [f], kind, id) == EnqueuedFor(frames, kind, id) + EnqueuedFor([f], kind, id)
    ensures f.Response? ==> EnqueuedFor([f], kind, id) == 0
    ensures EnqueuedFor([], kind, id) == 0
  {
    assert (frames + [f])[..|frames|] == frames && [f][..0] == [];
  }

  lemma {:induction false} CountFirst(frames: seq<Frame>, kind: Kind, id: RfqId)
    requires frames != []
    ensures EnqueuedFor(frames, kind, id) == EnqueuedFor([frames[0]], kind, id) + EnqueuedFor(frames[1..], kind, id)
  {
    if |frames| > 1 {
      CountFirst(frames[..|frames| - 1], kind, id);
      assert frames[..|frames| - 1][1..] == frames[1..][..|frames| - 2];
    } else {
      assert frames == [frames[0]] && frames[1..] == [];
    }
  }

  /** Only the forwarder adds to what is on the way. */
  lemma {:induction false} OnTheWayStep(s: State, a: Action, kind: Kind, id: RfqId)
    requires Typed(s)
    ensures OnTheWay(Next(s, a), kind, id) - OnTheWay(s, kind, id)
            <= EnqueuedFor(Next(s, a).enqueued, kind, id) - EnqueuedFor(s.enqueued, kind, id)
  {
    if WriterAction(a) {
      WriterKeepsOnTheWay(s, a, kind, id);
    } else {
      OthersKeepOnTheWay(s, a, kind, id);
    }
  }

  lemma {:induction false} WriterKeepsOnTheWay(s: State, a: Action, kind: Kind, id: RfqId)
    requires Typed(s) && WriterAction(a)
    ensures OnTheWay(Next(s, a), kind, id) <= OnTheWay(s, kind, id)
    ensures Next(s, a).enqueued == s.enqueued
  {
    WriterMoves(s, a);
    hide Next, EnqueuedFor, Typed;
    if s.writer.WWriting? {
      CountLast(s.wire, s.writer.frame, kind, id);
    }
    if s.data != [] {
      CountFirst(s.data, kind, id);
    }
    if Next(s, a).writer.WWriting? {
      CountLast([], Next(s, a).writer.frame, kind, id);
    }
    CountLast([], Response(0, LimitReached), kind, id);
  }

  /** The writer takes up a response, takes up an update, finishes a frame, or
      gives one up. */
  lemma {:induction false} WriterMoves(s: State, a: Action)
    requires Typed(s) && WriterAction(a)
    ensures var r := Next(s, a);
            && r.enqueued == s.enqueued
            && (|| (r.wire == s.wire && r.data == s.data
                    && (r.writer == s.writer || !r.writer.WWriting? || r.writer.frame.Response?))
                || (r.wire == s.wire && s.data != [] && r.data == s.data[1..] && r.writer == WWriting(s.data[0]))
                || (s.writer.WWriting? && r.wire == s.wire + [s.writer.frame] && r.data == s.data && !r.writer.WWriting?))
  {
  }

  lemma {:induction false} OthersKeepOnTheWay(s: State, a: Action, kind: Kind, id: RfqId)
    requires !WriterAction(a)
    ensures OnTheWay(Next(s, a), kind, id) - OnTheWay(s, kind, id)
            <= EnqueuedFor(Next(s, a).enqueued, kind, id) - EnqueuedFor(s.enqueued, kind, id)
  {
    OthersMove(s, a);
    hide Next, EnqueuedFor;
    if s.forwarder.FChecked? {
      CountLast(s.data, s.forwarder.frame, kind, id);
      CountLast(s.enqueued, s.forwarder.frame, kind, id);
    }
    CountLast([], Response(0, LimitReached), kind, id);
  }

  lemma {:induction false} OthersMove(s: State, a: Action)
    requires !WriterAction(a)
    ensures var r := Next(s, a);
            && r.wire == s.wire && (r.writer == s.writer || r.writer == WStopped)
            && ((r.data == s.data && r.enqueued == s.enqueued) ||
                (s.forwarder.FChecked? && r.data == s.data + [s.forwarder.frame] && r.enqueued == s.enqueued + [s.forwarder.frame]))
  {
  }

  lemma {:induction false} OnTheWayRun(s: State, actions: seq<Action>, kind: Kind, id: RfqId)
    requires Sound(s)
    ensures OnTheWay(Run(s, actions), kind, id) - OnTheWay(s, kind, id)
            <= EnqueuedFor(Run(s, actions).enqueued, kind, id) - EnqueuedFor(s.enqueued, kind, id)
    decreases |actions|
  {
    hide Next, OnTheWay;
    if actions != [] {
      OnTheWayRun(s, actions[..|actions| - 1], kind, id);
      RunKeepsSound(s, actions[..|actions| - 1]);
      OnTheWayStep(Run(s, actions[..|actions| - 1]), actions[|actions| - 1], kind, id);
    }
  }

  /** After an unsubscribe request is applied, the updates for its id that still
      reach the wire are among those queued and the one being written then. */
  lemma {:induction false} StragglersBounded(s: State, actions: seq<Action>, kind: Kind)
    requires Sound(s) && s.reader.RLocked? && s.input[s.taken].Unsubscribe?
    requires forall i :: s.taken < i < Run(Next(s, ApplyRequest), actions).taken && i < |s.input| ==>
               s.input[i] != Subscribe(kind, s.input[s.taken].id)
    ensures var id := s.input[s.taken].id;
            && EnqueuedFor(Run(Next(s, ApplyRequest), actions).wire, kind, id) - EnqueuedFor(s.wire, kind, id)
               <= EnqueuedFor(InFlight(s.writer), kind, id) + EnqueuedFor(s.data, kind, id)
            && EnqueuedFor(InFlight(s.writer), kind, id) + EnqueuedFor(s.data, kind, id) <= 1 + DATA_CAPACITY
  {
    var id, r := s.input[s.taken].id, Next(s, ApplyRequest);
    UnsubscribeSilences(s, actions, kind);
    RunKeepsSound(s, [ApplyRequest]);
    assert [ApplyRequest][..0] == [];
    OnTheWayRun(r, actions, kind, id);
    CountAtMost(s.data, kind, id);
    CountAtMost(InFlight(s.writer), kind, id);
    hide EnqueuedFor, Run;
  }

  lemma {:induction false} CountAtMost(frames: seq<Frame>, kind: Kind, id: RfqId)
    ensures EnqueuedFor(frames, kind, id) <= |frames|
  {
    if frames != [] {
      CountAtMost(frames[..|frames| - 1], kind, id);
    }
  }

  // ---------------------------------------------------------------------
  // Streaming never starves responses
  // ---------------------------------------------------------------------

  function DataFrames(frames: seq<Frame>): nat {
    if frames == [] then 0
    else DataFrames(frames[..|frames| - 1]) + if frames[|frames| - 1].Update? then 1 else 0
  }

  /** The writer may still finish one data frame before it looks at the control
      queue again. */
  function DataAllowance(w: Writer): nat {
    if w == WSawNoControl || (w.WWriting? && w.frame.Update?) then 1 else 0
  }

  ghost predicate ControlWaitsThroughout(s: State, actions: seq<Action>) {
    forall i :: 0 <= i <= |actions| ==> Run(s, actions[..i]).control != []
  }

  lemma {:induction false} BypassStep(s: State, a: Action)
    requires Typed(s) && s.control != []
    ensures DataFrames(Next(s, a).wire) + DataAllowance(Next(s, a).writer) <= DataFrames(s.wire) + DataAllowance(s.writer)
  {
    if a.Write? && s.writer.WWriting? {
      assert (s.wire + [s.writer.frame])[..|s.wire|] == s.wire;
    }
  }

  /** While some response waits in the control queue, at most one data frame
      reaches the wire, however many updates are queued or published. */
  lemma {:induction false} ControlBypassedAtMostOnce(s: State, actions: seq<Action>)
    requires Sound(s) && ControlWaitsThroughout(s, actions)
    ensures DataFrames(Run(s, actions).wire) + DataAllowance(Run(s, actions).writer) <= DataFrames(s.wire) + 1
    decreases |actions|
  {
    if actions != [] {
      var init := actions[..|actions| - 1];
      forall i | 0 <= i <= |init| ensures Run(s, init[..i]).control != [] {
        assert init[..i] == actions[..i];
      }
      ControlBypassedAtMostOnce(s, init);
      RunKeepsSound(s, init);
      assert actions[..|actions| - 1] == init;
      BypassStep(Run(s, init), actions[|actions| - 1]);
    }
  }
}
