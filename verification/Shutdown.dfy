/** The shutdown protocol of engine.go: submit, Close and the writer loop as a state machine over their steps, with
    any number of callers. A request and the goroutine that submits it share an id. */
module Shutdown {
  import opened Wrappers

  /** What a request's owner gets: an error of submit itself, or the writer's answer. */
  datatype Answer = DBClosed | WritesDisabled | Served(outcome: int)

  /** Where a call of submit is: the first three hold the read lock of submitMu. */
  datatype Caller = Checking | Sending | Leaving | Waiting | Told(answer: Answer)

  /** Where the writer loop is; n requests of the burst have been handled or answered. */
  datatype Writer =
    | Selecting
    | Collecting(burst: seq<nat>, draining: bool)
    | Handling(burst: seq<nat>, n: nat, draining: bool)
    | Replying(burst: seq<nat>, n: nat, draining: bool)
    | Exited

  /** Where Close is: waiting for the write lock, holding it, waiting for the writer, tearing down. */
  datatype Closer = NotCalled | Locking | Locked | Unlocking | AwaitingWriter | TornDown

  /** done is closed when closed is published. sent, handled and replied list all requests so far that went through
      the channel, that changed the engine, and that were answered; answers keeps what each of these was answered. */
  datatype State = State(cap: nat, queue: seq<nat>, callers: map<nat, Caller>, writer: Writer, closer: Closer,
                         closed: bool, disabled: bool, sent: seq<nat>, handled: seq<nat>, replied: seq<nat>,
                         replies: map<nat, int>, answers: map<nat, int>)

  datatype Step =
    | Enter(id: nat)
    | Check(id: nat)
    | Send(id: nat)
    | Leave(id: nat)
    | Receive(id: nat)
    | TakeFirst
    | SeeDone
    | TakeMore
    | StopCollecting
    | Handle(disables: bool)
    | Reply(outcome: int)
    | WantLock
    | Lock
    | Publish
    | Unlock
    | TearDown

  predicate Is(s: State, id: nat, c: Caller) {
    id in s.callers && s.callers[id] == c
  }

  predicate Reading(s: State, id: nat) {
    Is(s, id, Checking) || Is(s, id, Sending) || Is(s, id, Leaving)
  }

  ghost predicate Enabled(s: State, l: Step) {
    match l
    case Enter(id) => id !in s.callers && (s.closer.NotCalled? || s.closer.AwaitingWriter? || s.closer.TornDown?)
    case Check(id) => Is(s, id, Checking)
    case Send(id) => Is(s, id, Sending) && |s.queue| < s.cap
    case Leave(id) => Is(s, id, Leaving)
    case Receive(id) => Is(s, id, Waiting) && id in s.replies
    case TakeFirst => s.writer.Selecting? && s.queue != []
    case SeeDone => s.writer.Selecting? && s.closed
    case TakeMore => s.writer.Collecting? && s.queue != [] && (s.writer.draining || |s.writer.burst| < s.cap)
    case StopCollecting => s.writer.Collecting? && (s.queue == [] || (!s.writer.draining && |s.writer.burst| >= s.cap))
    case Handle(_) => s.writer.Handling? && s.writer.n < |s.writer.burst|
    case Reply(_) => s.writer.Replying? && s.writer.n < |s.writer.burst|
    case WantLock => s.closer.NotCalled?
    case Lock => s.closer.Locking? && forall id :: id in s.callers ==> !Reading(s, id)
    case Publish => s.closer.Locked?
    case Unlock => s.closer.Unlocking?
    case TearDown => s.closer.AwaitingWriter? && s.writer.Exited?
  }

  /** The writer with a burst that has been gone through. */
  function Handled(burst: seq<nat>, n: nat, draining: bool): Writer {
    if n < |burst| then Handling(burst, n, draining) else NextReply(burst, 0, draining)
  }

  function NextReply(burst: seq<nat>, n: nat, draining: bool): Writer {
    if n < |burst| then Replying(burst, n, draining) else if draining then Exited else Selecting
  }

  ghost function Next(s: State, l: Step): State
    requires Enabled(s, l)
  {
    match l
    case Enter(id) => s.(callers := s.callers[id := Checking])
    case Check(id) =>
      s.(callers := s.callers[id
        := if s.closed then Told(DBClosed) else if s.disabled then Told(WritesDisabled) else Sending])
    case Send(id) => s.(queue := s.queue + [id], sent := s.sent + [id], callers := s.callers[id := Leaving])
    case Leave(id) => s.(callers := s.callers[id := Waiting])
    case Receive(id) =>
      s.(callers := s.callers[id := Told(Served(s.replies[id]))],
         replies := map i | i in s.replies && i != id :: s.replies[i])
    case TakeFirst => s.(queue := s.queue[1..], writer := Collecting([s.queue[0]], false))
    case SeeDone => s.(writer := Collecting([], true))
    case TakeMore => s.(queue := s.queue[1..], writer := Collecting(s.writer.burst + [s.queue[0]], s.writer.draining))
    case StopCollecting => s.(writer := Handled(s.writer.burst, 0, s.writer.draining))
    case Handle(disables) =>
      var w := s.writer;
      s.(handled := s.handled + [w.burst[w.n]], disabled := s.disabled || disables,
         writer := Handled(w.burst, w.n + 1, w.draining))
    case Reply(outcome) =>
      var w := s.writer;
      s.(replied := s.replied + [w.burst[w.n]], replies := s.replies[w.burst[w.n] := outcome],
         answers := s.answers[w.burst[w.n] := outcome],
         writer := NextReply(w.burst, w.n + 1, w.draining))
    case WantLock => s.(closer := Locking)
    case Lock => s.(closer := Locked)
    case Publish => s.(closer := Unlocking, closed := true)
    case Unlock => s.(closer := AwaitingWriter)
    case TearDown => s.(closer := TornDown)
  }

  ghost function Start(cap: nat): State {
    State(cap, [], map[], Selecting, NotCalled, false, false, [], [], [], map[], map[])
  }

  // ---------------------------------------------------------------- what every step keeps

  predicate Distinct(ids: seq<nat>) {
    forall i, j :: 0 <= i < j < |ids| ==> ids[i] != ids[j]
  }

  /** The requests of the burst that are not handled yet, and those handled but not answered. */
  function Unhandled(w: Writer): seq<nat> {
    if w.Collecting? then w.burst else if w.Handling? && w.n <= |w.burst| then w.burst[w.n..] else []
  }

  function Unanswered(w: Writer): seq<nat> {
    if w.Handling? && w.n <= |w.burst| then w.burst[..w.n]
    else if w.Replying? && w.n <= |w.burst| then w.burst[w.n..] else []
  }

  /** Every request sent is, in the order of sending, handled, in the burst or in the queue. */
  ghost predicate InOrder(s: State) {
    && s.sent == s.handled + Unhandled(s.writer) + s.queue
    && s.handled == s.replied + Unanswered(s.writer)
    && Distinct(s.sent)
  }

  predicate IsSent(s: State, id: nat) {
    && id in s.callers
    && (s.callers[id].Leaving? || s.callers[id].Waiting? || (s.callers[id].Told? && s.callers[id].answer.Served?))
  }

  /** What each caller knows. */
  ghost predicate CallersOk(s: State) {
    && (forall id :: id in s.sent <==> IsSent(s, id))
    && (forall id :: id in s.replies <==> id in s.replied && !(id in s.callers && s.callers[id].Told?))
    && (forall id :: id in s.callers && s.callers[id].Told? && s.callers[id].answer.Served? ==> id in s.replied)
  }

  /** What a caller is told is what its request was answered, or what the switches say. */
  ghost predicate AnswersOk(s: State) {
    && (forall id :: id in s.answers <==> id in s.replied)
    && (forall id :: id in s.replies ==> id in s.answers && s.replies[id] == s.answers[id])
    && (forall id, r :: Is(s, id, Told(Served(r))) ==> id in s.answers && s.answers[id] == r)
    && (forall id :: Is(s, id, Told(DBClosed)) ==> s.closed)
    && (forall id :: Is(s, id, Told(WritesDisabled)) ==> s.disabled)
  }

  ghost predicate WriterOk(s: State) {
    match s.writer
    case Selecting => true
    case Collecting(b, d) => (d ==> s.closed) && (!d ==> b != [])
    case Handling(b, n, d) => n < |b| && (d ==> s.closed && s.queue == [])
    case Replying(b, n, d) => n < |b| && (d ==> s.closed && s.queue == [])
    case Exited => s.closed && s.queue == []
  }

  ghost predicate CloserOk(s: State) {
    && (s.closed <==> s.closer.Unlocking? || s.closer.AwaitingWriter? || s.closer.TornDown?)
    && (s.closer.Locked? || s.closer.Unlocking? ==> forall id :: id in s.callers ==> !Reading(s, id))
    && (s.closed ==> forall id :: id in s.callers ==> !s.callers[id].Sending? && !s.callers[id].Leaving?)
    && (s.closer.TornDown? ==> s.writer.Exited?)
  }

  ghost predicate Inv(s: State) {
    InOrder(s) && CallersOk(s) && AnswersOk(s) && WriterOk(s) && CloserOk(s)
  }

  lemma TakeInOrder(s: State, l: Step)
    requires InOrder(s) && Enabled(s, l) && (l.TakeFirst? || l.TakeMore?)
    ensures InOrder(Next(s, l))
  {
    hide Distinct;
    var b := if l.TakeFirst? then [] else s.writer.burst;
    assert Unhandled(s.writer) == b && Unanswered(s.writer) == [];
    Moved(s.handled, b, s.queue);
  }

  /** The first in the queue goes to the end of the burst. */
  lemma Moved(handled: seq<nat>, burst: seq<nat>, queue: seq<nat>)
    requires queue != []
    ensures handled + burst + queue == handled + (burst + [queue[0]]) + queue[1..]
    ensures burst == [] ==> burst + [queue[0]] == [queue[0]]
  {
    assert [queue[0]] + queue[1..] == queue;
  }

  lemma StopInOrder(s: State)
    requires InOrder(s) && Enabled(s, StopCollecting)
    ensures InOrder(Next(s, StopCollecting))
  {
    hide Distinct;
    var w := s.writer;
    HandledSplits(w.burst, 0, w.draining);
    assert w.burst[0..] == w.burst && w.burst[..0] == [];
  }

  lemma HandleInOrder(s: State, d: bool)
    requires InOrder(s) && Enabled(s, Handle(d))
    ensures InOrder(Next(s, Handle(d)))
  {
    hide Distinct, Handled, Unhandled, Unanswered;
    var w := s.writer;
    InBurst(s, w.burst, w.n, w.draining);
    HandledSplits(w.burst, w.n + 1, w.draining);
    assert w.burst[w.n..] == [w.burst[w.n]] + w.burst[w.n + 1..];
    assert w.burst[..w.n + 1] == w.burst[..w.n] + [w.burst[w.n]];
    assert s.handled + w.burst[w.n..] == (s.handled + [w.burst[w.n]]) + w.burst[w.n + 1..];
  }

  lemma InBurst(s: State, burst: seq<nat>, n: nat, draining: bool)
    requires s.writer == Handling(burst, n, draining) && n <= |burst|
    ensures Unhandled(s.writer) == burst[n..] && Unanswered(s.writer) == burst[..n]
  {
  }

  lemma ReplyInOrder(s: State, r: int)
    requires InOrder(s) && Enabled(s, Reply(r))
    ensures InOrder(Next(s, Reply(r)))
  {
    hide Distinct, NextReply, Unhandled, Unanswered;
    var w := s.writer;
    InReplies(s, w.burst, w.n, w.draining);
    HandledSplits(w.burst, w.n + 1, w.draining);
    assert w.burst[w.n..] == [w.burst[w.n]] + w.burst[w.n + 1..];
    assert s.replied + w.burst[w.n..] == (s.replied + [w.burst[w.n]]) + w.burst[w.n + 1..];
  }

  lemma InReplies(s: State, burst: seq<nat>, n: nat, draining: bool)
    requires s.writer == Replying(burst, n, draining) && n <= |burst|
    ensures Unhandled(s.writer) == [] && Unanswered(s.writer) == burst[n..]
  {
  }

  lemma HandledSplits(burst: seq<nat>, n: nat, draining: bool)
    requires n <= |burst|
    ensures Unhandled(Handled(burst, n, draining)) == burst[n..]
    ensures Unanswered(Handled(burst, n, draining)) == burst[..n]
    ensures Unhandled(NextReply(burst, n, draining)) == []
    ensures Unanswered(NextReply(burst, n, draining)) == burst[n..]
  {
    assert n == |burst| ==> burst[..n] == burst[0..] == burst;
  }

  lemma StepInOrder(s: State, l: Step)
    requires Inv(s) && Enabled(s, l)
    ensures InOrder(Next(s, l))
  {
    match l
    case TakeFirst => TakeInOrder(s, l);
    case TakeMore => TakeInOrder(s, l);
    case StopCollecting => StopInOrder(s);
    case Handle(d) => HandleInOrder(s, d);
    case Reply(r) => ReplyInOrder(s, r);
    case Send(id) => SendInOrder(s, id);
    case _ => assert Next(s, l).sent == s.sent;
  }

  lemma SendInOrder(s: State, id: nat)
    requires Inv(s) && Enabled(s, Send(id))
    ensures InOrder(Next(s, Send(id)))
  {
    hide CloserOk, WriterOk, AnswersOk;
    assert id !in s.sent;
  }

  /** A step of a caller's own. */
  predicate OfCaller(l: Step) {
    l.Enter? || l.Check? || l.Send? || l.Leave? || l.Receive?
  }

  lemma OwnCallers(s: State, l: Step)
    requires Inv(s) && Enabled(s, l) && OfCaller(l)
    ensures CallersOk(Next(s, l))
  {
    hide WriterOk, CloserOk, InOrder, AnswersOk;
    RepliedSent(s);
  }

  lemma ReplyCallers(s: State, r: int)
    requires Inv(s) && Enabled(s, Reply(r))
    ensures CallersOk(Next(s, Reply(r)))
  {
    hide WriterOk, CloserOk, InOrder, AnswersOk;
    RepliedSent(s);
    FreshReply(s);
  }

  /** A step of the writer or of Close that answers nobody. */
  lemma QuietStep(s: State, l: Step)
    requires Enabled(s, l) && !OfCaller(l) && !l.Reply?
    ensures var t := Next(s, l);
      && t.callers == s.callers && t.sent == s.sent && t.replies == s.replies && t.replied == s.replied
      && t.answers == s.answers && (s.closed ==> t.closed) && (s.disabled ==> t.disabled)
  {
  }

  lemma QuietCallers(s: State, t: State)
    requires CallersOk(s) && t.callers == s.callers && t.sent == s.sent && t.replies == s.replies
    requires t.replied == s.replied
    ensures CallersOk(t)
  {
  }

  lemma StepCallers(s: State, l: Step)
    requires Inv(s) && Enabled(s, l)
    ensures CallersOk(Next(s, l))
  {
    hide WriterOk, CloserOk, InOrder, AnswersOk, CallersOk, Next, Enabled;
    if l.Reply? {
      ReplyCallers(s, l.outcome);
    } else if OfCaller(l) {
      OwnCallers(s, l);
    } else {
      QuietStep(s, l);
      QuietCallers(s, Next(s, l));
    }
  }

  lemma ReplyAnswers(s: State, r: int)
    requires Inv(s) && Enabled(s, Reply(r))
    ensures AnswersOk(Next(s, Reply(r)))
  {
    hide WriterOk, CloserOk, InOrder, CallersOk;
    FreshReply(s);
    var t, x := Next(s, Reply(r)), s.writer.burst[s.writer.n];
    assert x !in s.answers;
    forall id, q | Is(t, id, Told(Served(q))) ensures id in t.answers && t.answers[id] == q {
      assert Is(s, id, Told(Served(q)));
    }
    forall id ensures Is(t, id, Told(DBClosed)) ==> Is(s, id, Told(DBClosed)) {
    }
    forall id ensures Is(t, id, Told(WritesDisabled)) ==> Is(s, id, Told(WritesDisabled)) {
    }
  }

  lemma OwnAnswers(s: State, l: Step)
    requires Inv(s) && Enabled(s, l) && OfCaller(l)
    ensures AnswersOk(Next(s, l))
  {
    hide WriterOk, CloserOk, InOrder, CallersOk;
    var t := Next(s, l);
    forall id, q | Is(t, id, Told(Served(q))) ensures id in t.answers && t.answers[id] == q {
      assert Is(s, id, Told(Served(q))) || l == Receive(id);
    }
    forall id ensures Is(t, id, Told(DBClosed)) ==> Is(s, id, Told(DBClosed)) || s.closed {
    }
    forall id ensures Is(t, id, Told(WritesDisabled)) ==> Is(s, id, Told(WritesDisabled)) || s.disabled {
    }
  }

  lemma QuietAnswers(s: State, t: State)
    requires AnswersOk(s) && t.callers == s.callers && t.replies == s.replies && t.replied == s.replied
    requires t.answers == s.answers && (s.closed ==> t.closed) && (s.disabled ==> t.disabled)
    ensures AnswersOk(t)
  {
    assert forall id, c :: Is(t, id, c) <==> Is(s, id, c);
  }

  lemma StepAnswers(s: State, l: Step)
    requires Inv(s) && Enabled(s, l)
    ensures AnswersOk(Next(s, l))
  {
    hide WriterOk, CloserOk, InOrder, AnswersOk, CallersOk, Next, Enabled;
    if l.Reply? {
      ReplyAnswers(s, l.outcome);
    } else if OfCaller(l) {
      OwnAnswers(s, l);
    } else {
      QuietStep(s, l);
      QuietAnswers(s, Next(s, l));
    }
  }

  lemma RepliedSent(s: State)
    requires InOrder(s)
    ensures forall id :: id in s.replied ==> id in s.sent
  {
    forall id | id in s.replied ensures id in s.sent {
      assert id in s.handled;
    }
  }

  /** The next request to be answered has been sent and not been answered. */
  lemma FreshReply(s: State)
    requires InOrder(s) && s.writer.Replying? && s.writer.n < |s.writer.burst|
    ensures s.writer.burst[s.writer.n] in s.sent && s.writer.burst[s.writer.n] !in s.replied
  {
    var id, k := s.writer.burst[s.writer.n], |s.replied|;
    assert s.sent[k] == s.handled[k] == id;
    forall i | 0 <= i < k ensures s.replied[i] != id {
      assert s.sent[i] == s.handled[i] == s.replied[i];
    }
  }

  lemma StepRest(s: State, l: Step)
    requires Inv(s) && Enabled(s, l)
    ensures WriterOk(Next(s, l)) && CloserOk(Next(s, l))
  {
    hide InOrder, CallersOk, AnswersOk;
  }

  lemma StepKeeps(s: State, l: Step)
    requires Inv(s) && Enabled(s, l)
    ensures Inv(Next(s, l))
  {
    hide Inv, Enabled, Next, InOrder, CallersOk, AnswersOk, WriterOk, CloserOk;
    StepInOrder(s, l);
    StepCallers(s, l);
    StepAnswers(s, l);
    StepRest(s, l);
    Together(Next(s, l));
  }

  lemma Together(s: State)
    requires InOrder(s) && CallersOk(s) && AnswersOk(s) && WriterOk(s) && CloserOk(s)
    ensures Inv(s)
  {
  }

  // ---------------------------------------------------------------- whole runs

  ghost function Run(s: State, steps: seq<Step>): Option<State> {
    if steps == [] then Some(s)
    else
      var before := Run(s, steps[..|steps| - 1]);
      if before.Some? && Enabled(before.value, steps[|steps| - 1]) then Some(Next(before.value, steps[|steps| - 1]))
      else None
  }

  lemma {:induction false} RunKeeps(cap: nat, steps: seq<Step>)
    requires Run(Start(cap), steps).Some?
    ensures Inv(Run(Start(cap), steps).value)
  {
    hide Inv, Enabled, Next;
    if steps == [] {
      StartInv(cap);
    } else {
      RunKeeps(cap, steps[..|steps| - 1]);
      StepKeeps(Run(Start(cap), steps[..|steps| - 1]).value, steps[|steps| - 1]);
    }
  }

  lemma StartInv(cap: nat)
    ensures Inv(Start(cap))
  {
  }

  /** Every request that went through the channel is handled and answered in the order of sending, none of them twice;
      a caller that submit turned away has sent nothing; and once the writer has exited, nothing is queued and
      everything sent has been handled and answered. */
  lemma ServedOnce(cap: nat, steps: seq<Step>)
    requires Run(Start(cap), steps).Some?
    ensures var s := Run(Start(cap), steps).value;
      && s.handled <= s.sent && s.replied <= s.handled && Distinct(s.sent)
      && (forall id :: Is(s, id, Told(DBClosed)) ==> id !in s.sent && s.closed)
      && (forall id :: Is(s, id, Told(WritesDisabled)) ==> id !in s.sent && s.disabled)
      && (forall id, r :: Is(s, id, Told(Served(r))) ==> id in s.answers && s.answers[id] == r)
      && (s.writer.Exited? ==> s.queue == [] && s.replied == s.handled == s.sent)
  {
    hide Run;
    RunKeeps(cap, steps);
    var s := Run(Start(cap), steps).value;
    RepliedSent(s);
  }

  // ---------------------------------------------------------------- what each caller is told

  /** Step i is the writer's answer r to id. */
  ghost predicate AnswersAt(cap: nat, steps: seq<Step>, i: nat, id: nat, r: int) {
    && i < |steps| && steps[i] == Reply(r)
    && var s := Run(Start(cap), steps[..i]);
       s.Some? && s.value.writer.Replying? && s.value.writer.n < |s.value.writer.burst|
       && s.value.writer.burst[s.value.writer.n] == id
  }

  /** Step i is the look that id takes at the two switches before it sends. */
  ghost predicate TurnedAwayAt(cap: nat, steps: seq<Step>, i: nat, id: nat, closed: bool) {
    && i < |steps| && steps[i] == Check(id)
    && var s := Run(Start(cap), steps[..i]);
       s.Some? && if closed then s.value.closed else !s.value.closed && s.value.disabled
  }

  /** An answer that waits for its owner, or has reached it, is one the writer has given to that request. */
  ghost predicate TrueAnswers(cap: nat, steps: seq<Step>) {
    var s := Run(Start(cap), steps);
    s.Some? ==>
      && (forall id :: id in s.value.replies ==> exists i :: AnswersAt(cap, steps, i, id, s.value.replies[id]))
      && (forall id, r :: Is(s.value, id, Told(Served(r))) ==> exists i :: AnswersAt(cap, steps, i, id, r))
      && (forall id :: Is(s.value, id, Told(DBClosed)) ==> exists i :: TurnedAwayAt(cap, steps, i, id, true))
      && (forall id :: Is(s.value, id, Told(WritesDisabled)) ==> exists i :: TurnedAwayAt(cap, steps, i, id, false))
  }

  /** What was so of a run is so of a longer one. */
  lemma Earlier(cap: nat, steps: seq<Step>, l: Step)
    ensures forall i, id, r :: AnswersAt(cap, steps, i, id, r) ==> AnswersAt(cap, steps + [l], i, id, r)
    ensures forall i, id, c :: TurnedAwayAt(cap, steps, i, id, c) ==> TurnedAwayAt(cap, steps + [l], i, id, c)
  {
    hide Run;
    assert forall i :: 0 <= i < |steps| ==> (steps + [l])[..i] == steps[..i];
  }

  lemma TrueStep(cap: nat, steps: seq<Step>, l: Step, s: State)
    requires Run(Start(cap), steps) == Some(s) && Enabled(s, l) && TrueAnswers(cap, steps)
    requires Run(Start(cap), steps + [l]) == Some(Next(s, l))
    ensures TrueAnswers(cap, steps + [l])
  {
    hide Run, AnswersAt, TurnedAwayAt;
    Earlier(cap, steps, l);
    assert (steps + [l])[..|steps|] == steps && (steps + [l])[|steps|] == l;
    var n, t := |steps|, Next(s, l);
    if l.Reply? {
      assert AnswersAt(cap, steps + [l], n, s.writer.burst[s.writer.n], l.outcome) by { Answered(cap, steps, l, s); }
    }
    if l.Check? && (s.closed || s.disabled) {
      assert TurnedAwayAt(cap, steps + [l], n, l.id, s.closed) by { TurnedAway(cap, steps, l, s); }
    }
    forall id | id in t.replies ensures exists i :: AnswersAt(cap, steps + [l], i, id, t.replies[id]) {
      if id in s.replies && t.replies[id] == s.replies[id] {
        var i :| AnswersAt(cap, steps, i, id, s.replies[id]);
        assert AnswersAt(cap, steps + [l], i, id, t.replies[id]);
      }
    }
    forall id, r | Is(t, id, Told(Served(r))) ensures exists i :: AnswersAt(cap, steps + [l], i, id, r) {
      if Is(s, id, Told(Served(r))) {
        var i :| AnswersAt(cap, steps, i, id, r);
        assert AnswersAt(cap, steps + [l], i, id, r);
      } else {
        assert l == Receive(id) && s.replies[id] == r;
        var i :| AnswersAt(cap, steps, i, id, s.replies[id]);
        assert AnswersAt(cap, steps + [l], i, id, r);
      }
    }
    forall id | Is(t, id, Told(DBClosed)) ensures exists i :: TurnedAwayAt(cap, steps + [l], i, id, true) {
      if Is(s, id, Told(DBClosed)) {
        var i :| TurnedAwayAt(cap, steps, i, id, true);
        assert TurnedAwayAt(cap, steps + [l], i, id, true);
      }
    }
    forall id | Is(t, id, Told(WritesDisabled)) ensures exists i :: TurnedAwayAt(cap, steps + [l], i, id, false) {
      if Is(s, id, Told(WritesDisabled)) {
        var i :| TurnedAwayAt(cap, steps, i, id, false);
        assert TurnedAwayAt(cap, steps + [l], i, id, false);
      }
    }
  }

  lemma Answered(cap: nat, steps: seq<Step>, l: Step, s: State)
    requires Run(Start(cap), steps) == Some(s) && l.Reply? && s.writer.Replying? && s.writer.n < |s.writer.burst|
    ensures AnswersAt(cap, steps + [l], |steps|, s.writer.burst[s.writer.n], l.outcome)
  {
    hide Run;
    assert (steps + [l])[..|steps|] == steps;
  }

  lemma TurnedAway(cap: nat, steps: seq<Step>, l: Step, s: State)
    requires Run(Start(cap), steps) == Some(s) && l.Check? && (s.closed || s.disabled)
    ensures TurnedAwayAt(cap, steps + [l], |steps|, l.id, s.closed)
  {
    hide Run;
    assert (steps + [l])[..|steps|] == steps;
  }

  lemma {:induction false} TrueRun(cap: nat, steps: seq<Step>)
    requires Run(Start(cap), steps).Some?
    ensures TrueAnswers(cap, steps)
  {
    hide Enabled, Next, TrueAnswers;
    if steps == [] {
      NothingTold(cap);
    } else {
      var n := |steps| - 1;
      TrueRun(cap, steps[..n]);
      assert steps[..n] + [steps[n]] == steps;
      TrueStep(cap, steps[..n], steps[n], Run(Start(cap), steps[..n]).value);
    }
  }

  lemma NothingTold(cap: nat)
    ensures TrueAnswers(cap, [])
  {
  }

  lemma {:induction false} RepliedStays(cap: nat, steps: seq<Step>, i: nat, id: nat)
    requires Run(Start(cap), steps).Some? && i <= |steps|
    ensures Run(Start(cap), steps[..i]).Some?
    ensures id in Run(Start(cap), steps[..i]).value.replied ==> id in Run(Start(cap), steps).value.replied
    decreases |steps|
  {
    hide Enabled, Next;
    if i == |steps| {
      assert steps[..i] == steps;
    } else {
      var n := |steps| - 1;
      RepliedStays(cap, steps[..n], i, id);
      assert steps[..n][..i] == steps[..i];
      RepliedGrows(Run(Start(cap), steps[..n]).value, steps[n]);
    }
  }

  lemma RepliedGrows(s: State, l: Step)
    requires Enabled(s, l)
    ensures s.replied <= Next(s, l).replied
  {
  }

  /** No request is answered twice. */
  lemma AnsweredOnce(cap: nat, steps: seq<Step>, i: nat, j: nat, id: nat, r: int, q: int)
    requires Run(Start(cap), steps).Some? && AnswersAt(cap, steps, i, id, r) && AnswersAt(cap, steps, j, id, q)
    ensures i == j && r == q
  {
    hide Run, Inv;
    NotAgain(cap, steps, i, j, id, r, q);
    NotAgain(cap, steps, j, i, id, q, r);
  }

  lemma NotAgain(cap: nat, steps: seq<Step>, i: nat, j: nat, id: nat, r: int, q: int)
    requires Run(Start(cap), steps).Some? && AnswersAt(cap, steps, i, id, r) && AnswersAt(cap, steps, j, id, q)
    ensures j <= i
  {
    hide Inv, InOrder, CallersOk, WriterOk, CloserOk;
    if i < j {
      var front := steps[..j];
      RepliedStays(cap, steps, j, id);
      RepliedStays(cap, front, i + 1, id);
      assert front[..i + 1] == steps[..i + 1] && steps[..i + 1][..i] == steps[..i] && steps[..i + 1][i] == Reply(r);
      RunKeeps(cap, front);
      InOrderOf(Run(Start(cap), front).value);
      FreshReply(Run(Start(cap), front).value);
    }
  }

  lemma InOrderOf(s: State)
    requires Inv(s)
    ensures InOrder(s)
  {
    hide InOrder;
  }

  /** A caller is told what the writer replied to its own request, or, if submit turned it away, what it saw when it
      looked: that the engine was closed, or that writes were disabled and it was not. */
  lemma ToldTruly(cap: nat, steps: seq<Step>, id: nat)
    requires Run(Start(cap), steps).Some?
    ensures var s := Run(Start(cap), steps).value;
      && (forall r :: Is(s, id, Told(Served(r))) ==> exists i :: AnswersAt(cap, steps, i, id, r))
      && (Is(s, id, Told(DBClosed)) ==> exists i :: TurnedAwayAt(cap, steps, i, id, true))
      && (Is(s, id, Told(WritesDisabled)) ==> exists i :: TurnedAwayAt(cap, steps, i, id, false))
  {
    hide Run, AnswersAt, TurnedAwayAt;
    TrueRun(cap, steps);
  }

  // ---------------------------------------------------------------- progress

  /** A step of the writer's own. */
  predicate OfWriter(l: Step) {
    l.TakeFirst? || l.SeeDone? || l.TakeMore? || l.StopCollecting? || l.Handle? || l.Reply?
  }

  /** No caller is ever stranded: while a request is queued or unanswered, or Close waits for the writer, the writer
      has a step to take, whatever the callers do. */
  lemma WriterNeverStuck(s: State)
    requires Inv(s) && (s.replied != s.sent || s.closed) && !s.writer.Exited?
    ensures exists l :: OfWriter(l) && Enabled(s, l)
  {
    match s.writer
    case Selecting =>
      if s.queue != [] {
        assert Enabled(s, TakeFirst) && OfWriter(TakeFirst);
      } else {
        assert Enabled(s, SeeDone) && OfWriter(SeeDone);
      }
    case Collecting(b, d) =>
      if s.queue == [] || (!d && |b| >= s.cap) {
        assert Enabled(s, StopCollecting) && OfWriter(StopCollecting);
      } else {
        assert Enabled(s, TakeMore) && OfWriter(TakeMore);
      }
    case Handling(b, n, d) =>
      assert Enabled(s, Handle(false)) && OfWriter(Handle(false));
    case Replying(b, n, d) =>
      assert Enabled(s, Reply(0)) && OfWriter(Reply(0));
  }

  /** How many steps the writer can still take once Close has published. */
  function Rank(s: State): nat {
    4 * |s.queue| + match s.writer
      case Selecting => 3
      case Collecting(b, d) => 2 * |b| + if d then 2 else 4
      case Handling(b, n, d) => (if n < |b| then |b| - n else 0) + |b| + if d then 1 else 3
      case Replying(b, n, d) => (if n < |b| then |b| - n else 0) + if d then 1 else 3
      case Exited => 0
  }

  /** Once Close has published, every step of the writer brings its end nearer and no step of anyone else puts it off:
      the writer exits. */
  lemma WriterEnds(s: State, l: Step)
    requires Inv(s) && s.closed && Enabled(s, l)
    ensures Next(s, l).closed
    ensures OfWriter(l) ==> Rank(Next(s, l)) < Rank(s)
    ensures !OfWriter(l) ==> Rank(Next(s, l)) == Rank(s)
  {
    hide InOrder, CallersOk, AnswersOk;
  }

  /** Close never waits in vain for the read locks: a caller inside submit can always go on, or the writer can make
      room for it. */
  lemma CloseGetsLock(s: State)
    requires Inv(s) && s.closer.Locking? && s.cap > 0
    ensures Enabled(s, Lock) || exists l :: Enabled(s, l) && (OfWriter(l) || l.Check? || l.Send? || l.Leave?)
  {
    if !Enabled(s, Lock) {
      var id :| id in s.callers && Reading(s, id);
      if Is(s, id, Checking) {
        assert Enabled(s, Check(id));
      } else if Is(s, id, Leaving) {
        assert Enabled(s, Leave(id));
      } else if |s.queue| < s.cap {
        assert Enabled(s, Send(id));
      } else {
        QueuedUnanswered(s);
        WriterNeverStuck(s);
      }
    }
  }

  lemma QueuedUnanswered(s: State)
    requires Inv(s) && s.queue != [] && !s.closed
    ensures s.replied != s.sent && !s.writer.Exited?
  {
    assert |s.sent| > |s.replied|;
  }
}
