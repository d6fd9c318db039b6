/** The Rust client's send queue: senders that never block, one worker that posts in order, and a
    shutdown that drains for a limited time. */
module SendQueue {
  import opened Wrappers

  const MAX_QUEUE: nat := 1000

  type Event = string

  /** Where the worker is with the event it took. */
  datatype Worker = Waiting | Holding(e: Event) | Sending(e: Event) | Exited

  /** `accepted` and `dropped` are what senders were told, `posted` what the worker tried to send.
      `deadline` is None while the client is open; `reported` is the count of the abandonment line. */
  datatype State = State(
    queue: seq<Event>,
    accepted: seq<Event>,
    dropped: seq<Event>,
    posted: seq<Event>,
    worker: Worker,
    deadline: Option<nat>,
    closed: bool,
    reported: Option<nat>)

  datatype Step =
    | Send(e: Event)
    | Receive
    | Check(now: nat)
    | Post
    | SetDeadline(until: nat)
    | CloseChannel
    | EndOfChannel

  const START := State([], [], [], [], Waiting, None, false, None)

  /** Dropping the client needs it whole, so nothing is sent once shutdown has begun. */
  function Next(s: State, step: Step): State {
    match step
    case Send(e) =>
      if s.closed || s.deadline.Some? then s
      else if |s.queue| < MAX_QUEUE then s.(queue := s.queue + [e], accepted := s.accepted + [e])
      else s.(dropped := s.dropped + [e])
    case Receive =>
      if s.worker.Waiting? && s.queue != [] then s.(queue := s.queue[1..], worker := Holding(s.queue[0])) else s
    case Check(now) =>
      if !s.worker.Holding? then s
      else if s.deadline.Some? && now > s.deadline.value then
        s.(queue := [], reported := Some(1 + |s.queue|), worker := Exited)
      else s.(worker := Sending(s.worker.e))
    case Post => if s.worker.Sending? then s.(posted := s.posted + [s.worker.e], worker := Waiting) else s
    case SetDeadline(until) => if s.deadline.None? then s.(deadline := Some(until)) else s
    case CloseChannel => if s.deadline.Some? then s.(closed := true) else s
    case EndOfChannel => if s.worker.Waiting? && s.queue == [] && s.closed then s.(worker := Exited) else s
  }

  function Run(s: State, steps: seq<Step>): State
    decreases |steps|
  {
    if steps == [] then s else Run(Next(s, steps[0]), steps[1..])
  }

  function InHand(w: Worker): seq<Event> {
    if w.Holding? || w.Sending? then [w.e] else []
  }

  /** Until something is abandoned, the accepted events are the posted ones, the one in hand and the queue,
      in that order; after that, the posted ones and as many as were reported. */
  ghost predicate Invariant(s: State) {
    && |s.queue| <= MAX_QUEUE
    && (s.reported.None? ==> s.accepted == s.posted + InHand(s.worker) + s.queue)
    && (s.reported.None? && s.worker.Exited? ==> s.queue == [])
    && (s.reported.Some? ==> s.worker.Exited? && s.queue == [] && s.posted <= s.accepted
                             && |s.accepted| == |s.posted| + s.reported.value && s.reported.value >= 1
                             && s.deadline.Some?)
    && (s.worker.Exited? ==> s.deadline.Some?)
    && (s.closed ==> s.deadline.Some?)
  }

  lemma NextKeeps(s: State, step: Step)
    requires Invariant(s)
    ensures Invariant(Next(s, step))
  {
    match step
    case Send(e) => SendKeeps(s, e);
    case Receive => ReceiveKeeps(s);
    case Post => PostKeeps(s);
    case _ =>
  }

  lemma SendKeeps(s: State, e: Event)
    requires Invariant(s)
    ensures Invariant(Next(s, Send(e)))
  {
    assert s.posted + InHand(s.worker) + (s.queue + [e]) == s.posted + InHand(s.worker) + s.queue + [e];
  }

  lemma ReceiveKeeps(s: State)
    requires Invariant(s)
    ensures Invariant(Next(s, Receive))
  {
    if s.worker.Waiting? && s.queue != [] {
      assert s.posted + [s.queue[0]] + s.queue[1..] == s.posted + [] + s.queue;
    }
  }

  lemma PostKeeps(s: State)
    requires Invariant(s)
    ensures Invariant(Next(s, Post))
  {
    if s.worker.Sending? {
      assert s.posted + [s.worker.e] + [] + s.queue == s.posted + [s.worker.e] + s.queue;
    }
  }

  lemma {:induction false} RunKeeps(s: State, steps: seq<Step>)
    requires Invariant(s)
    ensures Invariant(Run(s, steps))
    decreases |steps|
  {
    hide Invariant, Next;
    if steps != [] {
      NextKeeps(s, steps[0]);
      RunKeeps(Next(s, steps[0]), steps[1..]);
    }
  }

  /** In every interleaving what the worker posts is a prefix of what was accepted, in order; and once it has
      exited, every accepted event was posted or is counted in the report. */
  lemma QueueConservation(steps: seq<Step>)
    ensures var s := Run(START, steps);
            && s.posted <= s.accepted
            && (s.worker.Exited? ==>
                  |s.accepted| == |s.posted| + (if s.reported.Some? then s.reported.value else 0))
            && (s.worker.Exited? && s.reported.None? ==> s.posted == s.accepted)
  {
    RunKeeps(START, steps);
  }

  /** An event is refused only by a full queue: of the sends made while the client was open, those that found
      fewer than a thousand events waiting are the accepted ones, in order, and the others the dropped ones. */
  lemma {:induction false} RefusedOnlyWhenFull(s: State, steps: seq<Step>)
    ensures Run(s, steps).accepted == s.accepted + OpenSends(s, steps, false)
    ensures Run(s, steps).dropped == s.dropped + OpenSends(s, steps, true)
    decreases |steps|
  {
    if steps != [] {
      RefusedOnlyWhenFull(Next(s, steps[0]), steps[1..]);
    }
  }

  /** The events sent while the client was open that found the queue full, or those that did not. */
  function OpenSends(s: State, steps: seq<Step>, full: bool): seq<Event>
    decreases |steps|
  {
    if steps == [] then []
    else
      var rest := OpenSends(Next(s, steps[0]), steps[1..], full);
      if steps[0].Send? && !s.closed && s.deadline.None? && (|s.queue| >= 1000 <==> full) then [steps[0].e] + rest else rest
  }

  /** Nothing is abandoned while the grace lasts. */
  lemma {:induction false} GraceHonoured(s: State, steps: seq<Step>, grace: nat)
    requires s.reported.None? && (s.deadline.Some? ==> s.deadline.value >= grace)
    requires forall x :: x in steps ==> (x.Check? ==> x.now <= grace) && (x.SetDeadline? ==> x.until >= grace)
    ensures Run(s, steps).reported.None?
    decreases |steps|
  {
    if steps != [] {
      assert steps[0] in steps;
      assert forall x :: x in steps[1..] ==> x in steps;
      GraceHonoured(Next(s, steps[0]), steps[1..], grace);
    }
  }

  /** Once it is over, nothing more is posted but what was already being sent, and the worker leaves at its next
      look at the clock, reporting the event in its hand and all that wait. */
  lemma {:induction false} GraceEnds(s: State, steps: seq<Step>)
    requires Invariant(s) && s.deadline.Some? && !s.worker.Sending?
    requires forall x :: x in steps && x.Check? ==> x.now > s.deadline.value
    ensures Run(s, steps).posted == s.posted
    ensures s.worker.Holding? && (exists x :: x in steps && x.Check?) ==>
              Run(s, steps).worker.Exited? && Run(s, steps).reported == Some(|s.queue| + 1)
    decreases |steps|
  {
    if steps != [] {
      assert steps == [steps[0]] + steps[1..];
      NextKeeps(s, steps[0]);
      GraceEnds(Next(s, steps[0]), steps[1..]);
      if s.worker.Holding? && steps[0].Check? { ExitStays(Next(s, steps[0]), steps[1..]); }
    }
  }

  lemma {:induction false} ExitStays(s: State, steps: seq<Step>)
    requires s.worker.Exited?
    ensures Run(s, steps).worker.Exited? && Run(s, steps).reported == s.reported
    decreases |steps|
  {
    if steps != [] {
      ExitStays(Next(s, steps[0]), steps[1..]);
    }
  }

  function MovesLeft(s: State): nat {
    match s.worker
    case Waiting => 3 * |s.queue| + 1
    case Holding(_) => 3 * |s.queue| + 3
    case Sending(_) => 3 * |s.queue| + 2
    case Exited => 0
  }

  /** The join comes back: once the channel is closed the worker exits after at most three moves for each
      event left and one more. */
  lemma {:induction false} WorkerExits(s: State, now: nat) returns (steps: seq<Step>)
    requires Invariant(s) && s.closed
    ensures Run(s, steps).worker.Exited? && |steps| <= MovesLeft(s)
    decreases MovesLeft(s)
  {
    steps := [];
    if !s.worker.Exited? {
      var move :=
        match s.worker
        case Waiting => if s.queue == [] then EndOfChannel else Receive
        case Holding(_) => Check(now)
        case _ => Post;
      NextKeeps(s, move);
      var rest := WorkerExits(Next(s, move), now);
      steps := [move] + rest;
      assert steps[1..] == rest;
    }
  }
}
