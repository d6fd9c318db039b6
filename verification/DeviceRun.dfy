/** One fenced run on a device: the worker, the heartbeat that renews its lease and the publisher of its
    progress, interleaved in every way. The cloud and the connector answer what they like.

    The worker executes the action, wakes the heartbeat, reads what the heartbeat stored, and only then
    delivers and settles. Delivery and settlement are the effects the cloud cannot take back. */
module DeviceRun {
  import opened Wrappers
  import opened Lease

  datatype Report = Report(status: string, error: Option<string>, prompt: Option<string>)

  /** A result produced and not yet delivered; `delivery` is the connector call it holds back. */
  datatype Produced = Produced(report: Report, identity: Option<string>, delivery: Option<string>)

  datatype CallResult = Accepted | Refused(error: string)

  datatype Effect = Delivered(envelope: string, result: CallResult) | Settled(report: Report)

  datatype Heartbeat = Waiting | Renewing | Decided(stop: Interrupt) | Ended

  /** Where the worker is. `read` is what it found in the interrupt cell. */
  datatype Worker =
    | Executing
    | Executed(p: Produced)
    | Woken(p: Produced)
    | AtSeam(p: Produced, read: Option<Interrupt>)
    | Delivering(p: Produced)
    | Reporting(p: Produced, read: Option<Interrupt>, call: Option<CallResult>)
    | Closing(p: Produced, read: Option<Interrupt>, call: Option<CallResult>)
    | Detached(p: Produced, read: Option<Interrupt>, call: Option<CallResult>)
    | Finished(p: Produced, read: Option<Interrupt>, call: Option<CallResult>)

  datatype Publisher = Publisher(current: Option<string>, published: seq<string>, ended: bool)

  datatype Run = Run(
    cell: Option<Interrupt>,
    writes: nat,            // how often the cell was assigned
    renewals: seq<Answer>,  // the renewals answered so far
    heartbeat: Heartbeat,
    worker: Worker,
    effects: seq<Effect>,
    phases: seq<string>,    // sent to the publisher and not received
    publisher: Publisher)

  datatype Step =
    | TimerFires
    | SenderGone
    | Renewed(answer: Answer)
    | Store
    | Emit(phase: string)
    | Execute(produced: Produced)
    | DropSender
    | ReadCell
    | EmitDelivering
    | Deliver(result: CallResult)
    | EmitSettling
    | DropEmitter
    | Settle
    | Receive
    | Publish(ok: bool)
    | EndPublisher

  const START := Run(None, 0, [], Waiting, Executing, [], [], Publisher(None, [], false))

  datatype Settlement = DeliverAndSettle | SettleOnly | Abandon

  function SettlementOf(interrupt: Option<Interrupt>): Settlement {
    match interrupt
    case None => DeliverAndSettle
    case Some(Cancelled) => SettleOnly
    case Some(Lost) => Abandon
  }

  /** Fold a connector failure into the report. */
  function Propagated(p: Produced, call: Option<CallResult>): Report {
    match call
    case Some(Refused(error)) => Report("failed", Some("connector: " + error), p.identity)
    case _ => p.report
  }

  function HeartbeatNext(s: Run, step: Step): Run {
    match step
    case TimerFires => if s.heartbeat.Waiting? then s.(heartbeat := Renewing) else s
    case SenderGone =>
      if s.heartbeat.Waiting? && !s.worker.Executing? && !s.worker.Executed? then s.(heartbeat := Ended) else s
    case Renewed(answer) =>
      if !s.heartbeat.Renewing? then s
      else
        var stop := Interrupts(Classify(answer));
        s.(renewals := s.renewals + [answer], heartbeat := if stop.Some? then Decided(stop.value) else Waiting)
    case Store =>
      if s.heartbeat.Decided? then s.(cell := Some(s.heartbeat.stop), writes := s.writes + 1, heartbeat := Ended) else s
    case _ => s
  }

  function PublisherNext(s: Run, step: Step): Run {
    match step
    case Receive =>
      if s.phases == [] || s.publisher.ended then s
      else s.(phases := s.phases[1..], publisher := s.publisher.(current := Some(s.phases[0])))
    case Publish(ok) =>
      if s.publisher.current.None? || s.publisher.ended then s
      else if ok then
        s.(publisher := s.publisher.(published := s.publisher.published + [s.publisher.current.value]))
      else s
    case EndPublisher =>
      if s.phases == [] && (s.worker.Detached? || s.worker.Finished?) then
        s.(publisher := s.publisher.(ended := true))
      else s
    case _ => s
  }

  function WorkerNext(s: Run, step: Step): Run {
    match (step, s.worker)
    case (Emit(phase), Executing) => s.(phases := s.phases + [phase])
    case (Execute(produced), Executing) => s.(worker := Executed(produced))
    case (DropSender, Executed(p)) => s.(worker := Woken(p))
    case (ReadCell, Woken(p)) => s.(worker := AtSeam(p, s.cell))
    case (EmitDelivering, AtSeam(p, read)) =>
      if SettlementOf(read).DeliverAndSettle? then s.(worker := Delivering(p), phases := s.phases + ["delivering"]) else s
    case (Deliver(result), Delivering(p)) =>
      if p.delivery.None? then s.(worker := Reporting(p, None, None))
      else s.(worker := Reporting(p, None, Some(result)), effects := s.effects + [Delivered(p.delivery.value, result)])
    case (EmitSettling, AtSeam(p, read)) =>
      if SettlementOf(read).SettleOnly? then s.(worker := Closing(p, read, None), phases := s.phases + ["settling"]) else s
    case (EmitSettling, Reporting(p, read, call)) =>
      s.(worker := Closing(p, read, call), phases := s.phases + ["settling"])
    case (DropEmitter, AtSeam(p, read)) =>
      if SettlementOf(read).Abandon? then s.(worker := Finished(p, read, None)) else s
    case (DropEmitter, Closing(p, read, call)) => s.(worker := Detached(p, read, call))
    case (Settle, Detached(p, read, call)) =>
      s.(worker := Finished(p, read, call), effects := s.effects + [Settled(Propagated(p, call))])
    case _ => s
  }

  predicate IsHeartbeat(step: Step) {
    step.TimerFires? || step.SenderGone? || step.Renewed? || step.Store?
  }

  predicate IsPublisher(step: Step) {
    step.Receive? || step.Publish? || step.EndPublisher?
  }

  predicate IsWorker(step: Step) {
    !IsHeartbeat(step) && !IsPublisher(step)
  }

  /** A step that may not be taken leaves everything as it is. */
  function Next(s: Run, step: Step): Run {
    if IsHeartbeat(step) then HeartbeatNext(s, step)
    else if IsPublisher(step) then PublisherNext(s, step)
    else WorkerNext(s, step)
  }

  function After(s: Run, steps: seq<Step>): Run
    decreases |steps|
  {
    if steps == [] then s else After(Next(s, steps[0]), steps[1..])
  }

  // ----- the invariant -----

  /** Everything a run does to the outside, from what it read at the seam and what the connector said. */
  function Outcome(p: Produced, read: Option<Interrupt>, call: CallResult): seq<Effect> {
    match read
    case Some(Lost) => []
    case Some(Cancelled) => [Settled(p.report)]
    case None =>
      if p.delivery.None? then [Settled(p.report)]
      else [Delivered(p.delivery.value, call),
            Settled(match call
                    case Accepted => p.report
                    case Refused(error) => Report("failed", Some("connector: " + error), p.identity))]
  }

  predicate HasRead(w: Worker) {
    !w.Executing? && !w.Executed? && !w.Woken?
  }

  function ReadOf(w: Worker): Option<Interrupt> {
    if w.AtSeam? || w.Reporting? || w.Closing? || w.Detached? || w.Finished? then w.read else None
  }

  /** The effects so far are what the worker's position says they are. */
  ghost predicate EffectsOk(w: Worker, effects: seq<Effect>) {
    match w
    case Reporting(p, read, call) => read == None && CallOk(p, read, call) && effects == CallEffect(p, call)
    case Closing(p, read, call) => read != Some(Lost) && CallOk(p, read, call) && effects == CallEffect(p, call)
    case Detached(p, read, call) => read != Some(Lost) && CallOk(p, read, call) && effects == CallEffect(p, call)
    case Finished(p, read, call) =>
      CallOk(p, read, call) && effects == Outcome(p, read, if call.Some? then call.value else Accepted)
    case _ => effects == []
  }

  predicate CallOk(p: Produced, read: Option<Interrupt>, call: Option<CallResult>) {
    call.Some? <==> read == None && p.delivery.Some?
  }

  function CallEffect(p: Produced, call: Option<CallResult>): seq<Effect>
    requires call.Some? ==> p.delivery.Some?
  {
    if call.Some? then [Delivered(p.delivery.value, call.value)] else []
  }

  /** Every renewal before the last left the run alone; the last decides what is stored. */
  ghost predicate CellOk(s: Run) {
    && s.writes == (if s.cell.Some? then 1 else 0)
    && (s.cell.Some? ==> s.heartbeat.Ended?)
    && (s.heartbeat.Decided? ==> EvidenceFor(s.renewals, s.heartbeat.stop))
    && (s.cell.Some? ==> EvidenceFor(s.renewals, s.cell.value))
    && (!s.heartbeat.Decided? && s.cell.None? ==> NoEvidence(s.renewals))
  }

  ghost predicate NoEvidence(answers: seq<Answer>) {
    forall a :: a in answers ==> !ForbidsDelivery(a)
  }

  ghost predicate EvidenceFor(answers: seq<Answer>, stop: Interrupt) {
    && answers != []
    && Interrupts(Classify(answers[|answers| - 1])) == Some(stop)
    && NoEvidence(answers[..|answers| - 1])
  }

  ghost predicate Invariant(s: Run) {
    && EffectsOk(s.worker, s.effects)
    && CellOk(s)
    && (HasRead(s.worker) && ReadOf(s.worker).Some? ==> s.cell == ReadOf(s.worker))
    && (s.heartbeat.Ended? && s.cell.None? ==> !s.worker.Executing? && !s.worker.Executed?)
  }

  lemma HeartbeatKeeps(s: Run, step: Step)
    requires Invariant(s)
    ensures Invariant(HeartbeatNext(s, step))
  {
    hide EffectsOk;
    if step.Renewed? && s.heartbeat.Renewing? {
      InterruptsOnlyOnEvidence(step.answer);
      var r := s.renewals + [step.answer];
      assert r[..|r| - 1] == s.renewals;
    }
  }

  lemma WorkerKeeps(s: Run, step: Step)
    requires Invariant(s)
    ensures Invariant(WorkerNext(s, step))
  {
    hide EvidenceFor, NoEvidence;
  }

  lemma NextKeeps(s: Run, step: Step)
    requires Invariant(s)
    ensures Invariant(Next(s, step))
  {
    hide EffectsOk, EvidenceFor, NoEvidence, HeartbeatNext, WorkerNext;
    HeartbeatKeeps(s, step);
    WorkerKeeps(s, step);
  }

  lemma {:induction false} RunKeeps(s: Run, steps: seq<Step>)
    requires Invariant(s)
    ensures Invariant(After(s, steps))
    decreases |steps|
  {
    hide Invariant, Next;
    if steps != [] {
      NextKeeps(s, steps[0]);
      RunKeeps(Next(s, steps[0]), steps[1..]);
    }
  }

  // ----- main results -----

  predicate OnceAndInOrder(effects: seq<Effect>) {
    forall i, j :: 0 <= i < j < |effects| ==> effects[i].Delivered? && effects[j].Settled?
  }

  /** Everything a finished run did to the outside. With nothing found it settles its report, after the
      delivery if it holds one back; a connector that refused makes it a failure under the same identity. A
      cancelled run only settles, and a lost one does nothing. */
  ghost predicate EffectsFor(p: Produced, read: Option<Interrupt>, call: Option<CallResult>, effects: seq<Effect>) {
    && (read == Some(Lost) ==> effects == [])
    && (read == Some(Cancelled) ==> effects == [Settled(p.report)])
    && (read == None && p.delivery == None ==> effects == [Settled(p.report)])
    && (read == None && p.delivery.Some? && call == Some(Accepted) ==>
          effects == [Delivered(p.delivery.value, Accepted), Settled(p.report)])
    && (forall error :: read == None && p.delivery.Some? && call == Some(Refused(error)) ==>
          effects == [Delivered(p.delivery.value, Refused(error)),
                      Settled(Report("failed", Some("connector: " + error), p.identity))])
    && (read == None && p.delivery.Some? ==> call.Some?)
  }

  /** In every interleaving there is at most one delivery and one settlement, in that order, and the
      cell is written at most once. A finished worker has done exactly what it read calls for, and read
      an interruption only if that was stored. */
  lemma DeliverySafety(steps: seq<Step>)
    ensures var s := After(START, steps);
            && OnceAndInOrder(s.effects)
            && s.writes <= 1
            && (s.worker.Finished? ==> EffectsFor(s.worker.p, s.worker.read, s.worker.call, s.effects))
            && (HasRead(s.worker) && ReadOf(s.worker).Some? ==> s.cell == ReadOf(s.worker))
  {
    RunKeeps(START, steps);
  }

  /** An interruption that is in the cell before the worker looks is obeyed, whatever happens next: a lost
      lease has no effects at all, a cancelled run settles exactly once and never delivers. */
  lemma StoredBeforeRead(steps: seq<Step>, later: seq<Step>)
    requires var s := After(START, steps); s.cell.Some? && !HasRead(s.worker)
    ensures var cell := After(START, steps).cell;
            var end := After(After(START, steps), later);
            && (cell == Some(Lost) ==> end.effects == [])
            && (cell == Some(Cancelled) ==> forall e :: e in end.effects ==> e.Settled?)
            && (cell == Some(Cancelled) && end.worker.Finished? ==> end.effects == [Settled(end.worker.p.report)])
  {
    var s := After(START, steps);
    RunKeeps(START, steps);
    ReadFollowsCell(s, later);
    RunKeeps(s, later);
  }

  /** The worker has not looked yet, or found what is in the cell. */
  ghost predicate Obeys(s: Run) {
    s.cell.Some? && !s.worker.Delivering? && (HasRead(s.worker) ==> ReadOf(s.worker) == s.cell)
  }

  lemma {:induction false} ReadFollowsCell(s: Run, steps: seq<Step>)
    requires Invariant(s) && Obeys(s)
    ensures Obeys(After(s, steps)) && After(s, steps).cell == s.cell
    decreases |steps|
  {
    hide EffectsOk, EvidenceFor, NoEvidence;
    if steps != [] {
      NextKeeps(s, steps[0]);
      ReadFollowsCell(Next(s, steps[0]), steps[1..]);
    }
  }

  /** A delivery that was due and did not happen had a renewal that forbade it; and every earlier
      renewal left the run alone. */
  lemma SkippedDeliveryHasEvidence(steps: seq<Step>)
    requires var s := After(START, steps);
             s.worker.Finished? && s.worker.p.delivery.Some? && forall e :: e in s.effects ==> !e.Delivered?
    ensures var s := After(START, steps);
            && s.renewals != []
            && ForbidsDelivery(s.renewals[|s.renewals| - 1])
            && NoEvidence(s.renewals[..|s.renewals| - 1])
  {
    var s := After(START, steps);
    RunKeeps(START, steps);
    var call := if s.worker.call.Some? then s.worker.call.value else Accepted;
    OutcomeDelivers(s.worker.p, call);
    InterruptsOnlyOnEvidence(s.renewals[|s.renewals| - 1]);
  }

  /** Where the worker has looked, what it holds and what it found stay as they are. */
  lemma {:induction false} ReadStays(s: Run, steps: seq<Step>)
    requires HasRead(s.worker)
    ensures var t := After(s, steps).worker;
            HasRead(t) && t.p == s.worker.p && ReadOf(t) == ReadOf(s.worker)
    decreases |steps|
  {
    if steps != [] {
      ReadStays(Next(s, steps[0]), steps[1..]);
    }
  }

  /** A run with a connector delivers exactly when nothing was stored by the moment its worker looked, and
      settles with the result or, if the connector refused it, with that failure. */
  lemma DeliversIffNothingStored(before: seq<Step>, later: seq<Step>)
    requires After(START, before).worker.Woken? && After(START, before).worker.p.delivery.Some?
    requires After(Next(After(START, before), ReadCell), later).worker.Finished?
    ensures var s := After(START, before);
            var p, effects := s.worker.p, After(Next(s, ReadCell), later).effects;
            && ((exists e :: e in effects && e.Delivered?) <==> s.cell == None)
            && (s.cell == None ==>
                  exists result ::
                    effects == [Delivered(p.delivery.value, result),
                                Settled(match result
                                        case Accepted => p.report
                                        case Refused(error) => Report("failed", Some("connector: " + error), p.identity))])
  {
    var s := After(START, before);
    var looked := Next(s, ReadCell);
    var end := After(looked, later);
    RunKeeps(START, before);
    NextKeeps(s, ReadCell);
    RunKeeps(looked, later);
    ReadStays(looked, later);
    var call := if end.worker.call.Some? then end.worker.call.value else Accepted;
    assert end.effects == Outcome(s.worker.p, s.cell, call);
    OutcomeDelivers(s.worker.p, call);
  }

  /** A run without a connector settles its report, and does nothing else, when nothing was stored by the
      moment its worker looked. */
  lemma SettlesWithoutConnector(before: seq<Step>, later: seq<Step>)
    requires After(START, before).worker.Woken? && After(START, before).worker.p.delivery.None?
    requires After(Next(After(START, before), ReadCell), later).worker.Finished?
    ensures var s := After(START, before);
            var effects := After(Next(s, ReadCell), later).effects;
            effects == [Settled(s.worker.p.report)] <==> s.cell != Some(Lost)
  {
    var s := After(START, before);
    RunKeeps(START, before);
    NextKeeps(s, ReadCell);
    RunKeeps(Next(s, ReadCell), later);
    ReadStays(Next(s, ReadCell), later);
  }

  /** What the worker holds is what the first execution produced, and what it takes for the connector's answer
      is one the connector gave. */
  lemma ProductIsExecuted(steps: seq<Step>)
    ensures var w := After(START, steps).worker;
            && (!w.Executing? ==> exists i :: 0 <= i < |steps| && steps[i] == Execute(w.p) && FirstExecution(steps, i))
            && (w.Finished? && w.call.Some? ==> Deliver(w.call.value) in steps)
  {
    HoldsProduct(START, steps);
  }

  ghost predicate FirstExecution(steps: seq<Step>, i: int) {
    forall j :: 0 <= j < i && j < |steps| ==> !steps[j].Execute?
  }

  function CallOf(w: Worker): Option<CallResult> {
    if w.Reporting? || w.Closing? || w.Detached? || w.Finished? then w.call else None
  }

  lemma {:induction false} HoldsProduct(s: Run, steps: seq<Step>)
    ensures var w := After(s, steps).worker;
            && (!s.worker.Executing? ==> !w.Executing? && w.p == s.worker.p)
            && (s.worker.Executing? && !w.Executing? ==>
                  exists i :: 0 <= i < |steps| && steps[i] == Execute(w.p) && FirstExecution(steps, i))
            && (CallOf(w).Some? ==> CallOf(w) == CallOf(s.worker) || Deliver(CallOf(w).value) in steps)
    decreases |steps|
  {
    if steps != [] {
      var next, w := Next(s, steps[0]), After(s, steps).worker;
      HoldsProduct(next, steps[1..]);
      assert steps == [steps[0]] + steps[1..];
      if s.worker.Executing? && !w.Executing? {
        if steps[0].Execute? {
          assert steps[0] == Execute(w.p) && FirstExecution(steps, 0);
        } else {
          var i :| 0 <= i < |steps[1..]| && steps[1..][i] == Execute(w.p) && FirstExecution(steps[1..], i);
          assert steps[i + 1] == Execute(w.p);
          forall j | 0 <= j < i + 1 ensures !steps[j].Execute? {
            if j > 0 { assert steps[j] == steps[1..][j - 1]; }
          }
          assert FirstExecution(steps, i + 1);
        }
      }
    }
  }

  /** While the action executes, the heartbeat renews until a renewal forbids the delivery. */
  lemma RenewsWhileExecuting(steps: seq<Step>)
    requires var s := After(START, steps); (s.worker.Executing? || s.worker.Executed?) && NoEvidence(s.renewals)
    ensures var s := After(START, steps); s.heartbeat.Waiting? || s.heartbeat.Renewing?
  {
    RunKeeps(START, steps);
    var s := After(START, steps);
    if s.renewals != [] { InterruptsOnlyOnEvidence(s.renewals[|s.renewals| - 1]); }
  }

  /** The publisher shows only phases the worker sent, and a publish that fails shows nothing. */
  lemma {:induction false} PublishedWasSent(s: Run, steps: seq<Step>, phase: string)
    ensures Shows(After(s, steps), phase) ==> Shows(s, phase) || Emit(phase) in steps || phase == "delivering" || phase == "settling"
    ensures Publish(true) !in steps ==> After(s, steps).publisher.published == s.publisher.published
    decreases |steps|
  {
    if steps != [] {
      assert steps == [steps[0]] + steps[1..];
      PublishedWasSent(Next(s, steps[0]), steps[1..], phase);
    }
  }

  predicate Shows(s: Run, phase: string) {
    phase in s.phases || s.publisher.current == Some(phase) || phase in s.publisher.published
  }

  lemma OutcomeDelivers(p: Produced, call: CallResult)
    requires p.delivery.Some?
    ensures exists e :: e in Outcome(p, None, call) && e.Delivered?
  {
    assert Outcome(p, None, call)[0].Delivered?;
  }

  // ----- noninterference -----

  /** Equal but for what the publisher sees, and for what harmless renewals said. */
  ghost predicate SameRun(s: Run, t: Run) {
    s.cell == t.cell && s.writes == t.writes && s.heartbeat == t.heartbeat && s.worker == t.worker && s.effects == t.effects
  }

  /** Equal, or two renewals that neither stop nor lose the run, or two phases. */
  predicate SameStep(a: Step, b: Step) {
    || a == b
    || (a.Emit? && b.Emit?)
    || (a.Renewed? && b.Renewed? && !ForbidsDelivery(a.answer) && !ForbidsDelivery(b.answer))
  }

  predicate SameSteps(a: seq<Step>, b: seq<Step>) {
    |a| == |b| && forall i :: 0 <= i < |a| ==> SameStep(a[i], b[i])
  }

  function WithoutPublisher(steps: seq<Step>): seq<Step> {
    if steps == [] then []
    else (if IsPublisher(steps[0]) then [] else [steps[0]]) + WithoutPublisher(steps[1..])
  }

  lemma SameNext(s: Run, t: Run, a: Step, b: Step)
    requires SameRun(s, t) && SameStep(a, b) && !IsPublisher(a)
    ensures SameRun(Next(s, a), Next(t, b))
  {
    if a.Renewed? {
      InterruptsOnlyOnEvidence(a.answer);
      InterruptsOnlyOnEvidence(b.answer);
    }
  }

  lemma PublisherUnseen(s: Run, step: Step)
    requires IsPublisher(step)
    ensures SameRun(Next(s, step), s)
  {
  }

  lemma {:induction false} StripUnseen(s: Run, t: Run, steps: seq<Step>)
    requires SameRun(s, t)
    ensures SameRun(After(s, steps), After(t, WithoutPublisher(steps)))
    decreases |steps|
  {
    hide Next, SameRun;
    if steps != [] {
      var rest := WithoutPublisher(steps[1..]);
      if IsPublisher(steps[0]) {
        PublisherUnseen(s, steps[0]);
        SameTransitive(Next(s, steps[0]), s, t);
        StripUnseen(Next(s, steps[0]), t, steps[1..]);
        assert WithoutPublisher(steps) == rest;
      } else {
        SameNext(s, t, steps[0], steps[0]);
        StripUnseen(Next(s, steps[0]), Next(t, steps[0]), steps[1..]);
        assert WithoutPublisher(steps)[1..] == rest;
      }
    }
  }

  lemma SameTransitive(s: Run, t: Run, u: Run)
    requires SameRun(s, t) && SameRun(t, u)
    ensures SameRun(s, u)
  {
  }

  lemma {:induction false} SameStepsSameRun(s: Run, t: Run, a: seq<Step>, b: seq<Step>)
    requires SameRun(s, t) && SameSteps(a, b) && forall x :: x in a ==> !IsPublisher(x)
    ensures SameRun(After(s, a), After(t, b))
    decreases |a|
  {
    hide Next, SameRun;
    if a != [] {
      assert a[0] in a && SameStep(a[0], b[0]);
      assert forall x :: x in a[1..] ==> x in a;
      SameNext(s, t, a[0], b[0]);
      SameStepsSameRun(Next(s, a[0]), Next(t, b[0]), a[1..], b[1..]);
    }
  }

  lemma {:induction false} StripsPublisher(steps: seq<Step>)
    ensures forall x :: x in WithoutPublisher(steps) ==> !IsPublisher(x)
  {
    if steps != [] {
      StripsPublisher(steps[1..]);
    }
  }

  /** Telemetry cannot touch the run: two schedules that differ only in what the publisher does, in the
      results of its publishes, in the phases sent to it, or in renewals that left the run alone (held or
      could not tell) end in the same cell, the same worker and the same effects. */
  lemma TelemetryInvisible(a: seq<Step>, b: seq<Step>)
    requires SameSteps(WithoutPublisher(a), WithoutPublisher(b))
    ensures SameRun(After(START, a), After(START, b))
  {
    var a', b' := WithoutPublisher(a), WithoutPublisher(b);
    StripUnseen(START, START, a);
    StripUnseen(START, START, b);
    StripsPublisher(a);
    SameStepsSameRun(START, START, a', b');
  }

  function OnlyWorker(steps: seq<Step>): seq<Step> {
    if steps == [] then [] else (if IsWorker(steps[0]) then [steps[0]] else []) + OnlyWorker(steps[1..])
  }

  /** A verdict that arrives after the worker has looked changes nothing it does. */
  lemma {:induction false} LateVerdictsIgnored(s: Run, t: Run, steps: seq<Step>)
    requires HasRead(s.worker) && s.worker == t.worker && s.effects == t.effects
    ensures var u, v := After(s, steps), After(t, OnlyWorker(steps)); u.worker == v.worker && u.effects == v.effects
    decreases |steps|
  {
    if steps != [] {
      var rest := OnlyWorker(steps[1..]);
      if IsWorker(steps[0]) {
        assert OnlyWorker(steps)[1..] == rest;
        LateVerdictsIgnored(Next(s, steps[0]), Next(t, steps[0]), steps[1..]);
      } else {
        assert OnlyWorker(steps) == rest;
        LateVerdictsIgnored(Next(s, steps[0]), t, steps[1..]);
      }
    }
  }

  // ----- nobody holds the worker back -----

  /** The worker's next move. */
  function NextMove(w: Worker): Step {
    match w
    case Executing => Execute(Produced(Report("failed", None, None), None, None))
    case Executed(_) => DropSender
    case Woken(_) => ReadCell
    case AtSeam(_, read) =>
      (match SettlementOf(read)
       case DeliverAndSettle => EmitDelivering
       case SettleOnly => EmitSettling
       case Abandon => DropEmitter)
    case Delivering(_) => Deliver(Accepted)
    case Reporting(_, _, _) => EmitSettling
    case Closing(_, _, _) => DropEmitter
    case Detached(_, _, _) => Settle
    case Finished(_, _, _) => Settle
  }

  function MovesLeft(w: Worker): nat {
    match w
    case Executing => 8
    case Executed(_) => 7
    case Woken(_) => 6
    case AtSeam(_, _) => 5
    case Delivering(_) => 4
    case Reporting(_, _, _) => 3
    case Closing(_, _, _) => 2
    case Detached(_, _, _) => 1
    case Finished(_, _, _) => 0
  }

  /** In any state the worker can finish by itself, however the heartbeat and the publisher stand. */
  lemma {:induction false} WorkerNeverWaits(s: Run)
    ensures exists steps :: |steps| <= 8 && (forall x :: x in steps ==> IsWorker(x)) && After(s, steps).worker.Finished?
    decreases MovesLeft(s.worker)
  {
    var steps := WorkerFinishes(s);
  }

  lemma {:induction false} WorkerFinishes(s: Run) returns (steps: seq<Step>)
    ensures |steps| <= MovesLeft(s.worker) && (forall x :: x in steps ==> IsWorker(x)) && After(s, steps).worker.Finished?
    decreases MovesLeft(s.worker)
  {
    steps := [];
    if !s.worker.Finished? {
      var move := NextMove(s.worker);
      var rest := WorkerFinishes(Next(s, move));
      steps := [move] + rest;
      assert steps[1..] == rest;
    }
  }

  /** A run without a fence has no heartbeat and no publisher: it does what a fenced run does when nothing
      interrupts it. */
  method RunUnfenced(p: Produced, result: CallResult) returns (effects: seq<Effect>)
    ensures p.delivery == None ==> effects == [Settled(p.report)]
    ensures p.delivery.Some? ==> |effects| == 2 && effects[0] == Delivered(p.delivery.value, result)
    ensures p.delivery.Some? && result == Accepted ==> effects[1] == Settled(p.report)
    ensures p.delivery.Some? && result.Refused? ==>
              effects[1] == Settled(Report("failed", Some("connector: " + result.error), p.identity))
    ensures EffectsFor(p, None, if p.delivery.Some? then Some(result) else None, effects)
  {
    effects := [];
    var call := None;
    if p.delivery.Some? {
      effects := [Delivered(p.delivery.value, result)];
      call := Some(result);
    }
    effects := effects + [Settled(Propagated(p, call))];
  }
}
