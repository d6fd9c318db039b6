/** What the cloud's answer to a fenced write tells the device. */
module Lease {
  import opened Wrappers

  /** The typed body of an answer, or a body that is not one. */
  datatype Body =
    | Unreadable
    | SaysHeld(deadline: Option<nat>, cancelRequested: bool)
    | SaysNotHeld(holder: string)
    | SaysNoSuchRecord

  datatype Answer = TransportError(message: string) | Http(status: nat, body: Body)

  datatype Verdict =
    | Held(deadline: Option<nat>)
    | Stop
    | Reclaimed(holder: Option<string>)
    | NoSuchTask
    | Unknown

  function FromHttp(status: nat, body: Body): Verdict {
    if 200 <= status <= 299 then
      match body
      case SaysHeld(deadline, cancelRequested) => if cancelRequested then Stop else Held(deadline)
      case _ => Held(None)
    else if status == 409 then
      Reclaimed(if body.SaysNotHeld? then Some(body.holder) else None)
    else if status == 404 then NoSuchTask
    else Unknown
  }

  function Classify(answer: Answer): Verdict {
    match answer
    case TransportError(_) => Unknown
    case Http(status, body) => FromHttp(status, body)
  }

  /** What a verdict makes the heartbeat store. */
  datatype Interrupt = Cancelled | Lost

  function Interrupts(v: Verdict): Option<Interrupt> {
    match v
    case Held(_) => None
    case Stop => Some(Cancelled)
    case Reclaimed(_) => Some(Lost)
    case NoSuchTask => Some(Lost)
    case Unknown => None
  }

  /** The cloud said, with its status code and its typed body, that this run must not deliver. */
  predicate ForbidsDelivery(answer: Answer) {
    answer.Http? &&
    (answer.status == 409 || answer.status == 404 ||
     (200 <= answer.status <= 299 && answer.body.SaysHeld? && answer.body.cancelRequested))
  }

  /** Only status codes and a typed cancel interrupt a run; a transport failure, another status or an
      unreadable body never does, whatever its text says. */
  lemma InterruptsOnlyOnEvidence(answer: Answer)
    ensures Interrupts(Classify(answer)).Some? <==> ForbidsDelivery(answer)
    ensures Interrupts(Classify(answer)) == Some(Cancelled) <==>
              answer.Http? && 200 <= answer.status <= 299 && answer.body.SaysHeld? && answer.body.cancelRequested
    ensures Interrupts(Classify(answer)) == Some(Lost) <==> answer.Http? && (answer.status == 409 || answer.status == 404)
    // What is reported beside the decision comes from the typed body alone.
    ensures Classify(answer).Unknown? <==>
              answer.TransportError? || !(200 <= answer.status <= 299 || answer.status == 409 || answer.status == 404)
    ensures Classify(answer).Held? && Classify(answer).deadline.Some? ==>
              answer.body == SaysHeld(Classify(answer).deadline, false)
    ensures answer.Http? && 200 <= answer.status <= 299 && answer.body.SaysHeld? && !answer.body.cancelRequested ==>
              Classify(answer) == Held(answer.body.deadline)
    ensures Classify(answer).Reclaimed? ==>
              (Classify(answer).holder.Some? <==> answer.body.SaysNotHeld?)
              && (answer.body.SaysNotHeld? ==> Classify(answer).holder == Some(answer.body.holder))
  {
  }
}
