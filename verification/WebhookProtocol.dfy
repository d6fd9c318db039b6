/** Webhook requests sharing one memory of deliveries and one store, interleaved in every way.

    A step is one lock section of the memory, one end of a store transaction, or one move of a
    handler. A handler may be dropped at any time; the store transaction it started runs on its own
    thread and ends whether or not anybody still waits for it. */
module WebhookProtocol {
  import opened Wrappers
  import opened SeenWebhooks

  /** Where a request's handler is. `Releasing` is dropping the claim without a commit, on the way to
      the answer, or to none if the handler itself was dropped. */
  datatype Phase =
    | Arrived
    | Claimed
    | Storing
    | Stored
    | Releasing(answer: Option<nat>)
    | Answered(status: nat)
    | Gone

  /** Why a batch failed, as the store or the join of its thread reports it. */
  datatype StoreError = ConflictError | UnsupportedError | OtherError

  function StatusOf(e: StoreError): nat {
    match e
    case ConflictError => 409
    case UnsupportedError => 501
    case OtherError => 500
  }

  /** The batch insert: one transaction, all or nothing. */
  datatype Task = NotStarted | Running | Committed | RolledBack

  datatype Request = Request(
    provider: string,
    delivery: Option<string>,
    project: string,
    records: seq<string>,
    phase: Phase,
    task: Task)

  datatype World = World(seen: Inner, requests: seq<Request>)

  datatype Step =
    | Arrive(provider: string, delivery: Option<string>, project: string, records: seq<string>)
    | Refuse(i: nat, status: nat)
    | TakeClaim(i: nat)
    | Spawn(i: nat)
    | TaskEnds(i: nat, ok: bool)
    | Join(i: nat, error: Option<StoreError>)
    | Finish(i: nat)
    | Disconnect(i: nat)
    | Release(i: nat)

  function KeyFor(provider: string, delivery: string): Key {
    provider + ":" + delivery
  }

  predicate HasKey(r: Request, key: Key) {
    r.delivery.Some? && KeyFor(r.provider, r.delivery.value) == key
  }

  predicate HoldsClaim(r: Request) {
    r.delivery.Some? && (r.phase.Claimed? || r.phase.Storing? || r.phase.Stored? || r.phase.Releasing?)
  }

  /** The statuses a request is refused with before its delivery is looked up: a bad request, a signature
      that does not verify, a provider or project that does not exist, a body too large, or a store that
      cannot say whether the project exists. */
  predicate IsRefusal(status: nat) {
    status == 400 || status == 401 || status == 404 || status == 413 || status == 500 || status == 501
  }

  /** What one step does to its own request, if it may be taken at all. The join may report an error
      for a transaction that did commit, if its thread died after. */
  function Moves(seen: Inner, r: Request, step: Step): Option<Request> {
    match step
    case Arrive(_, _, _, _) => None
    case Refuse(_, status) => if r.phase.Arrived? && IsRefusal(status) then Some(r.(phase := Answered(status))) else None
    case TakeClaim(_) =>
      if !r.phase.Arrived? then None
      else if r.delivery.None? then Some(r.(phase := Claimed))
      else
        (match Seen(seen, KeyFor(r.provider, r.delivery.value))
         case Done => Some(r.(phase := Answered(200)))
         case InFlight => Some(r.(phase := Answered(409)))
         case New => Some(r.(phase := Claimed)))
    case Spawn(_) => if r.phase.Claimed? then Some(r.(phase := Storing, task := Running)) else None
    case TaskEnds(_, ok) => if r.task.Running? then Some(r.(task := if ok then Committed else RolledBack)) else None
    case Join(_, error) =>
      if !r.phase.Storing? || r.task.Running? then None
      else if error == None then if r.task.Committed? then Some(r.(phase := Stored)) else None
      else if r.task.Committed? && error.value != OtherError then None
      else Some(r.(phase := Releasing(Some(StatusOf(error.value)))))
    case Finish(_) => if r.phase.Stored? then Some(r.(phase := Answered(200))) else None
    case Disconnect(_) =>
      if r.phase.Arrived? then Some(r.(phase := Gone))
      else if r.phase.Claimed? || r.phase.Storing? || r.phase.Stored? then Some(r.(phase := Releasing(None)))
      else None
    case Release(_) =>
      if !r.phase.Releasing? then None
      else Some(r.(phase := if r.phase.answer.Some? then Answered(r.phase.answer.value) else Gone))
  }

  /** The lock section a step takes, if any. */
  function Section(r: Request, step: Step): Option<Op> {
    if r.delivery.None? then None
    else
      var key := KeyFor(r.provider, r.delivery.value);
      match step
      case TakeClaim(_) => Some(Begins(key))
      case Finish(_) => Some(Commits(key))
      case Release(_) => Some(Forgets(key))
      case _ => None
  }

  function After(seen: Inner, capacity: nat, op: Option<Op>): Inner {
    if op.Some? then Apply(seen, capacity, op.value) else seen
  }

  /** A step that may not be taken leaves everything as it is. */
  function Next(capacity: nat, w: World, step: Step): World {
    match step
    case Arrive(provider, delivery, project, records) =>
      w.(requests := w.requests + [Request(provider, delivery, project, records, Arrived, NotStarted)])
    case _ =>
      if step.i >= |w.requests| then w
      else
        match Moves(w.seen, w.requests[step.i], step)
        case None => w
        case Some(moved) =>
          World(After(w.seen, capacity, Section(w.requests[step.i], step)), w.requests[step.i := moved])
  }

  function Run(capacity: nat, w: World, steps: seq<Step>): World
    decreases |steps|
  {
    if steps == [] then w else Run(capacity, Next(capacity, w, steps[0]), steps[1..])
  }

  const START := World(EMPTY, [])

  // ----- what holds in every reachable world -----

  predicate StoredUnder(r: Request, key: Key) {
    HasKey(r, key) && r.task.Committed?
  }

  /** Some attempt at this delivery committed its batch. */
  ghost predicate KeyStored(requests: seq<Request>, key: Key) {
    exists r :: r in requests && StoredUnder(r, key)
  }

  predicate ClaimsKey(r: Request, key: Key) {
    HoldsClaim(r) && HasKey(r, key)
  }

  ghost predicate ClaimLive(requests: seq<Request>, key: Key) {
    exists r :: r in requests && ClaimsKey(r, key)
  }

  /** The request's own batch is in the store, or an attempt at the same delivery was. */
  ghost predicate Covered(requests: seq<Request>, r: Request) {
    r.task.Committed? || (r.delivery.Some? && KeyStored(requests, KeyFor(r.provider, r.delivery.value)))
  }

  /** The statuses a request can be answered with, by what became of its batch. */
  predicate AnswerFits(r: Request, status: nat) {
    match r.task
    case NotStarted => status == 200 || status == 409 || IsRefusal(status)
    case Running => false
    case Committed => status == 200 || status == 500
    case RolledBack => status == 409 || status == 500 || status == 501
  }

  ghost predicate RequestOk(requests: seq<Request>, r: Request) {
    && (r.phase.Arrived? || r.phase.Claimed? ==> r.task.NotStarted?)
    && (r.phase.Stored? ==> r.task.Committed?)
    && (r.phase == Answered(200) ==> Covered(requests, r) && (r.task.Committed? || r.task.NotStarted?))
    && (r.phase.Storing? ==> !r.task.NotStarted?)
    && (r.phase.Releasing? && r.phase.answer.Some? ==> r.phase.answer.value != 200 && AnswerFits(r, r.phase.answer.value))
    && (r.phase.Answered? ==> AnswerFits(r, r.phase.status))
  }

  ghost predicate SeenOk(seen: Inner, requests: seq<Request>) {
    forall k :: k in seen.keys ==> if k in seen.inFlight then ClaimLive(requests, k) else KeyStored(requests, k)
  }

  ghost predicate Invariant(capacity: nat, w: World) {
    && WellFormed(w.seen, capacity)
    && SeenOk(w.seen, w.requests)
    && forall r :: r in w.requests ==> RequestOk(w.requests, r)
  }

  /** The request keeps its identity and a commit is never undone. */
  predicate Succeeds(r: Request, r': Request) {
    && r'.provider == r.provider && r'.delivery == r.delivery
    && r'.project == r.project && r'.records == r.records
    && (r.task.Committed? ==> r'.task.Committed?)
  }

  /** Every request of the first list is in the second, possibly further along. */
  ghost predicate Grows(a: seq<Request>, b: seq<Request>) {
    |a| <= |b| && forall i :: 0 <= i < |a| ==> Succeeds(a[i], b[i])
  }

  lemma StoredStays(a: seq<Request>, b: seq<Request>, key: Key)
    requires Grows(a, b) && KeyStored(a, key)
    ensures KeyStored(b, key)
  {
    var r :| r in a && StoredUnder(r, key);
    var i :| 0 <= i < |a| && a[i] == r;
    assert b[i] in b && StoredUnder(b[i], key);
  }

  lemma OkStays(a: seq<Request>, b: seq<Request>, r: Request)
    requires Grows(a, b) && RequestOk(a, r)
    ensures RequestOk(b, r)
  {
    if r.phase == Answered(200) && !r.task.Committed? {
      StoredStays(a, b, KeyFor(r.provider, r.delivery.value));
    }
  }

  /** The memory after one section agrees with the requests after it. */
  lemma SectionKeepsSeen(capacity: nat, w: World, i: nat, step: Step)
    requires capacity >= 1 && Invariant(capacity, w) && i < |w.requests|
    requires Moves(w.seen, w.requests[i], step).Some?
    ensures var moved := Moves(w.seen, w.requests[i], step).value;
            SeenOk(After(w.seen, capacity, Section(w.requests[i], step)), w.requests[i := moved])
  {
    var r := w.requests[i];
    var moved := Moves(w.seen, r, step).value;
    var after, requests := After(w.seen, capacity, Section(r, step)), w.requests[i := moved];
    assert requests[i] == moved && r in w.requests && moved in requests;
    assert RequestOk(w.requests, r);
    if Section(r, step).Some? && step.TakeClaim? {
      BeginFits(w.seen, capacity, KeyFor(r.provider, r.delivery.value));
    }
    forall k | k in after.keys
      ensures if k in after.inFlight then ClaimLive(requests, k) else KeyStored(requests, k)
    {
      if !HasKey(r, k) {
        assert k in w.seen.keys && (k in after.inFlight <==> k in w.seen.inFlight);
        OthersStay(w.requests, i, moved, k);
      } else if k in after.inFlight {
        StillClaimed(capacity, w, i, step, k);
      } else if k in w.seen.keys && k !in w.seen.inFlight {
        StoredStays(w.requests, requests, k);
      } else {
        assert step.Finish? && StoredUnder(moved, k);
      }
    }
  }

  lemma StillClaimed(capacity: nat, w: World, i: nat, step: Step, key: Key)
    requires capacity >= 1 && Invariant(capacity, w) && i < |w.requests|
    requires Moves(w.seen, w.requests[i], step).Some? && HasKey(w.requests[i], key)
    requires key in After(w.seen, capacity, Section(w.requests[i], step)).inFlight
    ensures ClaimLive(w.requests[i := Moves(w.seen, w.requests[i], step).value], key)
  {
    var r, moved := w.requests[i], Moves(w.seen, w.requests[i], step).value;
    var requests := w.requests[i := moved];
    assert requests[i] == moved && moved in requests;
    if ClaimsKey(moved, key) {
      return;
    }
    assert !ClaimsKey(r, key);
    assert key in w.seen.inFlight;
    var other :| other in w.requests && ClaimsKey(other, key);
    var j :| 0 <= j < |w.requests| && w.requests[j] == other;
    assert requests[j] in requests;
  }

  lemma OthersStay(requests: seq<Request>, i: nat, moved: Request, key: Key)
    requires i < |requests| && Succeeds(requests[i], moved) && !HasKey(requests[i], key)
    ensures ClaimLive(requests, key) ==> ClaimLive(requests[i := moved], key)
    ensures KeyStored(requests, key) ==> KeyStored(requests[i := moved], key)
  {
    var after := requests[i := moved];
    if ClaimLive(requests, key) {
      var r :| r in requests && ClaimsKey(r, key);
      var j :| 0 <= j < |requests| && requests[j] == r;
      assert after[j] in after;
    }
    if KeyStored(requests, key) {
      StoredStays(requests, after, key);
    }
  }

  lemma MovedOk(capacity: nat, w: World, i: nat, step: Step)
    requires capacity >= 1 && Invariant(capacity, w) && i < |w.requests|
    requires Moves(w.seen, w.requests[i], step).Some?
    ensures var moved := Moves(w.seen, w.requests[i], step).value; RequestOk(w.requests[i := moved], moved)
  {
    var r, moved := w.requests[i], Moves(w.seen, w.requests[i], step).value;
    var requests := w.requests[i := moved];
    assert RequestOk(w.requests, r);
    if r.delivery.Some? {
      var key := KeyFor(r.provider, r.delivery.value);
      if KeyStored(w.requests, key) {
        StoredStays(w.requests, requests, key);
      }
    }
  }

  /** Every step of every handler keeps the invariant. */
  lemma NextKeeps(capacity: nat, w: World, step: Step)
    requires capacity >= 1 && Invariant(capacity, w)
    ensures Invariant(capacity, Next(capacity, w, step))
    ensures Grows(w.requests, Next(capacity, w, step).requests)
  {
    var next := Next(capacity, w, step);
    if step.Arrive? {
    } else if step.i < |w.requests| && Moves(w.seen, w.requests[step.i], step).Some? {
      var r := w.requests[step.i];
      assert RequestOk(w.requests, r);
      if Section(r, step).Some? {
        ApplyFits(w.seen, capacity, Section(r, step).value);
      }
      SectionKeepsSeen(capacity, w, step.i, step);
      MovedOk(capacity, w, step.i, step);
      forall q | q in next.requests ensures RequestOk(next.requests, q) {
        if q in w.requests {
          OkStays(w.requests, next.requests, q);
        }
      }
    }
  }

  lemma {:induction false} RunKeeps(capacity: nat, w: World, steps: seq<Step>)
    requires capacity >= 1 && Invariant(capacity, w)
    ensures Invariant(capacity, Run(capacity, w, steps))
    ensures Grows(w.requests, Run(capacity, w, steps).requests)
    decreases |steps|
  {
    hide Invariant, Next;
    if steps != [] {
      NextKeeps(capacity, w, steps[0]);
      RunKeeps(capacity, Next(capacity, w, steps[0]), steps[1..]);
    }
  }

  // ----- main results -----

  /** No acknowledged delivery is lost: a request answered with any success has its own batch in the store,
      or, if it carries a delivery id, some attempt at that delivery does. The only success is 200. */
  lemma AcknowledgedIsStored(capacity: nat, steps: seq<Step>, i: nat)
    requires capacity >= 1
    requires var w := Run(capacity, START, steps);
             i < |w.requests| && w.requests[i].phase.Answered? && 200 <= w.requests[i].phase.status <= 299
    ensures var w := Run(capacity, START, steps);
            var r := w.requests[i];
            && r.phase.status == 200
            && (r.task.Committed? ||
                (r.delivery.Some? && exists a ::
                   && a in w.requests && a.task.Committed? && a.delivery.Some?
                   && a.provider + ":" + a.delivery.value == r.provider + ":" + r.delivery.value))
  {
    var w := Run(capacity, START, steps);
    RunKeeps(capacity, START, steps);
    var r := w.requests[i];
    assert r in w.requests && RequestOk(w.requests, r);
    if !r.task.Committed? {
      var a :| a in w.requests && StoredUnder(a, KeyFor(r.provider, r.delivery.value));
    }
  }

  /** What any answer says of the request's own batch. Without one: refused before the delivery was looked up,
      or answered from the memory. Stored: success, or an internal error when its thread died after the
      commit. Rolled back: the store's own error, and never a success. A batch still running has no answer. */
  lemma AnswerTellsBatch(capacity: nat, steps: seq<Step>, i: nat)
    requires capacity >= 1
    requires var w := Run(capacity, START, steps); i < |w.requests| && w.requests[i].phase.Answered?
    ensures var r := Run(capacity, START, steps).requests[i];
            var status := r.phase.status;
            && !r.task.Running?
            && (r.task.NotStarted? ==> status in {200, 400, 401, 404, 409, 413, 500, 501})
            && (r.task.Committed? ==> status in {200, 500})
            && (r.task.RolledBack? ==> status in {409, 500, 501})
  {
    var w := Run(capacity, START, steps);
    RunKeeps(capacity, START, steps);
    var r := w.requests[i];
    assert r in w.requests && RequestOk(w.requests, r);
  }

  /** A request waiting to look its delivery up, in any run: it is told 200 iff the delivery is remembered as
      done, and then its batch is in the store; 409 iff it is remembered as in flight, and then another request
      is at work on it; and otherwise, or without a delivery id, it goes on to store its batch. */
  lemma ClaimAnswers(capacity: nat, steps: seq<Step>, i: nat)
    requires capacity >= 1
    requires var w := Run(capacity, START, steps); i < |w.requests| && w.requests[i].phase.Arrived?
    ensures var w := Run(capacity, START, steps);
            var r, next := w.requests[i], Next(capacity, w, TakeClaim(i)).requests[i];
            var known := r.delivery.Some? && r.provider + ":" + r.delivery.value in w.seen.keys;
            var busy := r.delivery.Some? && r.provider + ":" + r.delivery.value in w.seen.inFlight;
            && (next == r.(phase := Answered(200)) <==> known && !busy)
            && (next == r.(phase := Answered(409)) <==> busy)
            && (next == r.(phase := Claimed) <==> !known)
            && (known && !busy ==> exists a :: a in w.requests && a.task.Committed? && a.delivery.Some?
                                     && a.provider + ":" + a.delivery.value == r.provider + ":" + r.delivery.value)
            && (busy ==> exists j :: 0 <= j < |w.requests| && j != i && HoldsClaim(w.requests[j])
                           && w.requests[j].provider + ":" + w.requests[j].delivery.value == r.provider + ":" + r.delivery.value)
  {
    var w := Run(capacity, START, steps);
    RunKeeps(capacity, START, steps);
    var r := w.requests[i];
    if r.delivery.Some? {
      var key := KeyFor(r.provider, r.delivery.value);
      if key in w.seen.inFlight {
        var a :| a in w.requests && ClaimsKey(a, key);
        var j :| 0 <= j < |w.requests| && w.requests[j] == a;
        assert HoldsClaim(w.requests[j]);
      } else if key in w.seen.keys {
        var a :| a in w.requests && StoredUnder(a, key);
      }
    }
  }

  /** How a request whose batch has ended goes on, whatever the other requests do. */
  ghost predicate OnItsWay(r: Request, r': Request) {
    && r'.task == r.task
    && (r.phase.Stored? ==> r'.phase.Stored? || r'.phase == Answered(200) || r'.phase == Releasing(None) || r'.phase.Gone?)
    && (r.phase.Releasing? ==>
          r'.phase == r.phase || r'.phase == if r.phase.answer.Some? then Answered(r.phase.answer.value) else Gone)
    && (r.phase == Answered(200) ==> r'.phase == Answered(200))
    && (r.phase.Gone? ==> r'.phase.Gone?)
  }

  /** Joining a batch: without an error the request can only come to be answered 200, unless its handler is
      dropped; with one, only with the status of that error. */
  lemma JoinAnswers(capacity: nat, steps: seq<Step>, i: nat, error: Option<StoreError>, later: seq<Step>)
    requires capacity >= 1
    requires var w := Run(capacity, START, steps);
             i < |w.requests| && w.requests[i].phase.Storing? && Next(capacity, w, Join(i, error)) != w
    ensures var w := Run(capacity, START, steps);
            var end := Run(capacity, Next(capacity, w, Join(i, error)), later);
            && i < |end.requests|
            && var r := end.requests[i];
            && (error == None ==> r.task.Committed? && (r.phase.Answered? ==> r.phase.status == 200))
            && (error != None && r.phase.Answered? ==>
                  r.phase.status == match error.value case ConflictError => 409 case UnsupportedError => 501 case OtherError => 500)
            && (error != None ==> !r.phase.Gone? && !r.phase.Stored?)
  {
    var w := Run(capacity, START, steps);
    var joined := Next(capacity, w, Join(i, error));
    StaysOnItsWay(capacity, joined, later, i);
  }

  lemma {:induction false} StaysOnItsWay(capacity: nat, w: World, steps: seq<Step>, i: nat)
    requires i < |w.requests| && !w.requests[i].task.Running?
    requires w.requests[i].phase.Stored? || w.requests[i].phase.Releasing? || w.requests[i].phase.Answered? || w.requests[i].phase.Gone?
    ensures var end := Run(capacity, w, steps);
            i < |end.requests| && OnItsWay(w.requests[i], end.requests[i])
            && (w.requests[i].phase.Answered? ==> end.requests[i] == w.requests[i])
    decreases |steps|
  {
    hide After, Section, Seen;
    if steps != [] {
      StaysOnItsWay(capacity, Next(capacity, w, steps[0]), steps[1..], i);
    }
  }

  /** The memory never swallows a delivery, and never wedges one: a key reads as done only if it was
      stored, and as in flight only while some handler still holds a claim on it. */
  lemma SeenIsHonest(capacity: nat, steps: seq<Step>, key: Key)
    requires capacity >= 1
    ensures var w := Run(capacity, START, steps);
            && (Seen(w.seen, key) == Done ==> KeyStored(w.requests, key))
            && (Seen(w.seen, key) == InFlight ==> ClaimLive(w.requests, key))
  {
    RunKeeps(capacity, START, steps);
  }

  /** The records a request brought are in the store, under its project. */
  ghost predicate OwnRecordsStored(requests: seq<Request>, r: Request) {
    exists a :: a in requests && a.task.Committed? && a.project == r.project && a.records == r.records
  }

  /** Requests for one delivery bring the same records for the same project. */
  ghost predicate KeyNamesDelivery(requests: seq<Request>) {
    forall a, b :: a in requests && b in requests && a.delivery.Some? && b.delivery.Some?
      && KeyFor(a.provider, a.delivery.value) == KeyFor(b.provider, b.delivery.value)
      ==> a.project == b.project && a.records == b.records
  }

  /** Provided a delivery key always names the same records and project, success means the request's own
      records are stored. The key does not include the project, so this is a real condition. */
  lemma AcknowledgedOwnRecords(capacity: nat, steps: seq<Step>, i: nat)
    requires capacity >= 1
    requires var w := Run(capacity, START, steps);
             i < |w.requests| && w.requests[i].phase.Answered? && 200 <= w.requests[i].phase.status <= 299
    requires KeyNamesDelivery(Run(capacity, START, steps).requests)
    ensures var w := Run(capacity, START, steps); OwnRecordsStored(w.requests, w.requests[i])
  {
    var w := Run(capacity, START, steps);
    AcknowledgedIsStored(capacity, steps, i);
    var r := w.requests[i];
    assert r in w.requests;
    if !r.task.Committed? {
      var a :| && a in w.requests && a.task.Committed? && a.delivery.Some?
               && a.provider + ":" + a.delivery.value == r.provider + ":" + r.delivery.value;
      assert a.project == r.project;
    }
  }

  /** Where it does not hold there is always a run that goes wrong: one delivery sent for two
      projects, or with two contents, is acknowledged for the second without being stored there. */
  lemma SharedKeyMisses(capacity: nat, provider: string, delivery: string,
                        project: string, records: seq<string>, project': string, records': seq<string>)
    requires capacity >= 1 && (project != project' || records != records')
    ensures exists steps ::
              var w := Run(capacity, START, steps);
              && |w.requests| == 2
              && w.requests[0].project == project && w.requests[0].records == records
              && w.requests[1].project == project' && w.requests[1].records == records'
              && w.requests[1].phase == Answered(200)
              && !OwnRecordsStored(w.requests, w.requests[1])
  {
    hide Run, KeyFor, Apply, Moves, Section, After;
    var arrived := Request(provider, Some(delivery), project, records, Arrived, NotStarted);
    var second := Request(provider, Some(delivery), project', records', Arrived, NotStarted);
    var key := KeyFor(provider, delivery);
    var seen := Inner({key}, {}, [key]);
    var stored := arrived.(phase := Answered(200), task := Committed);
    var steps := [Arrive(provider, Some(delivery), project, records), TakeClaim(0), Spawn(0), TaskEnds(0, true),
                  Join(0, None), Finish(0), Arrive(provider, Some(delivery), project', records'), TakeClaim(1)];
    var both := World(seen, [stored, second]);
    FirstDelivery(capacity, arrived, steps);
    Unfold(capacity, World(seen, [stored]), steps, 6, both);
    var end := World(seen, [stored, second.(phase := Answered(200))]);
    RepeatAnswered(capacity, seen, stored, second);
    Unfold(capacity, both, steps, 7, end);
    assert steps[8..] == [];
    Unfolded(capacity, end);
    assert Run(capacity, START, steps) == end;
  }

  lemma Unfolded(capacity: nat, w: World)
    ensures Run(capacity, w, []) == w
  {
  }

  lemma Unfold(capacity: nat, w: World, steps: seq<Step>, k: nat, next: World)
    requires k < |steps| && Next(capacity, w, steps[k]) == next
    ensures Run(capacity, w, steps[k..]) == Run(capacity, next, steps[k + 1..])
  {
    assert steps[k..][1..] == steps[k + 1..];
  }

  lemma FirstDelivery(capacity: nat, r: Request, steps: seq<Step>)
    requires capacity >= 1 && r.delivery.Some? && r.phase.Arrived? && r.task.NotStarted? && |steps| > 6
    requires steps[0] == Arrive(r.provider, r.delivery, r.project, r.records)
    requires steps[1] == TakeClaim(0) && steps[2] == Spawn(0) && steps[3] == TaskEnds(0, true)
    requires steps[4] == Join(0, None) && steps[5] == Finish(0)
    ensures Run(capacity, START, steps)
         == Run(capacity, World(Inner({KeyFor(r.provider, r.delivery.value)}, {}, [KeyFor(r.provider, r.delivery.value)]),
                                [r.(phase := Answered(200), task := Committed)]), steps[6..])
  {
    hide Run, KeyFor, Next, Moves, Section, After, Begin;
    var key := KeyFor(r.provider, r.delivery.value);
    var claimed, seen := Inner({key}, {key}, [key]), Inner({key}, {}, [key]);
    var w1 := World(EMPTY, [r]);
    assert Next(capacity, START, steps[0]) == w1 by { NextArrival(capacity, r); }
    Unfold(capacity, START, steps, 0, w1);
    assert steps[0..] == steps;
    ClaimAlone(capacity, r);
    Unfold(capacity, w1, steps, 1, World(claimed, [r.(phase := Claimed)]));
    StoredAlone(capacity, r, steps, claimed);
    var r5 := r.(phase := Stored, task := Committed);
    FinishAlone(capacity, r5);
    Unfold(capacity, World(claimed, [r5]), steps, 5, World(seen, [r5.(phase := Answered(200))]));
  }

  lemma StoredAlone(capacity: nat, r: Request, steps: seq<Step>, seen: Inner)
    requires r.task.NotStarted? && |steps| > 6
    requires steps[2] == Spawn(0) && steps[3] == TaskEnds(0, true) && steps[4] == Join(0, None)
    ensures Run(capacity, World(seen, [r.(phase := Claimed)]), steps[2..])
         == Run(capacity, World(seen, [r.(phase := Stored, task := Committed)]), steps[5..])
  {
    hide Run, Next;
    var r2 := r.(phase := Claimed);
    var r3 := r.(phase := Storing, task := Running);
    var r4 := r.(phase := Storing, task := Committed);
    var r5 := r.(phase := Stored, task := Committed);
    NextAlone(capacity, seen, r2, steps[2], seen, r3);
    Unfold(capacity, World(seen, [r2]), steps, 2, World(seen, [r3]));
    NextAlone(capacity, seen, r3, steps[3], seen, r4);
    Unfold(capacity, World(seen, [r3]), steps, 3, World(seen, [r4]));
    NextAlone(capacity, seen, r4, steps[4], seen, r5);
    Unfold(capacity, World(seen, [r4]), steps, 4, World(seen, [r5]));
  }

  lemma ClaimAlone(capacity: nat, r: Request)
    requires capacity >= 1 && r.delivery.Some? && r.phase.Arrived?
    ensures var key := KeyFor(r.provider, r.delivery.value);
            Next(capacity, World(EMPTY, [r]), TakeClaim(0)) == World(Inner({key}, {key}, [key]), [r.(phase := Claimed)])
  {
    hide KeyFor, Next;
    var key := KeyFor(r.provider, r.delivery.value);
    assert Begin(EMPTY, capacity, key) == Inner({key}, {key}, [key]) by {
      assert {} + {key} == {key} && [] + [key] == [key];
    }
    NextAlone(capacity, EMPTY, r, TakeClaim(0), Inner({key}, {key}, [key]), r.(phase := Claimed));
  }

  lemma FinishAlone(capacity: nat, r: Request)
    requires r.delivery.Some? && r.phase.Stored?
    ensures var key := KeyFor(r.provider, r.delivery.value);
            var seen := Inner({key}, {}, [key]);
            Next(capacity, World(Inner({key}, {key}, [key]), [r]), Finish(0)) == World(seen, [r.(phase := Answered(200))])
  {
    hide KeyFor, Next;
    var key := KeyFor(r.provider, r.delivery.value);
    var claimed := Inner({key}, {key}, [key]);
    assert claimed.inFlight - {key} == {};
    NextAlone(capacity, claimed, r, Finish(0), Inner({key}, {}, [key]), r.(phase := Answered(200)));
  }

  lemma RepeatAnswered(capacity: nat, seen: Inner, first: Request, second: Request)
    requires second.delivery.Some? && second.phase.Arrived?
    requires Seen(seen, KeyFor(second.provider, second.delivery.value)) == Done
    ensures Next(capacity, World(seen, [first, second]), TakeClaim(1))
         == World(seen, [first, second.(phase := Answered(200))])
  {
    assert [first, second][1 := second.(phase := Answered(200))] == [first, second.(phase := Answered(200))];
  }

  lemma NextArrival(capacity: nat, r: Request)
    requires r.phase.Arrived? && r.task.NotStarted?
    ensures Next(capacity, START, Arrive(r.provider, r.delivery, r.project, r.records)) == World(EMPTY, [r])
  {
  }

  lemma NextAlone(capacity: nat, seen: Inner, r: Request, step: Step, after: Inner, moved: Request)
    requires !step.Arrive? && step.i == 0
    requires Moves(seen, r, step) == Some(moved) && After(seen, capacity, Section(r, step)) == after
    ensures Next(capacity, World(seen, [r]), step) == World(after, [moved])
  {
    assert [r][0 := moved] == [moved];
  }

  /** The lock sections of a run, in order. */
  function Sections(capacity: nat, w: World, steps: seq<Step>): seq<Op>
    decreases |steps|
  {
    if steps == [] then []
    else SectionOf(w, steps[0]) + Sections(capacity, Next(capacity, w, steps[0]), steps[1..])
  }

  function SectionOf(w: World, step: Step): seq<Op> {
    if step.Arrive? || step.i >= |w.requests| || Moves(w.seen, w.requests[step.i], step).None? then []
    else
      match Section(w.requests[step.i], step)
      case None => []
      case Some(op) => [op]
  }

  /** The claims a run hands out. */
  function NewClaims(capacity: nat, w: World, steps: seq<Step>): nat {
    News(w.seen, capacity, Sections(capacity, w, steps))
  }

  /** A delivery that reads as done and on which nobody else holds a claim goes on reading as done until
      `capacity` claims are behind it, whatever else happens. */
  lemma {:induction false} DoneUntilEvicted(capacity: nat, w: World, steps: seq<Step>, key: Key)
    requires capacity >= 1 && Invariant(capacity, w)
    requires Seen(w.seen, key) == Done && !ClaimLive(w.requests, key)
    requires Behind(w.seen.fifo, key) + NewClaims(capacity, w, steps) < capacity
    ensures var end := Run(capacity, w, steps); Seen(end.seen, key) == Done && !ClaimLive(end.requests, key)
    decreases |steps|
  {
    hide Invariant, Next, News, Apply, WellFormed;
    if steps != [] {
      var next := Next(capacity, w, steps[0]);
      NextKeeps(capacity, w, steps[0]);
      NewsStep(capacity, w, steps);
      DoneStep(capacity, w, steps[0], key);
      DoneUntilEvicted(capacity, next, steps[1..], key);
    }
  }

  lemma NewsStep(capacity: nat, w: World, steps: seq<Step>)
    requires steps != []
    ensures NewClaims(capacity, w, steps)
         == News(w.seen, capacity, SectionOf(w, steps[0])) + NewClaims(capacity, Next(capacity, w, steps[0]), steps[1..])
  {
    var next := Next(capacity, w, steps[0]);
    var section, rest := SectionOf(w, steps[0]), Sections(capacity, next, steps[1..]);
    assert next.seen == ApplyAll(w.seen, capacity, section);
    if section != [] {
      assert (section + rest)[1..] == rest;
    } else {
      assert section + rest == rest;
    }
  }

  lemma DoneStep(capacity: nat, w: World, step: Step, key: Key)
    requires capacity >= 1 && Invariant(capacity, w)
    requires Seen(w.seen, key) == Done && !ClaimLive(w.requests, key)
    requires Behind(w.seen.fifo, key) + News(w.seen, capacity, SectionOf(w, step)) < capacity
    ensures var next := Next(capacity, w, step);
            && Seen(next.seen, key) == Done && !ClaimLive(next.requests, key)
            && Behind(next.seen.fifo, key) <= Behind(w.seen.fifo, key) + News(w.seen, capacity, SectionOf(w, step))
  {
    var next := Next(capacity, w, step);
    if !step.Arrive? && step.i < |w.requests| && Moves(w.seen, w.requests[step.i], step).Some? {
      var r := w.requests[step.i];
      assert r in w.requests && !ClaimsKey(r, key);
      if Section(r, step).Some? {
        var op := Section(r, step).value;
        assert op != Forgets(key);
        StepRemembers(w.seen, capacity, op, key);
      }
    }
  }
}
