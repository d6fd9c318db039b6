/** Event ingest: the store's check-and-insert, the single-event door, and the batch door that must
    equal running the single one item by item.

    What the doors only consult (a project's policy, the preparation of an event, the clock, a store
    failure) comes with each item; the limit evaluation is any function of the rows and the event. */
module Ingest {
  import opened Wrappers
  import opened RustText

  datatype Event = Event(
    id: string, project: string, ts: int, provider: string, model: string,
    input: nat, output: nat, cost: Option<real>, rest: string)

  datatype Admission = Admission(admitted: bool, retryAfter: Option<nat>, breached: seq<string>)

  /** The verdict on an event, from the rows already stored and the time. */
  type Decider = (seq<Event>, Event, int) -> Admission

  datatype Fault = Unsupported | Other

  datatype StoreResult = Evaluated(admission: Admission) | Conflicts | Fails(fault: Fault)

  datatype Code =
    BadRequest | Forbidden | ProjectDisabled | TsTooOld | TsTooNew | UsageSubcountExceedsTotal | Conflict | Internal | NotSupported

  datatype Outcome =
    | Accepted(id: string, cost: Option<real>, duplicate: bool, breached: seq<string>)
    | Rejected(id: string, retryAfter: Option<nat>)
    | Invalid(code: Code)

  datatype Principal = Key(project: string, mayIngest: bool) | Admin | Dev

  /** Validation and the policy never answer `NotSupported`; only the store does. */
  type EarlyCode = c: Code | !c.NotSupported? witness BadRequest

  datatype Prepared = Fit(ev: Event) | Unfit(code: EarlyCode)

  /** One event as sent, with what the doors are told about it. `policy` is the project's enabled flag,
      or None when the lookup fails. */
  datatype Item = Item(ev: Event, policy: Option<bool>, prepared: Prepared,
                       now: int, fault: Option<Fault>, readFault: Option<Fault>)

  /** An event on its way into the store. */
  datatype Attempt = Attempt(ev: Event, now: int, fault: Option<Fault>)

  datatype World = World(rows: seq<Event>, alerts: seq<(Event, Admission)>)

  // ----- the store -----

  predicate HasId(rows: seq<Event>, id: string) {
    exists r :: r in rows && r.id == id
  }

  ghost predicate DistinctIds(rows: seq<Event>) {
    forall i, j :: 0 <= i < j < |rows| ==> rows[i].id != rows[j].id
  }

  /** Limits first: an id already stored is a conflict only once the event is admitted. */
  function InsertResult(rows: seq<Event>, decide: Decider, t: Attempt): StoreResult {
    if t.fault.Some? then Fails(t.fault.value)
    else
      var a := decide(rows, t.ev, t.now);
      if a.admitted && HasId(rows, t.ev.id) then Conflicts else Evaluated(a)
  }

  function InsertRows(rows: seq<Event>, decide: Decider, t: Attempt): seq<Event> {
    match InsertResult(rows, decide, t)
    case Evaluated(a) => if a.admitted then rows + [t.ev] else rows
    case _ => rows
  }

  function FindEvent(rows: seq<Event>, project: string, id: string): Option<Event> {
    if rows == [] then None
    else if rows[0].id == id && rows[0].project == project then Some(rows[0])
    else FindEvent(rows[1..], project, id)
  }

  // ----- the single-event door -----

  const DEV_DEFAULT_PROJECT := "default"

  /** The project an event belongs to; None for an event that names none and cannot be given one. */
  function Project(p: Principal, named: string): Option<string> {
    match p
    case Key(project, _) => Some(project)
    case Dev => Some(if Blank(named) then DEV_DEFAULT_PROJECT else named)
    case Admin => if Blank(named) then None else Some(named)
  }

  /** What happens to an event before the store is asked. */
  function Staged(p: Principal, item: Item): Prepared {
    match Project(p, item.ev.project)
    case None => Unfit(BadRequest)
    case Some(project) =>
      match item.policy
      case None => Unfit(Internal)
      case Some(enabled) =>
        if !enabled then Unfit(ProjectDisabled)
        else match item.prepared
          case Fit(ev) => Fit(ev.(project := project))
          case Unfit(code) => Unfit(code)
  }

  predicate SameLogical(stored: Event, incoming: Event) {
    && stored.project == incoming.project && stored.ts == incoming.ts
    && stored.provider == incoming.provider && stored.model == incoming.model
    && stored.input == incoming.input && stored.output == incoming.output
  }

  function FaultCode(f: Fault): Code {
    match f case Unsupported => NotSupported case Other => Internal
  }

  /** The answer, given what the store said and the rows a replay check reads. */
  function AnswerFor(ev: Event, result: StoreResult, rows: seq<Event>, readFault: Option<Fault>): Outcome {
    match result
    case Evaluated(a) => if a.admitted then Accepted(ev.id, ev.cost, false, a.breached) else Rejected(ev.id, a.retryAfter)
    case Fails(fault) => Invalid(FaultCode(fault))
    case Conflicts =>
      if readFault.Some? then Invalid(FaultCode(readFault.value))
      else
        match FindEvent(rows, ev.project, ev.id)
        case Some(s) => if SameLogical(s, ev) then Accepted(ev.id, s.cost, true, []) else Invalid(Conflict)
        case None => Invalid(Conflict)
  }

  function NoticesFor(ev: Event, result: StoreResult): seq<(Event, Admission)> {
    if result.Evaluated? then [(ev, result.admission)] else []
  }

  function AttemptOf(ev: Event, item: Item): Attempt {
    Attempt(ev, item.now, item.fault)
  }

  function Single(w: World, p: Principal, decide: Decider, item: Item): (World, Outcome) {
    match Staged(p, item)
    case Unfit(code) => (w, Invalid(code))
    case Fit(ev) =>
      var result := InsertResult(w.rows, decide, AttemptOf(ev, item));
      var rows := InsertRows(w.rows, decide, AttemptOf(ev, item));
      (World(rows, w.alerts + NoticesFor(ev, result)), AnswerFor(ev, result, rows, item.readFault))
  }

  /** The single door run over the items in order. */
  function Singles(w: World, p: Principal, decide: Decider, items: seq<Item>): (r: (World, seq<Outcome>))
    ensures |r.1| == |items|
  {
    if items == [] then (w, [])
    else
      var (before, outcomes) := Singles(w, p, decide, items[..|items| - 1]);
      var (after, outcome) := Single(before, p, decide, items[|items| - 1]);
      (after, outcomes + [outcome])
  }

  // ----- rows are only ever added -----

  lemma InsertGrows(rows: seq<Event>, decide: Decider, t: Attempt)
    requires DistinctIds(rows)
    ensures DistinctIds(InsertRows(rows, decide, t)) && rows <= InsertRows(rows, decide, t)
  {
  }

  lemma {:induction false} SinglesGrow(w: World, p: Principal, decide: Decider, items: seq<Item>)
    requires DistinctIds(w.rows)
    ensures DistinctIds(Singles(w, p, decide, items).0.rows) && w.rows <= Singles(w, p, decide, items).0.rows
  {
    if items != [] {
      SinglesGrow(w, p, decide, items[..|items| - 1]);
      var before := Singles(w, p, decide, items[..|items| - 1]).0;
      match Staged(p, items[|items| - 1])
      case Fit(ev) => InsertGrows(before.rows, decide, AttemptOf(ev, items[|items| - 1]));
      case Unfit(_) =>
    }
  }

  lemma {:induction false} FindPrefix(rows: seq<Event>, more: seq<Event>, project: string, id: string)
    requires rows <= more && DistinctIds(more) && HasId(rows, id)
    ensures FindEvent(rows, project, id) == FindEvent(more, project, id)
  {
    assert rows[0] == more[0];
    if rows[0].id == id {
      FindOther(rows, project, id);
      FindOther(more, project, id);
    } else {
      var r :| r in rows && r.id == id;
      assert rows == [rows[0]] + rows[1..];
      assert r in rows[1..];
      assert rows[1..] <= more[1..];
      FindPrefix(rows[1..], more[1..], project, id);
    }
  }

  /** With distinct ids only the first row of an id can be found. */
  lemma FindOther(rows: seq<Event>, project: string, id: string)
    requires rows != [] && rows[0].id == id && DistinctIds(rows)
    ensures FindEvent(rows, project, id) == if rows[0].project == project then Some(rows[0]) else None
  {
    FindAbsent(rows[1..], project, id);
  }

  lemma {:induction false} FindAbsent(rows: seq<Event>, project: string, id: string)
    requires forall r :: r in rows ==> r.id != id
    ensures FindEvent(rows, project, id) == None
  {
    if rows != [] {
      FindAbsent(rows[1..], project, id);
    }
  }

  lemma {:induction false} FindStored(rows: seq<Event>, ev: Event)
    requires ev in rows && DistinctIds(rows)
    ensures FindEvent(rows, ev.project, ev.id) == Some(ev)
  {
    if rows[0] != ev {
      assert rows == [rows[0]] + rows[1..];
      assert ev in rows[1..];
      FindStored(rows[1..], ev);
    }
  }

  /** The replay check may read the store at any later time. */
  lemma ReadBackLater(ev: Event, rows: seq<Event>, later: seq<Event>, decide: Decider, t: Attempt, readFault: Option<Fault>)
    requires t.ev == ev && InsertRows(rows, decide, t) <= later && DistinctIds(later)
    ensures var result := InsertResult(rows, decide, t);
            AnswerFor(ev, result, InsertRows(rows, decide, t), readFault) == AnswerFor(ev, result, later, readFault)
  {
    if InsertResult(rows, decide, t).Conflicts? {
      FindPrefix(rows, later, ev.project, ev.id);
    }
  }

  // ----- whose rows they are, and what is answered -----

  /** Where an event that names this project is stored. A key forces its own. */
  predicate GoesTo(p: Principal, named: string, project: string) {
    match p
    case Key(own, _) => project == own
    case Admin => !Blank(named) && project == named
    case Dev => project == if Blank(named) then "default" else named
  }

  /** An event that names no project, from an administrator, belongs to none. */
  predicate Unattributable(p: Principal, named: string) {
    p.Admin? && Blank(named)
  }

  /** What keeps an event from the store, and the code it is answered with. */
  predicate KeptOut(p: Principal, item: Item, code: Code) {
    if Unattributable(p, item.ev.project) then code == BadRequest
    else if item.policy == None then code == Internal
    else if item.policy == Some(false) then code == ProjectDisabled
    else item.prepared.Unfit? && code == item.prepared.code
  }

  /** An event kept out changes nothing and is answered with the first reason. */
  lemma KeptOutAnswered(w: World, p: Principal, decide: Decider, item: Item, code: Code)
    requires KeptOut(p, item, code)
    ensures Single(w, p, decide, item) == (w, Invalid(code))
  {
  }

  /** Any other event, case by case: a failing store; the limits; a new id; an id already stored, which only
      an event of the same project, time, provider, model and token counts may repeat. Every verdict of the
      limits is noted, and nothing else is. */
  lemma FitAnswered(w: World, p: Principal, decide: Decider, item: Item, project: string)
    requires GoesTo(p, item.ev.project, project) && item.policy == Some(true) && item.prepared.Fit?
    ensures var ev := item.prepared.ev.(project := project);
            var a := decide(w.rows, ev, item.now);
            var (after, outcome) := Single(w, p, decide, item);
            && (item.fault.Some? ==>
                  after == w && outcome == Invalid(if item.fault.value.Unsupported? then NotSupported else Internal))
            && (item.fault.None? && !a.admitted ==>
                  after == World(w.rows, w.alerts + [(ev, a)]) && outcome == Rejected(ev.id, a.retryAfter))
            && (item.fault.None? && a.admitted && (forall r :: r in w.rows ==> r.id != ev.id) ==>
                  after == World(w.rows + [ev], w.alerts + [(ev, a)]) && outcome == Accepted(ev.id, ev.cost, false, a.breached))
            && (item.fault.None? && a.admitted && !(forall r :: r in w.rows ==> r.id != ev.id) ==> after == w)
    ensures var ev := item.prepared.ev.(project := project);
            DistinctIds(w.rows) && item.fault.None? && decide(w.rows, ev, item.now).admitted ==>
              forall r :: r in w.rows && r.id == ev.id ==>
                Single(w, p, decide, item).1
                == if item.readFault.Some? then Invalid(if item.readFault.value.Unsupported? then NotSupported else Internal)
                   else if r.project == project && r.ts == ev.ts && r.provider == ev.provider && r.model == ev.model
                           && r.input == ev.input && r.output == ev.output
                   then Accepted(ev.id, r.cost, true, []) else Invalid(Conflict)
  {
    var ev := item.prepared.ev.(project := project);
    assert w.alerts + [] == w.alerts;
    forall r | DistinctIds(w.rows) && r in w.rows && r.id == ev.id
      ensures FindEvent(w.rows, project, ev.id) == if r.project == project then Some(r) else None
    {
      if r.project == project { FindStored(w.rows, r); } else { FindElsewhere(w.rows, r, project); }
    }
  }

  /** A row added for an item: of the project it goes to, and otherwise as prepared. */
  predicate RowFor(p: Principal, item: Item, row: Event) {
    && item.policy == Some(true) && item.prepared.Fit? && GoesTo(p, item.ev.project, row.project)
    && row == item.prepared.ev.(project := row.project)
  }

  /** The items `at` are those newly accepted, and the rows added are theirs, in order. */
  ghost predicate AddsAt(p: Principal, items: seq<Item>, before: seq<Event>, after: seq<Event>, outcomes: seq<Outcome>, at: seq<nat>)
    requires |outcomes| == |items|
  {
    && before <= after && |at| == |after| - |before|
    && (forall j, k :: 0 <= j < k < |at| ==> at[j] < at[k])
    && (forall i: nat :: i in at <==> i < |items| && outcomes[i].Accepted? && !outcomes[i].duplicate)
    && (forall k :: 0 <= k < |at| ==>
          var row := after[|before| + k];
          && at[k] < |items| && RowFor(p, items[at[k]], row)
          && outcomes[at[k]].Accepted? && outcomes[at[k]].id == row.id && outcomes[at[k]].cost == row.cost)
  }

  ghost predicate AddsAccepted(p: Principal, items: seq<Item>, before: seq<Event>, after: seq<Event>, outcomes: seq<Outcome>)
    requires |outcomes| == |items|
  {
    exists at :: AddsAt(p, items, before, after, outcomes, at)
  }

  /** What the single door adds: at most the event itself, for the project it goes to, and iff it is newly
      accepted. */
  lemma SingleAdds(w: World, p: Principal, decide: Decider, item: Item)
    ensures var (after, outcome) := Single(w, p, decide, item);
            if outcome.Accepted? && !outcome.duplicate
            then (exists row :: after.rows == w.rows + [row] && RowFor(p, item, row) && outcome.id == row.id && outcome.cost == row.cost)
            else after.rows == w.rows
  {
    if Unattributable(p, item.ev.project) {
      KeptOutAnswered(w, p, decide, item, BadRequest);
    } else if item.policy == None {
      KeptOutAnswered(w, p, decide, item, Internal);
    } else if item.policy == Some(false) {
      KeptOutAnswered(w, p, decide, item, ProjectDisabled);
    } else if item.prepared.Unfit? {
      KeptOutAnswered(w, p, decide, item, item.prepared.code);
    } else {
      assert item.policy.Some? && item.policy.value;
      var project := match p case Key(own, _) => own case Admin => item.ev.project
                             case Dev => if Blank(item.ev.project) then "default" else item.ev.project;
      FitAnswered(w, p, decide, item, project);
      assert RowFor(p, item, item.prepared.ev.(project := project));
    }
  }

  /** Over any run of the door, repeated ids and failures included: the rows added are exactly the newly
      accepted events, in order, each for its own project. */
  lemma {:induction false} RunAdds(w: World, p: Principal, decide: Decider, items: seq<Item>)
    ensures var (after, outcomes) := Singles(w, p, decide, items); AddsAccepted(p, items, w.rows, after.rows, outcomes)
  {
    hide Single, RowFor;
    if items == [] {
      assert AddsAt(p, items, w.rows, w.rows, [], []);
    } else {
      var n := |items| - 1;
      var init, item := items[..n], items[n];
      var (before, outcomes) := Singles(w, p, decide, init);
      RunAdds(w, p, decide, init);
      SingleAdds(before, p, decide, item);
      var (after, outcome) := Single(before, p, decide, item);
      var at :| AddsAt(p, init, w.rows, before.rows, outcomes, at);
      AddsSnoc(p, init, item, w.rows, before.rows, after.rows, outcomes, outcome, at);
      assert init + [item] == items;
    }
  }

  lemma AddsSnoc(p: Principal, init: seq<Item>, item: Item, first: seq<Event>, before: seq<Event>, after: seq<Event>,
                 outcomes: seq<Outcome>, outcome: Outcome, at: seq<nat>)
    requires |outcomes| == |init| && AddsAt(p, init, first, before, outcomes, at)
    requires if outcome.Accepted? && !outcome.duplicate
             then (exists row :: after == before + [row] && RowFor(p, item, row) && outcome.id == row.id && outcome.cost == row.cost)
             else after == before
    ensures AddsAccepted(p, init + [item], first, after, outcomes + [outcome])
  {
    hide RowFor;
    var items, all := init + [item], outcomes + [outcome];
    assert forall k :: 0 <= k < |at| ==> at[k] in at;
    if outcome.Accepted? && !outcome.duplicate {
      assert AddsAt(p, items, first, after, all, at + [|init|]);
    } else {
      assert AddsAt(p, items, first, after, all, at);
    }
  }

  // ----- replays -----

  /** A replay is acknowledged exactly when its id is stored as the same event and the limits still admit
      it. The store evaluates limits first, so at the cap a resend of a stored event is rejected. */
  lemma ReplayAcknowledged(w: World, p: Principal, decide: Decider, item: Item, stored: Event)
    requires DistinctIds(w.rows) && stored in w.rows && item.fault == None && item.readFault == None
    requires Staged(p, item).Fit? && Staged(p, item).ev.id == stored.id
    ensures var ev := Staged(p, item).ev;
            var a := decide(w.rows, ev, item.now);
            var (after, outcome) := Single(w, p, decide, item);
            && after.rows == w.rows
            && outcome == if !a.admitted then Rejected(ev.id, a.retryAfter)
                          else if stored.project == ev.project && stored.ts == ev.ts && stored.provider == ev.provider
                                  && stored.model == ev.model && stored.input == ev.input && stored.output == ev.output
                          then Accepted(ev.id, stored.cost, true, [])
                          else Invalid(Conflict)
  {
    var ev := Staged(p, item).ev;
    assert HasId(w.rows, ev.id);
    if ev.project == stored.project {
      FindStored(w.rows, stored);
    } else {
      FindElsewhere(w.rows, stored, ev.project);
    }
  }

  lemma {:induction false} FindElsewhere(rows: seq<Event>, stored: Event, project: string)
    requires stored in rows && DistinctIds(rows) && project != stored.project
    ensures FindEvent(rows, project, stored.id) == None
  {
    if rows[0] == stored {
      FindOther(rows, project, stored.id);
    } else {
      assert rows == [rows[0]] + rows[1..];
      assert stored in rows[1..];
      FindElsewhere(rows[1..], stored, project);
    }
  }
}
