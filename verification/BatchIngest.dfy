/** The batch door: prepare every item, insert the fit ones in one critical section, and scatter the
    answers back over their slots. */
module BatchIngest {
  import opened Wrappers
  import opened Ingest

  // ----- the fit items of a batch, in order -----

  function FitIndices(p: Principal, items: seq<Item>): seq<nat> {
    if items == [] then []
    else
      var n := |items| - 1;
      var init := FitIndices(p, items[..n]);
      if Staged(p, items[n]).Fit? then init + [n] else init
  }

  function Attempts(p: Principal, items: seq<Item>): seq<Attempt> {
    if items == [] then []
    else
      var n := |items| - 1;
      var init := Attempts(p, items[..n]);
      if Staged(p, items[n]).Fit? then init + [AttemptOf(Staged(p, items[n]).ev, items[n])] else init
  }

  function Inserted(rows: seq<Event>, decide: Decider, attempts: seq<Attempt>): seq<Event> {
    if attempts == [] then rows
    else InsertRows(Inserted(rows, decide, attempts[..|attempts| - 1]), decide, attempts[|attempts| - 1])
  }

  function Results(rows: seq<Event>, decide: Decider, attempts: seq<Attempt>): (r: seq<StoreResult>)
    ensures |r| == |attempts|
  {
    if attempts == [] then []
    else
      var n := |attempts| - 1;
      Results(rows, decide, attempts[..n]) + [InsertResult(Inserted(rows, decide, attempts[..n]), decide, attempts[n])]
  }

  function Notices(attempts: seq<Attempt>, results: seq<StoreResult>): seq<(Event, Admission)>
    requires |attempts| == |results|
  {
    if attempts == [] then []
    else
      var n := |attempts| - 1;
      Notices(attempts[..n], results[..n]) + NoticesFor(attempts[n].ev, results[n])
  }

  // ----- the door -----

  /** Inside a batch every store failure reads as internal; the single door can say unsupported. */
  function InBatch(o: Outcome): Outcome {
    if o == Invalid(NotSupported) then Invalid(Internal) else o
  }

  datatype Response =
    | Refused(code: Code)
    | Answered(accepted: nat, rejected: nat, invalid: nat, results: seq<(nat, Outcome)>)

  /** When the transaction cannot begin or commit, every item that reached the store fails. */
  function Faulted(item: Item): Item {
    item.(fault := Some(Other))
  }

  function Marked(attempts: seq<Attempt>, commits: bool): seq<Attempt> {
    if commits then attempts else seq(|attempts|, i requires 0 <= i < |attempts| => attempts[i].(fault := Some(Other)))
  }

  function Effective(items: seq<Item>, commits: bool): seq<Item> {
    if commits then items else seq(|items|, i requires 0 <= i < |items| => Faulted(items[i]))
  }

  datatype Kind = AnAccepted | ARejected | AnInvalid

  function KindOf(o: Outcome): Kind {
    match o
    case Accepted(_, _, _, _) => AnAccepted
    case Rejected(_, _) => ARejected
    case Invalid(_) => AnInvalid
  }

  function Count(results: seq<(nat, Outcome)>, kind: Kind): nat {
    if results == [] then 0 else Count(results[..|results| - 1], kind) + if KindOf(results[|results| - 1].1) == kind then 1 else 0
  }

  class Server {
    var rows: seq<Event>
    var alerts: seq<(Event, Admission)>

    ghost predicate Valid()
      reads this
    {
      DistinctIds(rows)
    }

    constructor ()
      ensures Valid() && rows == [] && alerts == []
    {
      rows, alerts := [], [];
    }

    function Value(): World
      reads this
    {
      World(rows, alerts)
    }

    /** One atomic check and insert. */
    method InsertChecked(decide: Decider, t: Attempt) returns (result: StoreResult)
      modifies this`rows
      ensures result == InsertResult(old(rows), decide, t) && rows == InsertRows(old(rows), decide, t)
    {
      if t.fault.Some? {
        return Fails(t.fault.value);
      }
      var a := decide(rows, t.ev, t.now);
      if a.admitted {
        if HasId(rows, t.ev.id) {
          return Conflicts;
        }
        rows := rows + [t.ev];
      }
      return Evaluated(a);
    }

    /** One transaction for the whole batch. */
    method InsertAllChecked(decide: Decider, attempts: seq<Attempt>, commits: bool) returns (results: seq<StoreResult>)
      modifies this`rows
      ensures results == Results(old(rows), decide, Marked(attempts, commits))
      ensures rows == Inserted(old(rows), decide, Marked(attempts, commits))
    {
      var before := rows;
      results := [];
      for k := 0 to |attempts|
        invariant results == Results(old(rows), decide, attempts[..k])
        invariant rows == Inserted(old(rows), decide, attempts[..k])
      {
        assert attempts[..k + 1][..k] == attempts[..k];
        var result := InsertChecked(decide, attempts[k]);
        results := results + [result];
      }
      assert attempts[..|attempts|] == attempts;
      if !commits {
        rows := before;
        results := seq(|attempts|, _ => Fails(Other));
        AllFail(old(rows), decide, Marked(attempts, false));
      }
    }

    /** POST /v1/events */
    method PostEvent(p: Principal, decide: Decider, item: Item) returns (outcome: Outcome)
      requires Valid()
      modifies this
      ensures Valid()
      ensures if p.Key? && !p.mayIngest then outcome == Invalid(Forbidden) && Value() == old(Value())
              else (Value(), outcome) == Single(old(Value()), p, decide, item)
      // The only row it may add is the event's own, for the project it goes to.
      ensures outcome != Invalid(Forbidden) ==> AddsAccepted(p, [item], old(rows), rows, [outcome])
      ensures !(outcome.Accepted? && !outcome.duplicate) ==> rows == old(rows)
    {
      SinglesOfOne(Value(), p, decide, item);
      RunAdds(Value(), p, decide, [item]);
      SingleAdds(Value(), p, decide, item);
      if p.Key? && !p.mayIngest {
        return Invalid(Forbidden);
      }
      var staged := Staged(p, item);
      if staged.Unfit? {
        return Invalid(staged.code);
      }
      var ev := staged.ev;
      InsertGrows(rows, decide, AttemptOf(ev, item));
      var result := InsertChecked(decide, AttemptOf(ev, item));
      assert alerts + [] == alerts;
      match result {
        case Conflicts =>
          if item.readFault.Some? {
            return Invalid(FaultCode(item.readFault.value));
          }
          var stored := FindEvent(rows, ev.project, ev.id);
          return if stored.Some? && SameLogical(stored.value, ev) then Accepted(ev.id, stored.value.cost, true, [])
                 else Invalid(Conflict);
        case Fails(fault) =>
          return Invalid(FaultCode(fault));
        case Evaluated(a) =>
          alerts := alerts + [(ev, a)];
          return if a.admitted then Accepted(ev.id, ev.cost, false, a.breached) else Rejected(ev.id, a.retryAfter);
      }
    }

    /** Prepare every item; an unfit one gets its answer now, a fit one an empty slot. */
    method Prepare(p: Principal, items: seq<Item>)
      returns (slots: seq<Option<(nat, Outcome)>>, valid: seq<Attempt>, validIdx: seq<nat>)
      ensures valid == Attempts(p, items) && validIdx == FitIndices(p, items)
      ensures |slots| == |items| && forall i :: 0 <= i < |items| ==> slots[i] == FirstAnswer(p, items, i)
    {
      slots, valid, validIdx := [], [], [];
      for i := 0 to |items|
        invariant valid == Attempts(p, items[..i]) && validIdx == FitIndices(p, items[..i])
        invariant |slots| == i && forall j :: 0 <= j < i ==> slots[j] == FirstAnswer(p, items, j)
      {
        assert items[..i + 1][..i] == items[..i];
        match Staged(p, items[i]) {
          case Fit(ev) =>
            validIdx := validIdx + [i];
            valid := valid + [AttemptOf(ev, items[i])];
            slots := slots + [None];
          case Unfit(code) =>
            slots := slots + [Some((i, Invalid(code)))];
        }
      }
      assert items[..|items|] == items;
    }

    /** The answer to one item that reached the store, by now with the whole batch in it. */
    method Answer(ev: Event, result: StoreResult, readFault: Option<Fault>) returns (outcome: Outcome)
      modifies this`alerts
      ensures outcome == InBatch(AnswerFor(ev, result, rows, readFault))
      ensures alerts == old(alerts) + NoticesFor(ev, result)
    {
      match result
      case Evaluated(a) =>
        alerts := alerts + [(ev, a)];
        outcome := if a.admitted then Accepted(ev.id, ev.cost, false, a.breached) else Rejected(ev.id, a.retryAfter);
      case Conflicts =>
        if readFault.Some? {
          outcome := Invalid(Internal);
        } else {
          var stored := FindEvent(rows, ev.project, ev.id);
          outcome := if stored.Some? && SameLogical(stored.value, ev) then Accepted(ev.id, stored.value.cost, true, [])
                     else Invalid(Conflict);
        }
      case Fails(_) =>
        outcome := Invalid(Internal);
    }

    /** Fill the empty slots from the store's results. */
    method Scatter(p: Principal, items: seq<Item>, prepared: seq<Option<(nat, Outcome)>>, results: seq<StoreResult>)
      returns (slots: seq<Option<(nat, Outcome)>>)
      requires |prepared| == |items| && |results| == |Attempts(p, items)|
      requires forall i :: 0 <= i < |items| ==> prepared[i] == FirstAnswer(p, items, i)
      modifies this`alerts
      ensures |slots| == |items|
      ensures alerts == old(alerts) + Notices(Attempts(p, items), results)
      ensures forall i :: 0 <= i < |items| && Staged(p, items[i]).Unfit? ==> slots[i] == prepared[i]
      ensures |FitIndices(p, items)| == |results|
      ensures forall k :: 0 <= k < |results| ==> FilledBy(p, items, slots, results[k], rows, FitIndices(p, items)[k])
    {
      hide InBatch, AnswerFor, NoticesFor, Attempts, FitIndices, Notices;
      var valid, validIdx := Attempts(p, items), FitIndices(p, items);
      FitMeaning(p, items);
      slots := prepared;
      NoticesSnoc(valid, results, 0);
      for k := 0 to |results|
        invariant |slots| == |items|
        invariant alerts == old(alerts) + Notices(valid[..k], results[..k])
        invariant forall i :: 0 <= i < |items| && Staged(p, items[i]).Unfit? ==> slots[i] == prepared[i]
        invariant forall j :: 0 <= j < k ==> FilledBy(p, items, slots, results[j], rows, validIdx[j])
      {
        var index := validIdx[k];
        assert FitAt(p, items, k);
        NoticesSnoc(valid, results, k);
        var outcome := Answer(valid[k].ev, results[k], items[index].readFault);
        slots := slots[index := Some((index, outcome))];
      }
      assert valid[..|valid|] == valid && results[..|results|] == results;
    }

    /** Every slot is filled by now; unwrap and count. */
    method Collect(slots: seq<Option<(nat, Outcome)>>) returns (response: Response)
      requires forall i :: 0 <= i < |slots| ==> slots[i].Some?
      ensures response.Answered? && |response.results| == |slots|
      ensures forall i :: 0 <= i < |slots| ==> response.results[i] == slots[i].value
      ensures CountsAgree(response)
    {
      var results := seq(|slots|, i requires 0 <= i < |slots| => slots[i].value);
      var accepted, rejected, invalid := 0, 0, 0;
      for i := 0 to |results|
        invariant accepted == Count(results[..i], AnAccepted)
        invariant rejected == Count(results[..i], ARejected)
        invariant invalid == Count(results[..i], AnInvalid)
        invariant accepted + rejected + invalid == i
      {
        assert results[..i + 1][..i] == results[..i];
        match results[i].1 {
          case Accepted(_, _, _, _) => accepted := accepted + 1;
          case Rejected(_, _) => rejected := rejected + 1;
          case Invalid(_) => invalid := invalid + 1;
        }
      }
      assert results[..|results|] == results;
      CountIs(results);
      return Answered(accepted, rejected, invalid, results);
    }

    /** POST /v1/events/batch: the single door run over the items in order, slot by slot. `commits` is
        whether the batch transaction does. */
    method PostBatch(p: Principal, decide: Decider, items: seq<Item>, cap: nat, commits: bool) returns (response: Response)
      requires Valid()
      modifies this
      ensures Valid()
      ensures p.Key? && !p.mayIngest ==> response == Refused(Forbidden)
      ensures !(p.Key? && !p.mayIngest) && (items == [] || |items| > cap) ==> response == Refused(BadRequest)
      ensures response.Refused? ==> Value() == old(Value())
      ensures !(p.Key? && !p.mayIngest) && 0 < |items| <= cap ==>
                && Value() == Singles(old(Value()), p, decide, Effective(items, commits)).0
                && IsBatchOf(response, Singles(old(Value()), p, decide, Effective(items, commits)).1)
      // The rows added are those of the newly accepted items, each for the project it goes to.
      ensures response.Answered? ==> |response.results| == |items| && AddsAccepted(p, items, old(rows), rows, OutcomesOf(response.results))
      // A transaction that fails stores nothing and accepts nothing.
      ensures !commits ==> rows == old(rows)
      ensures response.Answered? && !commits ==> forall i :: 0 <= i < |items| ==> response.results[i].1.Invalid?
    {
      if p.Key? && !p.mayIngest {
        return Refused(Forbidden);
      }
      if items == [] || |items| > cap {
        return Refused(BadRequest);
      }
      hide Singles, Attempts, FitIndices, Effective, Marked, Inserted, Results, Notices, AnswerFor, DistinctIds, FirstAnswer,
           AddsAccepted, CountsAgree;
      ghost var before, eff := Value(), Effective(items, commits);
      var slots, valid, validIdx := Prepare(p, items);
      var results: seq<StoreResult> := [];
      if valid == [] {
      } else {
        results := InsertAllChecked(decide, valid, commits);
      }
      slots := Scatter(p, items, slots, results);
      SlotsAreSingles(before, p, decide, items, commits, slots);
      response := Collect(slots);
      BatchAdds(before, p, decide, items, commits, OutcomesOf(response.results));
    }
  }

  /** One result a slot, in order, each the single door's; and the three counts are of those. */
  ghost predicate IsBatchOf(response: Response, outcomes: seq<Outcome>) {
    && response.Answered? && |response.results| == |outcomes|
    && (forall i :: 0 <= i < |outcomes| ==>
          response.results[i] == (i, if outcomes[i] == Invalid(NotSupported) then Invalid(Internal) else outcomes[i]))
    && CountsAgree(response)
  }

  ghost predicate CountsAgree(response: Response) {
    && response.Answered?
    && response.accepted == |set i | 0 <= i < |response.results| && response.results[i].1.Accepted?|
    && response.rejected == |set i | 0 <= i < |response.results| && response.results[i].1.Rejected?|
    && response.invalid == |set i | 0 <= i < |response.results| && response.results[i].1.Invalid?|
    && response.accepted + response.rejected + response.invalid == |response.results|
  }

  function Places(results: seq<(nat, Outcome)>, kind: Kind): set<int> {
    set i | 0 <= i < |results| && KindOf(results[i].1) == kind
  }

  lemma {:induction false} CountIsPlaces(results: seq<(nat, Outcome)>, kind: Kind)
    ensures Count(results, kind) == |Places(results, kind)|
  {
    hide KindOf;
    if results != [] {
      var n := |results| - 1;
      CountIsPlaces(results[..n], kind);
      var before := Places(results[..n], kind);
      assert n !in before;
      assert Places(results, kind) == if KindOf(results[n].1) == kind then before + {n} else before;
    }
  }

  lemma CountIs(results: seq<(nat, Outcome)>)
    ensures Count(results, AnAccepted) == |set i | 0 <= i < |results| && results[i].1.Accepted?|
    ensures Count(results, ARejected) == |set i | 0 <= i < |results| && results[i].1.Rejected?|
    ensures Count(results, AnInvalid) == |set i | 0 <= i < |results| && results[i].1.Invalid?|
  {
    hide Count;
    CountIsPlaces(results, AnAccepted);
    CountIsPlaces(results, ARejected);
    CountIsPlaces(results, AnInvalid);
    assert (set i | 0 <= i < |results| && results[i].1.Accepted?) == Places(results, AnAccepted);
    assert (set i | 0 <= i < |results| && results[i].1.Rejected?) == Places(results, ARejected);
    assert (set i | 0 <= i < |results| && results[i].1.Invalid?) == Places(results, AnInvalid);
  }

  function OutcomesOf(results: seq<(nat, Outcome)>): (outcomes: seq<Outcome>)
    ensures |outcomes| == |results| && forall i :: 0 <= i < |results| ==> outcomes[i] == results[i].1
  {
    seq(|results|, i requires 0 <= i < |results| => results[i].1)
  }

  lemma SinglesOfOne(w: World, p: Principal, decide: Decider, item: Item)
    ensures var (after, outcome) := Single(w, p, decide, item); Singles(w, p, decide, [item]) == (after, [outcome])
  {
    hide Single;
    var items := [item];
    assert items[..|items| - 1] == [];
    var (before, outcomes) := Singles(w, p, decide, items[..|items| - 1]);
    assert before == w && outcomes == [];
    assert [] + [Single(w, p, decide, item).1] == [Single(w, p, decide, item).1];
  }

  /** What the single door adds for items whose store may have failed, it adds for the items themselves. */
  lemma BatchAdds(w: World, p: Principal, decide: Decider, items: seq<Item>, commits: bool, answers: seq<Outcome>)
    requires |answers| == |items|
    requires |Singles(w, p, decide, Effective(items, commits)).1| == |items|
    requires forall i :: 0 <= i < |items| ==> answers[i] == InBatch(Singles(w, p, decide, Effective(items, commits)).1[i])
    ensures AddsAccepted(p, items, w.rows, Singles(w, p, decide, Effective(items, commits)).0.rows, answers)
    ensures !commits ==> Singles(w, p, decide, Effective(items, commits)).0.rows == w.rows && forall i :: 0 <= i < |items| ==> answers[i].Invalid?
  {
    var eff := Effective(items, commits);
    var (after, outcomes) := Singles(w, p, decide, eff);
    RunAdds(w, p, decide, eff);
    if !commits { FaultedStoresNothing(w, p, decide, items); }
    hide Singles, RowFor, Effective;
    var at :| AddsAt(p, eff, w.rows, after.rows, outcomes, at);
    SameItems(p, items, commits);
    assert AddsAt(p, items, w.rows, after.rows, answers, at);
  }

  lemma SameItems(p: Principal, items: seq<Item>, commits: bool)
    ensures |Effective(items, commits)| == |items|
    ensures forall i, row :: 0 <= i < |items| ==> (RowFor(p, Effective(items, commits)[i], row) <==> RowFor(p, items[i], row))
  {
  }

  lemma {:induction false} FaultedStoresNothing(w: World, p: Principal, decide: Decider, items: seq<Item>)
    ensures var (after, outcomes) := Singles(w, p, decide, Effective(items, false));
            && |outcomes| == |items| && after.rows == w.rows
            && forall i :: 0 <= i < |items| ==> outcomes[i].Invalid?
  {
    if items != [] {
      var n := |items| - 1;
      FaultedStoresNothing(w, p, decide, items[..n]);
      assert Effective(items, false)[..n] == Effective(items[..n], false);
    }
  }

  function FirstAnswer(p: Principal, items: seq<Item>, i: nat): Option<(nat, Outcome)>
    requires i < |items|
  {
    match Staged(p, items[i])
    case Fit(_) => None
    case Unfit(code) => Some((i, Invalid(code)))
  }

  ghost predicate FilledBy(p: Principal, items: seq<Item>, slots: seq<Option<(nat, Outcome)>>, result: StoreResult,
                           rows: seq<Event>, index: nat)
  {
    && index < |items| == |slots| && Staged(p, items[index]).Fit?
    && slots[index] == Some((index, InBatch(AnswerFor(Staged(p, items[index]).ev, result, rows, items[index].readFault))))
  }

  /** The k-th fit item: where it stands, and what comes before it. */
  ghost predicate FitAt(p: Principal, items: seq<Item>, k: nat) {
    && k < |FitIndices(p, items)| == |Attempts(p, items)|
    && FitIndices(p, items)[k] < |items|
    && var i := FitIndices(p, items)[k];
    && Staged(p, items[i]).Fit?
    && Attempts(p, items)[k] == AttemptOf(Staged(p, items[i]).ev, items[i])
    && Attempts(p, items[..i]) == Attempts(p, items)[..k]
  }

  lemma {:induction false} FitMeaning(p: Principal, items: seq<Item>)
    ensures |FitIndices(p, items)| == |Attempts(p, items)|
    ensures forall k: nat :: k < |FitIndices(p, items)| ==> FitAt(p, items, k)
    ensures forall j, k :: 0 <= j < k < |FitIndices(p, items)| ==> FitIndices(p, items)[j] < FitIndices(p, items)[k]
    ensures forall i :: 0 <= i < |items| && Staged(p, items[i]).Fit? ==> i in FitIndices(p, items)
  {
    if items != [] {
      var n := |items| - 1;
      var init := items[..n];
      FitSnoc(p, items);
      hide FitIndices, Attempts, Staged;
      FitMeaning(p, init);
      assert forall i :: 0 <= i < n ==> init[i] == items[i];
      forall k: nat | k < |FitIndices(p, init)| ensures FitIndices(p, init)[k] < n {
        assert FitAt(p, init, k);
      }
      forall k: nat | k < |FitIndices(p, items)| ensures FitAt(p, items, k) {
        if k < |FitIndices(p, init)| {
          FitStays(p, items, k);
        } else {
          assert Attempts(p, items)[..k] == Attempts(p, init);
        }
      }
    }
  }

  lemma FitSnoc(p: Principal, items: seq<Item>)
    requires items != []
    ensures var n := |items| - 1;
            var fit := Staged(p, items[n]).Fit?;
            && FitIndices(p, items) == FitIndices(p, items[..n]) + (if fit then [n] else [])
            && Attempts(p, items)
               == Attempts(p, items[..n]) + (if fit then [AttemptOf(Staged(p, items[n]).ev, items[n])] else [])
  {
    hide Staged;
  }

  lemma FitStays(p: Principal, items: seq<Item>, k: nat)
    requires items != [] && FitAt(p, items[..|items| - 1], k)
    ensures |FitIndices(p, items)| == |Attempts(p, items)| ==> FitAt(p, items, k)
  {
    FitSnoc(p, items);
    hide FitIndices, Attempts, Staged;
    var init := items[..|items| - 1];
    var i := FitIndices(p, init)[k];
    assert items[..i] == init[..i] && items[i] == init[i];
    assert Attempts(p, items)[..k] == Attempts(p, init)[..k];
  }

  lemma NoticesSnoc(attempts: seq<Attempt>, results: seq<StoreResult>, k: nat)
    requires |attempts| == |results| && k <= |attempts|
    ensures k < |attempts| ==>
              Notices(attempts[..k + 1], results[..k + 1]) == Notices(attempts[..k], results[..k]) + NoticesFor(attempts[k].ev, results[k])
    ensures k == 0 ==> Notices(attempts[..k], results[..k]) == []
  {
    if k < |attempts| {
      assert attempts[..k + 1][..k] == attempts[..k] && results[..k + 1][..k] == results[..k];
    }
  }

  lemma {:induction false} AllFail(rows: seq<Event>, decide: Decider, attempts: seq<Attempt>)
    requires forall t :: t in attempts ==> t.fault == Some(Other)
    ensures Results(rows, decide, attempts) == seq(|attempts|, _ => Fails(Other))
    ensures Inserted(rows, decide, attempts) == rows
  {
    if attempts != [] {
      AllFail(rows, decide, attempts[..|attempts| - 1]);
      assert attempts[|attempts| - 1] in attempts;
    }
  }

  // ----- the batch and the single door -----

  lemma {:induction false} SinglesAt(w: World, p: Principal, decide: Decider, items: seq<Item>, i: nat)
    requires i < |items|
    ensures Singles(w, p, decide, items).1[i] == Single(Singles(w, p, decide, items[..i]).0, p, decide, items[i]).1
  {
    hide Single;
    var n := |items| - 1;
    if i < n {
      SinglesAt(w, p, decide, items[..n], i);
      assert items[..n][..i] == items[..i];
    }
  }

  /** Rows and notices of the single door come from the fit items alone. */
  lemma {:induction false} SinglesRows(w: World, p: Principal, decide: Decider, items: seq<Item>)
    ensures var attempts := Attempts(p, items);
            Singles(w, p, decide, items).0
            == World(Inserted(w.rows, decide, attempts), w.alerts + Notices(attempts, Results(w.rows, decide, attempts)))
  {
    hide InsertRows, InsertResult, NoticesFor, Staged, AnswerFor;
    if items == [] {
      assert w.alerts + [] == w.alerts;
    } else {
      var n := |items| - 1;
      var attempts := Attempts(p, items[..n]);
      SinglesRows(w, p, decide, items[..n]);
      match Staged(p, items[n])
      case Fit(ev) =>
        var t := AttemptOf(ev, items[n]);
        assert (attempts + [t])[..|attempts|] == attempts;
        InsertedSnoc(w.rows, decide, attempts, t);
      case Unfit(_) =>
    }
  }

  lemma InsertedSnoc(rows: seq<Event>, decide: Decider, attempts: seq<Attempt>, t: Attempt)
    ensures Inserted(rows, decide, attempts + [t]) == InsertRows(Inserted(rows, decide, attempts), decide, t)
    ensures var result := InsertResult(Inserted(rows, decide, attempts), decide, t);
            && Results(rows, decide, attempts + [t]) == Results(rows, decide, attempts) + [result]
            && Notices(attempts + [t], Results(rows, decide, attempts + [t]))
               == Notices(attempts, Results(rows, decide, attempts)) + NoticesFor(t.ev, result)
  {
    hide InsertRows, InsertResult, NoticesFor;
    assert (attempts + [t])[..|attempts|] == attempts;
    assert Results(rows, decide, attempts + [t])[..|attempts|] == Results(rows, decide, attempts);
  }

  lemma {:induction false} ResultsAt(rows: seq<Event>, decide: Decider, attempts: seq<Attempt>, k: nat)
    requires k < |attempts| && DistinctIds(rows)
    ensures Results(rows, decide, attempts)[k] == InsertResult(Inserted(rows, decide, attempts[..k]), decide, attempts[k])
    ensures DistinctIds(Inserted(rows, decide, attempts))
    ensures InsertRows(Inserted(rows, decide, attempts[..k]), decide, attempts[k]) <= Inserted(rows, decide, attempts)
    decreases |attempts|
  {
    hide InsertRows, InsertResult, DistinctIds;
    var n := |attempts| - 1;
    if k < n {
      ResultsAt(rows, decide, attempts[..n], k);
      assert attempts[..n][..k] == attempts[..k];
    } else {
      InsertedDistinct(rows, decide, attempts[..n]);
    }
    InsertGrows(Inserted(rows, decide, attempts[..n]), decide, attempts[n]);
  }

  lemma {:induction false} InsertedDistinct(rows: seq<Event>, decide: Decider, attempts: seq<Attempt>)
    requires DistinctIds(rows)
    ensures DistinctIds(Inserted(rows, decide, attempts))
  {
    hide InsertRows, DistinctIds;
    if attempts != [] {
      InsertedDistinct(rows, decide, attempts[..|attempts| - 1]);
      InsertGrows(Inserted(rows, decide, attempts[..|attempts| - 1]), decide, attempts[|attempts| - 1]);
    }
  }

  lemma {:induction false} EffectiveStages(p: Principal, items: seq<Item>, commits: bool)
    ensures var eff := Effective(items, commits);
            && |eff| == |items|
            && FitIndices(p, eff) == FitIndices(p, items)
            && Attempts(p, eff) == Marked(Attempts(p, items), commits)
            && forall i :: 0 <= i < |items| ==>
                 Staged(p, eff[i]) == Staged(p, items[i]) && eff[i].readFault == items[i].readFault
  {
    if !commits && items != [] {
      var n := |items| - 1;
      EffectiveStages(p, items[..n], commits);
      assert Effective(items, commits)[..n] == Effective(items[..n], commits);
    }
  }

  /** A batch answer, read back from the whole batch, is the single door's at its place. */
  lemma AnswerIsSingle(w: World, p: Principal, decide: Decider, items: seq<Item>, k: nat)
    requires DistinctIds(w.rows) && k < |FitIndices(p, items)| && FitAt(p, items, k)
    ensures var i, attempts := FitIndices(p, items)[k], Attempts(p, items);
            AnswerFor(Staged(p, items[i]).ev, Results(w.rows, decide, attempts)[k], Inserted(w.rows, decide, attempts), items[i].readFault)
            == Singles(w, p, decide, items).1[i]
  {
    hide InsertRows, InsertResult, DistinctIds, AnswerFor, NoticesFor, Staged, Attempts, FitIndices, Singles, Results, Inserted, Notices;
    var i, attempts := FitIndices(p, items)[k], Attempts(p, items);
    var ev := Staged(p, items[i]).ev;
    SinglesAt(w, p, decide, items, i);
    SinglesRows(w, p, decide, items[..i]);
    ResultsAt(w.rows, decide, attempts, k);
    ReadBackLater(ev, Inserted(w.rows, decide, attempts[..k]), Inserted(w.rows, decide, attempts), decide, attempts[k], items[i].readFault);
  }

  lemma SlotsAreSingles(w: World, p: Principal, decide: Decider, items: seq<Item>, commits: bool, slots: seq<Option<(nat, Outcome)>>)
    requires DistinctIds(w.rows) && |slots| == |items|
    requires forall i :: 0 <= i < |items| && Staged(p, items[i]).Unfit? ==> slots[i] == FirstAnswer(p, items, i)
    requires var attempts := Marked(Attempts(p, items), commits);
             var results := Results(w.rows, decide, attempts);
             && |FitIndices(p, items)| == |results|
             && forall k :: 0 <= k < |results| ==>
                  FilledBy(p, items, slots, results[k], Inserted(w.rows, decide, attempts), FitIndices(p, items)[k])
    ensures forall i :: 0 <= i < |items| ==>
              slots[i] == Some((i, InBatch(Singles(w, p, decide, Effective(items, commits)).1[i])))
    ensures var attempts := Marked(Attempts(p, items), commits);
            Singles(w, p, decide, Effective(items, commits)).0
            == World(Inserted(w.rows, decide, attempts), w.alerts + Notices(Attempts(p, items), Results(w.rows, decide, attempts)))
    ensures DistinctIds(Singles(w, p, decide, Effective(items, commits)).0.rows)
  {
    hide DistinctIds, AnswerFor, NoticesFor, Attempts, FitIndices, Singles, Results, Inserted, Notices, Effective, Marked, Staged;
    var eff := Effective(items, commits);
    EffectiveStages(p, items, commits);
    FitMeaning(p, items);
    FitMeaning(p, eff);
    SinglesRows(w, p, decide, eff);
    SameNotices(Attempts(p, items), commits, Results(w.rows, decide, Attempts(p, eff)));
    SinglesGrow(w, p, decide, eff);
    forall i | 0 <= i < |items| ensures slots[i] == Some((i, InBatch(Singles(w, p, decide, eff).1[i]))) {
      if Staged(p, items[i]).Unfit? {
        SinglesAt(w, p, decide, eff, i);
      } else {
        var k :| 0 <= k < |FitIndices(p, eff)| && FitIndices(p, eff)[k] == i;
        AnswerIsSingle(w, p, decide, eff, k);
      }
    }
  }

  lemma {:induction false} SameNotices(attempts: seq<Attempt>, commits: bool, results: seq<StoreResult>)
    requires |attempts| == |results|
    ensures |Marked(attempts, commits)| == |results|
    ensures Notices(Marked(attempts, commits), results) == Notices(attempts, results)
  {
    if !commits && attempts != [] {
      var n := |attempts| - 1;
      SameNotices(attempts[..n], commits, results[..n]);
      assert Marked(attempts, commits)[..n] == Marked(attempts[..n], commits);
    }
  }

  // ----- sending a batch again -----

  /** The same event, prepared again: same id, project and logical content. Its price, its redaction and
      whatever the doors are told may differ. */
  predicate SameSend(p: Principal, first: Item, again: Item) {
    && Staged(p, first).Fit? && Staged(p, again).Fit?
    && Staged(p, first).ev.id == Staged(p, again).ev.id
    && SameLogical(Staged(p, first).ev, Staged(p, again).ev)
  }

  /** An accepted event is stored, as itself or as an earlier sending of it, at the cost reported. */
  ghost predicate StoredAs(rows: seq<Event>, ev: Event, cost: Option<real>) {
    exists s :: s in rows && s.id == ev.id && SameLogical(s, ev) && s.cost == cost
  }

  lemma AcceptedIsStored(w: World, p: Principal, decide: Decider, item: Item)
    requires Single(w, p, decide, item).1.Accepted?
    ensures Staged(p, item).Fit?
    ensures var (after, o) := Single(w, p, decide, item); o.id == Staged(p, item).ev.id && StoredAs(after.rows, Staged(p, item).ev, o.cost)
  {
    var ev := Staged(p, item).ev;
    var (after, o) := Single(w, p, decide, item);
    if o.duplicate {
      FoundIsThere(after.rows, ev.project, ev.id);
    } else {
      assert ev in after.rows;
    }
  }

  lemma {:induction false} FoundIsThere(rows: seq<Event>, project: string, id: string)
    ensures var f := FindEvent(rows, project, id); f.Some? ==> f.value in rows && f.value.id == id && f.value.project == project
  {
    if rows != [] {
      FoundIsThere(rows[1..], project, id);
    }
  }

  lemma {:induction false} SinglesPrefixGrows(w: World, p: Principal, decide: Decider, items: seq<Item>, i: nat)
    requires DistinctIds(w.rows) && i <= |items|
    ensures Singles(w, p, decide, items[..i]).0.rows <= Singles(w, p, decide, items).0.rows
    ensures DistinctIds(Singles(w, p, decide, items).0.rows)
    ensures w.rows <= Singles(w, p, decide, items[..i]).0.rows
  {
    hide Single, DistinctIds;
    SinglesGrow(w, p, decide, items[..i]);
    SinglesGrow(w, p, decide, items);
    if i < |items| {
      var n := |items| - 1;
      SinglesPrefixGrows(w, p, decide, items[..n], i);
      assert items[..n][..i] == items[..i];
      var before := Singles(w, p, decide, items[..n]).0;
      SinglesGrow(before, p, decide, [items[n]]);
      assert Singles(before, p, decide, [items[n]]).0 == Single(before, p, decide, items[n]).0 by {
        assert [items[n]][..0] == [];
      }
    } else {
      assert items[..i] == items;
    }
  }

  /** Sending a whole batch again is safe: an item accepted before is acknowledged as a duplicate with the
      outcome it had, as long as the limits admit it; otherwise it is rejected and can be sent later. */
  lemma ResendAcknowledges(w: World, p: Principal, decide: Decider, items: seq<Item>, again: seq<Item>, i: nat)
    requires DistinctIds(w.rows) && i < |items| == |again| && SameSend(p, items[i], again[i])
    requires again[i].fault == None && again[i].readFault == None
    requires Singles(w, p, decide, items).1[i].Accepted?
    ensures var (stored, firsts) := Singles(w, p, decide, items);
            var meanwhile := Singles(stored, p, decide, again[..i]).0;
            var a := decide(meanwhile.rows, Staged(p, again[i]).ev, again[i].now);
            Singles(stored, p, decide, again).1[i]
            == if a.admitted then Accepted(firsts[i].id, firsts[i].cost, true, []) else Rejected(firsts[i].id, a.retryAfter)
  {
    hide Single, Singles, Staged, DistinctIds;
    var ev, ev' := Staged(p, items[i]).ev, Staged(p, again[i]).ev;
    var (stored, firsts) := Singles(w, p, decide, items);
    var s := StoredRow(w, p, decide, items, i);
    SinglesAt(stored, p, decide, again, i);
    SinglesPrefixGrows(w, p, decide, items, i);
    SinglesPrefixGrows(stored, p, decide, again, i);
    var meanwhile := Singles(stored, p, decide, again[..i]).0;
    SinglesGrow(stored, p, decide, again[..i]);
    ReplayAcknowledged(meanwhile, p, decide, again[i], s);
  }

  lemma StoredRow(w: World, p: Principal, decide: Decider, items: seq<Item>, i: nat) returns (s: Event)
    requires DistinctIds(w.rows) && i < |items| && Singles(w, p, decide, items).1[i].Accepted?
    ensures Staged(p, items[i]).Fit?
    ensures var (stored, firsts) := Singles(w, p, decide, items);
            && s in stored.rows && s.id == firsts[i].id == Staged(p, items[i]).ev.id
            && SameLogical(s, Staged(p, items[i]).ev) && s.cost == firsts[i].cost
  {
    hide Single, Singles, Staged, DistinctIds;
    SinglesAt(w, p, decide, items, i);
    var before := Singles(w, p, decide, items[..i]).0;
    AcceptedIsStored(before, p, decide, items[i]);
    var o := Single(before, p, decide, items[i]).1;
    var after := Single(before, p, decide, items[i]).0;
    s :| s in after.rows && s.id == o.id && SameLogical(s, Staged(p, items[i]).ev) && s.cost == o.cost;
    SinglesStep(w, p, decide, items, i);
    SinglesPrefixGrows(w, p, decide, items, i + 1);
  }

  lemma SinglesStep(w: World, p: Principal, decide: Decider, items: seq<Item>, i: nat)
    requires i < |items|
    ensures Singles(w, p, decide, items[..i + 1]).0 == Single(Singles(w, p, decide, items[..i]).0, p, decide, items[i]).0
  {
    assert items[..i + 1][..i] == items[..i];
  }

  /** And it never counts anything twice: when everything was accepted the first time, sending it again
      leaves the rows as they are, whatever the limits, the faults and the clock do. */
  lemma {:induction false} ResendAddsNothing(w: World, p: Principal, decide: Decider, again: seq<Item>)
    requires forall i :: 0 <= i < |again| && Staged(p, again[i]).Fit? ==> HasId(w.rows, Staged(p, again[i]).ev.id)
    ensures Singles(w, p, decide, again).0.rows == w.rows
  {
    hide Staged, HasId;
    if again != [] {
      ResendAddsNothing(w, p, decide, again[..|again| - 1]);
    }
  }
}
