/** Runs of a span journal, and what a crash leaves.

    `Calls` says which calls are in flight after a run, from the operations alone; `Run` is the state
    a journal keeps, file included. A reader of the file recovers exactly the former, between
    operations and after a crash at any character of one. */
module Journal {
  import opened Wrappers
  import opened Json
  import opened SpanLog

  datatype Op = Begin(fields: seq<Field>, now: string) | Settle(key: nat)

  datatype State = State(nextKey: nat, openKeys: set<nat>, file: string)

  ghost predicate ValidOp(op: Op) {
    op.Begin? ==> WellFormed(Object(op.fields)) && IsNumber(op.now)
  }

  ghost predicate ValidOps(ops: seq<Op>) {
    forall i :: 0 <= i < |ops| ==> ValidOp(ops[i])
  }

  /** The opening record. Python sets "t" only when the key is missing; TypeScript also replaces a
      null one, and writes it first. */
  function Opening(style: Style, fields: seq<Field>, key: nat, now: string): seq<Field> {
    if style == Python then
      var tagged := Put(Put(fields, "o", Text("b")), "k", KeyValue(key));
      if Lookup(tagged, "t") == None then Put(tagged, "t", Number(now)) else tagged
    else
      var t := match Lookup(fields, "t")
               case Some(v) => if v == Null then Number(now) else v
               case None => Number(now);
      Put(Put(Put(fields, "t", t), "o", Text("b")), "k", KeyValue(key))
  }

  function EntryOf(style: Style, begun: nat, op: Op): Entry {
    match op
    case Begin(fields, now) => Began(Call(begun + 1, Opening(style, fields, begun + 1, now)))
    case Settle(key) => Ended(key)
  }

  function LineFor(style: Style, begun: nat, op: Op): string {
    LineOf(style, EntryOf(style, begun, op)) + "\n"
  }

  /** One operation, with the file working: append the line; forget the file when nothing is open. */
  function Step(style: Style, s: State, op: Op): State {
    match op
    case Begin(_, _) =>
      State(s.nextKey + 1, s.openKeys + {s.nextKey + 1}, s.file + LineFor(style, s.nextKey, op))
    case Settle(key) =>
      var open := s.openKeys - {key};
      State(s.nextKey, open, if open == {} then "" else s.file + LineFor(style, s.nextKey, op))
  }

  function Run(style: Style, ops: seq<Op>): State {
    if ops == [] then State(0, {}, "") else Step(style, Run(style, ops[..|ops| - 1]), ops[|ops| - 1])
  }

  // ----- calls in flight -----

  function Begun(ops: seq<Op>): nat {
    if ops == [] then 0 else Begun(ops[..|ops| - 1]) + if ops[|ops| - 1].Begin? then 1 else 0
  }

  function Calls(style: Style, ops: seq<Op>): seq<Call> {
    if ops == [] then []
    else
      var init := ops[..|ops| - 1];
      After(Calls(style, init), EntryOf(style, Begun(init), ops[|ops| - 1]))
  }

  /** Operation i opened `key` and nothing settled it since. */
  ghost predicate OpenSince(ops: seq<Op>, key: nat, i: nat) {
    && i < |ops|
    && ops[i].Begin? && Begun(ops[..i]) + 1 == key
    && forall j :: i < j < |ops| ==> ops[j] != Settle(key)
  }

  ghost predicate InFlight(ops: seq<Op>, key: nat) {
    exists i: nat :: OpenSince(ops, key, i)
  }

  lemma {:induction false} CallsBounded(style: Style, ops: seq<Op>)
    ensures forall k: nat :: HasCall(Calls(style, ops), k) ==> 1 <= k <= Begun(ops)
    ensures DistinctCalls(Calls(style, ops))
  {
    if ops != [] {
      var init, op := ops[..|ops| - 1], ops[|ops| - 1];
      CallsBounded(style, init);
      match EntryOf(style, Begun(init), op)
      case Began(call) =>
        HasCallSnoc(Calls(style, init), call);
        DistinctCallsSnoc(Calls(style, init), call);
      case Ended(key) => WithoutMembers(Calls(style, init), key);
    }
  }

  lemma DistinctCallsSnoc(calls: seq<Call>, c: Call)
    requires DistinctCalls(calls) && !HasCall(calls, c.key)
    ensures DistinctCalls(calls + [c])
  {
  }

  /** The calls of a run are the ones opened and not settled since. */
  lemma {:induction false} CallsAreInFlight(style: Style, ops: seq<Op>, key: nat)
    ensures HasCall(Calls(style, ops), key) <==> InFlight(ops, key)
  {
    if ops != [] {
      var init, op := ops[..|ops| - 1], ops[|ops| - 1];
      CallsAreInFlight(style, init, key);
      InFlightStep(init, op, key);
      assert init + [op] == ops;
      match EntryOf(style, Begun(init), op)
      case Began(call) => HasCallSnoc(Calls(style, init), call);
      case Ended(settled) => WithoutMembers(Calls(style, init), settled);
    }
  }

  lemma InFlightStep(init: seq<Op>, op: Op, key: nat)
    ensures InFlight(init + [op], key)
       <==> if op.Begin? then key == Begun(init) + 1 || InFlight(init, key) else InFlight(init, key) && op != Settle(key)
  {
    var ops := init + [op];
    assert ops[..|init|] == init;
    if InFlight(init, key) && op != Settle(key) {
      var i: nat :| OpenSince(init, key, i);
      assert ops[..i] == init[..i];
      assert OpenSince(ops, key, i);
    }
    if op.Begin? && key == Begun(init) + 1 {
      assert OpenSince(ops, key, |init|);
    }
    if InFlight(ops, key) {
      var i: nat :| OpenSince(ops, key, i);
      if i < |init| {
        assert ops[..i] == init[..i];
        assert ops[|init|] == op;
        assert forall j :: i < j < |init| ==> init[j] == ops[j];
        assert OpenSince(init, key, i);
      }
    }
  }

  // ----- the invariant -----

  /** The entries on disk: all of them since the file was last emptied. */
  function Log(style: Style, ops: seq<Op>): seq<Entry> {
    if ops == [] then []
    else
      var init, op := ops[..|ops| - 1], ops[|ops| - 1];
      if op.Settle? && Calls(style, ops) == [] then []
      else Log(style, init) + [EntryOf(style, Begun(init), op)]
  }

  ghost function KeySet(calls: seq<Call>): set<nat> {
    set c | c in calls :: c.key
  }

  lemma KeySetMembers(calls: seq<Call>)
    ensures forall k :: k in KeySet(calls) <==> HasCall(calls, k)
    ensures KeySet(calls) == {} <==> calls == []
  {
    forall k ensures k in KeySet(calls) <==> HasCall(calls, k) {
      if HasCall(calls, k) {
        var i :| 0 <= i < |calls| && calls[i].key == k;
        assert calls[i] in calls;
      }
    }
    if calls != [] { assert calls[0].key in KeySet(calls); }
  }

  lemma OpeningReads(style: Style, fields: seq<Field>, key: nat, now: string)
    requires WellFormed(Object(fields)) && IsNumber(now)
    ensures OpensCall(Call(key, Opening(style, fields, key, now)))
  {
    DecimalIsNumber(key);
    var b, k := Text("b"), KeyValue(key);
    if style == Python {
      var tagged := Put(Put(fields, "o", b), "k", k);
      PutWellFormed(fields, "o", b);
      PutWellFormed(Put(fields, "o", b), "k", k);
      PutWellFormed(tagged, "t", Number(now));
      PutsFound(fields, "o", b, "k", k);
      LookupPut(tagged, "t", Number(now), "o");
      LookupPut(tagged, "t", Number(now), "k");
    } else {
      var t := match Lookup(fields, "t")
               case Some(v) => if v == Null then Number(now) else v
               case None => Number(now);
      LookupWellFormed(fields, "t");
      PutWellFormed(fields, "t", t);
      PutWellFormed(Put(fields, "t", t), "o", b);
      PutWellFormed(Put(Put(fields, "t", t), "o", b), "k", k);
      PutsFound(Put(fields, "t", t), "o", b, "k", k);
    }
  }

  lemma PutsFound(fields: seq<Field>, k1: string, v1: Value, k2: string, v2: Value)
    requires k1 != k2
    ensures var r := Put(Put(fields, k1, v1), k2, v2); Lookup(r, k1) == Some(v1) && Lookup(r, k2) == Some(v2)
  {
    LookupPut(fields, k1, v1, k1);
    LookupPut(Put(fields, k1, v1), k2, v2, k1);
    LookupPut(Put(fields, k1, v1), k2, v2, k2);
  }

  lemma PutWellFormed(fields: seq<Field>, key: string, value: Value)
    requires WellFormed(Object(fields)) && WellFormed(value)
    ensures WellFormed(Object(Put(fields, key, value)))
  {
    PutDistinct(fields, key, value);
    assert WellFormed(Field(key, value).value);
  }

  lemma {:induction false} LookupWellFormed(fields: seq<Field>, key: string)
    requires forall f :: f in fields ==> WellFormed(f.value)
    ensures Lookup(fields, key).Some? ==> WellFormed(Lookup(fields, key).value)
  {
    if fields != [] {
      assert fields[0] in fields;
      LookupWellFormed(fields[1..], key);
    }
  }

  lemma EntryValid(style: Style, ops: seq<Op>, op: Op)
    requires ValidOp(op)
    ensures ValidEntry(Calls(style, ops), EntryOf(style, Begun(ops), op))
  {
    CallsBounded(style, ops);
    if op.Begin? {
      OpeningReads(style, op.fields, Begun(ops) + 1, op.now);
    }
  }

  ghost predicate Invariant(style: Style, ops: seq<Op>) {
    var s, log, calls := Run(style, ops), Log(style, ops), Calls(style, ops);
    && s.nextKey == Begun(ops)
    && s.openKeys == KeySet(calls)
    && s.file == Body(style, log)
    && ValidLog(log)
    && OpenCalls(log) == calls
  }

  lemma RunSnoc(style: Style, init: seq<Op>, op: Op)
    ensures var ops, e := init + [op], EntryOf(style, Begun(init), op);
            && Run(style, ops) == Step(style, Run(style, init), op)
            && Begun(ops) == Begun(init) + (if op.Begin? then 1 else 0)
            && Calls(style, ops) == After(Calls(style, init), e)
            && Log(style, ops) == if op.Settle? && Calls(style, ops) == [] then [] else Log(style, init) + [e]
  {
    hide Step, After, EntryOf;
    var ops := init + [op];
    assert ops[..|ops| - 1] == init && ops[|ops| - 1] == op;
  }

  lemma EmptyLog(style: Style)
    ensures Body(style, []) == "" && ValidLog([]) && OpenCalls([]) == []
  {
  }

  lemma InvariantStep(style: Style, init: seq<Op>, op: Op)
    requires Invariant(style, init) && ValidOp(op)
    ensures Invariant(style, init + [op])
  {
    hide After, LineOf, KeySet, ValidEntry, Run, Begun, Calls, Log, Body, ValidLog, OpenCalls;
    RunSnoc(style, init, op);
    EntryValid(style, init, op);
    KeysFollow(style, init, op);
    KeySetMembers(Calls(style, init + [op]));
    EmptyLog(style);
    LogGrows(style, Log(style, init), EntryOf(style, Begun(init), op));
  }

  lemma LogGrows(style: Style, log: seq<Entry>, e: Entry)
    requires ValidLog(log) && ValidEntry(OpenCalls(log), e)
    ensures ValidLog(log + [e])
    ensures OpenCalls(log + [e]) == After(OpenCalls(log), e)
    ensures Body(style, log + [e]) == Body(style, log) + (LineOf(style, e) + "\n")
  {
    hide After, LineOf, ValidEntry;
    var longer := log + [e];
    assert longer[..|longer| - 1] == log && longer[|longer| - 1] == e;
  }

  lemma EmptyInvariant(style: Style)
    ensures Invariant(style, [])
  {
    EmptyLog(style);
  }

  /** What every step of a run keeps. */
  lemma {:induction false} RunInvariant(style: Style, ops: seq<Op>)
    requires ValidOps(ops)
    ensures Invariant(style, ops)
  {
    hide Invariant, ValidOp;
    if ops == [] {
      EmptyInvariant(style);
    } else {
      var init, op := ops[..|ops| - 1], ops[|ops| - 1];
      RunInvariant(style, init);
      InvariantStep(style, init, op);
      assert init + [op] == ops;
    }
  }

  lemma KeysFollow(style: Style, init: seq<Op>, op: Op)
    ensures var calls := Calls(style, init);
            var after := After(calls, EntryOf(style, Begun(init), op));
            KeySet(after) == if op.Begin? then KeySet(calls) + {Begun(init) + 1} else KeySet(calls) - {op.key}
  {
    var calls := Calls(style, init);
    var after := After(calls, EntryOf(style, Begun(init), op));
    KeySetMembers(calls);
    KeySetMembers(after);
    match EntryOf(style, Begun(init), op)
    case Began(call) => HasCallSnoc(calls, call);
    case Ended(key) => WithoutMembers(calls, key);
  }

  // ----- main results -----

  /** Between operations the file yields exactly the calls in flight, oldest first, and a journal
      with nothing in flight has an empty file. */
  lemma BetweenOperations(reader: Style, style: Style, ops: seq<Op>)
    requires ValidOps(ops)
    ensures Unsettled(reader, Run(style, ops).file) == Records(Calls(style, ops))
    ensures Calls(style, ops) == [] ==> Run(style, ops).file == ""
  {
    RunInvariant(style, ops);
    BodyUnsettled(reader, style, Log(style, ops));
    if ops != [] && Calls(style, ops) == [] {
      assert ops[|ops| - 1].Settle?;
    }
  }

  /** A crash after any character of an operation's line leaves the state before the operation or the
      state after it: before, until the closing brace of the record is written. */
  lemma CrashConsistency(reader: Style, style: Style, ops: seq<Op>, op: Op, n: nat)
    requires ValidOps(ops) && ValidOp(op)
    requires n <= |LineFor(style, Begun(ops), op)|
    ensures var line := LineFor(style, Begun(ops), op);
            Unsettled(reader, Run(style, ops).file + line[..n])
            == Records(if n < |line| - 1 then Calls(style, ops) else Calls(style, ops + [op]))
  {
    RunInvariant(style, ops);
    EntryValid(style, ops, op);
    TornBodyUnsettled(reader, style, Log(style, ops), EntryOf(style, Begun(ops), op), n);
    assert (ops + [op])[..|ops|] == ops;
  }

  // ----- what the records of a run say -----

  /** The key that operation i hands out, if it opens a call. */
  function KeyAt(ops: seq<Op>, i: nat): nat
    requires i <= |ops|
  {
    Begun(ops[..i]) + 1
  }

  /** A reader's record of this opening: it is marked as one, has its key, and carries every other field of
      the caller as given. A time of the caller's is kept and a missing one filled in; TypeScript also
      replaces a null one. */
  ghost predicate Carries(style: Style, op: Op, key: nat, record: seq<Field>) {
    && op.Begin?
    && Lookup(record, "o") == Some(Text("b"))
    && Lookup(record, "k") == Some(Number(Decimal(key)))
    && (forall name :: name != "o" && name != "k" && name != "t" ==> Lookup(record, name) == Lookup(op.fields, name))
    && var given := Lookup(op.fields, "t");
       Lookup(record, "t") == if given == None || (style == Compact && given == Some(Null)) then Some(Number(op.now)) else given
  }

  ghost predicate Increasing(at: seq<nat>) {
    forall i, j :: 0 <= i < j < |at| ==> at[i] < at[j]
  }

  /** These records are those of the operations `at`, which are all that opened a call nothing settled since,
      in order. */
  ghost predicate TellsAt(style: Style, records: seq<seq<Field>>, ops: seq<Op>, at: seq<nat>) {
    && |at| == |records|
    && Increasing(at)
    && (forall i: nat :: i in at <==> i < |ops| && OpenSince(ops, KeyAt(ops, i), i))
    && (forall j :: 0 <= j < |at| ==> at[j] < |ops| && Carries(style, ops[at[j]], KeyAt(ops, at[j]), records[j]))
  }

  ghost predicate Tells(style: Style, records: seq<seq<Field>>, ops: seq<Op>) {
    exists at :: TellsAt(style, records, ops, at)
  }

  lemma OpeningCarries(style: Style, op: Op, key: nat)
    requires op.Begin?
    ensures Carries(style, op, key, Opening(style, op.fields, key, op.now))
  {
    hide Put, Lookup;
    var fields, o, k := op.fields, Text("b"), KeyValue(key);
    var record := Opening(style, fields, key, op.now);
    var first := if style == Python then fields else Put(fields, "t", TimeGiven(fields, op.now));
    var tagged := Put(Put(first, "o", o), "k", k);
    forall name
      ensures Lookup(tagged, name)
           == if name == "k" then Some(k) else if name == "o" then Some(o)
              else if name == "t" && style == Compact then Some(TimeGiven(fields, op.now)) else Lookup(fields, name)
      ensures Lookup(Put(tagged, "t", Number(op.now)), name) == if name == "t" then Some(Number(op.now)) else Lookup(tagged, name)
    {
      LookupPut(fields, "t", TimeGiven(fields, op.now), name);
      LookupPut(first, "o", o, name);
      LookupPut(Put(first, "o", o), "k", k, name);
      LookupPut(tagged, "t", Number(op.now), name);
    }
  }

  ghost function TimeGiven(fields: seq<Field>, now: string): Value {
    match Lookup(fields, "t")
    case Some(v) => if v == Null then Number(now) else v
    case None => Number(now)
  }

  /** The operations whose calls are in flight. */
  ghost function OpenAt(ops: seq<Op>): seq<nat> {
    if ops == [] then []
    else
      var n := |ops| - 1;
      match ops[n]
      case Begin(_, _) => OpenAt(ops[..n]) + [n]
      case Settle(key) => NotOf(ops, OpenAt(ops[..n]), key)
  }

  ghost function NotOf(ops: seq<Op>, at: seq<nat>, key: nat): seq<nat> {
    if at == [] then []
    else if at[0] <= |ops| && KeyAt(ops, at[0]) == key then NotOf(ops, at[1..], key)
    else [at[0]] + NotOf(ops, at[1..], key)
  }

  /** The calls are those of these operations, one for one. */
  ghost predicate CallsAt(style: Style, calls: seq<Call>, ops: seq<Op>, at: seq<nat>) {
    && |calls| == |at|
    && forall j :: 0 <= j < |at| ==>
         && at[j] < |ops| && ops[at[j]].Begin? && calls[j].key == KeyAt(ops, at[j])
         && Carries(style, ops[at[j]], KeyAt(ops, at[j]), calls[j].fields)
  }

  lemma {:induction false} WithoutAt(style: Style, calls: seq<Call>, ops: seq<Op>, at: seq<nat>, key: nat)
    requires CallsAt(style, calls, ops, at)
    ensures CallsAt(style, Without(calls, key), ops, NotOf(ops, at, key))
  {
    hide Carries, Begun;
    if at != [] {
      assert at == [at[0]] + at[1..];
      WithoutAt(style, calls[1..], ops, at[1..], key);
      CallsAtCons(style, calls[0], ops, at[0], Without(calls[1..], key), NotOf(ops, at[1..], key));
    }
  }

  lemma CallsAtCons(style: Style, call: Call, ops: seq<Op>, i: nat, calls: seq<Call>, at: seq<nat>)
    requires CallsAt(style, calls, ops, at)
    ensures i < |ops| && ops[i].Begin? && call.key == KeyAt(ops, i) && Carries(style, ops[i], KeyAt(ops, i), call.fields) ==>
              CallsAt(style, [call] + calls, ops, [i] + at)
  {
    hide Carries, Begun;
  }

  lemma {:induction false} NotOfMembers(ops: seq<Op>, at: seq<nat>, key: nat)
    requires forall i :: i in at ==> i <= |ops|
    ensures forall i :: i in NotOf(ops, at, key) <==> i in at && KeyAt(ops, i) != key
    ensures Increasing(at) ==> Increasing(NotOf(ops, at, key))
  {
    hide Begun;
    if at != [] {
      var tail := at[1..];
      assert at == [at[0]] + tail;
      assert forall i :: i in tail ==> i in at;
      assert at[0] in at;
      NotOfMembers(ops, tail, key);
      assert Increasing(at) ==> forall i :: i in tail ==> at[0] < i;
      var kept := NotOf(ops, tail, key);
      assert forall j :: 0 <= j < |kept| ==> kept[j] in kept;
    }
  }

  lemma CallsAtLonger(style: Style, calls: seq<Call>, init: seq<Op>, op: Op, at: seq<nat>)
    requires CallsAt(style, calls, init, at)
    ensures CallsAt(style, calls, init + [op], at)
  {
    hide Carries;
    forall j | 0 <= j < |at| ensures (init + [op])[..at[j]] == init[..at[j]] {
    }
  }

  lemma OpenSinceLonger(init: seq<Op>, op: Op, i: nat)
    requires i < |init|
    ensures KeyAt(init + [op], i) == KeyAt(init, i)
    ensures OpenSince(init + [op], KeyAt(init, i), i) <==> OpenSince(init, KeyAt(init, i), i) && op != Settle(KeyAt(init, i))
  {
    var ops := init + [op];
    assert ops[..i] == init[..i];
    assert ops[|init|] == op;
    assert forall j :: 0 <= j < |init| ==> ops[j] == init[j];
  }

  lemma {:induction false} CallsAreAt(style: Style, ops: seq<Op>)
    ensures CallsAt(style, Calls(style, ops), ops, OpenAt(ops))
    ensures Increasing(OpenAt(ops))
    ensures forall i: nat :: i in OpenAt(ops) <==> i < |ops| && OpenSince(ops, KeyAt(ops, i), i)
  {
    hide Opening, Carries, CallsAt, Begun;
    if ops == [] {
      NoCallsAt(style);
    } else {
      var n := |ops| - 1;
      var init, op := ops[..n], ops[n];
      var calls, at := Calls(style, init), OpenAt(init);
      assert init + [op] == ops;
      CallsAreAt(style, init);
      assert forall i :: 0 <= i < |at| ==> at[i] in at;
      CallsAtLonger(style, calls, init, op, at);
      forall i: nat | i < n
        ensures KeyAt(ops, i) == KeyAt(init, i)
        ensures OpenSince(ops, KeyAt(init, i), i) <==> OpenSince(init, KeyAt(init, i), i) && op != Settle(KeyAt(init, i))
      {
        OpenSinceLonger(init, op, i);
      }
      match op
      case Begin(_, _) =>
        OpeningCarries(style, op, Begun(init) + 1);
        CallAdded(style, calls, ops, at, EntryOf(style, Begun(init), op).call);
      case Settle(key) =>
        WithoutAt(style, calls, ops, at, key);
        NotOfMembers(ops, at, key);
    }
  }

  lemma NoCallsAt(style: Style)
    ensures CallsAt(style, [], [], [])
  {
  }

  lemma CallAdded(style: Style, calls: seq<Call>, ops: seq<Op>, at: seq<nat>, call: Call)
    requires CallsAt(style, calls, ops, at) && ops != [] && ops[|ops| - 1].Begin?
    requires call.key == KeyAt(ops, |ops| - 1) && Carries(style, ops[|ops| - 1], call.key, call.fields)
    ensures CallsAt(style, calls + [call], ops, at + [|ops| - 1])
  {
    hide Carries, Begun;
  }

  /** So the calls of a run tell its operations: one record for each call that was opened and not settled
      since, in the order they were opened, with its key and everything the caller said of it. */
  lemma CallsTell(style: Style, ops: seq<Op>)
    ensures Tells(style, Records(Calls(style, ops)), ops)
  {
    hide Carries, OpenAt, Calls;
    CallsAreAt(style, ops);
    assert TellsAt(style, Records(Calls(style, ops)), ops, OpenAt(ops));
  }

  /** That is what either reader finds in the file between operations, and after a crash at any character of
      one: the records of the operations before it or of those including it. */
  lemma FileTells(reader: Style, style: Style, ops: seq<Op>, op: Op, n: nat)
    requires ValidOps(ops) && ValidOp(op)
    requires n <= |LineFor(style, Begun(ops), op)|
    ensures Tells(style, Unsettled(reader, Run(style, ops).file), ops)
    ensures var line := LineFor(style, Begun(ops), op);
            Tells(style, Unsettled(reader, Run(style, ops).file + line[..n]), if n < |line| - 1 then ops else ops + [op])
  {
    hide Tells, Unsettled, LineFor, Calls, Records, Run;
    BetweenOperations(reader, style, ops);
    CrashConsistency(reader, style, ops, op, n);
    CallsTell(style, ops);
    CallsTell(style, ops + [op]);
  }

  // ----- for the journal objects -----

  /** A reader of the text finds exactly the calls in flight after these operations, each with all the caller
      said of it. */
  ghost predicate Yields(style: Style, text: string, ops: seq<Op>) {
    Unsettled(style, text) == Records(Calls(style, ops)) && Tells(style, Unsettled(style, text), ops)
  }

  ghost predicate YieldsBeforeOrAfter(style: Style, text: string, ops: seq<Op>, op: Op) {
    Yields(style, text, ops) || Yields(style, text, ops + [op])
  }

  lemma LineWritten(style: Style, begun: nat, op: Op)
    ensures LineFor(style, begun, op) == Encode(style, Object(RecordOf(EntryOf(style, begun, op)))) + "\n"
  {
  }

  lemma SettleValid(key: nat)
    ensures ValidOp(Settle(key))
  {
  }

  lemma Completed(style: Style, ops: seq<Op>, op: Op)
    requires ValidOps(ops) && ValidOp(op)
    ensures ValidOps(ops + [op])
    ensures Run(style, ops + [op]) == Step(style, Run(style, ops), op)
    ensures YieldsBeforeOrAfter(style, Run(style, ops).file, ops, op)
    ensures Yields(style, Run(style, ops + [op]).file, ops + [op])
  {
    hide Unsettled, Records, Calls, Run, Begun, Log, ValidOp, Body, ValidLog, Tells;
    BetweenOperations(style, style, ops);
    BetweenOperations(style, style, ops + [op]);
    CallsTell(style, ops);
    CallsTell(style, ops + [op]);
    RunSnoc(style, ops, op);
  }

  lemma Interrupted(style: Style, ops: seq<Op>, op: Op, n: nat)
    requires ValidOps(ops) && ValidOp(op)
    requires n <= |LineFor(style, Run(style, ops).nextKey, op)|
    ensures YieldsBeforeOrAfter(style, Run(style, ops).file + LineFor(style, Run(style, ops).nextKey, op)[..n], ops, op)
  {
    hide Unsettled, Records, Calls, Run, Begun, Log, ValidOp, LineFor, Body, ValidLog, Tells;
    RunInvariant(style, ops);
    CrashConsistency(style, style, ops, op, n);
    CallsTell(style, ops);
    CallsTell(style, ops + [op]);
  }
}
