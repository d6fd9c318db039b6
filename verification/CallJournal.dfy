/** The journal the calls of a program write, and which of them it holds at any point. */
module CallJournal {
  import opened Wrappers
  import Json
  import SpanLog
  import Journal
  import opened TraceContext
  import opened CallLog

  /** What the client spells an id as, and what else it writes down about call n. */
  datatype Setting = Setting(
    spell: Id -> string, provider: nat -> string, operation: nat -> string, model: nat -> Json.Value, now: nat -> string)

  /** The breadcrumb's fields. */
  function Breadcrumb(c: Setting, fl: Flight, n: nat): seq<Json.Field> {
    [Json.Field("p", Json.Text(c.provider(n))), Json.Field("m", c.model(n)), Json.Field("op", Json.Text(c.operation(n))),
     Json.Field("tr", Json.Text(c.spell(fl.trace))), Json.Field("sp", Json.Text(c.spell(fl.span))),
     Json.Field("ps", match fl.parent case Some(id) => Json.Text(c.spell(id)) case None => Json.Null)]
  }

  ghost predicate ValidSetting(c: Setting) {
    forall n: nat :: Json.IsNumber(c.now(n)) && Json.WellFormed(c.model(n))
  }

  /** The journal operations among what was done outside. The journal's keys are the calls' numbers, from
      one on. */
  function Operations(c: Setting, flights: seq<Flight>, log: seq<Action>): seq<Journal.Op> {
    if log == [] then []
    else
      var before := Operations(c, flights, log[..|log| - 1]);
      match log[|log| - 1]
      case Begins(n) => if n < |flights| then before + [Journal.Begin(Breadcrumb(c, flights[n], n), c.now(n))] else before
      case Settles(n) => before + [Journal.Settle(n + 1)]
      case Records(_, _, _) => before
  }

  /** The record a reader finds for this call carries its identity, what was called, and when it began. */
  ghost predicate Describes(c: Setting, fl: Flight, n: nat, record: seq<Json.Field>) {
    && Json.Lookup(record, "k") == Some(SpanLog.KeyValue(n + 1))
    && Json.Lookup(record, "tr") == Some(Json.Text(c.spell(fl.trace)))
    && Json.Lookup(record, "sp") == Some(Json.Text(c.spell(fl.span)))
    && Json.Lookup(record, "ps") == Some(match fl.parent case Some(id) => Json.Text(c.spell(id)) case None => Json.Null)
    && Json.Lookup(record, "p") == Some(Json.Text(c.provider(n))) && Json.Lookup(record, "m") == Some(c.model(n))
    && Json.Lookup(record, "op") == Some(Json.Text(c.operation(n))) && Json.Lookup(record, "t") == Some(Json.Number(c.now(n)))
  }

  /** These calls are those begun and not settled, under their own identities. */
  ghost predicate Pending(c: Setting, flights: seq<Flight>, log: seq<Action>, calls: seq<SpanLog.Call>) {
    && (forall key: nat :: key > 0 ==> (SpanLog.HasCall(calls, key) <==> Begins(key - 1) in log && Settles(key - 1) !in log))
    && (forall call :: call in calls ==>
          1 <= call.key <= |flights| && Describes(c, flights[call.key - 1], call.key - 1, call.fields))
  }

  /** The journal's calls in flight are those. */
  ghost predicate Tracks(c: Setting, flights: seq<Flight>, log: seq<Action>) {
    var ops := Operations(c, flights, log);
    Journal.Begun(ops) == Started(log) && Pending(c, flights, log, Journal.Calls(Json.Python, ops))
  }

  lemma PendingSome(c: Setting, flights: seq<Flight>, log: seq<Action>, calls: seq<SpanLog.Call>)
    requires Pending(c, flights, log, calls) && calls != []
    ensures exists n: nat :: n < |flights| && Settles(n) !in log
  {
    hide Describes;
    assert calls[0] in calls && SpanLog.HasCall(calls, calls[0].key);
    assert Settles(calls[0].key - 1) !in log;
  }

  lemma PendingBegins(c: Setting, flights: seq<Flight>, log: seq<Action>, calls: seq<SpanLog.Call>, call: SpanLog.Call, n: nat)
    requires Pending(c, flights, log, calls) && call.key == n + 1 && n < |flights|
    requires Describes(c, flights[n], n, call.fields) && Settles(n) !in log
    ensures Pending(c, flights, log + [Begins(n)], calls + [call])
  {
    hide Describes;
    SpanLog.HasCallSnoc(calls, call);
    hide SpanLog.HasCall;
    assert forall x: Action :: x in log + [Begins(n)] <==> x in log || x == Begins(n);
  }

  lemma PendingSettles(c: Setting, flights: seq<Flight>, log: seq<Action>, calls: seq<SpanLog.Call>, n: nat)
    requires Pending(c, flights, log, calls)
    ensures Pending(c, flights, log + [Settles(n)], SpanLog.Without(calls, n + 1))
  {
    hide Describes;
    SpanLog.WithoutMembers(calls, n + 1);
    WithoutSome(calls, n + 1);
    hide SpanLog.HasCall, SpanLog.Without;
    assert forall x: Action :: x in log + [Settles(n)] <==> x in log || x == Settles(n);
  }

  lemma BreadcrumbValid(c: Setting, fl: Flight, n: nat)
    requires ValidSetting(c)
    ensures Journal.ValidOp(Journal.Begin(Breadcrumb(c, fl, n), c.now(n)))
  {
    var fields := Breadcrumb(c, fl, n);
    assert Json.DistinctKeys(fields);
    forall f | f in fields ensures Json.WellFormed(f.value) {
      var i :| 0 <= i < |fields| && fields[i] == f;
    }
  }

  lemma OpeningLookup(fields: seq<Json.Field>, key: nat, now: string, name: string)
    requires name != "o" && Json.Lookup(fields, "t") == None
    ensures Json.Lookup(Journal.Opening(Json.Python, fields, key, now), name)
         == if name == "k" then Some(SpanLog.KeyValue(key)) else if name == "t" then Some(Json.Number(now)) else Json.Lookup(fields, name)
  {
    hide Json.Put, Json.Lookup;
    var o, k := Json.Text("b"), SpanLog.KeyValue(key);
    Json.LookupPut(fields, "o", o, name);
    Json.LookupPut(Json.Put(fields, "o", o), "k", k, name);
    Json.LookupPut(Json.Put(Json.Put(fields, "o", o), "k", k), "t", Json.Number(now), name);
    Json.LookupPut(fields, "o", o, "t");
    Json.LookupPut(Json.Put(fields, "o", o), "k", k, "t");
  }

  lemma BreadcrumbFound(c: Setting, fl: Flight, n: nat)
    ensures Describes(c, fl, n, Journal.Opening(Json.Python, Breadcrumb(c, fl, n), n + 1, c.now(n)))
  {
    var fields := Breadcrumb(c, fl, n);
    BreadcrumbLookup(c, fl, n);
    hide Breadcrumb, Json.Lookup, Journal.Opening;
    OpeningLookup(fields, n + 1, c.now(n), "k");
    OpeningLookup(fields, n + 1, c.now(n), "tr");
    OpeningLookup(fields, n + 1, c.now(n), "sp");
    OpeningLookup(fields, n + 1, c.now(n), "ps");
    OpeningLookup(fields, n + 1, c.now(n), "p");
    OpeningLookup(fields, n + 1, c.now(n), "m");
    OpeningLookup(fields, n + 1, c.now(n), "op");
    OpeningLookup(fields, n + 1, c.now(n), "t");
  }

  lemma LookupCons(f: Json.Field, rest: seq<Json.Field>, name: string)
    ensures Json.Lookup([f] + rest, name) == if f.key == name then Some(f.value) else Json.Lookup(rest, name)
  {
    assert ([f] + rest)[1..] == rest;
  }

  lemma BreadcrumbLookup(c: Setting, fl: Flight, n: nat)
    ensures var fields := Breadcrumb(c, fl, n);
            && Json.Lookup(fields, "tr") == Some(Json.Text(c.spell(fl.trace)))
            && Json.Lookup(fields, "sp") == Some(Json.Text(c.spell(fl.span)))
            && Json.Lookup(fields, "ps") == Some(match fl.parent case Some(id) => Json.Text(c.spell(id)) case None => Json.Null)
            && Json.Lookup(fields, "p") == Some(Json.Text(c.provider(n))) && Json.Lookup(fields, "m") == Some(c.model(n))
            && Json.Lookup(fields, "op") == Some(Json.Text(c.operation(n))) && Json.Lookup(fields, "t") == None
  {
    var f := Breadcrumb(c, fl, n);
    var f5 := [f[5]] + [];
    var f4 := [f[4]] + f5;
    var f3 := [f[3]] + f4;
    var f2 := [f[2]] + f3;
    var f1 := [f[1]] + f2;
    assert f == [f[0]] + f1;
    hide Json.Lookup;
    forall name: string
      ensures Json.Lookup(f, name)
           == if "p" == name then Some(f[0].value) else if "m" == name then Some(f[1].value)
              else if "op" == name then Some(f[2].value) else if "tr" == name then Some(f[3].value)
              else if "sp" == name then Some(f[4].value) else if "ps" == name then Some(f[5].value)
              else Json.Lookup([], name)
    {
      LookupCons(f[0], f1, name);
      LookupCons(f[1], f2, name);
      LookupCons(f[2], f3, name);
      LookupCons(f[3], f4, name);
      LookupCons(f[4], f5, name);
      LookupCons(f[5], [], name);
    }
  }

  lemma {:induction false} LogTracks(c: Setting, flights: seq<Flight>, log: seq<Action>)
    requires ValidSetting(c) && Numbered(log, 0) && Started(log) <= |flights|
    ensures Journal.ValidOps(Operations(c, flights, log)) && Tracks(c, flights, log)
  {
    if log != [] {
      var init, x := log[..|log| - 1], log[|log| - 1];
      NumberedPrefix(log, |log| - 1);
      LogTracks(c, flights, init);
      assert log == init + [x];
      assert NumberOk(log, 0, |log| - 1);
      match x
      case Begins(n) => BeginTracks(c, flights, init, n);
      case Settles(n) => SettleTracks(c, flights, init, n);
      case Records(_, _, _) =>
    }
  }

  lemma NumberedPrefix(log: seq<Action>, k: nat)
    requires Numbered(log, 0) && k <= |log|
    ensures Numbered(log[..k], 0) && Started(log[..k]) <= Started(log)
  {
    StartedPrefix(log, k);
    forall i | 0 <= i < k ensures NumberOk(log[..k], 0, i) {
      assert NumberOk(log, 0, i);
      assert log[..k][..i] == log[..i];
    }
  }

  lemma NotBegunYet(log: seq<Action>)
    requires Numbered(log, 0)
    ensures Begins(Started(log)) !in log && Settles(Started(log)) !in log
  {
    forall i | 0 <= i < |log| ensures log[i].n < Started(log) {
      assert NumberOk(log, 0, i);
      StartedPrefix(log, i);
      if log[i].Begins? {
        StartedPrefix(log, i + 1);
        assert log[..i + 1][..i] == log[..i];
      }
    }
  }

  lemma BeginTracks(c: Setting, flights: seq<Flight>, init: seq<Action>, n: nat)
    requires ValidSetting(c) && Numbered(init, 0) && n == Started(init) < |flights|
    requires Journal.ValidOps(Operations(c, flights, init)) && Tracks(c, flights, init)
    ensures Journal.ValidOps(Operations(c, flights, init + [Begins(n)])) && Tracks(c, flights, init + [Begins(n)])
  {
    hide Journal.Opening, Breadcrumb, Operations, Numbered, Describes, Journal.ValidOp, Pending, Journal.Calls, Journal.Begun,
         Journal.Run, Journal.Log, Journal.Step, Started, Json.IsNumber, Json.WellFormed, Journal.ValidOps;
    var ops, op := Operations(c, flights, init), Journal.Begin(Breadcrumb(c, flights[n], n), c.now(n));
    var calls := Journal.Calls(Json.Python, ops);
    var call := SpanLog.Call(n + 1, Journal.Opening(Json.Python, Breadcrumb(c, flights[n], n), n + 1, c.now(n)));
    LogSnoc(c, flights, init, Begins(n));
    BreadcrumbValid(c, flights[n], n);
    BreadcrumbFound(c, flights[n], n);
    ValidSnoc(ops, op);
    Journal.RunSnoc(Json.Python, ops, op);
    NotBegunYet(init);
    PendingBegins(c, flights, init, calls, call, n);
  }

  lemma SettleTracks(c: Setting, flights: seq<Flight>, init: seq<Action>, n: nat)
    requires Journal.ValidOps(Operations(c, flights, init)) && Tracks(c, flights, init)
    ensures Journal.ValidOps(Operations(c, flights, init + [Settles(n)])) && Tracks(c, flights, init + [Settles(n)])
  {
    hide Operations, Journal.ValidOp, Pending, Journal.Calls, Journal.Begun, Journal.Run, Journal.Log, Journal.Step, Started;
    var ops, op := Operations(c, flights, init), Journal.Settle(n + 1);
    LogSnoc(c, flights, init, Settles(n));
    Journal.SettleValid(n + 1);
    Journal.RunSnoc(Json.Python, ops, op);
    PendingSettles(c, flights, init, Journal.Calls(Json.Python, ops), n);
  }

  lemma ValidSnoc(ops: seq<Journal.Op>, op: Journal.Op)
    requires Journal.ValidOps(ops) && Journal.ValidOp(op)
    ensures Journal.ValidOps(ops + [op])
  {
    hide Journal.ValidOp;
  }

  lemma LogSnoc(c: Setting, flights: seq<Flight>, init: seq<Action>, x: Action)
    ensures Started(init + [x]) == Started(init) + if x.Begins? then 1 else 0
    ensures x.Begins? && x.n < |flights| ==>
              Operations(c, flights, init + [x])
              == Operations(c, flights, init) + [Journal.Begin(Breadcrumb(c, flights[x.n], x.n), c.now(x.n))]
    ensures x.Settles? ==> Operations(c, flights, init + [x]) == Operations(c, flights, init) + [Journal.Settle(x.n + 1)]
    ensures x.Records? ==> Operations(c, flights, init + [x]) == Operations(c, flights, init)
  {
    hide Breadcrumb;
    assert (init + [x])[..|init|] == init;
  }

  lemma {:induction false} WithoutSome(calls: seq<SpanLog.Call>, key: nat)
    ensures forall call :: call in SpanLog.Without(calls, key) ==> call in calls
  {
    if calls != [] {
      WithoutSome(calls[1..], key);
    }
  }

  // ----- the file -----

  /** The journal file of a program stopped after the first k things it did outside. */
  ghost function FileAt(c: Setting, t: State, k: nat): string
    requires k <= |t.log|
  {
    Journal.Run(Json.Python, Operations(c, t.flights, t.log[..k])).file
  }

  ghost predicate InJournal(c: Setting, t: State, k: nat, n: nat)
    requires k <= |t.log| && n < |t.flights|
  {
    exists record :: record in SpanLog.Unsettled(Json.Python, FileAt(c, t, k)) && Describes(c, t.flights[n], n, record)
  }

  lemma JournalHas(c: Setting, flights: seq<Flight>, log: seq<Action>, n: nat)
    requires Journal.ValidOps(Operations(c, flights, log)) && Tracks(c, flights, log) && n < |flights|
    ensures var text := Journal.Run(Json.Python, Operations(c, flights, log)).file;
            (exists record :: record in SpanLog.Unsettled(Json.Python, text) && Describes(c, flights[n], n, record))
            <==> Begins(n) in log && Settles(n) !in log
  {
    hide Operations, Journal.Run, Journal.Calls, Journal.Begun, SpanLog.Unsettled, SpanLog.Records, Describes, Started,
         Journal.ValidOps, Pending;
    var ops := Operations(c, flights, log);
    Journal.BetweenOperations(Json.Python, Json.Python, ops);
    PendingRecord(c, flights, log, Journal.Calls(Json.Python, ops), n);
  }

  lemma PendingRecord(c: Setting, flights: seq<Flight>, log: seq<Action>, calls: seq<SpanLog.Call>, n: nat)
    requires Pending(c, flights, log, calls) && n < |flights|
    ensures (exists record :: record in SpanLog.Records(calls) && Describes(c, flights[n], n, record))
       <==> Begins(n) in log && Settles(n) !in log
  {
    hide Describes;
    var records := SpanLog.Records(calls);
    if SpanLog.HasCall(calls, n + 1) {
      var i :| 0 <= i < |calls| && calls[i].key == n + 1;
      assert calls[i] in calls && records[i] == calls[i].fields && records[i] in records;
    }
    forall record | record in records && Describes(c, flights[n], n, record) ensures SpanLog.HasCall(calls, n + 1) {
      var i :| 0 <= i < |records| && records[i] == record;
      assert calls[i] in calls;
      DescribesOne(c, flights[calls[i].key - 1], calls[i].key - 1, flights[n], n, record);
    }
  }

  lemma DescribesOne(c: Setting, fl: Flight, m: nat, fl': Flight, n: nat, record: seq<Json.Field>)
    requires Describes(c, fl, m, record) && Describes(c, fl', n, record)
    ensures m == n
  {
    hide Json.Lookup;
    SpanLog.KeyValueInjective(m + 1, n + 1);
  }

  lemma PrefixTracks(p: Program, c: Setting, k: nat)
    requires ValidSetting(c) && k <= |Exec(p, START).0.log|
    ensures var t := Exec(p, START).0;
            var ops := Operations(c, t.flights, t.log[..k]);
            Journal.ValidOps(ops) && Tracks(c, t.flights, t.log[..k])
    ensures var t := Exec(p, START).0;
            Adjacent(t.log) && Once(t.log) && Marked(t.log, t.flights) && (forall x :: x in t.log ==> x.n < |t.flights|)
            && forall n: nat :: n < |t.flights| ==> Tried(t.log, n) && Settles(n) in t.log
  {
    hide Exec, Numbered, Adjacent, Once, Marked, Started, Operations, Tracks;
    ExecLog(p, START);
    var t := Exec(p, START).0;
    assert t.log[0..] == t.log;
    WholeLog(t.log, |t.flights|);
    NumberedPrefix(t.log, k);
    LogTracks(c, t.flights, t.log[..k]);
  }

  lemma WholeLog(log: seq<Action>, hi: nat)
    requires Segment(log, 0, hi)
    ensures Started(log) == hi && Numbered(log, 0)
    ensures forall x :: x in log ==> x.n < hi
  {
    SegmentNumbers(log, 0, hi);
  }
}
