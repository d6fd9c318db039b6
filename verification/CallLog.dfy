/** The order of what the calls of a program do outside its trace context: their breadcrumbs, the ends of
    those, and their events. */
module CallLog {
  import opened TraceContext

  function Started(log: seq<Action>): nat {
    if log == [] then 0 else Started(log[..|log| - 1]) + if log[|log| - 1].Begins? then 1 else 0
  }

  /** Calls begin in the order of their numbers, and do nothing before they begin. */
  ghost predicate Numbered(log: seq<Action>, lo: nat) {
    forall i :: 0 <= i < |log| ==> NumberOk(log, lo, i)
  }

  ghost predicate NumberOk(log: seq<Action>, lo: nat, i: int)
    requires 0 <= i < |log|
  {
    lo <= log[i].n && if log[i].Begins? then log[i].n == lo + Started(log[..i]) else log[i].n < lo + Started(log[..i])
  }

  /** A call that raised is recorded and then its breadcrumb is retired; one that returned, the other way
      round. Nothing comes between the two. */
  ghost predicate Adjacent(log: seq<Action>) {
    forall i :: 0 <= i < |log| ==> NextTo(log, i)
  }

  predicate NextTo(log: seq<Action>, i: int)
    requires 0 <= i < |log|
  {
    match log[i]
    case Begins(_) => true
    case Settles(n) => (i + 1 < |log| && IsRecord(log[i + 1], n, false)) || (i > 0 && IsRecord(log[i - 1], n, true))
    case Records(n, failed, _) => if failed then i + 1 < |log| && log[i + 1] == Settles(n) else i > 0 && log[i - 1] == Settles(n)
  }

  predicate IsRecord(x: Action, n: nat, failed: bool) {
    x.Records? && x.n == n && x.failed == failed
  }

  predicate SameDeed(x: Action, y: Action) {
    x == y || (x.Records? && y.Records? && x.n == y.n)
  }

  ghost predicate Once(log: seq<Action>) {
    forall i, j :: 0 <= i < j < |log| ==> !SameDeed(log[i], log[j])
  }

  /** Its event was built and sent. */
  predicate Recorded(log: seq<Action>, n: nat) {
    Records(n, true, true) in log || Records(n, false, true) in log
  }

  /** Its event could not be built, and that was swallowed. */
  predicate Swallowed(log: seq<Action>, n: nat) {
    Records(n, true, false) in log || Records(n, false, false) in log
  }

  predicate Tried(log: seq<Action>, n: nat) {
    Recorded(log, n) || Swallowed(log, n)
  }

  /** What the calls lo to hi do outside, complete: each has been settled and tried to record its event. */
  ghost predicate Segment(log: seq<Action>, lo: nat, hi: nat) {
    && lo <= hi && Started(log) == hi - lo
    && Numbered(log, lo) && Adjacent(log) && Once(log)
    && forall n: nat :: lo <= n < hi ==> Tried(log, n) && Settles(n) in log
  }

  lemma {:induction false} StartedConcat(a: seq<Action>, b: seq<Action>)
    ensures Started(a + b) == Started(a) + Started(b)
  {
    if b == [] {
      assert a + b == a;
    } else {
      StartedConcat(a, b[..|b| - 1]);
      assert (a + b)[..|a + b| - 1] == a + b[..|b| - 1];
    }
  }

  lemma {:induction false} StartedPrefix(log: seq<Action>, i: nat)
    requires i <= |log|
    ensures Started(log[..i]) <= Started(log)
  {
    StartedConcat(log[..i], log[i..]);
    assert log[..i] + log[i..] == log;
  }

  lemma SegmentNumbers(log: seq<Action>, lo: nat, hi: nat)
    requires Segment(log, lo, hi)
    ensures forall x :: x in log ==> lo <= x.n < hi
  {
    forall i | 0 <= i < |log| ensures lo <= log[i].n < hi {
      assert NumberOk(log, lo, i);
      StartedPrefix(log, i);
      if log[i].Begins? {
        StartedPrefix(log, i + 1);
        assert log[..i + 1][..i] == log[..i];
      }
    }
  }

  lemma NumberedConcat(a: seq<Action>, b: seq<Action>, lo: nat, mid: nat)
    requires Numbered(a, lo) && Started(a) == mid - lo && Numbered(b, mid) && lo <= mid
    ensures Numbered(a + b, lo)
  {
    forall i | 0 <= i < |a + b| ensures NumberOk(a + b, lo, i) {
      if i < |a| {
        assert NumberOk(a, lo, i);
        assert (a + b)[..i] == a[..i];
      } else {
        assert NumberOk(b, mid, i - |a|);
        assert (a + b)[..i] == a + b[..i - |a|];
        StartedConcat(a, b[..i - |a|]);
      }
    }
  }

  lemma AdjacentConcat(a: seq<Action>, b: seq<Action>)
    requires Adjacent(a) && Adjacent(b)
    ensures Adjacent(a + b)
  {
    forall i | 0 <= i < |a + b| ensures NextTo(a + b, i) {
      if i < |a| { assert NextTo(a, i); } else { assert NextTo(b, i - |a|); }
    }
  }

  lemma SegmentConcat(a: seq<Action>, b: seq<Action>, lo: nat, mid: nat, hi: nat)
    requires Segment(a, lo, mid) && Segment(b, mid, hi)
    ensures Segment(a + b, lo, hi)
  {
    hide NumberOk, NextTo;
    StartedConcat(a, b);
    NumberedConcat(a, b, lo, mid);
    AdjacentConcat(a, b);
    SegmentNumbers(a, lo, mid);
    SegmentNumbers(b, mid, hi);
    forall i, j | 0 <= i < j < |a + b| ensures !SameDeed((a + b)[i], (a + b)[j]) {
      if i < |a| <= j {
        assert a[i] in a && b[j - |a|] in b;
      }
    }
    forall n: nat | lo <= n < hi ensures Tried(a + b, n) && Settles(n) in a + b {
      if n < mid { assert Tried(a, n) && Settles(n) in a; } else { assert Tried(b, n) && Settles(n) in b; }
    }
  }

  /** A call around the calls made inside it. */
  lemma SegmentCall(body: seq<Action>, n: nat, hi: nat, failed: bool, built: bool)
    requires Segment(body, n + 1, hi)
    ensures Segment([Begins(n)] + body + Ending(n, failed, built), n, hi)
  {
    hide Numbered, Adjacent, Once, Started;
    var front, end := [Begins(n)] + body, Ending(n, failed, built);
    SegmentNumbers(body, n + 1, hi);
    CallStarts(body, n, failed, built);
    NumberedConcat([Begins(n)], body, n, n + 1);
    EndingNumbered(front, n, hi, failed, built);
    AdjacentConcat([Begins(n)], body);
    AdjacentConcat(front, end);
    CallOnce(body, n, failed, built);
    CallEnds(body, n, hi, failed, built);
  }

  lemma CallEnds(body: seq<Action>, n: nat, hi: nat, failed: bool, built: bool)
    requires forall k: nat :: n + 1 <= k < hi ==> Tried(body, k) && Settles(k) in body
    ensures forall k: nat :: n <= k < hi ==>
              Tried([Begins(n)] + body + Ending(n, failed, built), k) && Settles(k) in [Begins(n)] + body + Ending(n, failed, built)
  {
    var all := [Begins(n)] + body + Ending(n, failed, built);
    assert Records(n, failed, built) in Ending(n, failed, built) && Settles(n) in Ending(n, failed, built);
    assert forall x :: x in body || x in Ending(n, failed, built) ==> x in all;
    forall k: nat | n <= k < hi ensures Tried(all, k) && Settles(k) in all {
      if k > n { assert Tried(body, k) && Settles(k) in body; }
    }
  }

  lemma CallStarts(body: seq<Action>, n: nat, failed: bool, built: bool)
    ensures Started([Begins(n)]) == 1 && Started(Ending(n, failed, built)) == 0
    ensures Started([Begins(n)] + body) == 1 + Started(body)
    ensures Started([Begins(n)] + body + Ending(n, failed, built)) == 1 + Started(body)
    ensures Numbered([Begins(n)], n) && Adjacent([Begins(n)]) && Adjacent(Ending(n, failed, built))
  {
    var end := Ending(n, failed, built);
    assert [Begins(n)][..0] == [];
    assert end[..1] == [end[0]] && [end[0]][..0] == [];
    StartedConcat([Begins(n)], body);
    StartedConcat([Begins(n)] + body, end);
  }

  lemma CallOnce(body: seq<Action>, n: nat, failed: bool, built: bool)
    requires Once(body) && forall x :: x in body ==> x.n > n
    ensures Once([Begins(n)] + body + Ending(n, failed, built))
  {
    var front, all := [Begins(n)] + body, [Begins(n)] + body + Ending(n, failed, built);
    assert |all| == |body| + 3 && all[0] == Begins(n);
    assert forall i :: 1 <= i < |front| ==> all[i] == body[i - 1] && body[i - 1] in body;
    assert all[|front|] == Ending(n, failed, built)[0] && all[|front| + 1] == Ending(n, failed, built)[1];
  }

  lemma EndingNumbered(front: seq<Action>, n: nat, hi: nat, failed: bool, built: bool)
    requires Numbered(front, n) && Started(front) == hi - n && n < hi
    ensures Numbered(front + Ending(n, failed, built), n)
  {
    var end := Ending(n, failed, built);
    forall i | 0 <= i < |front + end| ensures NumberOk(front + end, n, i) {
      if i < |front| {
        assert NumberOk(front, n, i);
        assert (front + end)[..i] == front[..i];
      } else {
        assert (front + end)[..i] == front + end[..i - |front|];
        StartedConcat(front, end[..i - |front|]);
      }
    }
  }

  /** The events sent are those that could be built. */
  ghost predicate Marked(log: seq<Action>, flights: seq<Flight>) {
    forall x :: x in log && x.Records? ==> x.n < |flights| && x.built == flights[x.n].built
  }

  /** What a run adds to the log. */
  ghost predicate LogGrows(s: State, t: State) {
    && s.flights <= t.flights && s.log <= t.log
    && Segment(t.log[|s.log|..], |s.flights|, |t.flights|) && Marked(t.log[|s.log|..], t.flights)
  }

  lemma LogGrowsTransitive(s: State, t: State, u: State)
    requires LogGrows(s, t) && LogGrows(t, u)
    ensures LogGrows(s, u)
  {
    hide Segment;
    var a, b := t.log[|s.log|..], u.log[|t.log|..];
    SegmentConcat(a, b, |s.flights|, |t.flights|, |u.flights|);
    assert u.log[|s.log|..] == a + b;
  }

  lemma CallGrows(s: State, t: State, failed: bool, built: bool)
    requires s.frame.Some? ==> s.frame.value < |s.frames|
    requires LogGrows(StartCall(s, built), t)
    ensures LogGrows(s, EndCall(t, |s.flights|, failed, built))
  {
    StartCallContext(s, built);
    var n, started := |s.flights|, StartCall(s, built);
    var body := t.log[|started.log|..];
    assert t.flights[n] == started.flights[n];
    hide Segment, StartCall, Marked, Ending;
    SegmentCall(body, n, |t.flights|, failed, built);
    MarkedCall(body, t.flights, n, failed);
    CallSlice(s.log, Begins(n), t.log, Ending(n, failed, built));
  }

  lemma MarkedCall(body: seq<Action>, flights: seq<Flight>, n: nat, failed: bool)
    requires Marked(body, flights) && n < |flights|
    ensures Marked([Begins(n)] + body + Ending(n, failed, flights[n].built), flights)
  {
  }

  lemma CallSlice(before: seq<Action>, x: Action, log: seq<Action>, end: seq<Action>)
    requires before + [x] <= log
    ensures before <= log + end && (log + end)[|before|..] == [x] + log[|before + [x]|..] + end
  {
    assert log == before + [x] + log[|before + [x]|..];
  }

  lemma SameLog(s: State, s': State, t: State, t': State)
    requires LogGrows(s', t') && s'.flights == s.flights && s'.log == s.log && t'.flights == t.flights && t'.log == t.log
    ensures LogGrows(s, t)
  {
  }

  lemma GrowsByNothing(s: State)
    ensures LogGrows(s, s)
  {
    assert s.log[|s.log|..] == [];
  }

  lemma {:induction false} ExecLog(p: Program, s: State)
    requires s.frame.Some? ==> s.frame.value < |s.frames|
    ensures LogGrows(s, Exec(p, s).0)
    decreases p
  {
    hide LogGrows, StartCall, EndCall;
    match p
    case Done => GrowsByNothing(s);
    case Raise => GrowsByNothing(s);
    case Try(body, next) =>
      var s1 := Exec(body, s).0;
      ExecLog(body, s);
      ExecLog(next, s1);
      LogGrowsTransitive(s, s1, Exec(next, s1).0);
    case Call(body, raises, built, next) =>
      StartCallBounds(s, built);
      ExecLog(body, StartCall(s, built));
      var (s1, raised) := Exec(body, StartCall(s, built));
      CallGrows(s, s1, raised || raises, built);
      var s2 := EndCall(s1, |s.flights|, raised || raises, built);
      EndCallContext(s1, |s.flights|, raised || raises, built);
      ExecLog(next, s2);
      LogGrowsTransitive(s, s2, Exec(next, s2).0);
    case Trace(given, body, next) =>
      var s0 := OpenTrace(s, given);
      BlockGrows(s, s0, body, next, p);
    case Span(given, body, next) =>
      var s0 := OpenSpan(s, given);
      BlockGrows(s, s0, body, next, p);
  }

  lemma StartCallBounds(s: State, built: bool)
    requires s.frame.Some? ==> s.frame.value < |s.frames|
    ensures StartCall(s, built).frame == s.frame && |StartCall(s, built).frames| == |s.frames|
  {
  }

  lemma EndCallContext(s: State, n: nat, failed: bool, built: bool)
    ensures EndCall(s, n, failed, built).frame == s.frame && EndCall(s, n, failed, built).frames == s.frames
  {
  }

  lemma {:induction false} BlockGrows(s: State, entered: State, body: Program, next: Program, p: Program)
    requires body < p && next < p
    requires s.frame.Some? ==> s.frame.value < |s.frames|
    requires entered.frame.Some? ==> entered.frame.value < |entered.frames|
    requires entered.flights == s.flights && entered.log == s.log && |entered.frames| >= |s.frames|
    ensures var s2 := Exec(body, entered).0.(frame := s.frame, trace := s.trace);
            && (s2.frame.Some? ==> s2.frame.value < |s2.frames|)
            && LogGrows(s, s2) && LogGrows(s, Exec(next, s2).0)
    decreases p, 0
  {
    hide LogGrows;
    var s1 := Exec(body, entered).0;
    var s2 := s1.(frame := s.frame, trace := s.trace);
    ExecLog(body, entered);
    SameLog(s, entered, s2, s1);
    ExecLog(next, s2);
    LogGrowsTransitive(s, s2, Exec(next, s2).0);
  }
}
