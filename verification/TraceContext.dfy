/** The trace context of the Python client: the current trace, the current span's frame, and which call
    owns a span.

    A program is any nesting of calls, traces and spans, left by return or by exception. Ids come from
    a clock, so two minted ids are never equal; a caller may give a trace or a span an id of its own
    making, or any id that was minted before, such as the one another span yielded.

    A call says whether its event can be built when it ends. It cannot when the usage of the response, or
    the text of the exception, cannot be read, or the client is switched off; the client swallows that. */
module TraceContext {
  import opened Wrappers

  datatype Program =
    | Done
    | Raise
    | Try(body: Program, next: Program)
    | Call(body: Program, raises: bool, built: bool, next: Program)  // `body` is what runs inside the wrapped function
    | Trace(given: Option<Id>, body: Program, next: Program)
    | Span(given: Option<Id>, body: Program, next: Program)

  datatype Id = Minted(n: nat) | Named(name: string)

  /** `trace` and `born` record where and when the frame was opened. */
  datatype Frame = Frame(id: Id, parent: Option<Id>, owned: bool, trace: Id, born: nat)

  /** The identity of a call, decided when it starts. `within` and `owns` record the frame it started in
      and the one it claimed, `built` whether its event can be built. */
  datatype Flight = Flight(
    trace: Id, span: Id, parent: Option<Id>, started: nat, within: Option<nat>, owns: bool, built: bool)

  /** What a call does outside the context, by its number: its breadcrumb, the end of it, and the attempt to
      record its event, which says whether the call raised and whether the event was built. */
  datatype Action = Begins(n: nat) | Settles(n: nat) | Records(n: nat, failed: bool, built: bool)

  /** The context variables, the frames ever opened, the calls ever started, the events sent, each by the
      number of its call, and everything done outside in order. */
  datatype State = State(
    trace: Option<Id>,
    frame: Option<nat>,
    frames: seq<Frame>,
    flights: seq<Flight>,
    events: seq<nat>,
    log: seq<Action>,
    clock: nat)

  const START := State(None, None, [], [], [], [], 0)

  /** The id given by the caller, or the one minted now. An empty name counts as none, and an id nobody
      has minted yet cannot be given. */
  function Chosen(given: Option<Id>, now: nat): Id {
    match given
    case Some(Named(name)) => if name != "" then Named(name) else Minted(now)
    case Some(Minted(n)) => if n < now then Minted(n) else Minted(now)
    case None => Minted(now)
  }

  function OpenTrace(s: State, given: Option<Id>): State {
    s.(trace := Some(Chosen(given, s.clock)), frame := None, clock := s.clock + 1)
  }

  function OpenSpan(s: State, given: Option<Id>): State
    requires s.frame.Some? ==> s.frame.value < |s.frames|
  {
    var parent := if s.frame.Some? then Some(s.frames[s.frame.value].id) else None;
    var trace := if s.trace.Some? then s.trace.value else Minted(s.clock + 1);
    var frame := Frame(Chosen(given, s.clock), parent, false, trace, s.clock);
    s.(trace := Some(trace), frame := Some(|s.frames|), frames := s.frames + [frame], clock := s.clock + 2)
  }

  /** The first call in a span claims it; later ones hang under it. */
  function StartCall(s: State, built: bool): State
    requires s.frame.Some? ==> s.frame.value < |s.frames|
  {
    var trace := if s.trace.Some? then s.trace.value else Minted(s.clock + 1);
    var flight :=
      match s.frame
      case None => Flight(trace, Minted(s.clock), None, s.clock, None, false, built)
      case Some(f) =>
        if s.frames[f].owned then Flight(trace, Minted(s.clock), Some(s.frames[f].id), s.clock, Some(f), false, built)
        else Flight(trace, s.frames[f].id, s.frames[f].parent, s.clock, Some(f), true, built);
    var frames := if flight.owns then s.frames[flight.within.value := s.frames[flight.within.value].(owned := true)] else s.frames;
    s.(frames := frames, flights := s.flights + [flight], log := s.log + [Begins(|s.flights|)], clock := s.clock + 2)
  }

  /** A call that raised is recorded before its breadcrumb is retired; one that returned, after. */
  function Ending(n: nat, failed: bool, built: bool): seq<Action> {
    if failed then [Records(n, true, built), Settles(n)] else [Settles(n), Records(n, false, built)]
  }

  function EndCall(s: State, n: nat, failed: bool, built: bool): State {
    s.(events := if built then s.events + [n] else s.events, log := s.log + Ending(n, failed, built))
  }

  /** Running a program; the second result says whether it ends in an exception. */
  function Exec(p: Program, s: State): (r: (State, bool))
    requires s.frame.Some? ==> s.frame.value < |s.frames|
    ensures |r.0.frames| >= |s.frames| && r.0.trace == s.trace && r.0.frame == s.frame
  {
    match p
    case Done => (s, false)
    case Raise => (s, true)
    case Try(body, next) => Exec(next, Exec(body, s).0)
    case Call(body, raises, built, next) =>
      var (s1, raised) := Exec(body, StartCall(s, built));
      var s2 := EndCall(s1, |s.flights|, raised || raises, built);
      if raised || raises then (s2, true) else Exec(next, s2)
    case Trace(given, body, next) =>
      var (s1, raised) := Exec(body, OpenTrace(s, given));
      var s2 := s1.(frame := s.frame, trace := s.trace);
      if raised then (s2, true) else Exec(next, s2)
    case Span(given, body, next) =>
      var (s1, raised) := Exec(body, OpenSpan(s, given));
      var s2 := s1.(frame := s.frame, trace := s.trace);
      if raised then (s2, true) else Exec(next, s2)
  }

  /** The same as the client does it: variables set on entry and reset on the way out, frames flipped in
      place. */
  class Tracer {
    var trace: Option<Id>
    var frame: Option<nat>
    var frames: seq<Frame>
    var flights: seq<Flight>
    var events: seq<nat>
    var log: seq<Action>
    var clock: nat

    function Value(): State
      reads this
    {
      State(trace, frame, frames, flights, events, log, clock)
    }

    predicate Valid()
      reads this
    {
      frame.Some? ==> frame.value < |frames|
    }

    constructor ()
      ensures Valid() && Value() == START
    {
      trace, frame, frames, flights, events, log, clock := None, None, [], [], [], [], 0;
    }

    method NewId() returns (id: Id)
      modifies this`clock
      ensures id == Minted(old(clock)) && clock == old(clock) + 1
    {
      id := Minted(clock);
      clock := clock + 1;
    }

    /** The ids of the next recorded call, and the frame it claims if any. */
    method SpanIds(ghost built: bool) returns (span: Id, parent: Option<Id>, owns: bool)
      requires Valid()
      modifies this`frames, this`clock
      ensures var flight := StartCall(old(Value()), built).flights[|flights|]; span == flight.span && parent == flight.parent && owns == flight.owns
      ensures frames == StartCall(old(Value()), built).frames && clock == old(clock) + 1
    {
      var minted := NewId();
      if frame.None? {
        return minted, None, false;
      }
      var f := frame.value;
      if !frames[f].owned {
        frames := frames[f := frames[f].(owned := true)];
        return frames[f].id, frames[f].parent, true;
      }
      return minted, Some(frames[f].id), false;
    }

    method Run(p: Program) returns (raised: bool)
      requires Valid()
      modifies this
      ensures Valid() && (Value(), raised) == Exec(p, old(Value()))
      ensures trace == old(trace) && frame == old(frame) && |frames| >= |old(frames)|
      decreases p, 0
    {
      hide OpenSpan, OpenTrace, StartCall;
      match p
      case Done => raised := false;
      case Raise => raised := true;
      case Try(body, next) =>
        raised := Run(body);
        raised := Run(next);
      case Call(body, raises, built, next) =>
        raised := RunCall(body, raises, built);
        if !raised { raised := Run(next); }
      case Trace(given, body, next) =>
        var tok, ftok := trace, frame;
        SetTrace(given);
        raised := Run(body);
        frame, trace := ftok, tok;
        if !raised { raised := Run(next); }
      case Span(given, body, next) =>
        var tok, ftok := trace, frame;
        PushSpan(given);
        raised := Run(body);
        frame, trace := ftok, tok;
        if !raised { raised := Run(next); }
    }

    method SetTrace(given: Option<Id>)
      modifies this
      ensures Valid() && Value() == OpenTrace(old(Value()), given) && frames == old(frames)
    {
      var now := clock;
      var minted := NewId();
      trace := Some(Chosen(given, now));
      frame := None;
    }

    method PushSpan(given: Option<Id>)
      requires Valid()
      modifies this
      ensures Valid() && Value() == OpenSpan(old(Value()), given) && |frames| > |old(frames)|
    {
      var now := clock;
      var minted := NewId();
      var sid := Chosen(given, now);
      var parent := if frame.Some? then Some(frames[frame.value].id) else None;
      var freshTrace := NewId();
      var current := if trace.Some? then trace.value else freshTrace;
      trace := Some(current);
      frames := frames + [Frame(sid, parent, false, current, now)];
      frame := Some(|frames| - 1);
    }

    /** Decide the call's identity before it runs. */
    method BeginCall(built: bool) returns (number: nat)
      requires Valid()
      modifies this
      ensures Valid() && number == |old(flights)| && Value() == StartCall(old(Value()), built) && |frames| == |old(frames)|
    {
      var now := clock;
      number := |flights|;
      var span, parent, owns := SpanIds(built);
      var freshTrace := NewId();
      var current := if trace.Some? then trace.value else freshTrace;
      flights := flights + [Flight(current, span, parent, now, frame, owns, built)];
      log := log + [Begins(number)];
    }

    method RunCall(body: Program, raises: bool, built: bool) returns (raised: bool)
      requires Valid()
      modifies this
      ensures Valid()
      ensures var (s1, r) := Exec(body, StartCall(old(Value()), built));
              Value() == EndCall(s1, |old(flights)|, raised, built) && raised == (r || raises)
      ensures |frames| >= |old(frames)|
      decreases body, 1
    {
      hide StartCall;
      var number := BeginCall(built);
      raised := Run(body);
      raised := raised || raises;
      if raised {
        Record(number, true, built);
        log := log + [Settles(number)];
      } else {
        log := log + [Settles(number)];
        Record(number, false, built);
      }
    }

    /** Send one event for the call, unless it cannot be built; that is swallowed. */
    method Record(number: nat, failed: bool, built: bool)
      modifies this`events, this`log
      ensures events == if built then old(events) + [number] else old(events)
      ensures log == old(log) + [Records(number, failed, built)]
    {
      if built {
        events := events + [number];
      }
      log := log + [Records(number, failed, built)];
    }
  }

  // ----- what every step keeps -----

  ghost predicate ContextOk(s: State) {
    s.frame.Some? ==> s.frame.value < |s.frames| && s.trace == Some(s.frames[s.frame.value].trace)
  }

  /** An earlier frame of the same trace. */
  ghost predicate FrameBefore(frames: seq<Frame>, id: Id, trace: Id, when: nat) {
    exists j :: 0 <= j < |frames| && frames[j].id == id && frames[j].trace == trace && frames[j].born < when
  }

  ghost predicate FrameOk(frames: seq<Frame>, f: Frame) {
    && f.id != Named("") && (f.id.Minted? ==> f.id.n <= f.born)
    && (f.parent.Some? ==> FrameBefore(frames, f.parent.value, f.trace, f.born))
  }

  ghost predicate FramesOk(frames: seq<Frame>, clock: nat) {
    && (forall i :: 0 <= i < |frames| ==> frames[i].born < clock && FrameOk(frames, frames[i]))
    && (forall i, j :: 0 <= i < j < |frames| ==> frames[i].born != frames[j].born)
  }

  ghost predicate FlightOk(frames: seq<Frame>, fl: Flight) {
    match fl.within
    case None => fl.span == Minted(fl.started) && fl.parent == None && !fl.owns
    case Some(f) =>
      && f < |frames| && frames[f].trace == fl.trace && frames[f].born < fl.started
      && (if fl.owns then fl.span == frames[f].id && fl.parent == frames[f].parent && frames[f].owned
          else fl.span == Minted(fl.started) && fl.parent == Some(frames[f].id))
  }

  ghost predicate FlightsOk(frames: seq<Frame>, flights: seq<Flight>, clock: nat) {
    && (forall i :: 0 <= i < |flights| ==> flights[i].started < clock && FlightOk(frames, flights[i]))
    && (forall i, j :: 0 <= i < j < |flights| ==> flights[i].started < flights[j].started)
    && (forall i, j :: 0 <= i < |frames| && 0 <= j < |flights| ==> frames[i].born != flights[j].started)
    && (forall i, j :: 0 <= i < j < |flights| && flights[i].owns && flights[j].owns ==> flights[i].within != flights[j].within)
    && (forall f :: 0 <= f < |frames| && frames[f].owned ==> OwnedBefore(flights, f, |flights|))
    && (forall i :: 0 <= i < |flights| && flights[i].within.Some? && !flights[i].owns ==> OwnedBefore(flights, flights[i].within.value, i))
  }

  /** One of the first n calls claimed frame f. */
  ghost predicate OwnedBefore(flights: seq<Flight>, f: nat, n: nat) {
    exists j :: 0 <= j < |flights| && j < n && flights[j].owns && flights[j].within == Some(f)
  }

  ghost predicate Good(s: State) {
    ContextOk(s) && FramesOk(s.frames, s.clock) && FlightsOk(s.frames, s.flights, s.clock)
  }

  /** Frames are only added and claimed. */
  ghost predicate FramesGrow(a: seq<Frame>, b: seq<Frame>) {
    |a| <= |b| && forall i :: 0 <= i < |a| ==> b[i] == a[i].(owned := b[i].owned) && (a[i].owned ==> b[i].owned)
  }

  lemma OpenSpanKeeps(s: State, given: Option<Id>)
    requires Good(s)
    ensures Good(OpenSpan(s, given)) && FramesGrow(s.frames, OpenSpan(s, given).frames)
  {
    OpenSpanFrames(s, given);
    OpenSpanFlights(s, given);
    hide FramesOk, FlightsOk;
  }

  lemma OpenSpanFrames(s: State, given: Option<Id>)
    requires ContextOk(s) && FramesOk(s.frames, s.clock)
    ensures var t := OpenSpan(s, given); FramesOk(t.frames, t.clock) && FramesGrow(s.frames, t.frames)
  {
    var frames := OpenSpan(s, given).frames;
    forall i | 0 <= i < |frames| ensures FrameOk(frames, frames[i]) {
      if i < |s.frames| {
        FrameOkStays(s.frames, frames, s.frames[i]);
      } else if s.frame.Some? {
        assert frames[s.frame.value] == s.frames[s.frame.value];
      }
    }
    hide FrameOk;
  }

  lemma OpenSpanFlights(s: State, given: Option<Id>)
    requires ContextOk(s) && FlightsOk(s.frames, s.flights, s.clock)
    ensures var t := OpenSpan(s, given); FlightsOk(t.frames, t.flights, t.clock)
  {
    var frames := OpenSpan(s, given).frames;
    forall i | 0 <= i < |s.flights| ensures FlightOk(frames, s.flights[i]) {
      assert FlightOk(s.frames, s.flights[i]);
    }
    hide FlightOk;
  }

  lemma FrameOkStays(a: seq<Frame>, b: seq<Frame>, f: Frame)
    requires FramesGrow(a, b) && FrameOk(a, f)
    ensures FrameOk(b, f)
  {
    if f.parent.Some? {
      var j :| 0 <= j < |a| && a[j].id == f.parent.value && a[j].trace == f.trace && a[j].born < f.born;
      assert b[j].id == f.parent.value;
    }
  }

  /** The call a call becomes, and the frame it may claim. */
  lemma StartCallAdds(s: State, built: bool)
    requires Good(s)
    ensures var t := StartCall(s, built);
            var fl := t.flights[|s.flights|];
            && t == s.(frames := t.frames, flights := s.flights + [fl], log := t.log, clock := s.clock + 2)
            && FramesGrow(s.frames, t.frames) && |t.frames| == |s.frames|
            && FlightOk(t.frames, fl) && fl.started == s.clock
            && (fl.owns ==> fl.within.Some? && fl.within.value < |s.frames| && !s.frames[fl.within.value].owned)
            && (fl.within.Some? && !fl.owns ==> fl.within.value < |s.frames| && s.frames[fl.within.value].owned)
            && forall f :: 0 <= f < |s.frames| && t.frames[f].owned ==> s.frames[f].owned || (fl.owns && fl.within == Some(f))
  {
    hide FrameOk, FlightsOk;
  }

  lemma StartCallKeeps(s: State, built: bool)
    requires Good(s)
    ensures Good(StartCall(s, built)) && FramesGrow(s.frames, StartCall(s, built).frames)
  {
    StartCallAdds(s, built);
    var t := StartCall(s, built);
    hide StartCall, FlightOk;
    FlightAdded(s, t.frames, t.flights[|s.flights|], t.clock);
    hide FlightsOk;
    forall i | 0 <= i < |t.frames| ensures FrameOk(t.frames, t.frames[i]) {
      FrameOkStays(s.frames, t.frames, s.frames[i]);
    }
  }

  lemma FlightAdded(s: State, frames: seq<Frame>, fl: Flight, later: nat)
    requires Good(s) && FramesGrow(s.frames, frames) && |frames| == |s.frames| && s.clock < later
    requires FlightOk(frames, fl) && fl.started == s.clock
    requires fl.owns ==> fl.within.Some? && fl.within.value < |s.frames| && !s.frames[fl.within.value].owned
    requires fl.within.Some? && !fl.owns ==> fl.within.value < |s.frames| && s.frames[fl.within.value].owned
    requires forall f :: 0 <= f < |s.frames| && frames[f].owned ==> s.frames[f].owned || (fl.owns && fl.within == Some(f))
    ensures FlightsOk(frames, s.flights + [fl], later)
  {
    hide FrameOk;
    forall i | 0 <= i < |s.flights|
      ensures FlightOk(frames, s.flights[i])
      ensures fl.owns && s.flights[i].owns ==> s.flights[i].within != fl.within
    {
      assert FlightOk(s.frames, s.flights[i]);
    }
    hide FlightOk;
    OwnersStay(s, frames, fl);
  }

  lemma OwnersStay(s: State, frames: seq<Frame>, fl: Flight)
    requires FlightsOk(s.frames, s.flights, s.clock) && |frames| == |s.frames|
    requires fl.within.Some? && !fl.owns ==> fl.within.value < |s.frames| && s.frames[fl.within.value].owned
    requires forall f :: 0 <= f < |s.frames| && frames[f].owned ==> s.frames[f].owned || (fl.owns && fl.within == Some(f))
    ensures var flights := s.flights + [fl];
            && (forall f :: 0 <= f < |frames| && frames[f].owned ==> OwnedBefore(flights, f, |flights|))
            && (forall i :: 0 <= i < |flights| && flights[i].within.Some? && !flights[i].owns
                  ==> OwnedBefore(flights, flights[i].within.value, i))
  {
    hide FlightOk;
    var flights := s.flights + [fl];
    assert flights[|s.flights|] == fl;
    forall f, n | 0 <= f && 0 <= n && OwnedBefore(s.flights, f, n)
      ensures OwnedBefore(flights, f, n) && OwnedBefore(flights, f, |flights|)
    {
      var j :| 0 <= j < |s.flights| && j < n && s.flights[j].owns && s.flights[j].within == Some(f);
      assert flights[j] == s.flights[j];
    }
  }

  /** The calls from number lo on whose events could be built, each once, and nothing else. */
  ghost predicate SentOnce(events: seq<nat>, flights: seq<Flight>, lo: nat) {
    forall n: nat :: multiset(events)[n] == if lo <= n < |flights| && flights[n].built then 1 else 0
  }

  lemma SentSplit(a: seq<nat>, b: seq<nat>, flights: seq<Flight>, more: seq<Flight>, lo: nat)
    requires lo <= |flights| && flights <= more && SentOnce(a, flights, lo) && SentOnce(b, more, |flights|)
    ensures SentOnce(a + b, more, lo)
  {
  }

  /** What a run adds: frames and calls are only added, and each new call sends its event. */
  ghost predicate Extends(s: State, t: State) {
    && FramesGrow(s.frames, t.frames)
    && s.flights <= t.flights
    && s.clock <= t.clock
    && s.events <= t.events
    && SentOnce(t.events[|s.events|..], t.flights, |s.flights|)
  }

  lemma ExtendsTransitive(s: State, t: State, u: State)
    requires Extends(s, t) && Extends(t, u)
    ensures Extends(s, u)
  {
    hide SentOnce;
    SentSplit(t.events[|s.events|..], u.events[|t.events|..], t.flights, u.flights, |s.flights|);
    assert u.events[|s.events|..] == t.events[|s.events|..] + u.events[|t.events|..];
  }

  lemma CallExtends(s: State, s1: State, failed: bool, built: bool)
    requires s.frame.Some? ==> s.frame.value < |s.frames|
    requires Extends(StartCall(s, built), s1)
    ensures Extends(s, EndCall(s1, |s.flights|, failed, built))
  {
    hide StartCall, SentOnce, FramesGrow;
    var t, n := StartCall(s, built), |s.flights|;
    StartCallContext(s, built);
    FramesGrowTransitive(s.frames, t.frames, s1.frames);
    assert t.flights[n] == s1.flights[n];
    var body := s1.events[|t.events|..];
    SentCall(body, s1.flights, n);
    assert (s1.events + [n])[|s.events|..] == body + [n];
  }

  lemma SentCall(events: seq<nat>, flights: seq<Flight>, n: nat)
    requires n < |flights| && SentOnce(events, flights, n + 1)
    ensures SentOnce(if flights[n].built then events + [n] else events, flights, n)
  {
  }

  lemma FramesGrowTransitive(a: seq<Frame>, b: seq<Frame>, c: seq<Frame>)
    requires FramesGrow(a, b) && FramesGrow(b, c)
    ensures FramesGrow(a, c)
  {
  }

  /** What entering a block does. */
  ghost predicate Enters(s: State, t: State) {
    Good(t) && FramesGrow(s.frames, t.frames) && t.flights == s.flights && t.events == s.events && t.log == s.log && s.clock <= t.clock
  }

  /** Leaving a block: the variables are what they were, over frames that only grew. */
  lemma LeavesBlock(s: State, entered: State, t: State)
    requires Good(s) && Enters(s, entered) && Good(t) && Extends(entered, t)
    ensures var left := t.(frame := s.frame, trace := s.trace); Good(left) && Extends(s, left)
  {
  }

  lemma LeavesCall(s: State, t: State, failed: bool, built: bool)
    requires Good(s) && Good(t) && Extends(StartCall(s, built), t) && t.frame == s.frame && t.trace == s.trace
    ensures var left := EndCall(t, |s.flights|, failed, built); Good(left) && Extends(s, left)
  {
    CallExtends(s, t, failed, built);
  }

  lemma ExtendsItself(s: State)
    ensures Extends(s, s)
  {
  }

  lemma InBounds(s: State)
    requires Good(s)
    ensures s.frame.Some? ==> s.frame.value < |s.frames|
  {
  }

  lemma EntersTrace(s: State, given: Option<Id>)
    requires Good(s)
    ensures Enters(s, OpenTrace(s, given)) && OpenTrace(s, given).frames == s.frames
  {
  }

  lemma EntersSpan(s: State, given: Option<Id>)
    requires Good(s)
    ensures Enters(s, OpenSpan(s, given))
  {
    OpenSpanKeeps(s, given);
  }

  lemma EntersGood(s: State, t: State)
    requires Enters(s, t)
    ensures Good(t)
  {
  }

  /** Every program keeps the invariant, whatever it nests and however its blocks are left. */
  lemma {:induction false} ExecKeeps(p: Program, s: State)
    requires Good(s)
    ensures Good(Exec(p, s).0) && Extends(s, Exec(p, s).0)
    decreases p, 1
  {
    hide Good, Extends, OpenTrace, OpenSpan, StartCall, Enters;
    InBounds(s);
    match p
    case Done => ExtendsItself(s);
    case Raise => ExtendsItself(s);
    case Try(body, next) =>
      ExecKeeps(body, s);
      var s1 := Exec(body, s).0;
      InBounds(s1);
      ExecKeeps(next, s1);
      ExtendsTransitive(s, s1, Exec(next, s1).0);
    case Call(body, raises, built, next) =>
      StartCallKeeps(s, built);
      InBounds(StartCall(s, built));
      ExecKeeps(body, StartCall(s, built));
      var (s1, raised) := Exec(body, StartCall(s, built));
      StartCallContext(s, built);
      LeavesCall(s, s1, raised || raises, built);
      var s2 := EndCall(s1, |s.flights|, raised || raises, built);
      InBounds(s2);
      ExecKeeps(next, s2);
      ExtendsTransitive(s, s2, Exec(next, s2).0);
    case Trace(given, body, next) =>
      EntersTrace(s, given);
      BlockKeeps(s, OpenTrace(s, given), p, body, next);
    case Span(given, body, next) =>
      EntersSpan(s, given);
      BlockKeeps(s, OpenSpan(s, given), p, body, next);
  }

  lemma {:induction false} BlockKeeps(s: State, entered: State, p: Program, body: Program, next: Program)
    requires Good(s) && Enters(s, entered) && body < p && next < p
    ensures entered.frame.Some? ==> entered.frame.value < |entered.frames|
    ensures var s2 := Exec(body, entered).0.(frame := s.frame, trace := s.trace);
            && Good(s2) && Extends(s, s2)
            && (s2.frame.Some? ==> s2.frame.value < |s2.frames|)
            && Good(Exec(next, s2).0) && Extends(s, Exec(next, s2).0)
    decreases p, 0
  {
    hide Good, Extends, Enters;
    EntersGood(s, entered);
    InBounds(entered);
    var s1 := Exec(body, entered).0;
    ExecKeeps(body, entered);
    LeavesBlock(s, entered, s1);
    var s2 := s1.(frame := s.frame, trace := s.trace);
    InBounds(s2);
    ExecKeeps(next, s2);
    ExtendsTransitive(s, s2, Exec(next, s2).0);
  }

  lemma StartCallContext(s: State, built: bool)
    requires s.frame.Some? ==> s.frame.value < |s.frames|
    ensures StartCall(s, built).frame == s.frame && StartCall(s, built).trace == s.trace
    ensures StartCall(s, built).events == s.events && StartCall(s, built).log == s.log + [Begins(|s.flights|)] && StartCall(s, built).clock >= s.clock
    ensures |StartCall(s, built).flights| == |s.flights| + 1 && s.flights <= StartCall(s, built).flights
    ensures StartCall(s, built).flights[|s.flights|].built == built && FramesGrow(s.frames, StartCall(s, built).frames)
  {
  }

  // ----- main results -----

  lemma StartGood()
    ensures Good(START)
  {
  }

  /** Every nesting of calls, traces and spans, left in any way, gives the context back and sends the event of
      each call once if it can be built, and no other. A span has at most one owner, the first call in it; a call's parent is a frame of its
      own trace, opened before the call. */
  lemma SpanForest(p: Program)
    ensures var s := Exec(p, START).0;
            && s.trace == None && s.frame == None
            && (forall n: nat :: multiset(s.events)[n] == if n < |s.flights| && s.flights[n].built then 1 else 0)
            && (forall i, j :: 0 <= i < j < |s.flights| && s.flights[i].owns && s.flights[j].owns ==>
                  s.flights[i].within != s.flights[j].within)
            && (forall i :: 0 <= i < |s.flights| && s.flights[i].within.Some? && !s.flights[i].owns ==>
                  OwnedBefore(s.flights, s.flights[i].within.value, i))
            && (forall i :: 0 <= i < |s.flights| && s.flights[i].parent.Some? ==>
                  FrameBefore(s.frames, s.flights[i].parent.value, s.flights[i].trace, s.flights[i].started))
  {
    hide Exec;
    StartGood();
    ExecKeeps(p, START);
    var s := Exec(p, START).0;
    assert s.events[|START.events|..] == s.events;
    forall i | 0 <= i < |s.flights| && s.flights[i].parent.Some?
      ensures FrameBefore(s.frames, s.flights[i].parent.value, s.flights[i].trace, s.flights[i].started)
    {
      ParentBefore(s, i);
    }
    assert s.trace == None && s.frame == None by { ContextRestored(p, START); }
  }

  lemma ContextRestored(p: Program, s: State)
    requires s.frame.Some? ==> s.frame.value < |s.frames|
    ensures Exec(p, s).0.trace == s.trace && Exec(p, s).0.frame == s.frame
  {
  }

  /** When a call's identity came to be: with its span if it owns one, else when it started. */
  function Born(s: State, i: nat): nat
    requires i < |s.flights|
  {
    var fl := s.flights[i];
    if fl.owns && fl.within.Some? && fl.within.value < |s.frames| then s.frames[fl.within.value].born else fl.started
  }

  /** The parent is a frame of the same trace, older than the call's own identity. */
  lemma ParentBefore(s: State, i: nat)
    requires Good(s) && i < |s.flights| && s.flights[i].parent.Some?
    ensures FrameBefore(s.frames, s.flights[i].parent.value, s.flights[i].trace, Born(s, i))
    ensures FrameBefore(s.frames, s.flights[i].parent.value, s.flights[i].trace, s.flights[i].started)
  {
    var fl := s.flights[i];
    assert FlightOk(s.frames, fl);
    var f := s.frames[fl.within.value];
    assert FrameOk(s.frames, f);
    if fl.owns {
      var j :| 0 <= j < |s.frames| && s.frames[j].id == fl.parent.value && s.frames[j].trace == f.trace && s.frames[j].born < f.born;
      assert s.frames[j].born < fl.started;
    }
  }

  // ----- which trace, span and parent a call has -----

  /** From any point of a program, the first two calls of a new span: the first is the span, under the enclosing
      one, with the id given or a new one; the second hangs under it with a new id of its own. Both are in the
      open trace, or in one new trace. */
  lemma OwnershipRule(s: State, given: Option<Id>, first: bool, second: bool)
    requires Good(s)
    ensures var n := |s.flights|;
            var flights := StartCall(StartCall(OpenSpan(s, given), first), second).flights;
            var one, two := flights[n], flights[n + 1];
            && one.parent == (if s.frame.Some? then Some(s.frames[s.frame.value].id) else None)
            && (forall name :: given == Some(Named(name)) && name != "" ==> one.span == Named(name))
            && (forall m: nat :: given == Some(Minted(m)) && m < s.clock ==> one.span == Minted(m))
            && (given == None || given == Some(Named("")) ==> one.span.Minted? && one.span.n >= s.clock)
            && two.parent == Some(one.span) && two.span.Minted? && two.span.n >= s.clock && two.span != one.span
            && one.trace == two.trace && (s.trace.Some? ==> one.trace == s.trace.value)
            && (s.trace.None? ==> one.trace.Minted? && one.trace.n >= s.clock)
  {
    hide FramesOk, FlightsOk;
  }

  /** Outside any span a call stands alone: no parent, a new id, and the open trace or one of its own. */
  lemma StandsAlone(s: State, built: bool)
    requires Good(s) && s.frame.None?
    ensures var call := StartCall(s, built).flights[|s.flights|];
            && call.parent == None && call.span.Minted? && call.span.n >= s.clock
            && (if s.trace.Some? then call.trace == s.trace.value
                else call.trace.Minted? && call.trace.n >= s.clock && call.trace != call.span)
  {
  }

  /** No traces are opened in here. */
  predicate OneTrace(p: Program) {
    !p.Trace? && (!p.Done? && !p.Raise? ==> OneTrace(p.body) && OneTrace(p.next))
  }

  /** Every call in a trace carries its id: the one given, or one new id for them all. */
  lemma CallsCarryTrace(s: State, given: Option<Id>, body: Program)
    requires Good(s) && OneTrace(body)
    ensures OpenTrace(s, given).frame == None
    ensures var flights := Exec(body, OpenTrace(s, given)).0.flights;
            && |s.flights| <= |flights|
            && forall i :: |s.flights| <= i < |flights| ==>
                 && (forall name :: given == Some(Named(name)) && name != "" ==> flights[i].trace == Named(name))
                 && (forall m: nat :: given == Some(Minted(m)) && m < s.clock ==> flights[i].trace == Minted(m))
                 && (given == None || given == Some(Named("")) ==> flights[i].trace == Minted(s.clock))
  {
    hide Exec, Good;
    EntersTrace(s, given);
    EntersGood(s, OpenTrace(s, given));
    TraceStays(body, OpenTrace(s, given));
    ExecKeeps(body, OpenTrace(s, given));
  }

  lemma {:induction false} TraceStays(p: Program, s: State)
    requires Good(s) && OneTrace(p) && s.trace.Some?
    ensures var flights := Exec(p, s).0.flights;
            s.flights <= flights && forall i :: |s.flights| <= i < |flights| ==> flights[i].trace == s.trace.value
    decreases p, 1
  {
    hide Good, OpenSpan, StartCall;
    InBounds(s);
    match p
    case Done =>
    case Raise =>
    case Try(body, next) =>
      ExecKeeps(body, s);
      BothTraced(p, s, Exec(body, s).0);
    case Call(body, raises, built, next) =>
      var s0 := StartCall(s, built);
      StartCallKeeps(s, built);
      StartCallContext(s, built);
      StartCallTrace(s, built);
      InBounds(s0);
      ExecKeeps(body, s0);
      var (s1, raised) := Exec(body, s0);
      LeavesCall(s, s1, raised || raises, built);
      BothTraced(p, s0, EndCall(s1, |s.flights|, raised || raises, built));
    case Span(given, body, next) =>
      var s0 := OpenSpan(s, given);
      EntersSpan(s, given);
      EntersGood(s, s0);
      SpanTrace(s, given);
      BlockKeeps(s, s0, p, body, next);
      BothTraced(p, s0, Exec(body, s0).0.(frame := s.frame, trace := s.trace));
  }

  lemma {:induction false} BothTraced(p: Program, s: State, after: State)
    requires !p.Done? && !p.Raise? && Good(s) && Good(after) && OneTrace(p) && s.trace.Some? && after.trace == s.trace
    requires s.frame.Some? ==> s.frame.value < |s.frames|
    requires after.flights == Exec(p.body, s).0.flights
    ensures after.frame.Some? ==> after.frame.value < |after.frames|
    ensures s.flights <= after.flights && forall i :: |s.flights| <= i < |after.flights| ==> after.flights[i].trace == s.trace.value
    ensures var flights := Exec(p.next, after).0.flights;
            s.flights <= flights && forall i :: |s.flights| <= i < |flights| ==> flights[i].trace == s.trace.value
    decreases p, 0
  {
    hide Good;
    InBounds(after);
    TraceStays(p.body, s);
    TraceStays(p.next, after);
  }

  lemma StartCallTrace(s: State, built: bool)
    requires (s.frame.Some? ==> s.frame.value < |s.frames|) && s.trace.Some?
    ensures StartCall(s, built).flights[|s.flights|].trace == s.trace.value
  {
  }

  lemma SpanTrace(s: State, given: Option<Id>)
    requires (s.frame.Some? ==> s.frame.value < |s.frames|) && s.trace.Some?
    ensures OpenSpan(s, given).trace == s.trace && OpenSpan(s, given).flights == s.flights
  {
  }

  predicate DistinctSpans(flights: seq<Flight>) {
    forall i, j :: 0 <= i < j < |flights| ==> flights[i].span != flights[j].span
  }

  /** Two spans in which a call started have the same id. */
  predicate SharedByFrames(frames: seq<Frame>) {
    exists i, j :: 0 <= i < j < |frames| && frames[i].owned && frames[j].owned && frames[i].id == frames[j].id
  }

  /** A span in which a call started has the id minted for a call that claimed none. */
  predicate SharedWithCall(frames: seq<Frame>, flights: seq<Flight>) {
    exists i, j :: 0 <= i < |frames| && 0 <= j < |flights| && frames[i].owned && !flights[j].owns
                   && frames[i].id == Minted(flights[j].started)
  }

  /** Span ids are pairwise distinct, except exactly where a caller gives a span an id that another span or
      call already has, and a call starts in both. */
  lemma SpanIdsDistinct(p: Program)
    ensures var s := Exec(p, START).0;
            DistinctSpans(s.flights) <==> !SharedByFrames(s.frames) && !SharedWithCall(s.frames, s.flights)
  {
    hide Exec;
    StartGood();
    ExecKeeps(p, START);
    hide Good, Extends, DistinctSpans, SharedByFrames, SharedWithCall;
    var s := Exec(p, START).0;
    if !DistinctSpans(s.flights) { RepeatIsShared(s); }
    if SharedByFrames(s.frames) { SharedFramesRepeat(s); }
    if SharedWithCall(s.frames, s.flights) { SharedCallRepeats(s); }
  }

  lemma RepeatIsShared(s: State)
    requires Good(s) && !DistinctSpans(s.flights)
    ensures SharedByFrames(s.frames) || SharedWithCall(s.frames, s.flights)
  {
    hide Good, SharedByFrames, SharedWithCall;
    var i, j :| 0 <= i < j < |s.flights| && s.flights[i].span == s.flights[j].span;
    SharedSpan(s, i, j);
  }

  lemma SharedFramesRepeat(s: State)
    requires Good(s) && SharedByFrames(s.frames)
    ensures !DistinctSpans(s.flights)
  {
    hide Good;
    var f, g :| 0 <= f < g < |s.frames| && s.frames[f].owned && s.frames[g].owned && s.frames[f].id == s.frames[g].id;
    var a := Owner(s, f);
    var b := Owner(s, g);
    assert s.flights[a].span == s.flights[b].span && a != b;
  }

  lemma SharedCallRepeats(s: State)
    requires Good(s) && SharedWithCall(s.frames, s.flights)
    ensures !DistinctSpans(s.flights)
  {
    hide Good;
    var f, j :| 0 <= f < |s.frames| && 0 <= j < |s.flights| && s.frames[f].owned && !s.flights[j].owns
                && s.frames[f].id == Minted(s.flights[j].started);
    var a := Owner(s, f);
    UnownedSpan(s, j);
    assert s.flights[a].span == s.flights[j].span && a != j;
  }

  lemma Owner(s: State, f: nat) returns (i: nat)
    requires Good(s) && f < |s.frames| && s.frames[f].owned
    ensures i < |s.flights| && s.flights[i].owns && s.flights[i].within == Some(f) && s.flights[i].span == s.frames[f].id
  {
    assert OwnedBefore(s.flights, f, |s.flights|);
    i :| 0 <= i < |s.flights| && s.flights[i].owns && s.flights[i].within == Some(f);
    assert FlightOk(s.frames, s.flights[i]);
  }

  lemma UnownedSpan(s: State, i: nat)
    requires Good(s) && i < |s.flights| && !s.flights[i].owns
    ensures s.flights[i].span == Minted(s.flights[i].started)
  {
    assert FlightOk(s.frames, s.flights[i]);
  }

  lemma OwnedSpan(s: State, i: nat)
    requires Good(s) && i < |s.flights| && s.flights[i].owns
    ensures var w := s.flights[i].within;
            && w.Some? && w.value < |s.frames| && s.frames[w.value].owned
            && s.flights[i].span == s.frames[w.value].id && s.flights[i].parent == s.frames[w.value].parent
            && s.frames[w.value].born < s.flights[i].started
  {
    assert FlightOk(s.frames, s.flights[i]);
  }

  lemma SharedSpan(s: State, i: nat, j: nat)
    requires Good(s) && i < j < |s.flights| && s.flights[i].span == s.flights[j].span
    ensures SharedByFrames(s.frames) || SharedWithCall(s.frames, s.flights)
  {
    if s.flights[i].owns { OwnedSpan(s, i); } else { UnownedSpan(s, i); }
    if s.flights[j].owns { OwnedSpan(s, j); } else { UnownedSpan(s, j); }
    if s.flights[i].owns && s.flights[j].owns {
      var f, g := s.flights[i].within.value, s.flights[j].within.value;
      assert f != g;
      assert SharedByFrames(s.frames) by {
        if f < g { assert s.frames[f].id == s.frames[g].id; } else { assert s.frames[g].id == s.frames[f].id; }
      }
    }
  }

  // ----- cycles of parents -----

  /** Call i names call j's id as its parent. */
  predicate ChildOf(flights: seq<Flight>, i: nat, j: nat) {
    i < |flights| && j < |flights| && flights[i].parent == Some(flights[j].span)
  }

  /** From each call to one it names as its parent. */
  predicate Chain(flights: seq<Flight>, path: seq<nat>) {
    && path != []
    && (forall k :: 0 <= k < |path| ==> path[k] < |flights|)
    && (forall k :: 0 <= k < |path| - 1 ==> ChildOf(flights, path[k], path[k + 1]))
  }

  ghost predicate Cycle(flights: seq<Flight>, path: seq<nat>) {
    |path| >= 2 && Chain(flights, path) && path[0] == path[|path| - 1]
  }

  ghost predicate HasCycle(flights: seq<Flight>) {
    exists path :: Cycle(flights, path)
  }

  /** By these calls, `id` is `ancestor` or hangs below it. */
  ghost predicate Descends(flights: seq<Flight>, id: Id, ancestor: Id) {
    id == ancestor || exists path :: Leads(flights, path, id, ancestor)
  }

  predicate Leads(flights: seq<Flight>, path: seq<nat>, id: Id, ancestor: Id) {
    Chain(flights, path) && flights[path[0]].span == id && flights[path[|path| - 1]].parent == Some(ancestor)
  }

  /** When call n started, its parent was already at or below the id it took. */
  ghost predicate Closes(flights: seq<Flight>, n: nat)
    requires n < |flights|
  {
    flights[n].parent.Some? && Descends(flights[..n], flights[n].parent.value, flights[n].span)
  }

  lemma ClosingMakesCycle(flights: seq<Flight>, n: nat)
    requires n < |flights| && Closes(flights, n)
    ensures HasCycle(flights)
  {
    var id := flights[n].parent.value;
    if id == flights[n].span {
      assert Cycle(flights, [n, n]);
    } else {
      var path :| Leads(flights[..n], path, id, flights[n].span);
      var around := [n] + path + [n];
      assert ChildOf(flights, n, path[0]);
      forall k | 0 <= k < |around| - 1 ensures ChildOf(flights, around[k], around[k + 1]) {
        if 1 <= k < |path| { assert ChildOf(flights[..n], path[k - 1], path[k]); }
      }
      assert Cycle(flights, around);
    }
  }

  /** A cycle seen from the call of it that started last. */
  lemma CycleIsClosed(flights: seq<Flight>, path: seq<nat>) returns (n: nat)
    requires Cycle(flights, path)
    ensures n < |flights| && Closes(flights, n)
  {
    var i := Latest(path);
    n := path[i];
    var turned := path[i..] + path[1..i + 1];
    TurnedChain(flights, path, i);
    var j := NextVisit(turned, n);
    if j > 1 {
      var between := turned[1..j];
      forall k | 0 <= k < |between| - 1 ensures ChildOf(flights[..n], between[k], between[k + 1]) {
        assert ChildOf(flights, turned[k + 1], turned[k + 2]);
      }
      assert ChildOf(flights, turned[0], turned[1]) && ChildOf(flights, turned[j - 1], turned[j]);
      assert Leads(flights[..n], between, flights[n].parent.value, flights[n].span);
    } else {
      assert ChildOf(flights, turned[0], turned[1]);
    }
  }

  lemma {:induction false} Latest(path: seq<nat>) returns (i: nat)
    requires path != []
    ensures i < |path| && forall k :: 0 <= k < |path| ==> path[k] <= path[i]
  {
    i := 0;
    if |path| > 1 {
      var rest := Latest(path[1..]);
      assert path == [path[0]] + path[1..];
      i := if path[0] >= path[1..][rest] then 0 else rest + 1;
    }
  }

  lemma TurnedChain(flights: seq<Flight>, path: seq<nat>, i: nat)
    requires Cycle(flights, path) && i < |path|
    ensures var turned := path[i..] + path[1..i + 1];
            && Chain(flights, turned) && turned[0] == path[i] && turned[|turned| - 1] == path[i] && |turned| >= 2
            && forall k :: 0 <= k < |turned| ==> turned[k] in path
  {
    var turned, m := path[i..] + path[1..i + 1], |path| - i;
    forall k | 0 <= k < |turned| ensures turned[k] in path && turned[k] == if k < m then path[i + k] else path[k - m + 1] {
    }
    forall k | 0 <= k < |turned| - 1 ensures ChildOf(flights, turned[k], turned[k + 1]) {
      if k < m - 1 {
        assert ChildOf(flights, path[i + k], path[i + k + 1]);
      } else {
        assert ChildOf(flights, path[k - m + 1], path[k - m + 2]);
      }
    }
  }

  /** Where a path that comes back to its start is there again for the first time. */
  lemma NextVisit(path: seq<nat>, n: nat) returns (j: nat)
    requires |path| >= 2 && path[|path| - 1] == n
    ensures 1 <= j < |path| && path[j] == n && forall k :: 1 <= k < j ==> path[k] != n
  {
    j := 1;
    while path[j] != n
      invariant 1 <= j < |path| && forall k :: 1 <= k < j ==> path[k] != n
      decreases |path| - j
    {
      j := j + 1;
    }
  }

  /** The parent links of a run make a forest, except exactly where the first call of a span takes an id
      that the enclosing span is or already hangs below. */
  lemma ParentCycles(p: Program)
    ensures var flights := Exec(p, START).0.flights;
            HasCycle(flights) <==> exists n: nat :: n < |flights| && flights[n].owns && Closes(flights, n)
  {
    hide Exec, Closes, Cycle;
    StartGood();
    ExecKeeps(p, START);
    var s := Exec(p, START).0;
    hide Extends;
    if HasCycle(s.flights) {
      var path :| Cycle(s.flights, path);
      var n := CycleIsClosed(s.flights, path);
      OnlyOwnersClose(s, n);
    }
    if n: nat :| n < |s.flights| && s.flights[n].owns && Closes(s.flights, n) {
      ClosingMakesCycle(s.flights, n);
    }
  }

  /** A minted id is new: nothing older hangs below it. */
  lemma OnlyOwnersClose(s: State, n: nat)
    requires Good(s) && n < |s.flights| && Closes(s.flights, n)
    ensures s.flights[n].owns
  {
    var fl := s.flights[n];
    if !fl.owns {
      UnownedSpan(s, n);
      ParentIsOlder(s, n);
      var path :| Leads(s.flights[..n], path, fl.parent.value, fl.span);
      var last := path[|path| - 1];
      assert s.flights[last].parent == Some(fl.span);
      ParentIsOlder(s, last);
    }
  }

  lemma ParentIsOlder(s: State, i: nat)
    requires Good(s) && i < |s.flights| && s.flights[i].parent.Some?
    ensures s.flights[i].parent.value.Minted? ==> s.flights[i].parent.value.n < s.flights[i].started
  {
    ParentBefore(s, i);
    var id := s.flights[i].parent.value;
    var j :| 0 <= j < |s.frames| && s.frames[j].id == id && s.frames[j].born < s.flights[i].started;
    assert FrameOk(s.frames, s.frames[j]);
  }

  /** Every span has an id of its own. */
  predicate DistinctFrames(frames: seq<Frame>) {
    forall i, j :: 0 <= i < j < |frames| ==> frames[i].id != frames[j].id
  }

  lemma ParentOlder(s: State, i: nat, j: nat)
    requires Good(s) && DistinctFrames(s.frames) && ChildOf(s.flights, i, j)
    ensures Born(s, j) < Born(s, i)
  {
    hide Good;
    ParentBefore(s, i);
    var parent := s.flights[i].parent.value;
    var g :| 0 <= g < |s.frames| && s.frames[g].id == parent && s.frames[g].born < Born(s, i);
    SpanOfFrame(s, j, g);
  }

  lemma SpanOfFrame(s: State, j: nat, g: nat)
    requires Good(s) && DistinctFrames(s.frames) && j < |s.flights| && g < |s.frames| && s.flights[j].span == s.frames[g].id
    ensures Born(s, j) <= s.frames[g].born
  {
    assert FrameOk(s.frames, s.frames[g]);
    if s.flights[j].owns { OwnedSpan(s, j); } else { UnownedSpan(s, j); }
  }

  /** In particular, a run in which every span has an id of its own has no cycle: no chain of parents comes
      back to where it began. */
  lemma NoParentCycles(p: Program)
    requires DistinctFrames(Exec(p, START).0.frames)
    ensures !HasCycle(Exec(p, START).0.flights)
  {
    hide Exec;
    StartGood();
    ExecKeeps(p, START);
    var s := Exec(p, START).0;
    if path :| Cycle(s.flights, path) {
      ChainOlder(s, path);
    }
  }

  lemma {:induction false} ChainOlder(s: State, path: seq<nat>)
    requires Good(s) && DistinctFrames(s.frames) && |path| >= 2 && Chain(s.flights, path)
    ensures Born(s, path[|path| - 1]) < Born(s, path[0])
  {
    hide Good, Born, DistinctFrames;
    assert ChildOf(s.flights, path[0], path[1]);
    ParentOlder(s, path[0], path[1]);
    if |path| > 2 {
      forall k | 0 <= k < |path[1..]| - 1 ensures ChildOf(s.flights, path[1..][k], path[1..][k + 1]) {
        assert ChildOf(s.flights, path[k + 1], path[k + 2]);
      }
      ChainOlder(s, path[1..]);
    }
  }

  // ----- programs that keep ids apart -----

  /** The names a program gives to spans. */
  function NamesIn(p: Program): set<string> {
    match p
    case Done => {}
    case Raise => {}
    case Try(body, next) => NamesIn(body) + NamesIn(next)
    case Call(body, _, _, next) => NamesIn(body) + NamesIn(next)
    case Trace(_, body, next) => NamesIn(body) + NamesIn(next)
    case Span(given, body, next) => NameOf(given) + NamesIn(body) + NamesIn(next)
  }

  function NameOf(given: Option<Id>): set<string> {
    if given.Some? && given.value.Named? && given.value.name != "" then {given.value.name} else {}
  }

  /** No span is given a minted id, and no two spans the same name. */
  predicate GivesApart(p: Program) {
    && (p.Span? ==> (p.given.Some? ==> p.given.value.Named?) && NameOf(p.given) !! NamesIn(p.body) + NamesIn(p.next))
    && (!p.Done? && !p.Raise? ==> GivesApart(p.body) && GivesApart(p.next) && NamesIn(p.body) !! NamesIn(p.next))
  }

  /** Each frame has the id minted for it or one of these names, and no two have the same. */
  ghost predicate FramesApart(frames: seq<Frame>, names: set<string>) {
    && DistinctFrames(frames)
    && forall i :: 0 <= i < |frames| ==> frames[i].id == Minted(frames[i].born) || (frames[i].id.Named? && frames[i].id.name in names)
  }

  lemma ApartClaimed(frames: seq<Frame>, claimed: seq<Frame>, names: set<string>)
    requires FramesApart(frames, names) && FramesGrow(frames, claimed) && |claimed| == |frames|
    ensures FramesApart(claimed, names)
  {
  }

  lemma OpenSpanApart(s: State, given: Option<Id>, names: set<string>)
    requires Good(s) && FramesApart(s.frames, names) && (given.Some? ==> given.value.Named?) && NameOf(given) !! names
    ensures FramesApart(OpenSpan(s, given).frames, names + NameOf(given))
  {
    var t := OpenSpan(s, given);
    var f := t.frames[|s.frames|];
    hide FrameOk, FlightsOk;
    assert f.id == Minted(s.clock) || (f.id.Named? && NameOf(given) == {f.id.name});
    forall i | 0 <= i < |s.frames| ensures s.frames[i].id != f.id {
      assert s.frames[i].born < s.clock;
    }
  }

  lemma {:induction false} ExecApart(p: Program, s: State, names: set<string>)
    requires Good(s) && GivesApart(p) && FramesApart(s.frames, names) && names !! NamesIn(p)
    ensures FramesApart(Exec(p, s).0.frames, names + NamesIn(p))
    decreases p, 1
  {
    hide Good, FramesApart, OpenTrace, OpenSpan, StartCall, FramesGrow, Extends;
    InBounds(s);
    match p
    case Done => assert names + {} == names;
    case Raise => assert names + {} == names;
    case Try(body, next) =>
      ExecKeeps(body, s);
      BothApart(p, s, Exec(body, s).0, names);
    case Call(body, raises, built, next) =>
      var s0 := StartCall(s, built);
      StartCallKeeps(s, built);
      StartCallAdds(s, built);
      StartCallContext(s, built);
      ApartClaimed(s.frames, s0.frames, names);
      InBounds(s0);
      ExecKeeps(body, s0);
      var (s1, raised) := Exec(body, s0);
      LeavesCall(s, s1, raised || raises, built);
      BothApart(p, s0, EndCall(s1, |s.flights|, raised || raises, built), names);
    case Trace(given, body, next) =>
      var s0 := OpenTrace(s, given);
      EntersTrace(s, given);
      EntersGood(s, s0);
      BlockKeeps(s, s0, p, body, next);
      BothApart(p, s0, Exec(body, s0).0.(frame := s.frame, trace := s.trace), names);
    case Span(given, body, next) =>
      var s0 := OpenSpan(s, given);
      EntersSpan(s, given);
      EntersGood(s, s0);
      BlockKeeps(s, s0, p, body, next);
      OpenSpanApart(s, given, names);
      BothApart(p, s0, Exec(body, s0).0.(frame := s.frame, trace := s.trace), names + NameOf(given));
      assert names + NameOf(given) + (NamesIn(body) + NamesIn(next)) == names + NamesIn(p);
  }

  /** The body of a program and what follows it, from where the body left the frames. */
  lemma {:induction false} BothApart(p: Program, s: State, after: State, names: set<string>)
    requires !p.Done? && !p.Raise? && Good(s) && Good(after)
    requires GivesApart(p) && FramesApart(s.frames, names) && names !! NamesIn(p.body) + NamesIn(p.next)
    requires s.frame.Some? ==> s.frame.value < |s.frames|
    requires after.frames == Exec(p.body, s).0.frames
    ensures after.frame.Some? ==> after.frame.value < |after.frames|
    ensures FramesApart(after.frames, names + (NamesIn(p.body) + NamesIn(p.next)))
    ensures FramesApart(Exec(p.next, after).0.frames, names + (NamesIn(p.body) + NamesIn(p.next)))
    decreases p, 0
  {
    hide Good, FramesApart, FramesGrow;
    var here := names + NamesIn(p.body);
    var all := names + (NamesIn(p.body) + NamesIn(p.next));
    InBounds(after);
    ExecApart(p.body, s, names);
    ApartWider(after.frames, here, all);
    ExecApart(p.next, after, here);
    assert here + NamesIn(p.next) == all;
  }

  lemma ApartWider(frames: seq<Frame>, names: set<string>, wider: set<string>)
    requires FramesApart(frames, names) && names <= wider
    ensures FramesApart(frames, wider)
  {
  }

  /** A program whose spans are given no minted id and no name twice has pairwise distinct span ids and no
      cycle of parents; a program that gives no ids at all is one. */
  lemma GivenApartIsForest(p: Program)
    requires GivesApart(p)
    ensures var flights := Exec(p, START).0.flights; DistinctSpans(flights) && !HasCycle(flights)
  {
    hide Exec;
    StartGood();
    ExecKeeps(p, START);
    ExecApart(p, START, {});
    SpanIdsDistinct(p);
    NoParentCycles(p);
  }
  /** Wherever a program stands inside a span, giving that span's id to the next one makes the first call in
      it its own parent. */
  lemma OwnIdCycles(s: State, built: bool)
    requires Good(s) && s.frame.Some?
    ensures var id := s.frames[s.frame.value].id;
            var t := StartCall(OpenSpan(s, Some(id)), built);
            ChildOf(t.flights, |s.flights|, |s.flights|) && HasCycle(t.flights)
  {
    assert FrameOk(s.frames, s.frames[s.frame.value]);
    var id := s.frames[s.frame.value].id;
    var t := StartCall(OpenSpan(s, Some(id)), built);
    var n := |s.flights|;
    assert t.flights[n].span == id && t.flights[n].parent == Some(id);
    assert Cycle(t.flights, [n, n]);
  }

  /** Two ids given crosswise, whatever they are, make each of two calls the other's parent. */
  lemma CrossedIdsCycle(a: string, b: string, built: bool)
    requires a != "" && b != ""
    ensures exists p :: ChildOf(Exec(p, START).0.flights, 0, 1) && ChildOf(Exec(p, START).0.flights, 1, 0)
  {
    var x, y := Some(Named(a)), Some(Named(b));
    var call := Call(Done, false, built, Done);
    var inner := Span(x, call, Done);
    var second := Span(y, inner, Done);
    var p := Span(x, Span(y, call, Done), second);
    var s1 := OpenSpan(START, x);
    SpanAlone(s1, y, call);
    var s5 := Exec(Span(y, call, Done), s1).0.(frame := None, trace := None);
    var s6 := OpenSpan(s5, y);
    SpanAlone(s6, x, call);
    SpanAlone(s5, y, inner);
    assert Exec(p, START) == Exec(second, s5);
    var end := Exec(p, START).0;
    assert ChildOf(end.flights, 0, 1) && ChildOf(end.flights, 1, 0);
  }

  lemma SpanAlone(s: State, given: Option<Id>, body: Program)
    requires s.frame.Some? ==> s.frame.value < |s.frames|
    ensures var (t, raised) := Exec(body, OpenSpan(s, given));
            Exec(Span(given, body, Done), s) == (t.(frame := s.frame, trace := s.trace), raised)
  {
  }
}
