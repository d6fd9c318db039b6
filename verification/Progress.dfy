/** The publisher of a run's progress: at most one line a window, always of the latest phase. Times are
    measured from the start of the run. */
module Progress {
  import opened Wrappers

  datatype Phase =
    | Spawned(fingerprint: string)
    | Exited(connector: Option<string>)
    | Other(name: string)

  /** One return of `recv_timeout`, asked at `asked` and acted on at `at`. The schedule ends when the
      emitter is dropped. */
  datatype Event =
    | Received(asked: nat, phase: Phase, at: nat, renewals: nat)
    | TimedOut(asked: nat, at: nat, renewals: nat)

  datatype Line = Line(at: nat, phase: Phase, renewals: nat, fingerprint: Option<string>, connector: Option<string>)

  function Minus(a: nat, b: nat): nat {
    if a >= b then a - b else 0
  }

  function IsDue(last: Option<nat>, window: nat, at: nat): bool {
    last.None? || Minus(at, last.value) >= window
  }

  function WaitFor(last: Option<nat>, window: nat, at: nat): nat {
    if last.None? then window else Minus(window, Minus(at, last.value))
  }

  class Throttle {
    const window: nat
    var last: Option<nat>

    constructor (window: nat)
      ensures this.window == window && last == None
    {
      this.window := window;
      last := None;
    }

    /** May a line go out at `at`? Records that it did. */
    method Due(at: nat) returns (open: bool)
      modifies this
      ensures open == IsDue(old(last), window, at)
      ensures last == if open then Some(at) else old(last)
    {
      open := match last case None => true case Some(before) => Minus(at, before) >= window;
      if open {
        last := Some(at);
      }
    }

    /** How long until the window reopens. */
    method Wait(at: nat) returns (delay: nat)
      ensures delay == WaitFor(last, window, at)
    {
      match last
      case None => delay := window;
      case Some(before) => delay := Minus(window, Minus(at, before));
    }
  }

  /** Once something was published, `wait` is exactly the least delay after which a line is due; before that it
      is a whole window. */
  lemma WaitIsExact(before: nat, window: nat, at: nat, delay: nat)
    requires before <= at
    ensures IsDue(Some(before), window, at + delay) <==> delay >= WaitFor(Some(before), window, at)
    ensures IsDue(None, window, at) && WaitFor(None, window, at) == window
  {
  }

  // ----- what a schedule publishes -----

  function Latest(events: seq<Event>): Option<Phase> {
    if events == [] then None
    else
      var e := events[|events| - 1];
      if e.Received? then Some(e.phase) else Latest(events[..|events| - 1])
  }

  function Fingerprint(events: seq<Event>): Option<string> {
    if events == [] then None
    else
      var e := events[|events| - 1];
      if e.Received? && e.phase.Spawned? then Some(e.phase.fingerprint) else Fingerprint(events[..|events| - 1])
  }

  function Connector(events: seq<Event>): Option<string> {
    if events == [] then None
    else
      var e := events[|events| - 1];
      if e.Received? && e.phase.Exited? then e.phase.connector else Connector(events[..|events| - 1])
  }

  function LastOut(lines: seq<Line>): Option<nat> {
    if lines == [] then None else Some(lines[|lines| - 1].at)
  }

  /** The lines a schedule publishes: one for each event at which some phase is known and no line went
      out within the window before. */
  function Lines(events: seq<Event>, window: nat): seq<Line> {
    if events == [] then []
    else
      var e := events[|events| - 1];
      var before := Lines(events[..|events| - 1], window);
      if Latest(events).Some? && IsDue(LastOut(before), window, e.at) then
        before + [Line(e.at, Latest(events).value, e.renewals, Fingerprint(events), Connector(events))]
      else before
  }

  /** The timeout asked for before event i. */
  function Wanted(events: seq<Event>, window: nat, i: nat): nat
    requires i < |events|
  {
    WaitFor(LastOut(Lines(events[..i], window)), window, events[i].asked)
  }

  /** The publishing loop: the lines, and the timeouts it asked its receiver for. */
  method Pump(events: seq<Event>, window: nat) returns (lines: seq<Line>, waits: seq<nat>)
    ensures lines == Lines(events, window)
    ensures |waits| == |events| && forall i :: 0 <= i < |events| ==> waits[i] == Wanted(events, window, i)
  {
    lines, waits := [], [];
    var throttle := new Throttle(window);
    var current: Option<Phase> := None;
    var fingerprint: Option<string> := None;
    var connector: Option<string> := None;
    for i := 0 to |events|
      invariant throttle.window == window && throttle.last == LastOut(lines)
      invariant lines == Lines(events[..i], window)
      invariant current == Latest(events[..i])
      invariant fingerprint == Fingerprint(events[..i])
      invariant connector == Connector(events[..i])
      invariant fresh(throttle)
      invariant |waits| == i && forall j :: 0 <= j < i ==> waits[j] == Wanted(events, window, j)
    {
      ghost var seen := events[..i + 1];
      assert seen[..|seen| - 1] == events[..i] && seen[|seen| - 1] == events[i];
      var delay := throttle.Wait(events[i].asked);
      waits := waits + [delay];
      match events[i] {
        case Received(_, phase, _, _) =>
          match phase {
            case Spawned(f) => fingerprint := Some(f);
            case Exited(c) => connector := c;
            case Other(_) =>
          }
          current := Some(phase);
        case TimedOut(_, _, _) =>
      }
      if current.None? {
        continue;
      }
      var due := throttle.Due(events[i].at);
      if !due {
        continue;
      }
      lines := lines + [Line(events[i].at, current.value, events[i].renewals, fingerprint, connector)];
    }
    assert events[..|events|] == events;
  }

  // ----- main results -----

  /** The clock does not go back, and a timeout comes no earlier than was asked for. */
  ghost predicate ValidSchedule(events: seq<Event>, window: nat) {
    events != [] ==>
      var init, e := events[..|events| - 1], events[|events| - 1];
      && ValidSchedule(init, window)
      && (init != [] ==> init[|init| - 1].at <= e.asked)
      && e.asked <= e.at
      && (e.TimedOut? ==> e.at >= e.asked + Wanted(events, window, |init|))
  }

  lemma {:induction false} LinesBounded(events: seq<Event>, window: nat)
    requires ValidSchedule(events, window)
    ensures forall line :: line in Lines(events, window) ==> events != [] && line.at <= events[|events| - 1].at
  {
    if events != [] {
      LinesBounded(events[..|events| - 1], window);
    }
  }

  /** Two lines are at least one window apart. */
  lemma {:induction false} LinesApart(events: seq<Event>, window: nat, i: nat, j: nat)
    requires ValidSchedule(events, window) && i < j < |Lines(events, window)|
    ensures Lines(events, window)[j].at - Lines(events, window)[i].at >= window
  {
    var init := events[..|events| - 1];
    var before := Lines(init, window);
    if j < |before| {
      LinesApart(init, window, i, j);
    } else if i < |before| - 1 {
      LinesApart(init, window, i, |before| - 1);
      LinesBounded(init, window);
      assert before[|before| - 1] in before;
    } else {
      LinesBounded(init, window);
      assert before[i] in before;
    }
  }

  // ----- what a line shows -----

  predicate IsPhase(e: Event) {
    e.Received?
  }

  predicate IsSpawn(e: Event) {
    e.Received? && e.phase.Spawned?
  }

  predicate IsExit(e: Event) {
    e.Received? && e.phase.Exited?
  }

  /** Event j is the last of this kind up to event k. */
  ghost predicate LastOf(kind: Event -> bool, events: seq<Event>, k: int, j: int) {
    0 <= j <= k < |events| && kind(events[j]) && forall i :: j < i <= k ==> !kind(events[i])
  }

  lemma LastOfSnoc(kind: Event -> bool, events: seq<Event>, j: int)
    requires events != []
    ensures var n := |events| - 1;
            LastOf(kind, events, n, j) <==> if kind(events[n]) then j == n else LastOf(kind, events[..n], n - 1, j)
  {
    var n := |events| - 1;
    assert forall i :: 0 <= i < n ==> events[..n][i] == events[i];
  }

  lemma {:induction false} SomeLast(kind: Event -> bool, events: seq<Event>) returns (j: int)
    requires exists i :: 0 <= i < |events| && kind(events[i])
    ensures LastOf(kind, events, |events| - 1, j)
  {
    var n := |events| - 1;
    if kind(events[n]) {
      j := n;
    } else {
      j := SomeLast(kind, events[..n]);
      LastOfSnoc(kind, events, j);
    }
  }

  /** A line sent at event k shows its time and the renewals then, the last phase received, the fingerprint of
      the last spawn and the connector of the last exit. */
  ghost predicate ShownAt(events: seq<Event>, k: nat, line: Line) {
    && k < |events| && line.at == events[k].at && line.renewals == events[k].renewals
    && (exists j :: LastOf(IsPhase, events, k, j) && line.phase == events[j].phase)
    && (line.fingerprint.None? ==> forall j :: 0 <= j <= k ==> !IsSpawn(events[j]))
    && (line.fingerprint.Some? ==> exists j :: LastOf(IsSpawn, events, k, j) && events[j].phase.fingerprint == line.fingerprint.value)
    && (forall j :: LastOf(IsExit, events, k, j) ==> events[j].phase.connector == line.connector)
    && (line.connector.Some? ==> exists j :: LastOf(IsExit, events, k, j))
  }

  lemma {:induction false} LatestMeans(events: seq<Event>)
    ensures Latest(events).Some? <==> exists i :: 0 <= i < |events| && IsPhase(events[i])
    ensures forall j :: LastOf(IsPhase, events, |events| - 1, j) ==> Latest(events) == Some(events[j].phase)
  {
    if events != [] {
      var n := |events| - 1;
      LatestMeans(events[..n]);
      forall j | LastOf(IsPhase, events, n, j) ensures Latest(events) == Some(events[j].phase) { LastOfSnoc(IsPhase, events, j); }
    }
  }

  lemma {:induction false} FingerprintMeans(events: seq<Event>)
    ensures Fingerprint(events).Some? <==> exists i :: 0 <= i < |events| && IsSpawn(events[i])
    ensures forall j :: LastOf(IsSpawn, events, |events| - 1, j) ==> Fingerprint(events) == Some(events[j].phase.fingerprint)
  {
    if events != [] {
      var n := |events| - 1;
      FingerprintMeans(events[..n]);
      forall j | LastOf(IsSpawn, events, n, j) ensures Fingerprint(events) == Some(events[j].phase.fingerprint) { LastOfSnoc(IsSpawn, events, j); }
    }
  }

  lemma {:induction false} ConnectorMeans(events: seq<Event>)
    ensures Connector(events).Some? ==> exists i :: 0 <= i < |events| && IsExit(events[i])
    ensures forall j :: LastOf(IsExit, events, |events| - 1, j) ==> Connector(events) == events[j].phase.connector
  {
    if events != [] {
      var n := |events| - 1;
      ConnectorMeans(events[..n]);
      forall j | LastOf(IsExit, events, n, j) ensures Connector(events) == events[j].phase.connector { LastOfSnoc(IsExit, events, j); }
    }
  }

  lemma SentShows(events: seq<Event>, line: Line)
    requires events != [] && Latest(events).Some?
    requires var e := events[|events| - 1];
             line == Line(e.at, Latest(events).value, e.renewals, Fingerprint(events), Connector(events))
    ensures ShownAt(events, |events| - 1, line)
  {
    LatestMeans(events);
    FingerprintMeans(events);
    ConnectorMeans(events);
    var phase := SomeLast(IsPhase, events);
    if line.fingerprint.Some? { var spawn := SomeLast(IsSpawn, events); }
    if line.connector.Some? { var exit := SomeLast(IsExit, events); }
  }

  lemma ShownLonger(events: seq<Event>, more: seq<Event>, k: nat, line: Line)
    requires events <= more && ShownAt(events, k, line)
    ensures ShownAt(more, k, line)
  {
    assert forall i :: 0 <= i <= k ==> more[i] == events[i];
    forall kind: Event -> bool, j ensures LastOf(kind, more, k, j) <==> LastOf(kind, events, k, j) {}
  }

  lemma {:induction false} EveryLineIsLatest(events: seq<Event>, window: nat, i: nat)
    requires i < |Lines(events, window)|
    ensures exists k: nat :: ShownAt(events, k, Lines(events, window)[i])
  {
    hide ShownAt, Latest, Fingerprint, Connector;
    var init := events[..|events| - 1];
    if i < |Lines(init, window)| {
      EveryLineIsLatest(init, window, i);
      var k: nat :| ShownAt(init, k, Lines(init, window)[i]);
      ShownLonger(init, events, k, Lines(init, window)[i]);
      assert ShownAt(events, k, Lines(events, window)[i]);
    } else {
      SentShows(events, Lines(events, window)[i]);
      assert ShownAt(events, |events| - 1, Lines(events, window)[i]);
    }
  }

  /** Waiting out the window always ends in a line: a timeout never fires in vain, so a line is refreshed
      every window while no phase comes. */
  lemma TimeoutsPublish(events: seq<Event>, window: nat)
    requires ValidSchedule(events, window) && events != [] && events[|events| - 1].TimedOut?
    requires exists i :: 0 <= i < |events| && events[i].Received?
    ensures |Lines(events, window)| == |Lines(events[..|events| - 1], window)| + 1
  {
    LatestMeans(events);
    var init, e := events[..|events| - 1], events[|events| - 1];
    var last := LastOut(Lines(init, window));
    if last.Some? {
      LinesBounded(init, window);
      assert Lines(init, window)[|Lines(init, window)| - 1] in Lines(init, window);
      WaitIsExact(last.value, window, e.asked, e.at - e.asked);
    }
  }

  /** A phase is never held back longer than the window asks: an event publishes iff some phase is known
      and every earlier line is at least a window old. */
  lemma PublishesUnlessRecent(events: seq<Event>, window: nat)
    requires ValidSchedule(events, window) && events != []
    ensures var before := Lines(events[..|events| - 1], window);
            Lines(events, window) != before <==>
              (exists i :: 0 <= i < |events| && events[i].Received?)
              && forall line :: line in before ==> events[|events| - 1].at - line.at >= window
  {
    hide Latest, Fingerprint, Connector;
    LatestMeans(events);
    var init := events[..|events| - 1];
    LinesBounded(init, window);
    NewestLine(init, window);
  }

  lemma NewestLine(events: seq<Event>, window: nat)
    requires ValidSchedule(events, window)
    ensures var lines := Lines(events, window);
            forall line :: line in lines ==> lines[|lines| - 1] in lines && line.at <= lines[|lines| - 1].at
  {
    hide Lines, ValidSchedule;
    var lines := Lines(events, window);
    forall line | line in lines ensures line.at <= lines[|lines| - 1].at {
      var i :| 0 <= i < |lines| && lines[i] == line;
      if i < |lines| - 1 { LinesApart(events, window, i, |lines| - 1); }
    }
  }
}
