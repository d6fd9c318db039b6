/** What a crash leaves of an instrumented program: for every call it had started, a breadcrumb in the
    journal file, an event the server has, or neither.

    The trace context decides a call's identity when the call starts and writes it to the journal at once;
    the event sent at the end carries the same identity. An event waits in a bounded queue in memory for a
    worker to post it, so what is only queued dies with the process. */
module CallCoverage {
  import opened Wrappers
  import Json
  import SpanLog
  import Journal
  import opened TraceContext
  import opened CallLog
  import opened CallJournal

  // ----- the client's queue -----

  /** Whether events are posted by the worker or by the caller, and how many may wait; a capacity of zero is
      no bound. */
  datatype Mode = Mode(async: bool, capacity: nat)

  /** A process at one point: how far its program has come, the events waiting and the one the worker is
      posting, and what became of the others. */
  datatype Process = Process(
    k: nat, queue: seq<nat>, hand: Option<nat>, posted: set<nat>, failed: set<nat>, dropped: set<nat>)

  datatype Step = Advance(ok: bool) | Take | PostEnds(ok: bool)

  const LAUNCHED := Process(0, [], None, {}, {}, {})

  /** Handing an event over drops it when the queue is full. */
  function HandOver(m: Mode, w: Process, n: nat, ok: bool): Process {
    if m.async then
      if m.capacity > 0 && |w.queue| >= m.capacity then w.(dropped := w.dropped + {n}) else w.(queue := w.queue + [n])
    else PostOf(w, n, ok)
  }

  function PostOf(w: Process, n: nat, ok: bool): Process {
    if ok then w.(posted := w.posted + {n}) else w.(failed := w.failed + {n})
  }

  /** The program does the next thing of its log, or the worker takes an event or finishes with one. */
  function Next(m: Mode, log: seq<Action>, w: Process, step: Step): Process {
    match step
    case Advance(ok) =>
      if w.k >= |log| then w
      else
        var moved := w.(k := w.k + 1);
        if log[w.k].Records? && log[w.k].built then HandOver(m, moved, log[w.k].n, ok) else moved
    case Take =>
      if m.async && w.hand.None? && w.queue != [] then w.(queue := w.queue[1..], hand := Some(w.queue[0])) else w
    case PostEnds(ok) => if w.hand.Some? then PostOf(w.(hand := None), w.hand.value, ok) else w
  }

  function Play(m: Mode, log: seq<Action>, w: Process, steps: seq<Step>): Process
    decreases |steps|
  {
    if steps == [] then w else Play(m, log, Next(m, log, w, steps[0]), steps[1..])
  }

  /** In how many places an event is. */
  function Places(w: Process, n: nat): nat {
    multiset(w.queue)[n] + (if w.hand == Some(n) then 1 else 0)
    + (if n in w.posted then 1 else 0) + (if n in w.failed then 1 else 0) + (if n in w.dropped then 1 else 0)
  }

  /** An event is in one place from the moment it is recorded, and in none before; one that is never built
      is in none. */
  ghost predicate Kept(m: Mode, log: seq<Action>, w: Process) {
    && w.k <= |log|
    && (forall n: nat :: Places(w, n) == if Recorded(log[..w.k], n) then 1 else 0)
    && (!m.async ==> w.queue == [] && w.hand == None)
    && (!m.async || m.capacity == 0 ==> w.dropped == {})
  }

  lemma HandOverPlaces(m: Mode, w: Process, n: nat, ok: bool)
    requires Places(w, n) == 0
    ensures forall x: nat :: Places(HandOver(m, w, n, ok), x) == Places(w, x) + if x == n then 1 else 0
  {
  }

  lemma RecordedStep(log: seq<Action>, k: nat, n: nat)
    requires Once(log) && k < |log|
    ensures Recorded(log[..k + 1], n) <==> Recorded(log[..k], n) || (log[k].Records? && log[k].n == n && log[k].built)
    ensures log[k].Records? && log[k].n == n ==> !Tried(log[..k], n)
  {
    assert log[..k + 1] == log[..k] + [log[k]];
    forall x | x in log[..k] ensures !SameDeed(x, log[k]) {
      var i :| 0 <= i < k && log[..k][i] == x;
      assert !SameDeed(log[i], log[k]);
    }
  }

  lemma AdvanceKeeps(m: Mode, log: seq<Action>, w: Process, ok: bool)
    requires Kept(m, log, w) && Once(log)
    ensures Kept(m, log, Next(m, log, w, Advance(ok)))
  {
    hide Once, Recorded, Places;
    if w.k < |log| {
      forall n: nat
        ensures Recorded(log[..w.k + 1], n) <==> Recorded(log[..w.k], n) || (log[w.k].Records? && log[w.k].n == n && log[w.k].built)
        ensures log[w.k].Records? && log[w.k].n == n ==> !Recorded(log[..w.k], n)
      {
        RecordedStep(log, w.k, n);
      }
      var moved := w.(k := w.k + 1);
      SamePlaces(w, moved);
      if log[w.k].Records? && log[w.k].built {
        HandOverPlaces(m, moved, log[w.k].n, ok);
      }
    }
  }

  lemma SamePlaces(w: Process, w': Process)
    requires w' == w.(k := w'.k)
    ensures forall n: nat :: Places(w', n) == Places(w, n)
  {
  }

  lemma WorkerPlaces(m: Mode, log: seq<Action>, w: Process, step: Step)
    requires !step.Advance? && (step.PostEnds? && w.hand.Some? ==> Places(w, w.hand.value) <= 1)
    ensures forall n: nat :: Places(Next(m, log, w, step), n) == Places(w, n)
  {
    if step.Take? && w.queue != [] {
      assert w.queue == [w.queue[0]] + w.queue[1..];
    }
  }

  lemma NextKeeps(m: Mode, log: seq<Action>, w: Process, step: Step)
    requires Kept(m, log, w) && Once(log)
    ensures Kept(m, log, Next(m, log, w, step))
  {
    if step.Advance? {
      AdvanceKeeps(m, log, w, step.ok);
    } else {
      hide Once, Recorded, Places;
      WorkerPlaces(m, log, w, step);
    }
  }

  lemma {:induction false} PlayKeeps(m: Mode, log: seq<Action>, w: Process, steps: seq<Step>)
    requires Kept(m, log, w) && Once(log)
    ensures Kept(m, log, Play(m, log, w, steps))
    decreases |steps|
  {
    hide Kept, Once, Next;
    if steps != [] {
      NextKeeps(m, log, w, steps[0]);
      PlayKeeps(m, log, Next(m, log, w, steps[0]), steps[1..]);
    }
  }

  // ----- what became of an event -----

  /** The program, about to do this step, has just built this event and hands it over. */
  predicate HandsOver(log: seq<Action>, w: Process, step: Step, n: nat) {
    step.Advance? && w.k < |log| && log[w.k].Records? && log[w.k].built && log[w.k].n == n
  }

  /** This step ends the post of the event, with this success: the worker's, or the program's own when it posts
      as it goes. */
  predicate Ends(m: Mode, log: seq<Action>, w: Process, step: Step, n: nat, ok: bool) {
    if m.async then step == PostEnds(ok) && w.hand == Some(n) else step == Advance(ok) && HandsOver(log, w, step, n)
  }

  /** This step finds the queue full. */
  predicate FindsFull(m: Mode, log: seq<Action>, w: Process, step: Step, n: nat) {
    m.async && 0 < m.capacity <= |w.queue| && HandsOver(log, w, step, n)
  }

  ghost predicate EndedBy(m: Mode, log: seq<Action>, w: Process, steps: seq<Step>, n: nat, ok: bool) {
    exists j :: 0 <= j < |steps| && Ends(m, log, Play(m, log, w, steps[..j]), steps[j], n, ok)
  }

  ghost predicate FoundFull(m: Mode, log: seq<Action>, w: Process, steps: seq<Step>, n: nat) {
    exists j :: 0 <= j < |steps| && FindsFull(m, log, Play(m, log, w, steps[..j]), steps[j], n)
  }

  lemma FatesLater(m: Mode, log: seq<Action>, w: Process, steps: seq<Step>, n: nat, ok: bool)
    requires steps != []
    ensures EndedBy(m, log, w, steps, n, ok) <==>
              Ends(m, log, w, steps[0], n, ok) || EndedBy(m, log, Next(m, log, w, steps[0]), steps[1..], n, ok)
    ensures FoundFull(m, log, w, steps, n) <==>
              FindsFull(m, log, w, steps[0], n) || FoundFull(m, log, Next(m, log, w, steps[0]), steps[1..], n)
  {
    hide Next, Ends, FindsFull;
    var next := Next(m, log, w, steps[0]);
    forall j | 0 <= j < |steps[1..]|
      ensures Play(m, log, w, steps[..j + 1]) == Play(m, log, next, steps[1..][..j]) && steps[j + 1] == steps[1..][j]
    {
      assert steps[..j + 1][1..] == steps[1..][..j];
    }
    assert Play(m, log, w, steps[..0]) == w;
    if j :| 0 <= j < |steps[1..]| && Ends(m, log, Play(m, log, next, steps[1..][..j]), steps[1..][j], n, ok) {
      assert Ends(m, log, Play(m, log, w, steps[..j + 1]), steps[j + 1], n, ok);
    }
    if j :| 0 <= j < |steps[1..]| && FindsFull(m, log, Play(m, log, next, steps[1..][..j]), steps[1..][j], n) {
      assert FindsFull(m, log, Play(m, log, w, steps[..j + 1]), steps[j + 1], n);
    }
    if j :| 0 <= j < |steps| && Ends(m, log, Play(m, log, w, steps[..j]), steps[j], n, ok) && j > 0 {
      assert Ends(m, log, Play(m, log, next, steps[1..][..j - 1]), steps[1..][j - 1], n, ok);
    }
    if j :| 0 <= j < |steps| && FindsFull(m, log, Play(m, log, w, steps[..j]), steps[j], n) && j > 0 {
      assert FindsFull(m, log, Play(m, log, next, steps[1..][..j - 1]), steps[1..][j - 1], n);
    }
  }

  lemma FateStep(m: Mode, log: seq<Action>, w: Process, step: Step, n: nat)
    ensures var next := Next(m, log, w, step);
            && (n in next.posted <==> n in w.posted || Ends(m, log, w, step, n, true) || (!m.async && step == PostEnds(true) && w.hand == Some(n)))
            && (n in next.failed <==> n in w.failed || Ends(m, log, w, step, n, false) || (!m.async && step == PostEnds(false) && w.hand == Some(n)))
            && (n in next.dropped <==> n in w.dropped || FindsFull(m, log, w, step, n))
            && (!m.async && w.hand == None ==> next.hand == None)
  {
  }

  /** An event counts as posted exactly if some post of it ended well, as failed if one ended badly, and as
      dropped exactly if it found the bounded queue full. */
  lemma {:induction false} Fates(m: Mode, log: seq<Action>, w: Process, steps: seq<Step>, n: nat)
    requires !m.async ==> w.hand == None
    ensures var end := Play(m, log, w, steps);
            && (n in end.posted <==> n in w.posted || EndedBy(m, log, w, steps, n, true))
            && (n in end.failed <==> n in w.failed || EndedBy(m, log, w, steps, n, false))
            && (n in end.dropped <==> n in w.dropped || FoundFull(m, log, w, steps, n))
    decreases |steps|
  {
    hide Next, Ends, FindsFull;
    if steps != [] {
      FateStep(m, log, w, steps[0], n);
      FatesLater(m, log, w, steps, n, true);
      FatesLater(m, log, w, steps, n, false);
      hide EndedBy, FoundFull;
      Fates(m, log, Next(m, log, w, steps[0]), steps[1..], n);
    }
  }

  // ----- main results -----

  /** A process running this program, after these steps of the program and the worker. */
  function At(p: Program, m: Mode, steps: seq<Step>): Process {
    Play(m, Exec(p, START).0.log, LAUNCHED, steps)
  }

  /** By then the program had started call n. */
  ghost predicate HasBegun(p: Program, m: Mode, steps: seq<Step>, n: nat) {
    var log, w := Exec(p, START).0.log, At(p, m, steps);
    w.k <= |log| && Begins(n) in log[..w.k]
  }

  /** The call was stopped between retiring its breadcrumb and trying to record it. */
  predicate InWindow(log: seq<Action>, k: nat, n: nat)
    requires k <= |log|
  {
    k > 0 && log[k - 1] == Settles(n) && !Tried(log[..k], n)
  }

  /** The event was recorded, and the server does not have it. */
  predicate Unposted(w: Process, n: nat) {
    n in w.queue || w.hand == Some(n) || n in w.failed || n in w.dropped
  }

  /** A process killed at any point leaves, for every call it had started, the call's record in the journal
      or its event at the server, except exactly when the breadcrumb is retired and the event not posted. Then
      the event cannot be built, or the call is in the window between retiring the one and recording the
      other, or its event waits, is being posted, failed to be, or was dropped. The breadcrumb is there exactly
      until it is retired. */
  lemma CrashCoverage(p: Program, c: Setting, m: Mode, steps: seq<Step>, n: nat)
    requires ValidSetting(c)
    requires HasBegun(p, m, steps, n)
    ensures var t, w := Exec(p, START).0, At(p, m, steps);
            && w.k <= |t.log| && n < |t.flights|
            && (InJournal(c, t, w.k, n) <==> Settles(n) !in t.log[..w.k])
            && (!InJournal(c, t, w.k, n) && n !in w.posted <==>
                  Settles(n) in t.log[..w.k] && (!t.flights[n].built || InWindow(t.log, w.k, n) || Unposted(w, n)))
            && (!t.flights[n].built || InWindow(t.log, w.k, n) ==> !Unposted(w, n) && n !in w.posted)
  {
    hide Exec, Adjacent, Once, Marked, Started, Operations, Journal.Run, Describes, SpanLog.Unsettled, Tracks, Play;
    var t := Exec(p, START).0;
    PrefixTracks(p, c, 0);
    PlayKeeps(m, t.log, LAUNCHED, steps);
    var w := At(p, m, steps);
    PrefixTracks(p, c, w.k);
    assert Begins(n) in t.log;
    JournalHas(c, t.flights, t.log[..w.k], n);
    RecordedIsBuilt(t.log, t.flights, w.k, n);
    assert Places(w, n) == if Recorded(t.log[..w.k], n) then 1 else 0;
    if Settles(n) in t.log[..w.k] {
      SettledIsTried(t.log, w.k, n);
    }
  }

  lemma RecordedIsBuilt(log: seq<Action>, flights: seq<Flight>, k: nat, n: nat)
    requires Marked(log, flights) && k <= |log| && n < |flights|
    ensures Tried(log[..k], n) ==> (Recorded(log[..k], n) <==> flights[n].built)
    ensures !flights[n].built ==> !Recorded(log[..k], n)
  {
    assert forall x :: x in log[..k] ==> x in log;
  }

  /** Once a breadcrumb is gone its event has been recorded or could not be, but for the moment between. */
  lemma SettledIsTried(log: seq<Action>, k: nat, n: nat)
    requires Adjacent(log) && k <= |log| && Settles(n) in log[..k]
    ensures Tried(log[..k], n) || InWindow(log, k, n)
  {
    var i :| 0 <= i < k && log[i] == Settles(n);
    assert NextTo(log, i);
    if i > 0 && IsRecord(log[i - 1], n, true) {
      TriedAt(log, k, i - 1);
    } else if i + 1 < k {
      TriedAt(log, k, i + 1);
    }
  }

  lemma TriedAt(log: seq<Action>, k: nat, i: nat)
    requires i < k <= |log| && log[i].Records?
    ensures Tried(log[..k], log[i].n)
  {
    assert log[..k][i] == Records(log[i].n, log[i].failed, log[i].built);
  }

  /** Call n came back from the provider. */
  predicate Returned(log: seq<Action>, n: nat) {
    Records(n, false, true) in log || Records(n, false, false) in log
  }

  predicate HasRaised(log: seq<Action>, n: nat) {
    Records(n, true, true) in log || Records(n, true, false) in log
  }

  /** Only calls that returned have that window, and every one of them has: a call that raised is recorded
      before its breadcrumb is retired. */
  lemma CoverageGap(p: Program, c: Setting, n: nat)
    requires ValidSetting(c) && n < |Exec(p, START).0.flights|
    ensures var log := Exec(p, START).0.log;
            && ((exists k: nat :: k <= |log| && InWindow(log, k, n)) <==> Returned(log, n))
            && (Returned(log, n) <==> !HasRaised(log, n))
  {
    hide Exec, Operations, Tracks, Marked;
    PrefixTracks(p, c, 0);
    var log := Exec(p, START).0.log;
    WindowIffReturned(log, n);
  }

  lemma WindowIffReturned(log: seq<Action>, n: nat)
    requires Adjacent(log) && Once(log) && Tried(log, n)
    ensures (exists k: nat :: k <= |log| && InWindow(log, k, n)) <==> Returned(log, n)
    ensures Returned(log, n) <==> !HasRaised(log, n)
  {
    var i := TriedOnce(log, n);
    if Returned(log, n) {
      assert NextTo(log, i);
      RecordedStep(log, i, n);
      assert InWindow(log, i, n);
    }
    if k: nat :| k <= |log| && InWindow(log, k, n) {
      assert NextTo(log, k - 1);
      assert k >= 2 ==> log[..k][k - 2] == log[k - 2];
    }
  }

  /** The one attempt to record a call. */
  lemma TriedOnce(log: seq<Action>, n: nat) returns (i: nat)
    requires Once(log) && Tried(log, n)
    ensures i < |log| && log[i].Records? && log[i].n == n
    ensures Returned(log, n) <==> !log[i].failed
    ensures HasRaised(log, n) <==> log[i].failed
  {
    i :| 0 <= i < |log| && log[i].Records? && log[i].n == n;
    forall x | x in log && x.Records? && x.n == n ensures x == log[i] {
      var j :| 0 <= j < |log| && log[j] == x;
      assert !(i < j) && !(j < i) by {
        if i < j { assert SameDeed(log[i], log[j]); }
        if j < i { assert SameDeed(log[j], log[i]); }
      }
    }
    assert log[i] == Records(n, log[i].failed, log[i].built);
  }

  /** No call is safe before it is posted: with the worker held up, a process that recorded everything and
      was then killed leaves nothing of any of its calls. */
  lemma QueuedIsLost(p: Program, c: Setting, m: Mode, n: nat)
    requires ValidSetting(c) && m.async && n < |Exec(p, START).0.flights|
    ensures exists steps ::
              var t, w := Exec(p, START).0, At(p, m, steps);
              w.k == |t.log| && Begins(n) in t.log && !InJournal(c, t, w.k, n) && n !in w.posted
  {
    hide Exec, Started, Operations, Journal.Run, Describes, SpanLog.Unsettled, Tracks, Adjacent, Once;
    var t := Exec(p, START).0;
    PrefixTracks(p, c, |t.log|);
    assert t.log[..|t.log|] == t.log;
    var steps := seq(|t.log|, _ => Advance(true));
    AdvanceAll(m, t.log, LAUNCHED, steps);
    EveryCallBegins(p, n);
    JournalHas(c, t.flights, t.log, n);
    var w := At(p, m, steps);
    assert Settles(n) in t.log;
    assert !InJournal(c, t, |t.log|, n);
    assert w.k == |t.log| && n !in w.posted;
  }

  lemma {:induction false} AdvanceAll(m: Mode, log: seq<Action>, w: Process, steps: seq<Step>)
    requires m.async && w.k + |steps| == |log| && forall i :: 0 <= i < |steps| ==> steps[i] == Advance(true)
    ensures Play(m, log, w, steps).k == |log| && Play(m, log, w, steps).posted == w.posted
    decreases |steps|
  {
    if steps != [] {
      AdvanceAll(m, log, Next(m, log, w, steps[0]), steps[1..]);
    }
  }

  lemma EveryCallBegins(p: Program, n: nat)
    requires n < |Exec(p, START).0.flights|
    ensures Begins(n) in Exec(p, START).0.log
  {
    hide Exec;
    ExecLog(p, START);
    var t := Exec(p, START).0;
    assert t.log[0..] == t.log;
    StartedBegins(t.log, n);
  }

  lemma {:induction false} StartedBegins(log: seq<Action>, n: nat)
    requires Numbered(log, 0) && n < Started(log)
    ensures Begins(n) in log
  {
    var k := |log| - 1;
    assert NumberOk(log, 0, k);
    if n < Started(log[..k]) {
      NumberedPrefix(log, k);
      StartedBegins(log[..k], n);
    }
  }

  /** A client that posts as it goes loses a call only in that window, to a failed post, or when its event
      cannot be built. */
  lemma SyncCoverage(p: Program, c: Setting, m: Mode, steps: seq<Step>, n: nat)
    requires ValidSetting(c) && !m.async
    requires HasBegun(p, m, steps, n)
    ensures var t, w := Exec(p, START).0, At(p, m, steps);
            && w.k <= |t.log| && n < |t.flights|
            && (!InJournal(c, t, w.k, n) && n !in w.posted <==>
                  Settles(n) in t.log[..w.k] && (!t.flights[n].built || InWindow(t.log, w.k, n) || n in w.failed))
  {
    hide Exec, Adjacent, Once, Marked, Operations, Tracks, Play, InJournal;
    CrashCoverage(p, c, m, steps, n);
    var t := Exec(p, START).0;
    PrefixTracks(p, c, 0);
    PlayKeeps(m, t.log, LAUNCHED, steps);
  }

  /** A program that ran to its end, however it ended, has left an empty file, and has recorded each call once
      if its event could be built, and else not at all. Once the worker has nothing left, every such event was
      posted, failed to be, or was dropped by a full queue, one of the three. */
  lemma NothingLeftBehind(p: Program, c: Setting, m: Mode, steps: seq<Step>)
    requires ValidSetting(c)
    requires At(p, m, steps).k == |Exec(p, START).0.log|
    ensures var t, w := Exec(p, START).0, At(p, m, steps);
            && FileAt(c, t, |t.log|) == ""
            && (forall n: nat :: n < |t.flights| ==> Places(w, n) == if t.flights[n].built then 1 else 0)
            && (w.queue == [] && w.hand == None ==>
                  forall n: nat :: n < |t.flights| ==>
                    (t.flights[n].built <==> n in w.posted || n in w.failed || n in w.dropped))
            && (m.capacity == 0 ==> w.dropped == {})
  {
    hide Exec, Adjacent, Once, Marked, Started, Operations, Journal.Run, Journal.Calls, Journal.Begun, Describes, Play;
    var t, w := Exec(p, START).0, At(p, m, steps);
    PrefixTracks(p, c, |t.log|);
    assert t.log[..|t.log|] == t.log;
    PlayKeeps(m, t.log, LAUNCHED, steps);
    var ops := Operations(c, t.flights, t.log);
    var calls := Journal.Calls(Json.Python, ops);
    if calls != [] {
      PendingSome(c, t.flights, t.log, calls);
    }
    Journal.BetweenOperations(Json.Python, Json.Python, ops);
    forall n: nat | n < |t.flights| ensures Places(w, n) == if t.flights[n].built then 1 else 0 {
      RecordedIsBuilt(t.log, t.flights, |t.log|, n);
    }
  }
}
