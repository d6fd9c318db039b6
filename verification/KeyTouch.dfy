/** The debounce of an API key's last-used stamp: a map of times, swept of stale entries when it is
    full. Times are instants of a monotone clock. */
module KeyTouch {
  type Id = string

  const MAX_TRACKED: nat := 4096

  /** `Instant::duration_since` saturates at zero. */
  function Since(now: nat, earlier: nat): nat {
    if now >= earlier then now - earlier else 0
  }

  function Sweep(m: map<Id, nat>, now: nat, every: nat): map<Id, nat> {
    map id | id in m && Since(now, m[id]) < every :: m[id]
  }

  function Recent(m: map<Id, nat>, id: Id, now: nat, every: nat): bool {
    id in m && Since(now, m[id]) < every
  }

  function Touched(m: map<Id, nat>, id: Id, now: nat, every: nat): map<Id, nat> {
    if Recent(m, id, now, every) then m
    else if id !in m && |m| >= MAX_TRACKED then Sweep(m, now, every)[id := now]
    else m[id := now]
  }

  class KeyTouches {
    var last: map<Id, nat>

    constructor ()
      ensures last == map[]
    {
      last := map[];
    }

    /** Stamp `now` for `id` and say whether a write is due. */
    method TouchDue(id: Id, now: nat, every: nat) returns (due: bool)
      modifies this
      ensures due == !Recent(old(last), id, now, every)
      ensures last == Touched(old(last), id, now, every)
      // Past the bound only a full map of recent stamps grows.
      ensures |last| > |old(last)| && |last| > 4096 ==> forall k :: k in last && k != id ==> Since(now, last[k]) < every
    {
      if id in last {
        if Since(now, last[id]) < every {
          return false;
        }
      } else if |last| >= MAX_TRACKED {
        last := Sweep(last, now, every);
      }
      last := last[id := now];
      return true;
    }
  }

  datatype Call = Call(id: Id, at: nat)

  /** The answers of a run, and the map it leaves. */
  function Answers(m: map<Id, nat>, calls: seq<Call>, every: nat): (answers: seq<bool>)
    ensures |answers| == |calls|
    decreases |calls|
  {
    if calls == [] then []
    else
      var c := calls[0];
      [!Recent(m, c.id, c.at, every)] + Answers(Touched(m, c.id, c.at, every), calls[1..], every)
  }

  /** The same debounce with no bound: every stamp is kept. */
  function Unswept(m: map<Id, nat>, calls: seq<Call>, every: nat): (answers: seq<bool>)
    ensures |answers| == |calls|
    decreases |calls|
  {
    if calls == [] then []
    else
      var c := calls[0];
      var due := !Recent(m, c.id, c.at, every);
      [due] + Unswept(if due then m[c.id := c.at] else m, calls[1..], every)
  }

  ghost predicate Monotone(calls: seq<Call>) {
    forall i, j :: 0 <= i < j < |calls| ==> calls[i].at <= calls[j].at
  }

  /** What the swept map has lost is stale, and what it has is the same. */
  ghost predicate Agree(swept: map<Id, nat>, all: map<Id, nat>, now: nat, every: nat) {
    && (forall id :: id in swept ==> id in all && all[id] == swept[id])
    && (forall id :: id in all ==> all[id] <= now)
    && (forall id :: id in all && id !in swept ==> now - all[id] >= every)
  }

  /** Sweeping never changes an answer, while the clock does not go back. */
  lemma {:induction false} SweepInvisible(swept: map<Id, nat>, all: map<Id, nat>, now: nat, calls: seq<Call>, every: nat)
    requires Agree(swept, all, now, every) && Monotone(calls) && (calls != [] ==> now <= calls[0].at)
    ensures Answers(swept, calls, every) == Unswept(all, calls, every)
    decreases |calls|
  {
    if calls != [] {
      var c := calls[0];
      SweepInvisible(Touched(swept, c.id, c.at, every),
                     if Recent(all, c.id, c.at, every) then all else all[c.id := c.at], c.at, calls[1..], every);
    }
  }

  /** A write was made for this id less than `every` before. */
  ghost predicate WrittenRecently(calls: seq<Call>, answers: seq<bool>, i: nat, every: nat)
    requires i < |calls| == |answers|
  {
    exists j :: 0 <= j < i && calls[j].id == calls[i].id && answers[j] && calls[i].at - calls[j].at < every
  }

  /** The history a map of stamps stands for: calls made before, with their answers. */
  ghost predicate Remembers(m: map<Id, nat>, past: seq<Call>, answers: seq<bool>)
    requires |past| == |answers|
  {
    && (forall id :: id in m ==> exists j :: 0 <= j < |past| && past[j] == Call(id, m[id]) && answers[j])
    && (forall j :: 0 <= j < |past| && answers[j] ==> past[j].id in m && past[j].at <= m[past[j].id])
  }

  /** From call number `from` on, a write is due iff none for its id was due within the interval before. */
  ghost predicate Debounced(calls: seq<Call>, answers: seq<bool>, from: nat, every: nat)
    requires |answers| == |calls|
  {
    forall i :: from <= i < |calls| ==> (answers[i] <==> !WrittenRecently(calls, answers, i, every))
  }

  lemma {:induction false} UnsweptIsHistory(m: map<Id, nat>, past: seq<Call>, done: seq<bool>, calls: seq<Call>, every: nat)
    requires |past| == |done| && Remembers(m, past, done) && Monotone(past + calls)
    ensures Debounced(past + calls, done + Unswept(m, calls, every), |past|, every)
    decreases |calls|
  {
    hide WrittenRecently, Remembers, Monotone;
    if calls != [] {
      var c := calls[0];
      var due := !Recent(m, c.id, c.at, every);
      var m' := if due then m[c.id := c.at] else m;
      var past', done' := past + [c], done + [due];
      var answers := done + Unswept(m, calls, every);
      assert past' + calls[1..] == past + calls;
      assert done' + Unswept(m', calls[1..], every) == answers;
      StampRemembered(m, past, done, calls, every);
      UnsweptIsHistory(m', past', done', calls[1..], every);
      FirstAnswer(m, past, done, calls, every, answers);
    }
  }

  lemma StampRemembered(m: map<Id, nat>, past: seq<Call>, done: seq<bool>, calls: seq<Call>, every: nat)
    requires |past| == |done| && Remembers(m, past, done) && Monotone(past + calls) && calls != []
    ensures var c := calls[0];
            var due := !Recent(m, c.id, c.at, every);
            Remembers(if due then m[c.id := c.at] else m, past + [c], done + [due])
  {
    var c := calls[0];
    var due := !Recent(m, c.id, c.at, every);
    var m' := if due then m[c.id := c.at] else m;
    var past', done' := past + [c], done + [due];
    forall id | id in m' ensures exists j :: 0 <= j < |past'| && past'[j] == Call(id, m'[id]) && done'[j] {
      if due && id == c.id {
        assert past'[|past|] == Call(id, m'[id]) && done'[|past|];
      } else {
        var j :| 0 <= j < |past| && past[j] == Call(id, m[id]) && done[j];
        assert past'[j] == Call(id, m'[id]) && done'[j];
      }
    }
    forall j | 0 <= j < |past'| && done'[j] ensures past'[j].id in m' && past'[j].at <= m'[past'[j].id] {
      if j < |past| {
        assert past[j] == past'[j] && done[j];
        assert (past + calls)[j] == past[j] && (past + calls)[|past|] == c;
      }
    }
  }

  lemma FirstAnswer(m: map<Id, nat>, past: seq<Call>, done: seq<bool>, calls: seq<Call>, every: nat, answers: seq<bool>)
    requires |past| == |done| && Remembers(m, past, done) && Monotone(past + calls) && calls != []
    requires |answers| == |past + calls| && answers[..|past|] == done
    ensures Recent(m, calls[0].id, calls[0].at, every) <==> WrittenRecently(past + calls, answers, |past|, every)
  {
    var all, c := past + calls, calls[0];
    assert all[|past|] == c;
    assert forall j :: 0 <= j < |past| ==> all[j] == past[j] && answers[j] == done[j];
    if Recent(m, c.id, c.at, every) {
      var j :| 0 <= j < |past| && past[j] == Call(c.id, m[c.id]) && done[j];
      assert all[j].at <= all[|past|].at;
      assert all[j].id == all[|past|].id && answers[j];
    }
    if WrittenRecently(all, answers, |past|, every) {
      var j :| 0 <= j < |past| && all[j].id == c.id && answers[j] && c.at - all[j].at < every;
      assert past[j].id in m;
      var k :| 0 <= k < |past| && past[k] == Call(c.id, m[c.id]) && done[k];
      assert all[k].at <= all[|past|].at;
    }
  }

  /** The debounce is exactly its meaning: over any run on a clock that does not go back, a write is due
      iff no write for that id was due less than `every` before. */
  lemma TouchIsDebounce(calls: seq<Call>, every: nat)
    requires Monotone(calls)
    ensures Debounced(calls, Answers(map[], calls, every), 0, every)
  {
    SweepInvisible(map[], map[], 0, calls, every);
    assert [] + calls == calls && [] + Unswept(map[], calls, every) == Unswept(map[], calls, every);
    UnsweptIsHistory(map[], [], [], calls, every);
  }

  /** So two writes for one id are at least the interval apart. */
  lemma WritesApart(calls: seq<Call>, every: nat, i: nat, j: nat)
    requires Monotone(calls) && i < j < |calls| && calls[i].id == calls[j].id
    requires Answers(map[], calls, every)[i] && Answers(map[], calls, every)[j]
    ensures calls[j].at - calls[i].at >= every
  {
    TouchIsDebounce(calls, every);
  }
}
