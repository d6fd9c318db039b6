/** The clients' rate-limited warner: one line a kind a cooldown, with a count of what was held back. */
module Diagnostics {
  import opened Wrappers

  datatype Call = Call(kind: string, message: string, at: nat, quiet: bool)

  /** A line on stderr. `repeat` is the number it says were suppressed; the first line carries a hint. */
  datatype Line = Line(kind: string, message: string, at: nat, repeat: nat, hint: bool)

  datatype Seen = Seen(last: nat, held: nat)

  datatype State = State(seen: map<string, Seen>, emitted: nat, suppressed: nat, lines: seq<Line>)

  const START := State(map[], 0, 0, [])

  predicate Cooling(s: State, cooldown: nat, c: Call) {
    c.kind in s.seen && c.at - s.seen[c.kind].last < cooldown
  }

  function Warned(s: State, cooldown: nat, c: Call): State {
    if c.quiet then s
    else if Cooling(s, cooldown, c) then
      s.(seen := s.seen[c.kind := Seen(s.seen[c.kind].last, s.seen[c.kind].held + 1)], suppressed := s.suppressed + 1)
    else
      var held := if c.kind in s.seen then s.seen[c.kind].held else 0;
      State(s.seen[c.kind := Seen(c.at, 0)], s.emitted + 1, s.suppressed,
            s.lines + [Line(c.kind, c.message, c.at, held, s.emitted == 0)])
  }

  class Diagnostics {
    const cooldown: nat
    var seen: map<string, Seen>
    var emitted: nat
    var suppressed: nat
    var lines: seq<Line>
    ghost var calls: seq<Call>

    function Value(): State
      reads this
    {
      State(seen, emitted, suppressed, lines)
    }

    /** The state is what the calls so far lead to. */
    ghost predicate Valid()
      reads this
    {
      Value() == Run(cooldown, calls)
    }

    constructor (cooldown: nat)
      ensures Valid() && calls == [] && this.cooldown == cooldown
    {
      this.cooldown := cooldown;
      seen, emitted, suppressed, lines, calls := map[], 0, 0, [], [];
    }

    /** As the Python client does it. */
    method Warn(kind: string, message: string, now: nat, quiet: bool)
      requires Valid()
      modifies this
      ensures Valid() && calls == old(calls) + [Call(kind, message, now, quiet)]
    {
      RunSnoc(cooldown, calls, Call(kind, message, now, quiet));
      calls := calls + [Call(kind, message, now, quiet)];
      if quiet {
        return;
      }
      var last: Option<nat>, held := None, 0;
      if kind in seen {
        last, held := Some(seen[kind].last), seen[kind].held;
      }
      if last.Some? && now - last.value < cooldown {
        seen := seen[kind := Seen(last.value, held + 1)];
        suppressed := suppressed + 1;
        return;
      }
      seen := seen[kind := Seen(now, 0)];
      emitted := emitted + 1;
      lines := lines + [Line(kind, message, now, held, emitted == 1)];
    }

    /** As the Rust client does it; its clock differences stop at zero, which shows only if the clock goes
        back. */
    method WarnRust(kind: string, message: string, now: nat, quiet: bool)
      requires Valid()
      modifies this
      ensures calls == old(calls) + [Call(kind, message, now, quiet)]
      ensures old(kind in seen ==> seen[kind].last <= now) ==> Valid()
    {
      RunSnoc(cooldown, calls, Call(kind, message, now, quiet));
      calls := calls + [Call(kind, message, now, quiet)];
      if quiet {
        return;
      }
      if kind in seen {
        var since: nat := if now >= seen[kind].last then now - seen[kind].last else 0;
        if since < cooldown {
          seen := seen[kind := seen[kind].(held := seen[kind].held + 1)];
          suppressed := suppressed + 1;
          return;
        }
      }
      var held := if kind in seen then seen[kind].held else 0;
      seen := seen[kind := Seen(now, 0)];
      emitted := emitted + 1;
      lines := lines + [Line(kind, message, now, held, emitted == 1)];
    }
  }

  // ----- runs -----

  function Run(cooldown: nat, calls: seq<Call>): State {
    if calls == [] then START else Warned(Run(cooldown, calls[..|calls| - 1]), cooldown, calls[|calls| - 1])
  }

  lemma RunSnoc(cooldown: nat, calls: seq<Call>, c: Call)
    ensures Run(cooldown, calls + [c]) == Warned(Run(cooldown, calls), cooldown, c)
  {
    assert (calls + [c])[..|calls|] == calls;
  }

  function CallsOf(calls: seq<Call>, kind: string): nat {
    if calls == [] then 0
    else
      var c := calls[|calls| - 1];
      CallsOf(calls[..|calls| - 1], kind) + if !c.quiet && c.kind == kind then 1 else 0
  }

  function LoudCalls(calls: seq<Call>): nat {
    if calls == [] then 0 else LoudCalls(calls[..|calls| - 1]) + if calls[|calls| - 1].quiet then 0 else 1
  }

  function LinesOf(lines: seq<Line>, kind: string): nat {
    if lines == [] then 0 else LinesOf(lines[..|lines| - 1], kind) + if lines[|lines| - 1].kind == kind then 1 else 0
  }

  /** What the lines of a kind say was suppressed, in all. */
  function RepeatsOf(lines: seq<Line>, kind: string): nat {
    if lines == [] then 0
    else
      var line := lines[|lines| - 1];
      RepeatsOf(lines[..|lines| - 1], kind) + if line.kind == kind then line.repeat else 0
  }

  function HeldOf(s: State, kind: string): nat {
    if kind in s.seen then s.seen[kind].held else 0
  }

  /** No warning is lost from the count: those of each kind are its lines, what those lines report, and
      what is still held; and over all kinds, lines and suppressions add up to the calls. */
  lemma {:induction false} Conservation(cooldown: nat, calls: seq<Call>, kind: string)
    ensures var s := Run(cooldown, calls);
            && CallsOf(calls, kind) == LinesOf(s.lines, kind) + RepeatsOf(s.lines, kind) + HeldOf(s, kind)
            && LoudCalls(calls) == s.emitted + s.suppressed
            && s.emitted == |s.lines|
  {
    if calls != [] {
      var init, c := calls[..|calls| - 1], calls[|calls| - 1];
      Conservation(cooldown, init, kind);
      var before, after := Run(cooldown, init), Run(cooldown, calls);
      if |after.lines| > |before.lines| {
        assert after.lines[..|after.lines| - 1] == before.lines;
      }
    }
  }

  /** A call that writes a line writes its own kind, message and time, says how many of its kind were held back
      since the last one, and starts that count again; the very first line has the hint. Any other call leaves
      the lines alone, and unless it is quiet is one more held. */
  lemma LineSays(cooldown: nat, calls: seq<Call>)
    requires calls != []
    ensures var before, after, c := Run(cooldown, calls[..|calls| - 1]), Run(cooldown, calls), calls[|calls| - 1];
            if after.lines == before.lines then HeldOf(after, c.kind) == HeldOf(before, c.kind) + if c.quiet then 0 else 1
            else
              && after.lines == before.lines + [Line(c.kind, c.message, c.at, HeldOf(before, c.kind), before.lines == [])]
              && HeldOf(after, c.kind) == 0
    ensures var before, after, c := Run(cooldown, calls[..|calls| - 1]), Run(cooldown, calls), calls[|calls| - 1];
            forall kind :: kind != c.kind ==> HeldOf(after, kind) == HeldOf(before, kind)
  {
    Conservation(cooldown, calls[..|calls| - 1], "");
  }

  function RepeatsIn(lines: seq<Line>): nat {
    if lines == [] then 0 else RepeatsIn(lines[..|lines| - 1]) + lines[|lines| - 1].repeat
  }

  function HeldOver(seen: map<string, Seen>, kinds: seq<string>): nat {
    if kinds == [] then 0
    else (if kinds[0] in seen then seen[kinds[0]].held else 0) + HeldOver(seen, kinds[1..])
  }

  /** Every kind of the map, once. */
  ghost predicate Lists(kinds: seq<string>, seen: map<string, Seen>) {
    && (forall i, j :: 0 <= i < j < |kinds| ==> kinds[i] != kinds[j])
    && (forall k :: k in kinds <==> k in seen)
  }

  /** Over all kinds: every suppressed warning was reported by some line or is still held. */
  lemma {:induction false} SuppressedAccounted(cooldown: nat, calls: seq<Call>) returns (kinds: seq<string>)
    ensures var s := Run(cooldown, calls);
            Lists(kinds, s.seen) && s.suppressed == RepeatsIn(s.lines) + HeldOver(s.seen, kinds)
  {
    kinds := [];
    if calls != [] {
      var before, c := Run(cooldown, calls[..|calls| - 1]), calls[|calls| - 1];
      kinds := SuppressedAccounted(cooldown, calls[..|calls| - 1]);
      kinds := WarnAccounted(before, cooldown, c, kinds);
    }
  }

  lemma WarnAccounted(s: State, cooldown: nat, c: Call, kinds: seq<string>) returns (kinds': seq<string>)
    requires Lists(kinds, s.seen) && s.suppressed == RepeatsIn(s.lines) + HeldOver(s.seen, kinds)
    ensures var t := Warned(s, cooldown, c);
            Lists(kinds', t.seen) && t.suppressed == RepeatsIn(t.lines) + HeldOver(t.seen, kinds')
  {
    var t := Warned(s, cooldown, c);
    kinds' := kinds;
    if !c.quiet {
      if t.lines != s.lines {
        assert t.lines[..|t.lines| - 1] == s.lines;
      }
      if c.kind in s.seen {
        HeldChanged(s.seen, c.kind, t.seen[c.kind], kinds);
      } else {
        HeldElsewhere(s.seen, c.kind, t.seen[c.kind], kinds);
        kinds' := [c.kind] + kinds;
        assert kinds'[1..] == kinds;
      }
    }
  }

  lemma {:induction false} HeldElsewhere(seen: map<string, Seen>, kind: string, now: Seen, kinds: seq<string>)
    requires kind !in kinds
    ensures HeldOver(seen[kind := now], kinds) == HeldOver(seen, kinds)
  {
    if kinds != [] {
      assert kinds[0] in kinds;
      HeldElsewhere(seen, kind, now, kinds[1..]);
    }
  }

  lemma {:induction false} HeldChanged(seen: map<string, Seen>, kind: string, now: Seen, kinds: seq<string>)
    requires kind in kinds && kind in seen && forall i, j :: 0 <= i < j < |kinds| ==> kinds[i] != kinds[j]
    ensures HeldOver(seen[kind := now], kinds) + seen[kind].held == HeldOver(seen, kinds) + now.held
  {
    if kinds[0] == kind {
      HeldElsewhere(seen, kind, now, kinds[1..]);
    } else {
      assert kinds == [kinds[0]] + kinds[1..];
      HeldChanged(seen, kind, now, kinds[1..]);
    }
  }

  ghost predicate Monotone(calls: seq<Call>) {
    forall i, j :: 0 <= i < j < |calls| ==> calls[i].at <= calls[j].at
  }

  /** The time kept for a kind is that of its last line. */
  ghost predicate LastKept(s: State, kind: string) {
    && (kind !in s.seen ==> forall line :: line in s.lines ==> line.kind != kind)
    && (kind in s.seen ==>
          && (exists line :: line in s.lines && line.kind == kind && line.at == s.seen[kind].last)
          && (forall line :: line in s.lines && line.kind == kind ==> line.at <= s.seen[kind].last))
  }

  lemma {:induction false} RunKeepsLast(cooldown: nat, calls: seq<Call>, kind: string)
    requires Monotone(calls)
    ensures LastKept(Run(cooldown, calls), kind)
    ensures forall line :: line in Run(cooldown, calls).lines ==> calls != [] && line.at <= calls[|calls| - 1].at
  {
    if calls != [] {
      var init, c := calls[..|calls| - 1], calls[|calls| - 1];
      RunKeepsLast(cooldown, init, kind);
    }
  }

  /** A call writes a line exactly when no line of its kind is younger than the cooldown. */
  lemma WritesUnlessRecent(cooldown: nat, calls: seq<Call>)
    requires calls != [] && Monotone(calls) && !calls[|calls| - 1].quiet
    ensures var before, c := Run(cooldown, calls[..|calls| - 1]), calls[|calls| - 1];
            Run(cooldown, calls).lines != before.lines <==>
              forall line :: line in before.lines && line.kind == c.kind ==> c.at - line.at >= cooldown
  {
    RunKeepsLast(cooldown, calls[..|calls| - 1], calls[|calls| - 1].kind);
  }

  /** Two lines of one kind are at least the cooldown apart. */
  lemma {:induction false} LinesApart(cooldown: nat, calls: seq<Call>, i: nat, j: nat)
    requires Monotone(calls)
    requires var lines := Run(cooldown, calls).lines; i < j < |lines| && lines[i].kind == lines[j].kind
    ensures Run(cooldown, calls).lines[j].at - Run(cooldown, calls).lines[i].at >= cooldown
  {
    var init, c := calls[..|calls| - 1], calls[|calls| - 1];
    var before := Run(cooldown, init);
    if j < |before.lines| {
      LinesApart(cooldown, init, i, j);
    } else {
      WritesUnlessRecent(cooldown, calls);
      assert before.lines[i] in before.lines;
    }
  }
}
