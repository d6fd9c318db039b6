/** The TypeScript client's journal object. The file-system module loads asynchronously; until it has,
    lines wait in a buffer in front of the file. */
module TypeScriptJournal {
  import opened Wrappers
  import opened Json
  import opened SpanLog
  import opened Journal

  datatype FileSystem = Loading | Present | Missing

  /** A reader finds the calls as they were at some point of this log, and none earlier than after the
      first `durable` entries. */
  ghost predicate YieldsFrom(text: string, log: seq<Entry>, durable: nat) {
    exists k: nat :: durable <= k <= |log| && YieldsPoint(text, log, k)
  }

  ghost predicate YieldsPoint(text: string, log: seq<Entry>, k: nat)
    requires k <= |log|
  {
    Unsettled(Compact, text) == Records(OpenCalls(log[..k]))
  }

  lemma {:induction false} PrefixValid(log: seq<Entry>, k: nat)
    requires ValidLog(log) && k <= |log|
    ensures ValidLog(log[..k])
    ensures k < |log| ==> ValidEntry(OpenCalls(log[..k]), log[k])
    decreases |log|
  {
    if k == |log| {
      assert log[..k] == log;
    } else {
      var init := log[..|log| - 1];
      PrefixValid(init, k);
      assert init[..k] == log[..k];
      if k == |log| - 1 { assert log[..k] == init; }
    }
  }

  /** However much of the next line is on disk, the file is a point of the log: the one before that line
      until its closing brace is there, and then the one after it. */
  lemma TornIsAPoint(log: seq<Entry>, k: nat, n: nat)
    requires ValidLog(log) && k < |log|
    requires n <= |LineOf(Compact, log[k])| + 1
    ensures YieldsPoint(Body(Compact, log[..k]) + (LineOf(Compact, log[k]) + "\n")[..n], log,
                        if n < |LineOf(Compact, log[k])| then k else k + 1)
  {
    hide LineOf, ValidEntry, Body, Unsettled, Records, After, OpenCalls, ValidLog;
    var text := Body(Compact, log[..k]) + (LineOf(Compact, log[k]) + "\n")[..n];
    PrefixValid(log, k);
    TornBodyUnsettled(Compact, Compact, log[..k], log[k], n);
    LogGrows(Compact, log[..k], log[k]);
    assert log[..k] + [log[k]] == log[..k + 1];
  }

  lemma BodyIsAPoint(log: seq<Entry>, k: nat)
    requires ValidLog(log) && k <= |log|
    ensures YieldsPoint(Body(Compact, log[..k]), log, k)
  {
    PrefixValid(log, k);
    BodyUnsettled(Compact, Compact, log[..k]);
  }

  lemma SamePointOfLonger(text: string, log: seq<Entry>, durable: nat, e: Entry)
    requires YieldsFrom(text, log, durable)
    ensures YieldsFrom(text, log + [e], durable)
  {
    var k: nat :| durable <= k <= |log| && YieldsPoint(text, log, k);
    assert (log + [e])[..k] == log[..k];
    assert YieldsPoint(text, log + [e], k);
  }

  /** What a reader finds once an operation has broken the journal: no record that was on disk before is
      lost; and if none was waiting, the calls are those before the operation or those after it. */
  ghost predicate Breaks(text: string, log: seq<Entry>, durable: nat, e: Entry, done: seq<Op>, op: Op) {
    && YieldsFrom(text, log + [e], durable)
    && (durable == |log| ==> YieldsBeforeOrAfter(Compact, text, done, op))
  }

  lemma BreaksAt(text: string, log: seq<Entry>, durable: nat, e: Entry, done: seq<Op>, op: Op)
    requires YieldsFrom(text, log + [e], durable)
    requires OpenCalls(log) == Calls(Compact, done) && OpenCalls(log + [e]) == Calls(Compact, done + [op])
    ensures Breaks(text, log, durable, e, done, op)
  {
    hide Unsettled, Records, Calls, OpenCalls, Tells;
    CallsTell(Compact, done);
    CallsTell(Compact, done + [op]);
    var k: nat :| durable <= k <= |log + [e]| && YieldsPoint(text, log + [e], k);
    assert (log + [e])[..|log|] == log && (log + [e])[..|log| + 1] == log + [e];
  }

  lemma PointsFrom(text: string, log: seq<Entry>, k: nat, durable: nat)
    requires k < |log|
    ensures durable <= k && (YieldsPoint(text, log, k) || YieldsPoint(text, log, k + 1)) ==> YieldsFrom(text, log, durable)
  {
    hide YieldsPoint;
  }

  lemma LastPoint(text: string, log: seq<Entry>, durable: nat)
    requires durable <= |log|
    ensures YieldsPoint(text, log, |log|) ==> YieldsFrom(text, log, durable)
  {
    hide YieldsPoint;
  }

  class SpanJournal {
    const enabled: bool
    var broken: bool
    var nextKey: nat
    var openKeys: set<nat>
    var pending: seq<string>
    var file: Option<string>     // None until the first append creates it
    var fs: FileSystem
    ghost var ops: seq<Op>
    ghost var written: seq<Entry>  // entries on disk since the file was last emptied
    ghost var queued: seq<Entry>   // entries waiting in `pending`

    function OnDisk(): string
      reads this
    {
      if file.Some? then file.value else ""
    }

    /** The journal still keeps its promise. */
    predicate Working()
      reads this
    {
      !broken && fs != Missing
    }

    /** The entries of the run still to be found, on disk or waiting. */
    ghost function Pending(): seq<Entry>
      reads this
    {
      written + queued
    }

    /** The file holds the written entries and the buffer the queued ones. */
    ghost predicate Holds()
      reads this
    {
      && ValidLog(written + queued)
      && OnDisk() == Body(Compact, written)
      && |pending| == |queued|
      && (forall i :: 0 <= i < |queued| ==> pending[i] == LineOf(Compact, queued[i]))
      && (fs == Loading ==> file == None && written == [])
    }

    ghost predicate Valid()
      reads this
    {
      && ValidOps(ops)
      && nextKey == Begun(ops)
      && openKeys == KeySet(Calls(Compact, ops))
      && (Working() ==> Holds() && OpenCalls(written + queued) == Calls(Compact, ops))
    }

    constructor (enabled: bool)
      ensures Valid() && !broken && fs == Loading && ops == [] && pending == [] && file == None
      ensures this.enabled == enabled
    {
      this.enabled := enabled;
      broken, nextKey, openKeys, pending, file, fs := false, 0, {}, [], None, Loading;
      ops, written, queued := [], [], [];
      new;
      EmptyLog(Compact);
      assert written + queued == [];
    }

    /** The import settles, one way or the other. */
    method FileSystemSettles(found: bool)
      requires Valid() && fs == Loading
      modifies this`fs
      ensures Valid() && fs == if found then Present else Missing
    {
      fs := if found then Present else Missing;
    }

    /** appendFileSync may fail part way. */
    method Append(line: string, ghost log: seq<Entry>, ghost k: nat)
      requires fs == Present && !broken
      requires k < |log| && ValidLog(log) && line == LineOf(Compact, log[k])
      requires OnDisk() == Body(Compact, log[..k])
      modifies this`broken, this`file
      // What was there stays, and a reader is at the point before the line or at the one after it.
      ensures old(OnDisk()) <= OnDisk()
      ensures if broken then YieldsPoint(OnDisk(), log, k) || YieldsPoint(OnDisk(), log, k + 1)
              else file.Some? && OnDisk() == Body(Compact, log[..k + 1])
    {
      hide LineOf, YieldsPoint, ValidLog, Body;
      var whole := line + "\n";
      var fails: bool := *;
      if fails {
        var n: nat :| n <= |whole|;
        TornIsAPoint(log, k, n);
        file := Some(OnDisk() + whole[..n]);
        broken := true;
      } else {
        PrefixValid(log, k);
        LogGrows(Compact, log[..k], log[k]);
        assert log[..k] + [log[k]] == log[..k + 1];
        file := Some(OnDisk() + whole);
      }
    }

    /** Move the waiting lines to the file, in order. Without a file system they are dropped. */
    method FlushPending()
      requires fs != Loading && (Working() ==> Holds())
      modifies this`pending, this`file, this`broken, this`written, this`queued
      ensures pending == []
      ensures old(broken) || fs == Missing ==> broken == old(broken) && file == old(file)
      ensures Working() ==> Holds() && queued == [] && written == old(written) + old(queued)
      ensures old(OnDisk()) <= OnDisk()
      ensures old(Working()) && broken ==> YieldsFrom(OnDisk(), old(written + queued), |old(written)|)
    {
      hide LineOf, ValidLog, Body, YieldsPoint;
      var lines := pending;
      pending := [];
      ghost var log, w := written + queued, |written|;
      if fs == Present {
        assert log[..w] == written;
        for i := 0 to |lines|
          invariant pending == []
          invariant old(broken) ==> broken && file == old(file)
          invariant !broken ==> OnDisk() == Body(Compact, log[..w + i])
          invariant old(OnDisk()) <= OnDisk()
          invariant !old(broken) && broken ==> YieldsFrom(OnDisk(), log, w)
        {
          if !broken {
            Append(lines[i], log, w + i);
          }
        }
        assert !broken ==> log[..w + |lines|] == log;
      }
      if Working() {
        written, queued := log, [];
        assert log + [] == log;
      }
    }

    /** Hold the line while the file system loads; otherwise write it after the waiting ones. */
    method Write(line: string, ghost e: Entry)
      requires line == LineOf(Compact, e)
      requires Working() ==> Holds() && ValidEntry(OpenCalls(written + queued), e)
      modifies this`pending, this`file, this`broken, this`written, this`queued
      ensures old(broken) || fs == Missing ==> broken == old(broken) && file == old(file)
      ensures Working() ==> Holds() && written + queued == old(written + queued) + [e]
      ensures Working() && fs == Present ==> queued == [] && file.Some?
      ensures old(OnDisk()) <= OnDisk()
      ensures old(Working()) && broken ==> YieldsFrom(OnDisk(), old(written + queued) + [e], |old(written)|)
    {
      hide LineOf, ValidLog, Body, YieldsPoint, YieldsFrom, After, OpenCalls, ValidEntry;
      if fs != Present {
        pending := pending + [line];
        if Working() {
          LogGrows(Compact, written + queued, e);
          assert written + (queued + [e]) == written + queued + [e];
          queued := queued + [e];
        }
        return;
      }
      ghost var log := written + queued;
      FlushPending();
      if broken {
        if old(Working()) {
          SamePointOfLonger(OnDisk(), log, |old(written)|, e);
        }
        return;
      }
      LogGrows(Compact, log, e);
      assert (log + [e])[..|log|] == log;
      Append(line, log + [e], |log|);
      PointsFrom(OnDisk(), log + [e], |log|, |old(written)|);
      if !broken {
        assert (log + [e])[..|log| + 1] == log + [e];
        written := log + [e];
        assert written + queued == written;
      }
    }

    /** Nothing in flight: the file goes back to empty. */
    method Truncate()
      requires Working() ==> Holds() && OpenCalls(written + queued) == []
      requires Working() && fs == Present ==> queued == [] && file.Some?
      modifies this`file, this`broken, this`written
      ensures old(broken) || fs == Missing ==> broken == old(broken) && file == old(file)
      ensures Working() ==> Holds() && OpenCalls(written + queued) == []
      ensures Working() && fs == Present ==> OnDisk() == ""
      ensures broken ==> file == old(file)
      ensures old(Working()) && broken ==> YieldsPoint(OnDisk(), old(written + queued), |old(written + queued)|)
    {
      hide YieldsPoint, Body, ValidLog, LineOf;
      if fs != Present || file == None || broken {
        return;
      }
      var fails: bool := *;
      if fails {
        ghost var log := written + queued;
        assert log[..|log|] == log == written;
        BodyIsAPoint(log, |log|);
        broken := true;
      } else {
        file := Some("");
        written := [];
        EmptyLog(Compact);
        assert written + queued == [];
      }
    }

    /** A reader of the file, were the waiting lines appended to it, finds the calls in flight, each with all
        the caller said of it. */
    ghost predicate Recoverable()
      reads this
    {
      Yields(Compact, OnDisk() + Joined(pending), ops)
    }

    lemma ValidRecoverable()
      requires Valid() && Working()
      ensures Recoverable()
    {
      hide LineOf, Body, ValidLog, OpenCalls, Unsettled, Records, Calls, KeySet, Tells;
      CallsTell(Compact, ops);
      JoinedBody(written, queued, pending);
      BodyUnsettled(Compact, Compact, written + queued);
    }

    /** Record that a call has started. */
    method Begin(rec: seq<Field>, now: string) returns (key: Option<nat>)
      requires Valid() && ValidOp(Op.Begin(rec, now))
      modifies this
      ensures Valid() && fs == old(fs)
      ensures !enabled || old(broken) ==>
                key == None && ops == old(ops) && openKeys == old(openKeys) && OnDisk() == old(OnDisk()) && pending == old(pending)
      ensures enabled && !old(broken) ==>
                key == Some(old(nextKey) + 1) && ops == old(ops) + [Op.Begin(rec, now)] && openKeys == old(openKeys) + {key.value}
      ensures Working() ==> Recoverable()
      ensures old(OnDisk()) <= OnDisk()
      ensures old(Working()) && broken ==>
                Breaks(OnDisk(), old(Pending()), |old(written)|, EntryOf(Compact, old(nextKey), Op.Begin(rec, now)),
                       old(ops), Op.Begin(rec, now))
    {
      hide LineOf, Body, ValidLog, OpenCalls, After, Unsettled, Records, Calls, Begun, Run, Log, KeySet, ValidOp, Put, Lookup, Opening,
           ValidEntry, YieldsFrom, YieldsPoint, Breaks, Recoverable;
      if !enabled || broken {
        if Working() { ValidRecoverable(); }
        return None;
      }
      ghost var op := Op.Begin(rec, now);
      ghost var e := EntryOf(Compact, nextKey, op);
      RunSnoc(Compact, ops, op);
      EntryValid(Compact, ops, op);
      KeysFollow(Compact, ops, op);
      nextKey := nextKey + 1;
      openKeys := openKeys + {nextKey};
      var line := Encode(Compact, Object(Opening(Compact, rec, nextKey, now)));
      LineOfEntry(e);
      Write(line, e);
      ops := ops + [op];
      OpensGrow(old(Pending()), e);
      if old(Working()) && broken { BreaksAt(OnDisk(), old(Pending()), |old(written)|, e, old(ops), op); }
      if Working() { ValidRecoverable(); }
      return Some(nextKey);
    }

    /** Record that a call finished. */
    method Settle(key: Option<nat>)
      requires Valid()
      modifies this
      ensures Valid() && fs == old(fs)
      ensures key == None || !enabled || old(broken) ==>
                ops == old(ops) && openKeys == old(openKeys) && OnDisk() == old(OnDisk()) && pending == old(pending)
      ensures key.Some? && enabled && !old(broken) ==>
                ops == old(ops) + [Op.Settle(key.value)] && openKeys == old(openKeys) - {key.value}
      ensures Working() ==> Recoverable()
      ensures key.Some? && old(Working()) && broken ==>
                Breaks(OnDisk(), old(Pending()), |old(written)|, Ended(key.value), old(ops), Op.Settle(key.value))
    {
      hide LineOf, Body, ValidLog, OpenCalls, After, Unsettled, Records, Calls, Begun, Run, Log, KeySet, ValidOp, Closing,
           ValidEntry, YieldsFrom, YieldsPoint, Breaks, Recoverable;
      if key == None || !enabled || broken {
        if Working() { ValidRecoverable(); }
        return;
      }
      SettleRecorded(key.value);
      if Working() { ValidRecoverable(); }
    }

    method SettleRecorded(key: nat)
      requires Valid() && enabled && !broken
      modifies this
      ensures Valid() && fs == old(fs)
      ensures ops == old(ops) + [Op.Settle(key)] && openKeys == old(openKeys) - {key}
      // Nothing in flight: the file is empty again.
      ensures Working() && fs == Present && openKeys == {} ==> OnDisk() == ""
      ensures old(Working()) && broken ==> Breaks(OnDisk(), old(Pending()), |old(written)|, Ended(key), old(ops), Op.Settle(key))
    {
      hide LineOf, Body, ValidLog, OpenCalls, After, Unsettled, Records, Calls, Begun, Run, Log, KeySet, ValidOp, Closing,
           ValidEntry, YieldsFrom, YieldsPoint, Breaks, Recoverable;
      ghost var op, e := Op.Settle(key), Ended(key);
      SettleValid(key);
      RunSnoc(Compact, ops, op);
      EntryValid(Compact, ops, op);
      KeysFollow(Compact, ops, op);
      KeySetMembers(Calls(Compact, ops + [op]));
      openKeys := openKeys - {key};
      var line := Encode(Compact, Object(Closing(key)));
      LineOfEntry(e);
      Write(line, e);
      ops := ops + [op];
      OpensGrow(old(Pending()), e);
      ghost var log := old(Pending()) + [e];
      if openKeys == {} {
        Truncate();
        LastPoint(OnDisk(), log, |old(written)|);
      }
      if old(Working()) && broken { BreaksAt(OnDisk(), old(Pending()), |old(written)|, e, old(ops), op); }
    }
  }

  /** Waiting lines as they will stand in the file. */
  function Joined(lines: seq<string>): string {
    if lines == [] then "" else Joined(lines[..|lines| - 1]) + (lines[|lines| - 1] + "\n")
  }

  lemma {:induction false} JoinedBody(written: seq<Entry>, queued: seq<Entry>, lines: seq<string>)
    requires |lines| == |queued| && forall i :: 0 <= i < |queued| ==> lines[i] == LineOf(Compact, queued[i])
    ensures Body(Compact, written) + Joined(lines) == Body(Compact, written + queued)
  {
    hide LineOf;
    if queued == [] {
      assert written + queued == written;
    } else {
      var most := |queued| - 1;
      JoinedBody(written, queued[..most], lines[..most]);
      assert written + queued == written + queued[..most] + [queued[most]];
      JoinedSnoc(written + queued[..most], queued[most], Body(Compact, written), lines);
    }
  }

  lemma JoinedSnoc(log: seq<Entry>, e: Entry, front: string, lines: seq<string>)
    requires lines != [] && lines[|lines| - 1] == LineOf(Compact, e)
    requires front + Joined(lines[..|lines| - 1]) == Body(Compact, log)
    ensures front + Joined(lines) == Body(Compact, log + [e])
  {
    hide LineOf, Body, Joined;
    BodyOfLonger(log, e);
    JoinedLast(lines);
    Regroup(front, Joined(lines[..|lines| - 1]), LineOf(Compact, e), "\n");
  }

  lemma BodyOfLonger(log: seq<Entry>, e: Entry)
    ensures Body(Compact, log + [e]) == Body(Compact, log) + LineOf(Compact, e) + "\n"
  {
    hide LineOf;
    assert (log + [e])[..|log|] == log;
  }

  lemma JoinedLast(lines: seq<string>)
    requires lines != []
    ensures Joined(lines) == Joined(lines[..|lines| - 1]) + (lines[|lines| - 1] + "\n")
  {
  }

  lemma Regroup(a: string, b: string, c: string, d: string)
    ensures a + (b + (c + d)) == a + b + c + d
  {
  }

  lemma LineOfEntry(e: Entry)
    ensures LineOf(Compact, e) == Encode(Compact, Object(RecordOf(e)))
  {
  }

  lemma OpensGrow(log: seq<Entry>, e: Entry)
    ensures OpenCalls(log + [e]) == After(OpenCalls(log), e)
  {
    assert (log + [e])[..|log|] == log;
  }
}
