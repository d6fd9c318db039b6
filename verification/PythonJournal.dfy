/** The Python client's journal object. */
module PythonJournal {
  import opened Wrappers
  import opened Json
  import opened SpanLog
  import opened Journal

  /** What the file system does during one operation. A write that fails may leave any part of its
      line behind. */
  datatype Disk = Works | OpenFails | WriteFails(written: nat) | TruncateFails

  class SpanJournal {
    const enabled: bool
    var broken: bool
    var nextKey: nat
    var openKeys: set<nat>
    var file: Option<string>  // None until the first operation opens it
    ghost var ops: seq<Op>    // the operations completed while the journal worked

    function OnDisk(): string
      reads this
    {
      if file.Some? then file.value else ""
    }

    function Snapshot(): State
      reads this
    {
      State(nextKey, openKeys, OnDisk())
    }

    ghost predicate Valid()
      reads this
    {
      ValidOps(ops) && (!broken ==> Snapshot() == Run(Python, ops))
    }

    /** How an operation ends. If the file worked, the state is the next one of the run and a reader
        finds the calls now in flight. If it failed, a reader finds the calls as they were before the
        operation or as they would be after it. */
    ghost predicate Finishes(before: State, done: seq<Op>, op: Op)
      reads this
    {
      if broken then
        ops == done && YieldsBeforeOrAfter(Python, OnDisk(), done, op)
      else
        && ops == done + [op]
        && Snapshot() == Step(Python, before, op)
        && Yields(Python, OnDisk(), ops)
    }

    constructor (enabled: bool)
      ensures Valid() && !broken && file == None && ops == []
      ensures this.enabled == enabled
    {
      this.enabled := enabled;
      broken, nextKey, openKeys, file, ops := false, 0, {}, None, [];
    }

    /** The handle is opened by the first operation; the file is this process's alone. */
    method Handle(disk: Disk)
      requires !broken
      modifies this`broken, this`file
      ensures OnDisk() == old(OnDisk())
      ensures if broken then file == old(file) == None else file.Some?
    {
      if file.None? {
        if disk.OpenFails? {
          broken := true;
        } else {
          file := Some("");
        }
      }
    }

    /** Append one line, or the part of it that reaches the disk before the write fails. */
    method Write(line: string, ghost op: Op, disk: Disk)
      requires !broken && file.Some? && ValidOps(ops) && ValidOp(op)
      requires OnDisk() == Run(Python, ops).file
      requires line == LineFor(Python, Run(Python, ops).nextKey, op)
      modifies this`broken, this`file
      ensures file.Some? && YieldsBeforeOrAfter(Python, OnDisk(), ops, op)
      ensures !broken ==> file == Some(old(OnDisk()) + line)
    {
      hide LineFor, Run, ValidOp, YieldsBeforeOrAfter;
      var n := if disk.WriteFails? && disk.written <= |line| then disk.written else |line|;
      Interrupted(Python, ops, op, n);
      assert line[..|line|] == line;
      file := Some(file.value + line[..n]);
      broken := disk.WriteFails?;
    }

    /** Record that a call has started. */
    method Begin(fields: seq<Field>, now: string, disk: Disk) returns (key: Option<nat>)
      requires Valid() && ValidOp(Op.Begin(fields, now))
      modifies this
      ensures Valid()
      // Off or broken: nothing happens, and there is nothing to settle.
      ensures !enabled || old(broken) ==> key == None && Snapshot() == old(Snapshot()) && broken == old(broken)
      ensures enabled && !old(broken) ==> Finishes(old(Snapshot()), old(ops), Op.Begin(fields, now))
      ensures enabled && !old(broken) ==> key == if broken then None else Some(old(nextKey) + 1)
    {
      if !enabled || broken {
        return None;
      }
      key := BeginWorking(fields, now, disk);
    }

    method BeginWorking(fields: seq<Field>, now: string, disk: Disk) returns (key: Option<nat>)
      requires Valid() && ValidOp(Op.Begin(fields, now)) && enabled && !broken
      modifies this
      ensures Valid() && Finishes(old(Snapshot()), old(ops), Op.Begin(fields, now))
      ensures key == if broken then None else Some(old(nextKey) + 1)
    {
      hide Run, ValidOp, Put, Lookup, Encode, Yields, YieldsBeforeOrAfter;
      ghost var op := Op.Begin(fields, now);
      Completed(Python, ops, op);
      Handle(disk);
      if broken {
        return None;
      }
      nextKey := nextKey + 1;
      var rec := Put(fields, "o", Text("b"));
      rec := Put(rec, "k", KeyValue(nextKey));
      if Lookup(rec, "t") == None {
        rec := Put(rec, "t", Number(now));
      }
      assert rec == Opening(Python, fields, nextKey, now);
      LineWritten(Python, nextKey - 1, op);
      hide Opening;
      var line := Encode(Python, Object(rec)) + "\n";
      assert line == LineFor(Python, old(nextKey), op);
      hide LineFor;
      Write(line, op, disk);
      if broken {
        return None;
      }
      openKeys := openKeys + {nextKey};
      ops := ops + [op];
      return Some(nextKey);
    }

    /** Record that a call finished. */
    method Settle(key: Option<nat>, disk: Disk)
      requires Valid()
      modifies this
      ensures Valid()
      ensures key == None || !enabled || old(broken) ==> Snapshot() == old(Snapshot()) && broken == old(broken)
      ensures key.Some? && enabled && !old(broken) ==> Finishes(old(Snapshot()), old(ops), Op.Settle(key.value))
    {
      if key == None || !enabled || broken {
        return;
      }
      SettleWorking(key.value, disk);
    }

    method SettleWorking(key: nat, disk: Disk)
      requires Valid() && enabled && !broken
      modifies this
      ensures Valid() && Finishes(old(Snapshot()), old(ops), Op.Settle(key))
    {
      hide Run, ValidOp, Encode, Yields, YieldsBeforeOrAfter, Closing;
      ghost var op := Op.Settle(key);
      SettleValid(key);
      Completed(Python, ops, op);
      Handle(disk);
      if broken {
        return;
      }
      LineWritten(Python, nextKey, op);
      var line := Encode(Python, Object(Closing(key))) + "\n";
      assert line == LineFor(Python, nextKey, op);
      hide LineFor;
      Write(line, op, disk);
      if broken {
        return;
      }
      openKeys := openKeys - {key};
      // Nothing in flight, nothing to recover: the file can go back to empty.
      if openKeys == {} {
        if disk.TruncateFails? {
          broken := true;
          return;
        }
        file := Some("");
      }
      ops := ops + [op];
    }
  }
}
