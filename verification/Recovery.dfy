/** The sweep for abandoned journals, over bytes: what the Python client recovers from the files other
    processes of either client left behind, torn at any byte. */
module Recovery {
  import opened Wrappers
  import Json
  import SpanLog
  import Utf8

  type Bytes = seq<Utf8.Byte>
  type Record = seq<Json.Field>

  // ----- one file -----

  /** Reading one file. It is decoded strictly, so bytes that are not UTF-8 raise; and so does a record of a
      call under a key that is a list or an object. */
  datatype Reading = Raises | Reads(records: seq<Record>)

  function Read(bytes: Bytes): Reading {
    match Utf8.Decode(bytes)
    case None => Raises
    case Some(text) =>
      var lines := Newlines(text);
      if SpanLog.TextRaises(Json.Python, lines) then Raises else Reads(SpanLog.Unsettled(Json.Python, lines))
  }

  /** A text file is read with each "\r\n" and each other "\r" as "\n". */
  function Newlines(text: string): string
    decreases |text|
  {
    if text == "" then ""
    else if text[0] != '\r' then [text[0]] + Newlines(text[1..])
    else "\n" + Newlines(if |text| > 1 && text[1] == '\n' then text[2..] else text[1..])
  }

  lemma {:induction false} NewlinesKept(text: string)
    requires '\r' !in text
    ensures Newlines(text) == text
  {
    if text != "" {
      NewlinesKept(text[1..]);
      assert text == [text[0]] + text[1..];
    }
  }

  /** No client writes "\r". */
  lemma {:induction false} NoReturns(style: Json.Style, log: seq<SpanLog.Entry>)
    requires SpanLog.ValidLog(log)
    ensures '\r' !in SpanLog.Body(style, log)
  {
    if log != [] {
      NoReturns(style, log[..|log| - 1]);
      NoReturnsInLine(style, SpanLog.OpenCalls(log[..|log| - 1]), log[|log| - 1]);
    }
  }

  lemma NoReturnsInLine(style: Json.Style, calls: seq<SpanLog.Call>, e: SpanLog.Entry)
    requires SpanLog.ValidEntry(calls, e)
    ensures '\r' !in SpanLog.LineOf(style, e)
  {
    hide Json.Encode;
    if e.Ended? { SpanLog.ClosingReads(e.key); }
    SpanLog.NoControlsInValue(style, Json.Object(SpanLog.RecordOf(e)));
  }

  /** The bytes of a journal and of the line after it, cut within that line. */
  function Torn(style: Json.Style, log: seq<SpanLog.Entry>, e: SpanLog.Entry, cut: nat): Bytes
    requires cut <= |Utf8.Encode(SpanLog.LineOf(style, e) + "\n")|
  {
    Utf8.Encode(SpanLog.Body(style, log)) + Utf8.Encode(SpanLog.LineOf(style, e) + "\n")[..cut]
  }

  /** A journal of either client, cut at any byte of its last line: between two characters a reader finds
      the calls before that line until its closing brace is there, and after it from then on; inside a
      character the read raises. */
  lemma TornBytesRead(style: Json.Style, log: seq<SpanLog.Entry>, e: SpanLog.Entry, cut: nat)
    requires SpanLog.ValidLog(log) && SpanLog.ValidEntry(SpanLog.OpenCalls(log), e)
    requires cut <= |Utf8.Encode(SpanLog.LineOf(style, e) + "\n")|
    ensures var line := SpanLog.LineOf(style, e);
            Read(Torn(style, log, e, cut))
            == match Utf8.CharsIn(line + "\n", cut)
               case None => Raises
               case Some(n) =>
                 Reads(SpanLog.Records(if n < |line| then SpanLog.OpenCalls(log) else SpanLog.After(SpanLog.OpenCalls(log), e)))
  {
    hide SpanLog.Body, SpanLog.LineOf, SpanLog.OpenCalls, SpanLog.After, SpanLog.Records, SpanLog.Unsettled, SpanLog.ValidLog,
         SpanLog.ValidEntry, SpanLog.TextRaises, Newlines;
    var body, line := SpanLog.Body(style, log), SpanLog.LineOf(style, e) + "\n";
    CutAfter(body, line, cut);
    if n: nat :| Utf8.CharsIn(line, cut) == Some(n) {
      Utf8.CharsInMeaning(line, cut, n);
      NoReturns(style, log);
      NoReturnsInLine(style, SpanLog.OpenCalls(log), e);
      NewlinesKept(body + line[..n]);
      SpanLog.TornBodyRaisesNot(Json.Python, style, log, e, n);
      SpanLog.TornBodyUnsettled(Json.Python, style, log, e, n);
    }
  }

  lemma CutAfter(body: string, line: string, cut: nat)
    requires cut <= |Utf8.Encode(line)|
    ensures Utf8.CharsIn(line, cut).Some? ==> Utf8.CharsIn(line, cut).value <= |line|
    ensures Utf8.Decode(Utf8.Encode(body) + Utf8.Encode(line)[..cut])
         == match Utf8.CharsIn(line, cut) case None => None case Some(n) => Some(body + line[..n])
  {
    hide Utf8.Encode, Utf8.Decode, Utf8.CharsIn;
    Utf8.CutDecodes(line, cut);
    Utf8.DecodesBehind(body, Utf8.Encode(line)[..cut]);
  }

  // ----- what Python writes is ASCII -----

  lemma {:induction false} AsciiText(t: string)
    ensures Utf8.Ascii(Json.Escape(Json.Python, t))
  {
    hide Json.EscapeChar;
    if t != "" {
      AsciiChar(t[0]);
      AsciiText(t[1..]);
    }
  }

  lemma AsciiChar(c: char)
    ensures Utf8.Ascii(Json.EscapeChar(Json.Python, c))
  {
  }

  lemma {:induction false} AsciiValue(v: Json.Value)
    requires Json.WellFormed(v)
    ensures Utf8.Ascii(Json.Encode(Json.Python, v))
    decreases v, 1
  {
    hide Json.Escape, Json.IsNumber;
    match v
    case Number(lexeme) => Json.NumberChars(lexeme);
    case Text(t) => AsciiText(t);
    case Array(items) => AsciiItems(items);
    case Object(fields) => AsciiFields(fields);
    case _ =>
  }

  lemma {:induction false} AsciiItems(items: seq<Json.Value>)
    requires forall x :: x in items ==> Json.WellFormed(x)
    ensures Utf8.Ascii(Json.EncodeItems(Json.Python, items))
    decreases items, 0
  {
    if items != [] {
      assert items[0] in items;
      AsciiValue(items[0]);
      AsciiItems(items[1..]);
    }
  }

  lemma {:induction false} AsciiFields(fields: seq<Json.Field>)
    requires forall f :: f in fields ==> Json.WellFormed(f.value)
    ensures Utf8.Ascii(Json.EncodeFields(Json.Python, fields))
    decreases fields, 0
  {
    hide Json.Escape;
    if fields != [] {
      assert fields[0] in fields;
      AsciiValue(fields[0].value);
      AsciiText(fields[0].key);
      AsciiFields(fields[1..]);
    }
  }

  /** So a file Python wrote can be cut anywhere: reading it never raises. */
  lemma PythonFilesRead(log: seq<SpanLog.Entry>, e: SpanLog.Entry, cut: nat)
    requires SpanLog.ValidLog(log) && SpanLog.ValidEntry(SpanLog.OpenCalls(log), e)
    requires cut <= |Utf8.Encode(SpanLog.LineOf(Json.Python, e) + "\n")|
    ensures Read(Torn(Json.Python, log, e, cut)).Reads?
  {
    hide SpanLog.Body, SpanLog.LineOf, SpanLog.OpenCalls, SpanLog.After, SpanLog.Records, SpanLog.Unsettled, SpanLog.ValidLog,
         SpanLog.ValidEntry, Read, Torn;
    var line := SpanLog.LineOf(Json.Python, e);
    AsciiLine(log, e);
    Utf8.AsciiCuts(line + "\n", cut);
    TornBytesRead(Json.Python, log, e, cut);
  }

  lemma AsciiLine(log: seq<SpanLog.Entry>, e: SpanLog.Entry)
    requires SpanLog.ValidEntry(SpanLog.OpenCalls(log), e)
    ensures Utf8.Ascii(SpanLog.LineOf(Json.Python, e) + "\n")
  {
    match e
    case Began(call) => AsciiValue(Json.Object(call.fields));
    case Ended(key) =>
      SpanLog.ClosingReads(key);
      AsciiValue(Json.Object(SpanLog.Closing(key)));
  }

  // ----- the sweep -----

  /** One name in the directory. `journal` is another process's journal by its name; `stale` is None when
      its age cannot be told; `readable` and `removable` are what the file system allows. */
  datatype File = File(journal: bool, stale: Option<bool>, readable: bool, removable: bool, bytes: Bytes)

  /** What the sweep has collected, which files it has removed, and whether it has raised. */
  datatype Sweep = Sweep(raised: bool, collected: seq<Record>, removed: set<nat>)

  predicate Opened(f: File) {
    f.journal && f.stale == Some(true) && f.readable
  }

  function SweepOne(s: Sweep, f: File, i: nat): Sweep {
    if s.raised || !Opened(f) then s
    else
      match Read(f.bytes)
      case Raises => s.(raised := true)
      case Reads(records) => Sweep(false, s.collected + records, if f.removable then s.removed + {i} else s.removed)
  }

  function SweepAll(files: seq<File>): Sweep {
    if files == [] then Sweep(false, [], {})
    else SweepOne(SweepAll(files[..|files| - 1]), files[|files| - 1], |files| - 1)
  }

  /** The loop. Only file-system errors are caught inside it. */
  method Recover(files: seq<File>) returns (raised: bool, out: seq<Record>, removed: set<nat>)
    ensures SweepAll(files) == Sweep(raised, out, removed)
  {
    hide SpanLog.Unsettled, SpanLog.TextRaises, Utf8.Decode;
    raised, out, removed := false, [], {};
    for i := 0 to |files|
      invariant SweepAll(files[..i]) == Sweep(false, out, removed) && !raised
    {
      assert files[..i + 1][..i] == files[..i];
      var f := files[i];
      if !f.journal || f.stale != Some(true) || !f.readable {
        continue;
      }
      match Read(f.bytes) {
        case Raises =>
          raised := true;
          RaisedStays(files, i + 1);
          return;
        case Reads(records) =>
          out := out + records;
          if f.removable {
            removed := removed + {i};
          }
      }
    }
    assert files[..|files|] == files;
  }

  lemma {:induction false} RaisedStays(files: seq<File>, i: nat)
    requires i <= |files| && SweepAll(files[..i]).raised
    ensures SweepAll(files) == SweepAll(files[..i])
    decreases |files|
  {
    if i < |files| {
      assert files[..|files| - 1][..i] == files[..i];
      RaisedStays(files[..|files| - 1], i);
    } else {
      assert files[..i] == files;
    }
  }

  /** What a client that sweeps at its start sends: nothing if the sweep raised. */
  function Recovered(s: Sweep): seq<Record> {
    if s.raised then [] else s.collected
  }

  predicate Unreadable(f: File) {
    Opened(f) && Read(f.bytes).Raises?
  }

  function Found(f: File): seq<Record> {
    if Opened(f) && Read(f.bytes).Reads? then Read(f.bytes).records else []
  }

  function FoundIn(files: seq<File>): seq<Record> {
    if files == [] then [] else FoundIn(files[..|files| - 1]) + Found(files[|files| - 1])
  }

  lemma SweepOneIs(s: Sweep, f: File, i: nat)
    ensures var t := SweepOne(s, f, i);
            && (t.raised <==> s.raised || Unreadable(f))
            && (!t.raised ==> t.collected == s.collected + Found(f))
            && t.removed == if t.raised || !Opened(f) || !f.removable then s.removed else s.removed + {i}
  {
    hide SpanLog.Unsettled, SpanLog.TextRaises, Utf8.Decode;
    assert s.collected + [] == s.collected;
  }

  ghost predicate Fails(files: seq<File>, i: int, j: int) {
    exists k :: i <= k < j && 0 <= k < |files| && Unreadable(files[k])
  }

  lemma FoundSnoc(files: seq<File>)
    ensures FoundIn(files) == if files == [] then [] else FoundIn(files[..|files| - 1]) + Found(files[|files| - 1])
  {
  }

  lemma {:induction false} FoundMembers(files: seq<File>)
    ensures forall record :: record in FoundIn(files) <==>
              exists f :: && f in files && f.journal && f.stale == Some(true) && f.readable
                          && Read(f.bytes).Reads? && record in Read(f.bytes).records
  {
    hide Read;
    if files != [] {
      FoundMembers(files[..|files| - 1]);
      assert files == files[..|files| - 1] + [files[|files| - 1]];
    }
  }

  /** The sweep raises exactly when reading some abandoned file it can open does, wherever it stands.
      Otherwise it sends the open records of every such file, in order, and removes those it may. */
  lemma {:induction false} SweepMeaning(files: seq<File>)
    ensures var s := SweepAll(files);
            && (s.raised <==> Fails(files, 0, |files|))
            && (!s.raised ==> Recovered(s) == FoundIn(files))
            && (!s.raised ==> forall i: nat :: i in s.removed <==>
                  && i < |files| && files[i].journal && files[i].stale == Some(true) && files[i].readable && files[i].removable)
            && (!s.raised ==> forall record :: record in Recovered(s) <==>
                  exists f :: && f in files && f.journal && f.stale == Some(true) && f.readable
                              && Read(f.bytes).Reads? && record in Read(f.bytes).records)
  {
    FoundMembers(files);
    hide SweepOne, Found, FoundIn, Unreadable;
    FoundSnoc(files);
    if files != [] {
      var n := |files| - 1;
      SweepMeaning(files[..n]);
      SweepOneIs(SweepAll(files[..n]), files[n], n);
      assert forall i :: 0 <= i < n ==> files[..n][i] == files[i];
    }
  }

  /** A file is gone with its records unsent exactly when it stands before the first one whose reading
      raises: one torn file costs every process that died before it its last calls. */
  lemma LostIffBeforeUnreadable(files: seq<File>, i: nat)
    requires i < |files| && Opened(files[i]) && files[i].removable
    ensures var s := SweepAll(files);
            s.raised && i in s.removed <==> !Fails(files, 0, i + 1) && Fails(files, i + 1, |files|)
  {
    hide Opened, Unreadable;
    SweepMeaning(files);
    RemovedBefore(files, i);
  }

  /** A file is removed while nothing up to it has raised. */
  lemma {:induction false} RemovedBefore(files: seq<File>, i: nat)
    requires i < |files| && Opened(files[i]) && files[i].removable
    ensures i in SweepAll(files).removed <==> !Fails(files, 0, i + 1)
    decreases |files|
  {
    hide SweepOne, Opened, Unreadable, Fails, Read, Found, FoundIn, Recovered;
    var n := |files| - 1;
    RemovedBelow(files[..n]);
    SweepOneIs(SweepAll(files[..n]), files[n], n);
    if i < n {
      assert files[..n][i] == files[i];
      RemovedBefore(files[..n], i);
      FailsBelow(files, i + 1);
    } else {
      SweepMeaning(files);
    }
  }

  lemma FailsBelow(files: seq<File>, j: nat)
    requires j < |files|
    ensures Fails(files[..|files| - 1], 0, j) <==> Fails(files, 0, j)
  {
    hide Unreadable;
    var n := |files| - 1;
    assert forall i :: 0 <= i < n ==> files[..n][i] == files[i];
    if k :| 0 <= k < j && Unreadable(files[..n][k]) { assert Unreadable(files[k]); }
    if k :| 0 <= k < j && Unreadable(files[k]) { assert Unreadable(files[..n][k]); }
  }

  lemma {:induction false} RemovedBelow(files: seq<File>)
    ensures forall i :: i in SweepAll(files).removed ==> i < |files|
  {
    hide Read, Opened;
    if files != [] {
      RemovedBelow(files[..|files| - 1]);
    }
  }
}
