/** The journal as an on-disk format: one JSON object a line, `b` opens a call and `e` closes it.
    What a reader recovers from a file body is compared with an abstract log of calls that never
    mentions the file. */
module SpanLog {
  import opened Wrappers
  import opened Json

  // ----- the reader -----

  /** What str.strip (Python) and String.trim (TypeScript) remove. */
  predicate IsBlank(style: Style, c: char) {
    var n := c as int;
    || c == ' ' || 9 <= n <= 13 || n == 0xA0 || n == 0x1680 || 0x2000 <= n <= 0x200A
    || n == 0x2028 || n == 0x2029 || n == 0x202F || n == 0x205F || n == 0x3000
    || (style == Python && (0x1C <= n <= 0x1F || n == 0x85))
    || (style == Compact && n == 0xFEFF)
  }

  function StripLeft(style: Style, s: string): string {
    if s != "" && IsBlank(style, s[0]) then StripLeft(style, s[1..]) else s
  }

  function StripRight(style: Style, s: string): (r: string)
    ensures r <= s
    ensures r == "" || !IsBlank(style, r[|r| - 1])
    ensures r == s || (|r| < |s| && IsBlank(style, s[|r|]))
  {
    if s != "" && IsBlank(style, s[|s| - 1]) then StripRight(style, s[..|s| - 1]) else s
  }

  function Strip(style: Style, s: string): string {
    StripRight(style, StripLeft(style, s))
  }

  predicate AllBlank(style: Style, s: string) {
    forall c :: c in s ==> IsBlank(style, c)
  }

  /** Stripping takes blanks off both ends, all of them and nothing else. */
  lemma StripMeaning(style: Style, s: string)
    ensures exists left, right :: AllBlank(style, left) && AllBlank(style, right) && s == left + Strip(style, s) + right
    ensures var r := Strip(style, s); r != "" ==> !IsBlank(style, r[0]) && !IsBlank(style, r[|r| - 1])
  {
    var left := StripLeftMeaning(style, s);
    var right := StripRightMeaning(style, StripLeft(style, s));
    assert s == left + Strip(style, s) + right;
  }

  lemma {:induction false} StripLeftMeaning(style: Style, s: string) returns (left: string)
    ensures AllBlank(style, left) && s == left + StripLeft(style, s)
    ensures StripLeft(style, s) != "" ==> !IsBlank(style, StripLeft(style, s)[0])
  {
    left := "";
    if s != "" && IsBlank(style, s[0]) {
      var rest := StripLeftMeaning(style, s[1..]);
      left := [s[0]] + rest;
    }
  }

  lemma {:induction false} StripRightMeaning(style: Style, s: string) returns (right: string)
    ensures AllBlank(style, right) && s == StripRight(style, s) + right
  {
    right := "";
    if s != "" && IsBlank(style, s[|s| - 1]) {
      var rest := StripRightMeaning(style, s[..|s| - 1]);
      right := rest + [s[|s| - 1]];
    }
  }

  /** One entry of the reader's insertion-ordered dictionary. */
  datatype Open = Open(key: Option<Value>, fields: seq<Field>)

  /** rec.get("k"): in Python a missing key and a null one are both None. */
  function KeyOf(style: Style, fields: seq<Field>): Option<Value> {
    match Lookup(fields, "k")
    case None => if style == Python then Some(Null) else None
    case Some(v) => Some(v)
  }

  /** Two records are of one call iff they name the same key; a missing key and a null one are the same to
      Python alone. */
  lemma SameKey(style: Style, a: seq<Field>, b: seq<Field>)
    ensures KeyOf(style, a) == KeyOf(style, b) <==>
              || Lookup(a, "k") == Lookup(b, "k")
              || (style == Python && Lookup(a, "k") in [None, Some(Null)] && Lookup(b, "k") in [None, Some(Null)])
  {
  }

  function Insert(opens: seq<Open>, key: Option<Value>, fields: seq<Field>): seq<Open> {
    if opens == [] then [Open(key, fields)]
    else if opens[0].key == key then [Open(key, fields)] + opens[1..]
    else [opens[0]] + Insert(opens[1..], key, fields)
  }

  function Remove(opens: seq<Open>, key: Option<Value>): seq<Open> {
    if opens == [] then []
    else if opens[0].key == key then opens[1..]
    else [opens[0]] + Remove(opens[1..], key)
  }

  /** The dictionary's laws: a key there is keeps its place and takes the new record, a new one goes to the end,
      and removing a key leaves the others where they are. */
  lemma {:induction false} KnownKey(before: seq<Open>, was: Open, behind: seq<Open>, fields: seq<Field>)
    requires Absent(before, was.key)
    ensures Insert(before + [was] + behind, was.key, fields) == before + [Open(was.key, fields)] + behind
    ensures Remove(before + [was] + behind, was.key) == before + behind
  {
    var opens := before + [was] + behind;
    if before == [] {
      assert opens[0] == was && opens[1..] == behind;
    } else {
      assert opens[0] == before[0] && opens[1..] == before[1..] + [was] + behind;
      KnownKey(before[1..], was, behind, fields);
      assert before == [before[0]] + before[1..];
    }
  }

  lemma {:induction false} NewKey(opens: seq<Open>, key: Option<Value>, fields: seq<Field>)
    requires Absent(opens, key)
    ensures Insert(opens, key, fields) == opens + [Open(key, fields)] && Remove(opens, key) == opens
  {
    if opens != [] {
      NewKey(opens[1..], key, fields);
      assert opens == [opens[0]] + opens[1..];
    }
  }

  predicate Absent(opens: seq<Open>, key: Option<Value>) {
    forall open :: open in opens ==> open.key != key
  }

  function ApplyRecord(style: Style, opens: seq<Open>, v: Value): seq<Open> {
    if !v.Object? then opens
    else if Lookup(v.fields, "o") == Some(Text("b")) then Insert(opens, KeyOf(style, v.fields), v.fields)
    else if Lookup(v.fields, "o") == Some(Text("e")) then Remove(opens, KeyOf(style, v.fields))
    else opens
  }

  /** Blank lines and lines that are not JSON are skipped. */
  function ApplyLine(style: Style, opens: seq<Open>, line: string): seq<Open> {
    var trimmed := Strip(style, line);
    if trimmed == "" then opens
    else match Loads(trimmed)
      case None => opens
      case Some(v) => ApplyRecord(style, opens, v)
  }

  function FirstLine(text: string): (n: nat)
    ensures n <= |text|
    ensures '\n' !in text ==> n == |text|
  {
    if text == "" || text[0] == '\n' then 0
    else
      assert text == [text[0]] + text[1..];
      1 + FirstLine(text[1..])
  }

  /** text.split("\n"). */
  function Lines(text: string): (lines: seq<string>)
    ensures lines != []
    decreases |text|
  {
    var n := FirstLine(text);
    if n == |text| then [text] else [text[..n]] + Lines(text[n + 1..])
  }

  function ApplyLines(style: Style, opens: seq<Open>, lines: seq<string>): seq<Open>
    decreases |lines|
  {
    if lines == [] then opens else ApplyLines(style, ApplyLine(style, opens, lines[0]), lines[1..])
  }

  function Fields(opens: seq<Open>): seq<seq<Field>> {
    seq(|opens|, i requires 0 <= i < |opens| => opens[i].fields)
  }

  /** The open records of a file body, oldest first. */
  function Unsettled(style: Style, text: string): seq<seq<Field>> {
    Fields(ApplyLines(style, [], Lines(text)))
  }

  /** A Python dictionary takes no list or dictionary for a key. */
  predicate Hashable(style: Style, key: Option<Value>) {
    style == Python && key.Some? ==> !key.value.Array? && !key.value.Object?
  }

  /** A record of a call under such a key makes the reader raise. */
  predicate RecordRaises(style: Style, v: Value) {
    && v.Object? && (Lookup(v.fields, "o") == Some(Text("b")) || Lookup(v.fields, "o") == Some(Text("e")))
    && !Hashable(style, KeyOf(style, v.fields))
  }

  predicate LineRaises(style: Style, line: string) {
    var trimmed := Strip(style, line);
    trimmed != "" && Loads(trimmed).Some? && RecordRaises(style, Loads(trimmed).value)
  }

  predicate LinesRaise(style: Style, lines: seq<string>) {
    exists i :: 0 <= i < |lines| && LineRaises(style, lines[i])
  }

  predicate TextRaises(style: Style, text: string) {
    LinesRaise(style, Lines(text))
  }

  /** The same, as the clients compute it: a loop over the lines that updates a dictionary. None is a raise. */
  method ReadUnsettled(style: Style, text: string) returns (records: Option<seq<seq<Field>>>)
    ensures records == if TextRaises(style, text) then None else Some(Unsettled(style, text))
  {
    var lines := Lines(text);
    var opens: seq<Open> := [];
    for i := 0 to |lines|
      invariant ApplyLines(style, opens, lines[i..]) == ApplyLines(style, [], lines)
      invariant forall j :: 0 <= j < i ==> !LineRaises(style, lines[j])
    {
      assert lines[i..][1..] == lines[i + 1..];
      ghost var rest := lines[i + 1..];
      var trimmed := Strip(style, lines[i]);
      if trimmed == "" {
        continue;
      }
      var parsed := Loads(trimmed);
      if parsed == None || !parsed.value.Object? {
        continue;
      }
      var record := parsed.value.fields;
      if Lookup(record, "o") == Some(Text("b")) {
        if !Hashable(style, KeyOf(style, record)) {
          return None;
        }
        opens := Insert(opens, KeyOf(style, record), record);
      } else if Lookup(record, "o") == Some(Text("e")) {
        if !Hashable(style, KeyOf(style, record)) {
          return None;
        }
        opens := Remove(opens, KeyOf(style, record));
      }
    }
    return Some(Fields(opens));
  }

  // ----- the abstract log -----

  datatype Call = Call(key: nat, fields: seq<Field>)

  datatype Entry = Began(call: Call) | Ended(key: nat)

  function Without(calls: seq<Call>, key: nat): seq<Call> {
    if calls == [] then []
    else if calls[0].key == key then Without(calls[1..], key)
    else [calls[0]] + Without(calls[1..], key)
  }

  function After(calls: seq<Call>, e: Entry): seq<Call> {
    match e
    case Began(call) => calls + [call]
    case Ended(key) => Without(calls, key)
  }

  function OpenCalls(log: seq<Entry>): seq<Call> {
    if log == [] then [] else After(OpenCalls(log[..|log| - 1]), log[|log| - 1])
  }

  function Records(calls: seq<Call>): seq<seq<Field>> {
    seq(|calls|, i requires 0 <= i < |calls| => calls[i].fields)
  }

  function KeyValue(key: nat): Value {
    Number(Decimal(key))
  }

  function Closing(key: nat): seq<Field> {
    [Field("o", Text("e")), Field("k", KeyValue(key))]
  }

  function RecordOf(e: Entry): seq<Field> {
    match e
    case Began(call) => call.fields
    case Ended(key) => Closing(key)
  }

  function LineOf(style: Style, e: Entry): string {
    Encode(style, Object(RecordOf(e)))
  }

  function Body(style: Style, log: seq<Entry>): string {
    if log == [] then "" else Body(style, log[..|log| - 1]) + LineOf(style, log[|log| - 1]) + "\n"
  }

  /** A record a journal writes for a call: it reads back as an opening of that call. */
  ghost predicate OpensCall(call: Call) {
    && WellFormed(Object(call.fields))
    && Lookup(call.fields, "o") == Some(Text("b"))
    && Lookup(call.fields, "k") == Some(KeyValue(call.key))
  }

  ghost predicate HasCall(calls: seq<Call>, key: nat) {
    exists i :: 0 <= i < |calls| && calls[i].key == key
  }

  ghost predicate DistinctCalls(calls: seq<Call>) {
    forall i, j :: 0 <= i < j < |calls| ==> calls[i].key != calls[j].key
  }

  /** Every call is opened under a key no open call has. */
  ghost predicate ValidLog(log: seq<Entry>) {
    log != [] ==>
      && ValidLog(log[..|log| - 1])
      && ValidEntry(OpenCalls(log[..|log| - 1]), log[|log| - 1])
  }

  ghost predicate ValidEntry(calls: seq<Call>, e: Entry) {
    e.Began? ==> OpensCall(e.call) && !HasCall(calls, e.call.key)
  }

  // ----- one line -----

  lemma ClosingReads(key: nat)
    ensures WellFormed(Object(Closing(key)))
    ensures Lookup(Closing(key), "o") == Some(Text("e"))
    ensures Lookup(Closing(key), "k") == Some(KeyValue(key))
  {
    DecimalIsNumber(key);
    assert Closing(key)[1..] == [Field("k", KeyValue(key))];
  }

  /** The closing line as each client writes it, where a quoted letter is that letter between quotes. */
  lemma ClosingLine(style: Style, key: nat)
    ensures var comma, colon := if style == Python then ", " else ",", if style == Python then ": " else ":";
            LineOf(style, Ended(key))
            == "{" + ((Quote(style, "o") + colon + Quote(style, "e")) + comma + (Quote(style, "k") + colon + Decimal(key))) + "}"
    ensures forall c :: 'a' <= c <= 'z' ==> Quote(style, [c]) == "\"" + [c] + "\""
  {
    hide Encode, Quote;
    KnownValues(style, Text("e"), KeyValue(key), "o", "k");
    NumberEncoded(style, Decimal(key));
    TextEncoded(style, "e");
    forall c | 'a' <= c <= 'z' ensures Quote(style, [c]) == "\"" + [c] + "\"" { LetterQuoted(style, c); }
  }

  lemma LetterQuoted(style: Style, c: char)
    requires 'a' <= c <= 'z'
    ensures Quote(style, [c]) == "\"" + [c] + "\""
  {
    assert Escape(style, [c]) == [c] + Escape(style, []);
  }

  lemma TextEncoded(style: Style, t: string)
    ensures Encode(style, Text(t)) == Quote(style, t)
  {
  }

  lemma NumberEncoded(style: Style, lexeme: string)
    ensures Encode(style, Number(lexeme)) == lexeme
  {
  }

  lemma {:induction false} NoControlsInValue(style: Style, v: Value)
    requires WellFormed(v)
    ensures forall c :: c in Encode(style, v) ==> c >= ' '
    decreases v, 1
  {
    hide Escape, IsNumber;
    match v
    case Number(lexeme) =>
      NumberChars(lexeme);
    case Array(items) => NoControlsInItems(style, items);
    case Object(fields) => NoControlsInFields(style, fields);
    case _ =>
  }

  lemma {:induction false} NoControlsInItems(style: Style, items: seq<Value>)
    requires forall x :: x in items ==> WellFormed(x)
    ensures forall c :: c in EncodeItems(style, items) ==> c >= ' '
    decreases items, 0
  {
    if items != [] {
      assert items[0] in items;
      NoControlsInValue(style, items[0]);
      NoControlsInItems(style, items[1..]);
    }
  }

  lemma {:induction false} NoControlsInField(style: Style, f: Field)
    requires WellFormed(f.value)
    ensures forall c :: c in EncodeField(style, f) ==> c >= ' '
    decreases f, 2
  {
    hide Escape, Encode;
    NoControlsInValue(style, f.value);
  }

  lemma {:induction false} NoControlsInFields(style: Style, fields: seq<Field>)
    requires forall f :: f in fields ==> WellFormed(f.value)
    ensures forall c :: c in EncodeFields(style, fields) ==> c >= ' '
    decreases fields, 0
  {
    if fields != [] {
      assert fields[0] in fields;
      NoControlsInField(style, fields[0]);
      NoControlsInFields(style, fields[1..]);
      hide EncodeField;
    }
  }

  /** A written line is read as the record it encodes. */
  lemma WholeLineReads(reader: Style, style: Style, opens: seq<Open>, fields: seq<Field>)
    requires WellFormed(Object(fields))
    ensures ApplyLine(reader, opens, Encode(style, Object(fields))) == ApplyRecord(reader, opens, Object(fields))
    ensures LineRaises(reader, Encode(style, Object(fields))) <==> RecordRaises(reader, Object(fields))
  {
    LoadsEncode(style, Object(fields));
    hide Encode, WellFormed, ApplyRecord, RecordRaises, Loads;
  }

  /** A line torn anywhere before its last character changes nothing. */
  lemma TornLineSkipped(reader: Style, style: Style, opens: seq<Open>, fields: seq<Field>, n: nat)
    requires WellFormed(Object(fields))
    requires n < |Encode(style, Object(fields))|
    ensures ApplyLine(reader, opens, Encode(style, Object(fields))[..n]) == opens
    ensures !LineRaises(reader, Encode(style, Object(fields))[..n])
  {
    var line := Encode(style, Object(fields));
    var torn := line[..n];
    LoadsEncode(style, Object(fields));
    if n > 0 {
      assert StripLeft(reader, torn) == torn;
      var trimmed := Strip(reader, torn);
      assert trimmed == line[..|trimmed|];
      ProperPrefixUnreadable(line, |trimmed|);
    }
  }

  // ----- the reader follows the log -----

  function Shown(calls: seq<Call>): seq<Open> {
    seq(|calls|, i requires 0 <= i < |calls| => Open(Some(KeyValue(calls[i].key)), calls[i].fields))
  }

  lemma KeyValueInjective(m: nat, n: nat)
    ensures KeyValue(m) == KeyValue(n) ==> m == n
  {
    if KeyValue(m) == KeyValue(n) { DecimalInjective(m, n); }
  }

  lemma {:induction false} InsertFresh(calls: seq<Call>, call: Call)
    requires !HasCall(calls, call.key)
    ensures Insert(Shown(calls), Some(KeyValue(call.key)), call.fields) == Shown(calls + [call])
  {
    hide KeyValue;
    if calls == [] {
      assert calls + [call] == [call] + [];
    } else {
      var tail := calls[1..];
      assert calls == [calls[0]] + tail;
      assert calls + [call] == [calls[0]] + (tail + [call]);
      assert calls[0].key != call.key;
      KeyValueInjective(calls[0].key, call.key);
      if HasCall(tail, call.key) { HasCallTail(calls, call.key); }
      InsertFresh(tail, call);
      assert Shown(calls)[1..] == Shown(tail);
    }
  }

  lemma HasCallTail(calls: seq<Call>, key: nat)
    requires calls != [] && HasCall(calls[1..], key)
    ensures HasCall(calls, key)
  {
    var i :| 0 <= i < |calls[1..]| && calls[1..][i].key == key;
    assert calls[i + 1].key == key;
  }

  lemma {:induction false} WithoutAbsent(calls: seq<Call>, key: nat)
    requires !HasCall(calls, key)
    ensures Without(calls, key) == calls
  {
    if calls != [] {
      assert calls[0].key != key;
      if HasCall(calls[1..], key) { HasCallTail(calls, key); }
      WithoutAbsent(calls[1..], key);
    }
  }

  lemma {:induction false} RemoveShown(calls: seq<Call>, key: nat)
    requires DistinctCalls(calls)
    ensures Remove(Shown(calls), Some(KeyValue(key))) == Shown(Without(calls, key))
  {
    hide KeyValue;
    if calls != [] {
      var head, tail := calls[0], calls[1..];
      assert calls == [head] + tail;
      DistinctCallsTail(head, tail);
      assert Shown(calls)[1..] == Shown(tail);
      RemoveShown(tail, key);
      KeyValueInjective(head.key, key);
      if head.key == key {
        WithoutAbsent(tail, key);
      } else {
      }
    }
  }

  lemma DistinctCallsTail(c: Call, calls: seq<Call>)
    requires DistinctCalls([c] + calls)
    ensures DistinctCalls(calls) && !HasCall(calls, c.key)
  {
    var all := [c] + calls;
    forall i, j | 0 <= i < j < |calls| ensures calls[i].key != calls[j].key {
      assert all[i + 1].key != all[j + 1].key;
    }
    forall i | 0 <= i < |calls| ensures calls[i].key != c.key {
      assert all[0].key != all[i + 1].key;
    }
  }

  lemma {:induction false} WithoutMembers(calls: seq<Call>, key: nat)
    ensures forall k :: HasCall(Without(calls, key), k) <==> HasCall(calls, k) && k != key
    ensures DistinctCalls(calls) ==> DistinctCalls(Without(calls, key))
  {
    if calls != [] {
      var head, tail := calls[0], calls[1..];
      assert calls == [head] + tail;
      WithoutMembers(tail, key);
      HasCallCons(head, tail);
      HasCallCons(head, Without(tail, key));
      if DistinctCalls(calls) {
        DistinctCallsTail(head, tail);
        if head.key != key { DistinctCallsCons(head, Without(tail, key)); }
      }
    }
  }

  lemma DistinctCallsCons(c: Call, calls: seq<Call>)
    requires DistinctCalls(calls) && !HasCall(calls, c.key)
    ensures DistinctCalls([c] + calls)
  {
  }

  lemma HasCallCons(c: Call, calls: seq<Call>)
    ensures forall k :: HasCall([c] + calls, k) <==> c.key == k || HasCall(calls, k)
  {
    forall k ensures HasCall([c] + calls, k) <==> c.key == k || HasCall(calls, k) {
      if HasCall(calls, k) {
        var i :| 0 <= i < |calls| && calls[i].key == k;
        assert ([c] + calls)[i + 1].key == k;
      }
      if c.key == k { assert ([c] + calls)[0].key == k; }
    }
  }

  lemma HasCallSnoc(calls: seq<Call>, c: Call)
    ensures forall k :: HasCall(calls + [c], k) <==> c.key == k || HasCall(calls, k)
  {
    forall k ensures HasCall(calls + [c], k) <==> c.key == k || HasCall(calls, k) {
      if HasCall(calls, k) {
        var i :| 0 <= i < |calls| && calls[i].key == k;
        assert (calls + [c])[i].key == k;
      }
      if c.key == k { assert (calls + [c])[|calls|].key == k; }
    }
  }

  lemma {:induction false} OpenCallsDistinct(log: seq<Entry>)
    requires ValidLog(log)
    ensures DistinctCalls(OpenCalls(log))
  {
    if log != [] {
      var calls := OpenCalls(log[..|log| - 1]);
      OpenCallsDistinct(log[..|log| - 1]);
      match log[|log| - 1]
      case Began(call) =>
        forall i | 0 <= i < |calls| ensures calls[i].key != call.key {
        }
      case Ended(key) => WithoutMembers(calls, key);
    }
  }

  /** One record moves the reader exactly as its entry moves the log. */
  lemma RecordFollowsEntry(reader: Style, calls: seq<Call>, e: Entry)
    requires DistinctCalls(calls) && ValidEntry(calls, e)
    ensures WellFormed(Object(RecordOf(e)))
    ensures ApplyRecord(reader, Shown(calls), Object(RecordOf(e))) == Shown(After(calls, e))
    ensures !RecordRaises(reader, Object(RecordOf(e)))
  {
    match e
    case Began(call) => InsertFresh(calls, call);
    case Ended(key) =>
      ClosingReads(key);
      RemoveShown(calls, key);
  }

  lemma {:induction false} FirstLineOf(line: string, rest: string)
    requires '\n' !in line
    ensures FirstLine(line + "\n" + rest) == |line|
  {
    var text := line + "\n" + rest;
    if line != "" {
      assert text[0] == line[0];
      assert text[1..] == line[1..] + "\n" + rest;
      FirstLineOf(line[1..], rest);
    }
  }

  lemma LinesOf(line: string, rest: string)
    requires '\n' !in line
    ensures Lines(line + "\n" + rest) == [line] + Lines(rest)
  {
    var text := line + "\n" + rest;
    FirstLineOf(line, rest);
    assert text[..|line|] == line && text[|line| + 1..] == rest;
  }

  /** Reading the body of a log and then more text: the body stands for its open calls. */
  lemma {:induction false} BodyReads(reader: Style, style: Style, log: seq<Entry>, rest: string)
    requires ValidLog(log)
    ensures ApplyLines(reader, [], Lines(Body(style, log) + rest))
         == ApplyLines(reader, Shown(OpenCalls(log)), Lines(rest))
  {
    hide ApplyLine, ApplyRecord, Lines, After, Encode, WellFormed, ValidEntry;
    if log == [] {
      assert Body(style, log) + rest == rest;
      assert Shown([]) == [];
    } else {
      var init, e := log[..|log| - 1], log[|log| - 1];
      var line := LineOf(style, e);
      var calls := OpenCalls(init);
      assert Body(style, log) + rest == Body(style, init) + (line + "\n" + rest);
      BodyReads(reader, style, init, line + "\n" + rest);
      OpenCallsDistinct(init);
      RecordFollowsEntry(reader, calls, e);
      NoControlsInValue(style, Object(RecordOf(e)));
      LinesOf(line, rest);
      WholeLineReads(reader, style, Shown(calls), RecordOf(e));
      var lines := [line] + Lines(rest);
      assert lines[1..] == Lines(rest);
    }
  }

  /** A whole body yields exactly the open calls, in the order they began. */
  lemma BodyUnsettled(reader: Style, style: Style, log: seq<Entry>)
    requires ValidLog(log)
    ensures Unsettled(reader, Body(style, log)) == Records(OpenCalls(log))
  {
    assert Body(style, log) + "" == Body(style, log);
    BodyReads(reader, style, log, "");
    assert Strip(reader, "") == "";
    var opens := Shown(OpenCalls(log));
    assert ApplyLine(reader, opens, "") == opens;
    assert [""][1..] == [];
  }

  lemma OnlyLine(reader: Style, opens: seq<Open>, line: string)
    requires '\n' !in line
    ensures ApplyLines(reader, opens, Lines(line)) == ApplyLine(reader, opens, line)
  {
    assert [line][1..] == [];
  }

  /** What a torn line leaves: everything or nothing of its record. */
  lemma TornLineReads(reader: Style, style: Style, calls: seq<Call>, e: Entry, n: nat)
    requires DistinctCalls(calls) && ValidEntry(calls, e)
    requires n <= |LineOf(style, e)|
    ensures ApplyLines(reader, Shown(calls), Lines(LineOf(style, e)[..n]))
         == Shown(if n < |LineOf(style, e)| then calls else After(calls, e))
  {
    hide ApplyLines, ApplyLine, ApplyRecord, After, Encode, ValidEntry, WellFormed;
    var line := LineOf(style, e);
    RecordFollowsEntry(reader, calls, e);
    NoControlsInValue(style, Object(RecordOf(e)));
    assert '\n' !in line;
    OnlyLine(reader, Shown(calls), line[..n]);
    if n < |line| {
      TornLineSkipped(reader, style, Shown(calls), RecordOf(e), n);
    } else {
      assert line[..n] == line;
      WholeLineReads(reader, style, Shown(calls), RecordOf(e));
    }
  }

  /** A body followed by the first n characters of the next line and its newline. Until the closing
      brace is on disk the reader sees the log before the entry; from then on, the log after it. */
  lemma TornBodyUnsettled(reader: Style, style: Style, log: seq<Entry>, e: Entry, n: nat)
    requires ValidLog(log) && ValidEntry(OpenCalls(log), e)
    requires n <= |LineOf(style, e)| + 1
    ensures var line := LineOf(style, e);
            Unsettled(reader, Body(style, log) + (line + "\n")[..n])
            == Records(if n < |line| then OpenCalls(log) else After(OpenCalls(log), e))
  {
    hide ApplyLines, After, LineOf, ValidEntry;
    var line := LineOf(style, e);
    var calls := OpenCalls(log);
    if n <= |line| {
      assert (line + "\n")[..n] == line[..n];
      OpenCallsDistinct(log);
      BodyReads(reader, style, log, line[..n]);
      TornLineReads(reader, style, calls, e, n);
    } else {
      var longer := log + [e];
      assert longer[..|longer| - 1] == log;
      assert (line + "\n")[..n] == line + "\n";
      assert Body(style, log) + (line + "\n") == Body(style, longer);
      BodyUnsettled(reader, style, longer);
    }
  }

  /** No reader raises on what the clients write, wherever it is cut. */
  lemma TornBodyRaisesNot(reader: Style, style: Style, log: seq<Entry>, e: Entry, n: nat)
    requires ValidLog(log) && ValidEntry(OpenCalls(log), e)
    requires n <= |LineOf(style, e)| + 1
    ensures !TextRaises(reader, Body(style, log) + (LineOf(style, e) + "\n")[..n])
  {
    hide ApplyLines, LineRaises, ValidEntry, Encode, WellFormed, LineOf;
    var line := LineOf(style, e);
    OpenCallsDistinct(log);
    EntryRaisesNot(reader, style, OpenCalls(log), e, n);
    if n <= |line| {
      assert (line + "\n")[..n] == line[..n];
      assert '\n' !in line[..n];
      assert Lines(line[..n]) == [line[..n]];
      BodyRaisesNot(reader, style, log, line[..n]);
    } else {
      assert (line + "\n")[..n] == line + "\n" + "";
      LinesOf(line, "");
      assert !LineRaises(reader, line) && !LineRaises(reader, "") by { BlankRaisesNot(reader); }
      BodyRaisesNot(reader, style, log, line + "\n" + "");
    }
  }

  lemma BlankRaisesNot(reader: Style)
    ensures !LineRaises(reader, "")
  {
    assert Strip(reader, "") == "";
  }

  lemma EntryRaisesNot(reader: Style, style: Style, calls: seq<Call>, e: Entry, n: nat)
    requires DistinctCalls(calls) && ValidEntry(calls, e)
    ensures var line := LineOf(style, e);
            '\n' !in line && !LineRaises(reader, line) && (n <= |line| ==> !LineRaises(reader, line[..n]))
  {
    hide LineRaises, RecordRaises, Encode, WellFormed, ApplyLine, ApplyRecord, After, ValidEntry, DistinctCalls, RecordOf;
    var line := LineOf(style, e);
    RecordFollowsEntry(reader, calls, e);
    NoControlsInValue(style, Object(RecordOf(e)));
    WholeLineReads(reader, style, [], RecordOf(e));
    if n < |line| {
      TornLineSkipped(reader, style, [], RecordOf(e), n);
    } else {
      assert line[..|line|] == line;
    }
  }

  lemma {:induction false} BodyRaisesNot(reader: Style, style: Style, log: seq<Entry>, rest: string)
    requires ValidLog(log) && !TextRaises(reader, rest)
    ensures !TextRaises(reader, Body(style, log) + rest)
  {
    hide LineRaises, After, ValidEntry, LineOf;
    if log == [] {
      assert Body(style, log) + rest == rest;
    } else {
      var init, e := log[..|log| - 1], log[|log| - 1];
      var line := LineOf(style, e);
      assert Body(style, log) + rest == Body(style, init) + (line + "\n" + rest);
      OpenCallsDistinct(init);
      EntryRaisesNot(reader, style, OpenCalls(init), e, 0);
      LinesOf(line, rest);
      BodyRaisesNot(reader, style, init, line + "\n" + rest);
    }
  }
}
