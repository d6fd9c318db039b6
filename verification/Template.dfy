/** The agent's placeholder scanners: prompt templates and environment references.

    A text parses into pieces: literals, closed placeholders, and at most one left open at the end.
    Rendering resolves each placeholder once and concatenates. */
module Template {
  import opened Wrappers
  import opened RustText
  import opened Json

  /** Opening and closing delimiters: "{{" and "}}" for prompts, "${" and "}" for the environment. */
  datatype Delims = Delims(open: string, close: string)

  const PROMPT := Delims("{{", "}}")
  const ENV := Delims("${", "}")

  datatype Piece = Literal(s: string) | Placeholder(inner: string) | Unclosed(tail: string)

  datatype Result = Rendered(s: string) | Unresolved(token: string) | Unterminated

  type Resolver = string -> Option<string>

  ghost predicate ValidDelims(d: Delims) {
    |d.open| == 2 && |d.close| > 0
  }

  // ----- pieces -----

  function Parse(d: Delims, t: string): (pieces: seq<Piece>)
    requires ValidDelims(d)
    ensures |pieces| >= 1
    decreases |t|
  {
    match Find(t, d.open)
    case None => [Literal(t)]
    case Some(start) =>
      var after := t[start + |d.open|..];
      match Find(after, d.close)
      case None => [Literal(t[..start]), Unclosed(after)]
      case Some(end) => [Literal(t[..start]), Placeholder(after[..end])] + Parse(d, after[end + |d.close|..])
  }

  function Printed(d: Delims, p: Piece): string {
    match p
    case Literal(s) => s
    case Placeholder(inner) => d.open + inner + d.close
    case Unclosed(tail) => d.open + tail
  }

  function Unparse(d: Delims, pieces: seq<Piece>): string {
    if pieces == [] then "" else Printed(d, pieces[0]) + Unparse(d, pieces[1..])
  }

  /** A delimiter first occurs where the text is cut. */
  ghost predicate Cuts(before: string, delim: string) {
    forall j: nat :: j < |before| ==> !At(before + delim, delim, j)
  }

  ghost predicate Lacks(s: string, delim: string) {
    forall j: nat :: !At(s, delim, j)
  }

  lemma FoundIsCut(t: string, delim: string)
    requires Find(t, delim).Some?
    ensures Cuts(t[..Find(t, delim).value], delim)
  {
    var i := Find(t, delim).value;
    assert t[..i] + delim == t[..i + |delim|];
    forall j: nat | j < i ensures !At(t[..i] + delim, delim, j) {
      assert !At(t, delim, j);
      assert t[..i + |delim|][j..j + |delim|] == t[j..j + |delim|];
    }
  }

  lemma AtSplits(t: string, delim: string, i: nat)
    requires At(t, delim, i)
    ensures i + |delim| <= |t| && t == t[..i] + delim + t[i + |delim|..]
  {
    assert t[..i + |delim|] == t[..i] + t[i..i + |delim|];
  }

  lemma SplitsAt(t: string, delim: string)
    requires Find(t, delim).Some?
    ensures var i := Find(t, delim).value;
            i + |delim| <= |t| && t == t[..i] + delim + t[i + |delim|..] && Cuts(t[..i], delim)
  {
    hide Cuts, At;
    FoundIsCut(t, delim);
    AtSplits(t, delim, Find(t, delim).value);
  }

  /** One turn of the scanner. */
  lemma ParseStep(d: Delims, t: string)
    requires ValidDelims(d)
    ensures Find(t, d.open).None? ==> Parse(d, t) == [Literal(t)] && Lacks(t, d.open)
    ensures Find(t, d.open).Some? ==>
              var start := Find(t, d.open).value;
              && start + |d.open| <= |t|
              && var after := t[start + |d.open|..];
              && t == t[..start] + d.open + after && Cuts(t[..start], d.open)
              && (Find(after, d.close).None? ==> Parse(d, t) == [Literal(t[..start]), Unclosed(after)] && Lacks(after, d.close))
              && (Find(after, d.close).Some? ==>
                    var end := Find(after, d.close).value;
                    && end + |d.close| <= |after|
                    && after == after[..end] + d.close + after[end + |d.close|..] && Cuts(after[..end], d.close)
                    && Parse(d, t) == [Literal(t[..start]), Placeholder(after[..end])] + Parse(d, after[end + |d.close|..]))
  {
    match Find(t, d.open)
    case None =>
    case Some(start) =>
      SplitsAt(t, d.open);
      var after := t[start + |d.open|..];
      if Find(after, d.close).Some? {
        SplitsAt(after, d.close);
      }
  }

  /** The pieces alone, by what the scanner finds. */
  lemma ParseIs(d: Delims, t: string)
    requires ValidDelims(d)
    ensures Find(t, d.open).None? ==> Parse(d, t) == [Literal(t)]
    ensures Find(t, d.open).Some? ==>
              var start := Find(t, d.open).value;
              && start + |d.open| <= |t|
              && var after := t[start + |d.open|..];
              && (Find(after, d.close).None? ==> Parse(d, t) == [Literal(t[..start]), Unclosed(after)])
              && (Find(after, d.close).Some? ==>
                    var end := Find(after, d.close).value;
                    && end + |d.close| <= |after|
                    && Parse(d, t) == [Literal(t[..start]), Placeholder(after[..end])] + Parse(d, after[end + |d.close|..]))
  {
    hide At;
    ParseStep(d, t);
    hide Parse, Find, Cuts, Lacks;
  }

  /** Printing the pieces gives back the text. */
  lemma {:induction false} UnparseParse(d: Delims, t: string)
    requires ValidDelims(d)
    ensures Unparse(d, Parse(d, t)) == t
    decreases |t|
  {
    hide Unparse, Parse, Find, At, Cuts, Lacks;
    ParseIs(d, t);
    match Find(t, d.open)
    case None => UnparseOne(d, Literal(t));
    case Some(start) =>
      var after := t[start + |d.open|..];
      SplitsAt(t, d.open);
      match Find(after, d.close) {
        case None => UnparseOpen(d, t[..start], after);
        case Some(end) =>
          var rest := after[end + |d.close|..];
          SplitsAt(after, d.close);
          UnparseParse(d, rest);
          UnparseClosed(d, t[..start], after[..end], Parse(d, rest));
          ThreeParts(t[..start], d.open, after[..end], d.close, rest);
      }
  }

  lemma UnparseOpen(d: Delims, text: string, tail: string)
    ensures Unparse(d, [Literal(text), Unclosed(tail)]) == text + d.open + tail
  {
    assert [Literal(text), Unclosed(tail)] == [Literal(text), Unclosed(tail)] + [];
    UnparseTwo(d, Literal(text), Unclosed(tail), []);
    UnparseNone(d);
  }

  lemma UnparseClosed(d: Delims, text: string, inner: string, rest: seq<Piece>)
    ensures Unparse(d, [Literal(text), Placeholder(inner)] + rest) == text + (d.open + inner + d.close) + Unparse(d, rest)
  {
    UnparseTwo(d, Literal(text), Placeholder(inner), rest);
  }

  lemma ThreeParts(text: string, open: string, inner: string, close: string, rest: string)
    ensures text + (open + inner + close) + rest == text + open + (inner + close + rest)
  {
  }

  lemma UnparseNone(d: Delims)
    ensures Unparse(d, []) == ""
  {
  }

  lemma UnparseOne(d: Delims, p: Piece)
    ensures Unparse(d, [p]) == Printed(d, p)
  {
    assert [p][1..] == [];
  }

  lemma UnparseTwo(d: Delims, p: Piece, q: Piece, rest: seq<Piece>)
    ensures Unparse(d, [p, q] + rest) == Printed(d, p) + Printed(d, q) + Unparse(d, rest)
  {
    assert ([p, q] + rest)[1..] == [q] + rest;
    assert ([q] + rest)[1..] == rest;
  }

  /** The piece lists that texts parse into. */
  ghost predicate Canonical(d: Delims, pieces: seq<Piece>) {
    && pieces != [] && pieces[0].Literal?
    && (|pieces| == 1 ==> Lacks(pieces[0].s, d.open))
    && (|pieces| > 1 ==>
          && Cuts(pieces[0].s, d.open)
          && !pieces[1].Literal?
          && (pieces[1].Unclosed? ==> |pieces| == 2 && Lacks(pieces[1].tail, d.close))
          && (pieces[1].Placeholder? ==> Cuts(pieces[1].inner, d.close) && Canonical(d, pieces[2..])))
  }

  lemma CutIsFound(before: string, delim: string, rest: string)
    requires Cuts(before, delim) && |delim| > 0
    ensures Find(before + delim + rest, delim) == Some(|before|)
  {
    var t := before + delim + rest;
    assert At(t, delim, |before|);
    var cut := |before| + |delim|;
    assert t[..cut] == before + delim;
    forall j: nat | j < |before| ensures !At(t, delim, j) {
      assert !At(before + delim, delim, j);
      assert t[..cut][j..j + |delim|] == t[j..j + |delim|];
    }
  }

  /** Texts and canonical piece lists are the same thing: parsing what is printed gives the pieces back,
      and every text parses into such a list. */
  lemma {:induction false} ParseCanonical(d: Delims, t: string)
    requires ValidDelims(d)
    ensures Canonical(d, Parse(d, t))
    decreases |t|
  {
    hide Parse, Find, Cuts, Lacks;
    ParseStep(d, t);
    match Find(t, d.open)
    case None =>
    case Some(start) =>
      var after := t[start + |d.open|..];
      match Find(after, d.close) {
        case None =>
        case Some(end) =>
          var rest := Parse(d, after[end + |d.close|..]);
          ParseCanonical(d, after[end + |d.close|..]);
          assert Parse(d, t)[2..] == rest;
      }
  }

  lemma {:induction false} ParseUnparse(d: Delims, pieces: seq<Piece>)
    requires ValidDelims(d) && Canonical(d, pieces)
    ensures Parse(d, Unparse(d, pieces)) == pieces
    decreases |pieces|
  {
    if |pieces| == 1 {
      assert pieces == [pieces[0]] && pieces[1..] == [];
      assert Unparse(d, pieces) == pieces[0].s;
      assert !At(pieces[0].s, d.open, 0);
    } else if pieces[1].Unclosed? {
      var lit, tail := pieces[0].s, pieces[1].tail;
      assert pieces == [Literal(lit), Unclosed(tail)] + [];
      UnparseTwo(d, Literal(lit), Unclosed(tail), []);
      var t := Unparse(d, pieces);
      assert t == lit + d.open + tail;
      CutIsFound(lit, d.open, tail);
      assert t[|lit| + |d.open|..] == tail && t[..|lit|] == lit;
    } else {
      var lit, inner, rest := pieces[0].s, pieces[1].inner, pieces[2..];
      assert pieces == [Literal(lit), Placeholder(inner)] + rest;
      UnparseTwo(d, Literal(lit), Placeholder(inner), rest);
      var t, after := Unparse(d, pieces), inner + d.close + Unparse(d, rest);
      assert t == lit + d.open + after;
      CutIsFound(lit, d.open, after);
      assert t[|lit| + |d.open|..] == after && t[..|lit|] == lit;
      CutIsFound(inner, d.close, Unparse(d, rest));
      assert after[|inner| + |d.close|..] == Unparse(d, rest) && after[..|inner|] == inner;
      ParseUnparse(d, rest);
    }
  }

  // ----- rendering -----

  function Then(first: Result, rest: Result): Result {
    if first.Rendered? && rest.Rendered? then Rendered(first.s + rest.s) else if first.Rendered? then rest else first
  }

  /** What one piece becomes. A prompt trims its tokens and keeps an unclosed tail as text; an environment
      reference does neither. */
  function PieceMeaning(d: Delims, p: Piece, resolve: Resolver): Result {
    match p
    case Literal(s) => Rendered(s)
    case Placeholder(inner) =>
      var token := if d == ENV then inner else Trim(inner);
      (match resolve(token)
       case Some(v) => Rendered(v)
       case None => Unresolved(token))
    case Unclosed(tail) => if d == ENV then Unterminated else Rendered(d.open + tail)
  }

  function Meaning(d: Delims, pieces: seq<Piece>, resolve: Resolver): Result {
    if pieces == [] then Rendered("") else Then(PieceMeaning(d, pieces[0], resolve), Meaning(d, pieces[1..], resolve))
  }

  lemma MeaningTwo(d: Delims, p: Piece, q: Piece, rest: seq<Piece>, resolve: Resolver)
    ensures Meaning(d, [p, q] + rest, resolve)
         == Then(PieceMeaning(d, p, resolve), Then(PieceMeaning(d, q, resolve), Meaning(d, rest, resolve)))
  {
    assert ([p, q] + rest)[1..] == [q] + rest;
    assert ([q] + rest)[1..] == rest;
  }

  lemma MeaningOne(d: Delims, p: Piece, resolve: Resolver)
    ensures Meaning(d, [p], resolve) == PieceMeaning(d, p, resolve)
  {
    assert [p][1..] == [];
    var m := PieceMeaning(d, p, resolve);
    assert m.Rendered? ==> m.s + "" == m.s;
  }

  /** Rendering fails exactly when some placeholder resolves to nothing (or, for the environment, one is
      left open), and the error is that of the first such piece. */
  lemma {:induction false} FailsIff(d: Delims, pieces: seq<Piece>, resolve: Resolver)
    ensures Meaning(d, pieces, resolve).Rendered? <==> forall p :: p in pieces ==> PieceMeaning(d, p, resolve).Rendered?
    ensures forall k :: 0 <= k < |pieces| && !PieceMeaning(d, pieces[k], resolve).Rendered?
              && (forall j :: 0 <= j < k ==> PieceMeaning(d, pieces[j], resolve).Rendered?)
              ==> Meaning(d, pieces, resolve) == PieceMeaning(d, pieces[k], resolve)
  {
    hide PieceMeaning;
    if pieces != [] {
      FailsIff(d, pieces[1..], resolve);
      assert pieces == [pieces[0]] + pieces[1..];
    }
  }

  // ----- what a prompt placeholder names -----

  datatype Task = Task(id: string, actionType: string, payload: Value)

  function Get(v: Value, key: string): Option<Value> {
    if v.Object? then Lookup(v.fields, key) else None
  }

  function Walk(v: Value, path: seq<string>): Option<Value>
    decreases |path|
  {
    if path == [] then Some(v)
    else
      match Get(v, path[0])
      case None => None
      case Some(next) => Walk(next, path[1..])
  }

  function Shown(v: Value): string {
    if v.Text? then v.s else Encode(Compact, v)
  }

  function Resolved(token: string, task: Task): Option<string> {
    if token == "task_id" then Some(task.id)
    else if token == "action_type" then Some(task.actionType)
    else if token == "payload" then Some(Encode(Compact, task.payload))
    else if !At(token, "params.", 0) then None
    else
      match Walk(task.payload, Split(token[7..], '.'))
      case None => None
      case Some(v) => Some(Shown(v))
  }

  /** From one value to the next by the fields of objects, one key of the path at a time. */
  ghost predicate Passes(places: seq<Value>, path: seq<string>) {
    && |places| == |path| + 1
    && forall i :: 0 <= i < |path| ==> places[i].Object? && Field(path[i], places[i + 1]) in places[i].fields
  }

  ghost predicate Reaches(v: Value, path: seq<string>, target: Value) {
    exists places :: Passes(places, path) && places[0] == v && places[|path|] == target
  }

  /** Walking a path reaches the value there, and nothing when there is none. */
  lemma {:induction false} WalkReaches(v: Value, path: seq<string>, target: Value)
    requires WellFormed(v)
    ensures Walk(v, path) == Some(target) <==> Reaches(v, path, target)
    decreases |path|
  {
    if path == [] {
      assert Passes([v], path);
    } else {
      ReachesStep(v, path, target);
      if v.Object? && Lookup(v.fields, path[0]).Some? {
        var next := Lookup(v.fields, path[0]).value;
        LookupIsField(v.fields, path[0], next);
        WalkReaches(next, path[1..], target);
      }
    }
  }

  lemma ReachesStep(v: Value, path: seq<string>, target: Value)
    requires WellFormed(v) && path != []
    ensures Reaches(v, path, target) <==>
              v.Object? && Lookup(v.fields, path[0]).Some? && Reaches(Lookup(v.fields, path[0]).value, path[1..], target)
  {
    hide Reaches, WellFormed;
    if Reaches(v, path, target) {
      var next := ReachesFirst(v, path, target);
      FieldFound(v, path[0], next);
    }
    if v.Object? && Lookup(v.fields, path[0]).Some? && Reaches(Lookup(v.fields, path[0]).value, path[1..], target) {
      FieldFound(v, path[0], Lookup(v.fields, path[0]).value);
      ReachesBehind(v, path, Lookup(v.fields, path[0]).value, target);
    }
  }

  lemma FieldFound(v: Value, key: string, next: Value)
    requires WellFormed(v) && v.Object?
    ensures Lookup(v.fields, key) == Some(next) <==> Field(key, next) in v.fields
  {
    LookupIsField(v.fields, key, next);
  }

  lemma ReachesFirst(v: Value, path: seq<string>, target: Value) returns (next: Value)
    requires path != [] && Reaches(v, path, target)
    ensures v.Object? && Field(path[0], next) in v.fields && Reaches(next, path[1..], target)
  {
    var places :| Passes(places, path) && places[0] == v && places[|path|] == target;
    next := places[1];
    assert Passes(places[1..], path[1..]);
  }

  lemma ReachesBehind(v: Value, path: seq<string>, next: Value, target: Value)
    requires path != [] && v.Object? && Field(path[0], next) in v.fields && Reaches(next, path[1..], target)
    ensures Reaches(v, path, target)
  {
    var places :| Passes(places, path[1..]) && places[0] == next && places[|path| - 1] == target;
    assert Passes([v] + places, path);
  }

  /** A text is shown as it is, anything else as a JSON text that reads back as it. */
  lemma ShownReads(v: Value)
    requires WellFormed(v)
    ensures if v.Text? then Shown(v) == v.s else Loads(Shown(v)) == Some(v)
  {
    LoadsEncode(Compact, v);
  }

  /** The tokens that name no path: the task's own facts, and any other names nothing. */
  lemma FixedTokens(task: Task, token: string)
    ensures Resolved("task_id", task) == Some(task.id) && Resolved("action_type", task) == Some(task.actionType)
    ensures Resolved("payload", task).Some? && (WellFormed(task.payload) ==> Loads(Resolved("payload", task).value) == Some(task.payload))
    ensures !(token in ["task_id", "action_type", "payload"]) && !("params." <= token) ==> Resolved(token, task) == None
  {
    if WellFormed(task.payload) { LoadsEncode(Compact, task.payload); }
  }

  /** A path is a place: whatever list of keys is walked, "params." and the keys joined by dots name the
      value found there, as long as no key holds a dot. */
  lemma {:induction false} PathNamesPlace(task: Task, path: seq<string>)
    requires path != [] && forall seg :: seg in path ==> '.' !in seg
    ensures Resolved("params." + JoinWith(path, '.'), task)
         == match Walk(task.payload, path) case None => None case Some(v) => Some(Shown(v))
  {
    var joined := JoinWith(path, '.');
    var token := "params." + joined;
    assert token[..7] == "params." && token[7..] == joined;
    assert token[4] == 'm';
    SplitOfJoin(path, '.');
  }

  /** The token spells this path: its keys, none with a dot, joined by dots. */
  predicate Spells(token: string, path: seq<string>) {
    path != [] && (forall seg :: seg in path ==> '.' !in seg) && token == "params." + JoinWith(path, '.')
  }

  /** And every token of that form names a place: it spells one path and no other. */
  lemma EveryTokenIsAPath(task: Task, token: string)
    requires At(token, "params.", 0)
    ensures var path := Split(token[7..], '.');
            && Spells(token, path) && (forall other :: Spells(token, other) ==> other == path)
            && Resolved(token, task) == match Walk(task.payload, path) case None => None case Some(v) => Some(Shown(v))
  {
    SplitJoin(token[7..], '.');
    assert token == token[..7] + token[7..];
    assert token[4] == 'm';
    forall other | Spells(token, other) ensures other == Split(token[7..], '.') {
      assert ("params." + JoinWith(other, '.'))[7..] == JoinWith(other, '.');
      SplitOfJoin(other, '.');
    }
  }

  lemma {:induction false} SplitOfJoin(segments: seq<string>, c: char)
    requires |segments| >= 1 && forall seg :: seg in segments ==> c !in seg
    ensures Split(JoinWith(segments, c), c) == segments
  {
    assert segments[0] in segments;
    if |segments| == 1 {
      SplitWhole(segments[0], c);
      assert segments == [segments[0]];
    } else {
      assert forall seg :: seg in segments[1..] ==> seg in segments;
      SplitOfJoin(segments[1..], c);
      SplitFirst(segments[0], JoinWith(segments[1..], c), c);
      assert segments == [segments[0]] + segments[1..];
    }
  }

  lemma {:induction false} SplitWhole(s: string, c: char)
    requires c !in s
    ensures Split(s, c) == [s]
  {
    if s != [] {
      SplitWhole(s[1..], c);
      assert s == [s[0]] + s[1..];
    }
  }

  lemma {:induction false} SplitFirst(s: string, rest: string, c: char)
    requires c !in s
    ensures Split(s + [c] + rest, c) == [s] + Split(rest, c)
  {
    if s == [] {
      assert ([c] + rest)[1..] == rest;
      assert s + [c] + rest == [c] + rest;
    } else {
      SplitFirst(s[1..], rest, c);
      assert (s + [c] + rest)[1..] == s[1..] + [c] + rest;
      assert s == [s[0]] + s[1..];
      assert ([s[1..]] + Split(rest, c))[1..] == Split(rest, c);
    }
  }

  method Resolve(token: string, task: Task) returns (r: Option<string>)
    ensures r == Resolved(token, task)
  {
    if token == "task_id" { return Some(task.id); }
    if token == "action_type" { return Some(task.actionType); }
    if token == "payload" { return Some(Encode(Compact, task.payload)); }
    if !At(token, "params.", 0) { return None; }
    var path := Split(token[7..], '.');
    var cur := task.payload;
    for i := 0 to |path|
      invariant Walk(task.payload, path) == Walk(cur, path[i..])
    {
      assert path[i..][1..] == path[i + 1..];
      match Get(cur, path[i]) {
        case None => return None;
        case Some(next) => cur := next;
      }
    }
    return Some(Shown(cur));
  }

  // ----- the scanners -----

  lemma MeaningStep(d: Delims, t: string, resolve: Resolver)
    requires ValidDelims(d)
    ensures var whole := Meaning(d, Parse(d, t), resolve);
            match Find(t, d.open)
            case None => whole == Rendered(t)
            case Some(start) =>
              start + |d.open| <= |t| &&
              var after := t[start + |d.open|..];
              match Find(after, d.close)
              case None => whole == Then(Rendered(t[..start]), PieceMeaning(d, Unclosed(after), resolve))
              case Some(end) =>
                end + |d.close| <= |after| &&
                whole == Then(Rendered(t[..start]), Then(PieceMeaning(d, Placeholder(after[..end]), resolve),
                                                         Meaning(d, Parse(d, after[end + |d.close|..]), resolve)))
  {
    hide Parse, Find, Cuts, Lacks, Meaning;
    ParseStep(d, t);
    match Find(t, d.open)
    case None => MeaningOne(d, Literal(t), resolve);
    case Some(start) =>
      var after := t[start + |d.open|..];
      match Find(after, d.close) {
        case None =>
          assert Parse(d, t) == [Literal(t[..start]), Unclosed(after)] + [];
          MeaningTwo(d, Literal(t[..start]), Unclosed(after), [], resolve);
          MeaningNone(d, resolve);
          var m := PieceMeaning(d, Unclosed(after), resolve);
          assert m.Rendered? ==> m.s + "" == m.s;
        case Some(end) =>
          MeaningTwo(d, Literal(t[..start]), Placeholder(after[..end]), Parse(d, after[end + |d.close|..]), resolve);
      }
  }

  lemma MeaningNone(d: Delims, resolve: Resolver)
    ensures Meaning(d, [], resolve) == Rendered("")
  {
  }

  lemma ThenAssociates(out: string, a: string, rest: Result)
    ensures Then(Rendered(out), Then(Rendered(a), rest)) == Then(Rendered(out + a), rest)
  {
    if rest.Rendered? { assert out + (a + rest.s) == out + a + rest.s; }
  }

  /** What a text of one piece becomes. Without an opening delimiter it stays. A prompt's placeholder is its
      resolved token, trimmed, and an environment reference its value, untrimmed; a delimiter left open stays as
      text in a prompt and is an error in the environment. */
  lemma OnePiece(inner: string, resolve: Resolver)
    ensures Lacks(inner, "{{") ==> Meaning(PROMPT, Parse(PROMPT, inner), resolve) == Rendered(inner)
    ensures Lacks(inner, "${") ==> Meaning(ENV, Parse(ENV, inner), resolve) == Rendered(inner)
    ensures Cuts(inner, "}}") ==>
              Meaning(PROMPT, Parse(PROMPT, "{{" + inner + "}}"), resolve)
              == match resolve(Trim(inner)) case Some(v) => Rendered(v) case None => Unresolved(Trim(inner))
    ensures Cuts(inner, "}") ==>
              Meaning(ENV, Parse(ENV, "${" + inner + "}"), resolve)
              == match resolve(inner) case Some(v) => Rendered(v) case None => Unresolved(inner)
    ensures Lacks(inner, "}}") ==> Meaning(PROMPT, Parse(PROMPT, "{{" + inner), resolve) == Rendered("{{" + inner)
    ensures Lacks(inner, "}") ==> Meaning(ENV, Parse(ENV, "${" + inner), resolve) == Unterminated
  {
    hide Parse, Meaning, Cuts, Lacks, Find, Trim;
    forall d | d in {PROMPT, ENV}
      ensures Lacks(inner, d.open) ==> Meaning(d, Parse(d, inner), resolve) == Rendered(inner)
      ensures Cuts(inner, d.close) ==>
                Meaning(d, Parse(d, d.open + inner + d.close), resolve) == PieceMeaning(d, Placeholder(inner), resolve)
      ensures Lacks(inner, d.close) ==> Meaning(d, Parse(d, d.open + inner), resolve) == PieceMeaning(d, Unclosed(inner), resolve)
    {
      OneLiteral(d, inner, resolve);
      if Cuts(inner, d.close) { OneClosed(d, inner, resolve); }
      if Lacks(inner, d.close) { OneOpen(d, inner, resolve); }
    }
  }

  lemma OneLiteral(d: Delims, t: string, resolve: Resolver)
    requires ValidDelims(d)
    ensures Lacks(t, d.open) ==> Meaning(d, Parse(d, t), resolve) == Rendered(t)
  {
    hide Parse, Meaning;
    MeaningStep(d, t, resolve);
  }

  /** A text that begins with an opening delimiter. */
  lemma OpensFirst(d: Delims, after: string)
    requires ValidDelims(d)
    ensures var t := d.open + after; Find(t, d.open) == Some(0) && t[|d.open|..] == after && t[..0] == ""
  {
    CutIsFound("", d.open, after);
    assert "" + d.open + after == d.open + after;
  }

  lemma OneClosed(d: Delims, inner: string, resolve: Resolver)
    requires ValidDelims(d) && Cuts(inner, d.close)
    ensures Meaning(d, Parse(d, d.open + inner + d.close), resolve) == PieceMeaning(d, Placeholder(inner), resolve)
  {
    hide Parse, Meaning, Cuts, PieceMeaning, Find;
    var after := inner + d.close;
    assert d.open + inner + d.close == d.open + after;
    OpensFirst(d, after);
    CutIsFound(inner, d.close, "");
    assert inner + d.close + "" == after && after[..|inner|] == inner && after[|inner| + |d.close|..] == "";
    MeaningStep(d, d.open + after, resolve);
    OneLiteral(d, "", resolve);
    assert Lacks("", d.open);
    var m := PieceMeaning(d, Placeholder(inner), resolve);
    assert m.Rendered? ==> "" + (m.s + "") == m.s;
  }

  lemma OneOpen(d: Delims, tail: string, resolve: Resolver)
    requires ValidDelims(d) && Lacks(tail, d.close)
    ensures Meaning(d, Parse(d, d.open + tail), resolve) == PieceMeaning(d, Unclosed(tail), resolve)
  {
    hide Parse, Meaning, Cuts, PieceMeaning;
    OpensFirst(d, tail);
    MeaningStep(d, d.open + tail, resolve);
    var m := PieceMeaning(d, Unclosed(tail), resolve);
    assert m.Rendered? ==> "" + m.s == m.s;
  }

  /** What is rendered when `rest` is still to be scanned. */
  ghost function Ahead(d: Delims, out: string, rest: string, resolve: Resolver): Result
    requires ValidDelims(d)
  {
    Then(Rendered(out), Meaning(d, Parse(d, rest), resolve))
  }

  lemma ThenLaws(out: string, tail: string, error: Result, rest: Result)
    requires !error.Rendered?
    ensures Then(Rendered(out), Rendered(tail)) == Rendered(out + tail)
    ensures Then(Rendered(out), error) == error && Then(error, rest) == error
  {
  }

  /** The scanner finds no placeholder, or one left open. */
  lemma LastTurn(d: Delims, out: string, rest: string, resolve: Resolver)
    requires ValidDelims(d)
    ensures var ahead := Ahead(d, out, rest, resolve);
            match Find(rest, d.open)
            case None => ahead == Rendered(out + rest)
            case Some(start) =>
              start + |d.open| <= |rest| &&
              var after := rest[start + |d.open|..];
              Find(after, d.close).None? ==>
                && rest[start..] == d.open + after
                && ahead == if d == ENV then Unterminated else Rendered(out + rest[..start] + rest[start..])
  {
    hide Meaning, Parse, Cuts, Lacks, At, Find, Then;
    MeaningStep(d, rest, resolve);
    ThenLaws(out, rest, Unterminated, Unterminated);
    if Find(rest, d.open).Some? {
      SplitsAt(rest, d.open);
      var start := Find(rest, d.open).value;
      var after, text := rest[start + |d.open|..], rest[..start];
      assert rest[start..] == d.open + after;
      ThenAssociates(out, text, PieceMeaning(d, Unclosed(after), resolve));
      ThenLaws(out + text, rest[start..], Unterminated, Unterminated);
    }
  }

  /** The scanner finds a closed placeholder. */
  lemma Turn(d: Delims, out: string, rest: string, resolve: Resolver)
    requires ValidDelims(d) && Find(rest, d.open).Some?
    ensures var start := Find(rest, d.open).value;
            start + |d.open| <= |rest| &&
            var after, before := rest[start + |d.open|..], out + rest[..start];
            Find(after, d.close).Some? ==>
              var end := Find(after, d.close).value;
              end + |d.close| <= |after| &&
              var token := if d == ENV then after[..end] else Trim(after[..end]);
              match resolve(token)
              case None => Ahead(d, out, rest, resolve) == Unresolved(token)
              case Some(v) => Ahead(d, out, rest, resolve) == Ahead(d, before + v, after[end + |d.close|..], resolve)
  {
    hide Meaning, Parse, Cuts, Lacks, At, Find, Trim, Then;
    MeaningStep(d, rest, resolve);
    SplitsAt(rest, d.open);
    var start := Find(rest, d.open).value;
    var after, text := rest[start + |d.open|..], rest[..start];
    if Find(after, d.close).Some? {
      SplitsAt(after, d.close);
      var end := Find(after, d.close).value;
      var more := Meaning(d, Parse(d, after[end + |d.close|..]), resolve);
      var m := PieceMeaning(d, Placeholder(after[..end]), resolve);
      ThenAssociates(out, text, Then(m, more));
      if m.Rendered? {
        ThenAssociates(out + text, m.s, more);
      } else {
        ThenLaws(out + text, "", m, more);
      }
    }
  }

  lemma AheadOfAll(d: Delims, t: string, resolve: Resolver)
    requires ValidDelims(d)
    ensures Ahead(d, "", t, resolve) == Meaning(d, Parse(d, t), resolve)
  {
    hide Meaning, Parse;
    var m := Meaning(d, Parse(d, t), resolve);
    assert m.Rendered? ==> "" + m.s == m.s;
  }

  /** Substitute the placeholders of a prompt. */
  method Render(template: string, task: Task) returns (r: Result)
    ensures r == Meaning(PROMPT, Parse(PROMPT, template), token => Resolved(token, task))
  {
    hide Meaning, Parse, Resolved, Ahead, Trim, At;
    ghost var resolve := token => Resolved(token, task);
    AheadOfAll(PROMPT, template, resolve);
    var out, rest := "", template;
    while true
      invariant Ahead(PROMPT, out, rest, resolve) == Meaning(PROMPT, Parse(PROMPT, template), resolve)
      decreases |rest|
    {
      LastTurn(PROMPT, out, rest, resolve);
      var found := Find(rest, "{{");
      if found.None? {
        return Rendered(out + rest);
      }
      Turn(PROMPT, out, rest, resolve);
      var start := found.value;
      out := out + rest[..start];
      var after := rest[start + 2..];
      var closed := Find(after, "}}");
      if closed.None? {
        return Rendered(out + rest[start..]);
      }
      var end := closed.value;
      var token := Trim(after[..end]);
      var value := Resolve(token, task);
      if value.None? {
        return Unresolved(token);
      }
      out := out + value.value;
      rest := after[end + 2..];
    }
  }

  /** Expand the environment references of a header value. */
  method ExpandEnv(s: string, env: map<string, string>) returns (r: Result)
    ensures r == Meaning(ENV, Parse(ENV, s), name => if name in env then Some(env[name]) else None)
  {
    hide Meaning, Parse, Ahead, Trim, At;
    ghost var resolve := name => if name in env then Some(env[name]) else None;
    AheadOfAll(ENV, s, resolve);
    var out, rest := "", s;
    while true
      invariant Ahead(ENV, out, rest, resolve) == Meaning(ENV, Parse(ENV, s), resolve)
      decreases |rest|
    {
      LastTurn(ENV, out, rest, resolve);
      var found := Find(rest, "${");
      if found.None? {
        return Rendered(out + rest);
      }
      Turn(ENV, out, rest, resolve);
      var start := found.value;
      out := out + rest[..start];
      var after := rest[start + 2..];
      var closed := Find(after, "}");
      if closed.None? {
        return Unterminated;
      }
      var end := closed.value;
      var name := after[..end];
      if name !in env {
        return Unresolved(name);
      }
      out := out + env[name];
      rest := after[end + 1..];
    }
  }

  // ----- concatenation -----

  predicate Closed(pieces: seq<Piece>) {
    pieces != [] && pieces[|pieces| - 1].Literal?
  }

  /** No opening delimiter begins in the left text's last literal and ends in the right text. */
  predicate Straddles(d: Delims, left: seq<Piece>, right: string)
    requires Closed(left)
  {
    var lit := left[|left| - 1].s;
    |lit| > 0 && At(lit + right, d.open, |lit| - 1)
  }

  /** Two piece lists end to end, their meeting literals made one. */
  function Joined(left: seq<Piece>, right: seq<Piece>): seq<Piece>
    requires Closed(left) && right != [] && right[0].Literal?
  {
    var n := |left| - 1;
    left[..n] + [Literal(left[n].s + right[0].s)] + right[1..]
  }

  lemma AtLeft(s: string, more: string, delim: string, j: nat)
    requires j + |delim| <= |s|
    ensures At(s + more, delim, j) <==> At(s, delim, j)
  {
    assert (s + more)[j..j + |delim|] == s[j..j + |delim|];
  }

  lemma AtRight(s: string, more: string, delim: string, j: nat)
    ensures At(s + more, delim, |s| + j) <==> At(more, delim, j)
  {
    if j + |delim| <= |more| {
      assert (s + more)[|s| + j..|s| + j + |delim|] == more[j..j + |delim|];
    }
  }

  lemma AtFits(s: string, delim: string, j: nat)
    requires At(s, delim, j)
    ensures j + |delim| <= |s|
  {
  }

  lemma FindFirst(s: string, delim: string, i: nat)
    requires At(s, delim, i) && forall j: nat :: j < i ==> !At(s, delim, j)
    ensures Find(s, delim) == Some(i)
  {
    hide At;
  }

  lemma FindAppend(s: string, more: string, delim: string)
    requires Find(s, delim).Some?
    ensures Find(s + more, delim) == Find(s, delim)
  {
    var i := Find(s, delim).value;
    AtFits(s, delim, i);
    hide At;
    AtLeft(s, more, delim, i);
    forall j: nat | j < i ensures !At(s + more, delim, j) {
      AtLeft(s, more, delim, j);
      assert !At(s, delim, j);
    }
    FindFirst(s + more, delim, i);
  }

  lemma FindAcross(s: string, more: string, delim: string)
    requires |delim| == 2 && Lacks(s, delim) && !(|s| > 0 && At(s + more, delim, |s| - 1))
    ensures Find(s + more, delim) == match Find(more, delim) case None => None case Some(i) => Some(|s| + i)
  {
    hide At;
    forall j: nat ensures At(s + more, delim, j) <==> j >= |s| && At(more, delim, j - |s|) {
      if j + 2 <= |s| {
        AtLeft(s, more, delim, j);
      } else if j >= |s| {
        AtRight(s, more, delim, j - |s|);
      }
    }
    if Find(more, delim).Some? {
      assert At(s + more, delim, |s| + Find(more, delim).value);
    }
  }

  lemma ParseStartsLiteral(d: Delims, t: string)
    requires ValidDelims(d)
    ensures Parse(d, t)[0].Literal?
  {
  }

  /** Parsing distributes over concatenation when the left text is closed and nothing straddles. */
  lemma {:induction false} ParseJoin(d: Delims, left: string, right: string)
    requires ValidDelims(d) && Closed(Parse(d, left)) && !Straddles(d, Parse(d, left), right)
    ensures Parse(d, right)[0].Literal?
    ensures Parse(d, left + right) == Joined(Parse(d, left), Parse(d, right))
    decreases |left|
  {
    hide Parse, Cuts, Lacks, Find, At;
    ParseStartsLiteral(d, right);
    ParseIs(d, left);
    if Find(left, d.open).None? {
      StraddleMeans(d, left, right);
      NoneLacks(left, d.open);
      FindAcross(left, right, d.open);
      LeftLiteral(d, left, right);
    } else {
      var start := Find(left, d.open).value;
      var after := left[start + |d.open|..];
      var end := Find(after, d.close).value;
      var rest := after[end + |d.close|..];
      var front := [Literal(left[..start]), Placeholder(after[..end])];
      ParseFront(d, left, right);
      JoinRest(front, Parse(d, rest), Parse(d, right));
      ParseJoin(d, rest, right);
    }
  }

  lemma StraddleMeans(d: Delims, left: string, right: string)
    requires !Straddles(d, [Literal(left)], right)
    ensures !(|left| > 0 && At(left + right, d.open, |left| - 1))
  {
    hide At;
    assert [Literal(left)][0] == Literal(left);
  }

  lemma NoneLacks(s: string, delim: string)
    requires Find(s, delim).None?
    ensures Lacks(s, delim)
  {
    hide At;
  }

  /** The first placeholder of the left text is the first of the whole. */
  lemma ParseFront(d: Delims, left: string, right: string)
    requires ValidDelims(d) && Find(left, d.open).Some?
    requires Find(left, d.open).value + |d.open| <= |left|
    requires Find(left[Find(left, d.open).value + |d.open|..], d.close).Some?
    ensures var start := Find(left, d.open).value;
            var after := left[start + |d.open|..];
            var end := Find(after, d.close).value;
            && end + |d.close| <= |after|
            && Parse(d, left + right)
               == [Literal(left[..start]), Placeholder(after[..end])] + Parse(d, after[end + |d.close|..] + right)
  {
    hide Parse, Cuts, Lacks, Find, At;
    ParseIs(d, left);
    ParseIs(d, left + right);
    var start := Find(left, d.open).value;
    var after := left[start + |d.open|..];
    var end := Find(after, d.close).value;
    FindAppend(left, right, d.open);
    SliceLeft(left, right, start, |d.open|);
    FindAppend(after, right, d.close);
    SliceLeft(after, right, end, |d.close|);
  }

  lemma JoinRest(front: seq<Piece>, left: seq<Piece>, right: seq<Piece>)
    requires left != [] && (Closed(left) || Closed(front + left)) && right != [] && right[0].Literal?
    ensures Closed(left) && Closed(front + left)
    ensures (front + left)[|front + left| - 1] == left[|left| - 1]
    ensures Joined(front + left, right) == front + Joined(left, right)
  {
    assert (front + left)[|front + left| - 1] == left[|left| - 1];
    assert (front + left)[..|front + left| - 1] == front + left[..|left| - 1];
  }

  /** The pieces that follow an opening delimiter. */
  ghost function AfterOpen(d: Delims, after: string): seq<Piece>
    requires ValidDelims(d)
  {
    match Find(after, d.close)
    case None => [Unclosed(after)]
    case Some(end) => [Placeholder(after[..end])] + Parse(d, after[end + |d.close|..])
  }

  lemma ParseHead(d: Delims, t: string)
    requires ValidDelims(d)
    ensures Find(t, d.open).None? ==> Parse(d, t) == [Literal(t)] + []
    ensures Find(t, d.open).Some? ==>
              var start := Find(t, d.open).value;
              start + |d.open| <= |t| && Parse(d, t) == [Literal(t[..start])] + AfterOpen(d, t[start + |d.open|..])
  {
    hide Parse, Find, At;
    ParseIs(d, t);
    if Find(t, d.open).Some? {
      var start := Find(t, d.open).value;
      var after := t[start + |d.open|..];
      if Find(after, d.close).Some? {
        var end := Find(after, d.close).value;
        HeadTwo(Literal(t[..start]), Placeholder(after[..end]), Parse(d, after[end + |d.close|..]));
      }
    }
  }

  lemma HeadTwo(p: Piece, q: Piece, rest: seq<Piece>)
    ensures [p] + ([q] + rest) == [p, q] + rest
  {
  }

  lemma LeftPieces(left: string, lit: string, tail: seq<Piece>)
    ensures Joined([Literal(left)], [Literal(lit)] + tail) == [Literal(left + lit)] + tail
  {
  }

  lemma LeftLiteral(d: Delims, left: string, right: string)
    requires ValidDelims(d) && Parse(d, left) == [Literal(left)] && Parse(d, right)[0].Literal?
    requires Find(left + right, d.open) == match Find(right, d.open) case None => None case Some(i) => Some(|left| + i)
    ensures Parse(d, left + right) == Joined(Parse(d, left), Parse(d, right))
  {
    hide Parse, Find, At, Joined, AfterOpen;
    ParseHead(d, right);
    ParseHead(d, left + right);
    match Find(right, d.open)
    case None => LeftPieces(left, right, []);
    case Some(start) =>
      SliceRight(left, right, start, |d.open|);
      LeftPieces(left, right[..start], AfterOpen(d, right[start + |d.open|..]));
  }

  lemma SliceRight(left: string, right: string, start: nat, width: nat)
    requires start + width <= |right|
    ensures (left + right)[|left| + start + width..] == right[start + width..]
    ensures (left + right)[..|left| + start] == left + right[..start]
  {
  }

  lemma SliceLeft(left: string, right: string, start: nat, width: nat)
    requires start + width <= |left|
    ensures (left + right)[start + width..] == left[start + width..] + right
    ensures (left + right)[..start] == left[..start]
  {
  }

  lemma {:induction false} MeaningJoin(d: Delims, left: seq<Piece>, right: seq<Piece>, resolve: Resolver)
    requires Closed(left) && right != [] && right[0].Literal?
    ensures Meaning(d, Joined(left, right), resolve) == Then(Meaning(d, left, resolve), Meaning(d, right, resolve))
  {
    if |left| == 1 {
      var a, b := left[0].s, right[0].s;
      assert left == [left[0]] && left[1..] == [];
      assert Joined(left, right)[1..] == right[1..];
      assert a + "" == a;
      ThenAssociates(a, b, Meaning(d, right[1..], resolve));
    } else {
      var rest := left[1..];
      MeaningJoin(d, rest, right, resolve);
      assert Joined(left, right) == [left[0]] + Joined(rest, right);
      var p, q, m := PieceMeaning(d, left[0], resolve), Meaning(d, rest, resolve), Meaning(d, right, resolve);
      assert p.Rendered? && q.Rendered? && m.Rendered? ==> p.s + (q.s + m.s) == p.s + q.s + m.s;
    }
  }

  /** Rendering distributes over concatenation under the same condition. */
  lemma RenderDistributes(d: Delims, left: string, right: string, resolve: Resolver)
    requires ValidDelims(d) && Closed(Parse(d, left)) && !Straddles(d, Parse(d, left), right)
    ensures Meaning(d, Parse(d, left + right), resolve)
         == var x, y := Meaning(d, Parse(d, left), resolve), Meaning(d, Parse(d, right), resolve);
            if !x.Rendered? then x else if !y.Rendered? then y else Rendered(x.s + y.s)
  {
    ParseJoin(d, left, right);
    MeaningJoin(d, Parse(d, left), Parse(d, right), resolve);
  }
}
