/** JSON texts (RFC 8259): values, the two encoders the clients use, and a parser.

    Two facts carry the span journal: what an encoder writes, the parser reads back; and no proper
    prefix of an object text is itself a JSON text, whoever wrote it. */
module Json {
  import opened Wrappers

  datatype Field = Field(key: string, value: Value)

  /** A number is kept as its lexeme: the journal never computes with one. */
  datatype Value =
    | Null
    | Bool(b: bool)
    | Number(lexeme: string)
    | Text(s: string)
    | Array(items: seq<Value>)
    | Object(fields: seq<Field>)

  /** `Python` is json.dumps: spaced separators, ASCII only. `Compact` is JSON.stringify. */
  datatype Style = Python | Compact

  // ----- dictionaries -----

  ghost function Keys(fields: seq<Field>): set<string> {
    set f | f in fields :: f.key
  }

  ghost predicate DistinctKeys(fields: seq<Field>) {
    forall i, j :: 0 <= i < j < |fields| ==> fields[i].key != fields[j].key
  }

  /** Assignment to a dictionary entry: in place when the key exists, at the end otherwise. */
  function Put(fields: seq<Field>, key: string, value: Value): (r: seq<Field>) {
    if fields == [] then [Field(key, value)]
    else if fields[0].key == key then [Field(key, value)] + fields[1..]
    else [fields[0]] + Put(fields[1..], key, value)
  }

  lemma KeysCons(f: Field, fields: seq<Field>)
    ensures Keys([f] + fields) == {f.key} + Keys(fields)
  {
    assert forall g :: g in [f] + fields <==> g == f || g in fields;
  }

  lemma {:induction false} PutKeys(fields: seq<Field>, key: string, value: Value)
    ensures Keys(Put(fields, key, value)) == Keys(fields) + {key}
  {
    if fields == [] {
      assert Put(fields, key, value) == [Field(key, value)] + [];
      KeysCons(Field(key, value), []);
    } else {
      assert fields == [fields[0]] + fields[1..];
      KeysCons(fields[0], fields[1..]);
      KeysCons(Field(key, value), fields[1..]);
      if fields[0].key != key {
        PutKeys(fields[1..], key, value);
        KeysCons(fields[0], Put(fields[1..], key, value));
      }
    }
  }

  lemma {:induction false} PutFresh(fields: seq<Field>, key: string, value: Value)
    requires key !in Keys(fields)
    ensures Put(fields, key, value) == fields + [Field(key, value)]
  {
    if fields != [] {
      assert fields == [fields[0]] + fields[1..];
      KeysCons(fields[0], fields[1..]);
      PutFresh(fields[1..], key, value);
    }
  }

  lemma {:induction false} PutDistinct(fields: seq<Field>, key: string, value: Value)
    requires DistinctKeys(fields)
    ensures DistinctKeys(Put(fields, key, value))
  {
    if fields != [] {
      var tail := fields[1..];
      assert fields == [fields[0]] + tail;
      if fields[0].key == key {
        DistinctCons(Field(key, value), tail);
      } else {
        PutDistinct(tail, key, value);
        PutKeys(tail, key, value);
        DistinctCons(fields[0], Put(tail, key, value));
      }
    }
  }

  lemma DistinctCons(f: Field, fields: seq<Field>)
    requires DistinctKeys(fields) && f.key !in Keys(fields)
    ensures DistinctKeys([f] + fields)
  {
    forall i | 0 <= i < |fields| ensures fields[i].key != f.key {
      assert fields[i] in fields;
    }
  }

  function Lookup(fields: seq<Field>, key: string): Option<Value> {
    if fields == [] then None
    else if fields[0].key == key then Some(fields[0].value)
    else Lookup(fields[1..], key)
  }

  lemma {:induction false} LookupPut(fields: seq<Field>, key: string, value: Value, k: string)
    ensures Lookup(Put(fields, key, value), k) == if k == key then Some(value) else Lookup(fields, k)
  {
    if fields != [] && fields[0].key != key {
      LookupPut(fields[1..], key, value, k);
    }
  }

  /** With distinct keys, looking one up finds its field. */
  lemma {:induction false} LookupIsField(fields: seq<Field>, key: string, value: Value)
    requires DistinctKeys(fields)
    ensures Lookup(fields, key) == Some(value) <==> Field(key, value) in fields
  {
    if fields != [] {
      var tail := fields[1..];
      assert fields == [fields[0]] + tail;
      assert DistinctKeys(tail) by {
        assert forall i :: 0 <= i < |tail| ==> tail[i] == fields[i + 1];
      }
      LookupIsField(tail, key, value);
    }
  }

  // ----- characters -----

  predicate IsSpace(c: char) {
    c == ' ' || c == '\t' || c == '\n' || c == '\r'
  }

  predicate IsDigit(c: char) {
    '0' <= c <= '9'
  }

  predicate IsNumberChar(c: char) {
    IsDigit(c) || c == '-' || c == '+' || c == '.' || c == 'e' || c == 'E'
  }

  function HexDigit(n: nat): (c: char)
    requires n < 16
    ensures c >= '0'
  {
    if n < 10 then ('0' as int + n) as char else ('a' as int + (n - 10)) as char
  }

  function HexValue(c: char): (r: Option<nat>)
    ensures r.Some? ==> r.value < 16
  {
    if '0' <= c <= '9' then Some(c as int - '0' as int)
    else if 'a' <= c <= 'f' then Some(c as int - 'a' as int + 10)
    else if 'A' <= c <= 'F' then Some(c as int - 'A' as int + 10)
    else None
  }

  /** The escape \uXXXX for one UTF-16 code unit. */
  function Unit(n: nat): (s: string)
    requires n < 0x10000
    ensures |s| == 6 && s[0] == '\\' && s[1] == 'u'
    ensures forall x :: x in s ==> x >= ' '
  {
    var a := n / 16;
    var b := a / 16;
    ['\\', 'u', HexDigit(b / 16), HexDigit(b % 16), HexDigit(a % 16), HexDigit(n % 16)]
  }

  /** Reads the four hexadecimal digits of a \u escape. */
  function ReadUnit(s: string): (r: Option<nat>)
    ensures r.Some? ==> |s| >= 4 && r.value < 0x10000
  {
    if |s| < 4 then None
    else match (HexValue(s[0]), HexValue(s[1]), HexValue(s[2]), HexValue(s[3]))
      case (Some(a), Some(b), Some(c), Some(d)) => Some(16 * (16 * (16 * a + b) + c) + d)
      case _ => None
  }

  lemma UnitRoundTrip(n: nat, rest: string)
    requires n < 0x10000
    ensures ReadUnit(Unit(n)[2..] + rest) == Some(n)
  {
    var t := Unit(n)[2..] + rest;
    var a := n / 16;
    var b := a / 16;
    assert t[0] == HexDigit(b / 16) && t[1] == HexDigit(b % 16) && t[2] == HexDigit(a % 16) && t[3] == HexDigit(n % 16);
  }

  predicate IsHigh(n: nat) { 0xD800 <= n < 0xDC00 }
  predicate IsLow(n: nat) { 0xDC00 <= n < 0xE000 }

  // ----- strings -----

  function EscapeChar(style: Style, c: char): (s: string)
    ensures s != ""
    ensures forall x :: x in s ==> x >= ' '
  {
    if c == '"' then "\\\""
    else if c == '\\' then "\\\\"
    else if c < ' ' then EscapeControl(c)
    else if style == Python && c > '~' then EscapeWide(c)
    else [c]
  }

  function EscapeControl(c: char): (s: string)
    requires c < ' '
    ensures |s| >= 2 && s[0] == '\\'
    ensures forall x :: x in s ==> x >= ' '
  {
    if c == '\n' then "\\n"
    else if c == '\r' then "\\r"
    else if c == '\t' then "\\t"
    else if c as int == 8 then "\\b"
    else if c as int == 12 then "\\f"
    else Unit(c as int)
  }

  /** Outside the basic plane, a surrogate pair. */
  function EscapeWide(c: char): (s: string)
    requires c > '~'
    ensures |s| >= 6 && s[0] == '\\'
    ensures forall x :: x in s ==> x >= ' '
  {
    if c as int < 0x10000 then Unit(c as int)
    else
      var v := c as int - 0x10000;
      Unit(0xD800 + v / 1024) + Unit(0xDC00 + v % 1024)
  }

  function Escape(style: Style, t: string): (s: string)
    ensures forall x :: x in s ==> x >= ' '
  {
    if t == "" then "" else EscapeChar(style, t[0]) + Escape(style, t[1..])
  }

  datatype Parsed<+T> = Fail | Ok(value: T, rest: string)

  /** The character an escape stands for, and the text after it; `s` starts after the backslash. */
  function ReadEscape(s: string): (r: Parsed<char>)
    ensures r.Ok? ==> |r.rest| < |s|
  {
    if s == "" then Fail
    else match s[0]
      case '"' => Ok('"', s[1..])
      case '\\' => Ok('\\', s[1..])
      case '/' => Ok('/', s[1..])
      case 'b' => Ok(8 as char, s[1..])
      case 'f' => Ok(12 as char, s[1..])
      case 'n' => Ok('\n', s[1..])
      case 'r' => Ok('\r', s[1..])
      case 't' => Ok('\t', s[1..])
      case 'u' => ReadCodePoint(s[1..])
      case _ => Fail
  }

  /** `s` starts after "\u". A surrogate must come as a pair. */
  function ReadCodePoint(s: string): (r: Parsed<char>)
    ensures r.Ok? ==> |r.rest| < |s|
  {
    match ReadUnit(s)
    case None => Fail
    case Some(hi) =>
      if IsHigh(hi) then
        if |s| >= 6 && s[4] == '\\' && s[5] == 'u' then
          match ReadUnit(s[6..])
          case Some(lo) =>
            if IsLow(lo) then Ok((0x10000 + (hi - 0xD800) * 1024 + (lo - 0xDC00)) as char, s[10..]) else Fail
          case None => Fail
        else Fail
      else if IsLow(hi) then Fail
      else Ok(hi as char, s[4..])
  }

  /** A string body up to and including its closing quote. */
  function ReadText(s: string): (r: Parsed<string>)
    ensures r.Ok? ==> |r.rest| < |s|
    decreases |s|
  {
    if s == "" then Fail
    else if s[0] == '"' then Ok("", s[1..])
    else if s[0] < ' ' then Fail
    else if s[0] == '\\' then
      match ReadEscape(s[1..])
      case Fail => Fail
      case Ok(c, rest) =>
        match ReadText(rest)
        case Fail => Fail
        case Ok(t, rest') => Ok([c] + t, rest')
    else
      match ReadText(s[1..])
      case Fail => Fail
      case Ok(t, rest) => Ok([s[0]] + t, rest)
  }

  lemma ControlReads(c: char, rest: string)
    requires c < ' '
    ensures ReadEscape(EscapeControl(c)[1..] + rest) == Ok(c, rest)
  {
    hide Unit, ReadCodePoint;
    var e := EscapeControl(c);
    var s := e[1..] + rest;
    if |e| == 2 {
      assert s[1..] == rest;
    } else {
      UnitReads(c as int, rest);
      assert s[1..] == e[2..] + rest;
    }
  }

  lemma UnitReads(n: nat, rest: string)
    requires n < 0xD800 || 0xE000 <= n < 0x10000
    ensures ReadCodePoint(Unit(n)[2..] + rest) == Ok(n as char, rest)
  {
    UnitRoundTrip(n, rest);
    assert (Unit(n)[2..] + rest)[4..] == rest;
  }

  lemma WideReads(c: char, rest: string)
    requires c > '~'
    ensures ReadEscape(EscapeWide(c)[1..] + rest) == Ok(c, rest)
  {
    hide Unit, ReadCodePoint;
    if c as int < 0x10000 {
      UnitReads(c as int, rest);
      EscapeSlice(Unit(c as int), "", rest);
      assert Unit(c as int) + "" == Unit(c as int) && "" + rest == rest;
    } else {
      PairEscapeReads(c, rest);
    }
  }

  lemma PairEscapeReads(c: char, rest: string)
    requires c as int >= 0x10000
    ensures ReadEscape(EscapeWide(c)[1..] + rest) == Ok(c, rest)
  {
    hide Unit, ReadCodePoint;
    var v := c as int - 0x10000;
    var hi, lo := 0xD800 + v / 1024, 0xDC00 + v % 1024;
    PairReads(hi, lo, rest);
    assert EscapeWide(c) == Unit(hi) + Unit(lo);
    EscapeSlice(Unit(hi), Unit(lo), rest);
  }

  lemma EscapeSlice(a: string, b: string, c: string)
    requires |a| >= 2
    ensures ((a + b)[1..] + c)[1..] == a[2..] + (b + c)
    ensures ((a + b)[1..] + c)[0] == a[1]
  {
  }

  lemma PairReads(hi: nat, lo: nat, rest: string)
    requires IsHigh(hi) && IsLow(lo)
    ensures ReadCodePoint(Unit(hi)[2..] + (Unit(lo) + rest))
         == Ok((0x10000 + (hi - 0xD800) * 1024 + (lo - 0xDC00)) as char, rest)
  {
    hide Unit, ReadUnit;
    var t := Unit(hi)[2..] + (Unit(lo) + rest);
    UnitRoundTrip(hi, Unit(lo) + rest);
    UnitRoundTrip(lo, rest);
    assert t[4..] == Unit(lo) + rest;
    assert t[6..] == Unit(lo)[2..] + rest;
    assert t[10..] == rest;
  }

  predicate NeedsEscape(style: Style, c: char) {
    c == '"' || c == '\\' || c < ' ' || (style == Python && c > '~')
  }

  lemma EscapedCharReads(style: Style, c: char, tail: string)
    ensures var e := EscapeChar(style, c);
            if NeedsEscape(style, c) then e[0] == '\\' && ReadEscape(e[1..] + tail) == Ok(c, tail)
            else e == [c]
  {
    hide EscapeControl, EscapeWide, ReadCodePoint;
    if c == '"' || c == '\\' {
      assert ([c] + tail)[1..] == tail;
    } else if c < ' ' {
      ControlReads(c, tail);
    } else if style == Python && c > '~' {
      WideReads(c, tail);
    }
  }

  lemma {:induction false} TextRoundTrip(style: Style, t: string, rest: string)
    ensures ReadText(Escape(style, t) + "\"" + rest) == Ok(t, rest)
    decreases |t|
  {
    hide ReadEscape, EscapeChar;
    if t == "" {
      assert Escape(style, t) + "\"" + rest == ['"'] + rest;
    } else {
      var c := t[0];
      var e := EscapeChar(style, c);
      var tail := Escape(style, t[1..]) + "\"" + rest;
      assert Escape(style, t) + "\"" + rest == e + tail;
      assert t == [c] + t[1..];
      TextRoundTrip(style, t[1..], rest);
      EscapedCharReads(style, c, tail);
      assert (e + tail)[1..] == e[1..] + tail;
      if !NeedsEscape(style, c) {
        assert (e + tail)[1..] == tail;
      }
    }
  }

  // ----- numbers -----

  function NumberRun(s: string): (n: nat)
    ensures n <= |s|
    ensures forall i :: 0 <= i < n ==> IsNumberChar(s[i])
    ensures n < |s| ==> !IsNumberChar(s[n])
  {
    if s != "" && IsNumberChar(s[0]) then 1 + NumberRun(s[1..]) else 0
  }

  function Digits(s: string): (n: nat)
    ensures n <= |s|
  {
    if s != "" && IsDigit(s[0]) then 1 + Digits(s[1..]) else 0
  }

  /** RFC 8259, section 6: [ minus ] int [ frac ] [ exp ]. */
  predicate IsNumber(s: string) {
    var u := if s != "" && s[0] == '-' then s[1..] else s;
    var d := Digits(u);
    && d >= 1
    && (u[0] == '0' ==> d == 1)
    && IsFraction(u[d..])
  }

  predicate IsFraction(s: string) {
    if s != "" && s[0] == '.' then
      var d := Digits(s[1..]);
      d >= 1 && IsExponent(s[1 + d..])
    else IsExponent(s)
  }

  predicate IsExponent(s: string) {
    s == "" ||
    ((s[0] == 'e' || s[0] == 'E') &&
     var u := if |s| > 1 && (s[1] == '+' || s[1] == '-') then s[2..] else s[1..];
     u != "" && Digits(u) == |u|)
  }

  /** The lexeme of a natural number. */
  function Decimal(n: nat): (s: string)
    ensures s != ""
    ensures forall i :: 0 <= i < |s| ==> IsDigit(s[i])
    ensures n > 0 ==> s[0] != '0'
    ensures n == 0 ==> s == "0"
  {
    if n < 10 then ["0123456789"[n]] else Decimal(n / 10) + ["0123456789"[n % 10]]
  }

  lemma {:induction false} AllDigits(s: string)
    requires forall i :: 0 <= i < |s| ==> IsDigit(s[i])
    ensures Digits(s) == |s|
  {
    if s != "" {
      AllDigits(s[1..]);
    }
  }

  lemma DecimalIsNumber(n: nat)
    ensures IsNumber(Decimal(n))
  {
    AllDigits(Decimal(n));
  }

  /** A decimal read digit by digit. */
  function ReadDecimal(s: string): int
    requires forall i :: 0 <= i < |s| ==> IsDigit(s[i])
  {
    if s == "" then 0 else 10 * ReadDecimal(s[..|s| - 1]) + (s[|s| - 1] as int - '0' as int)
  }

  lemma {:induction false} DecimalReads(n: nat)
    ensures ReadDecimal(Decimal(n)) == n
  {
    assert forall d: nat :: d < 10 ==> "0123456789"[d] as int == '0' as int + d;
    if n >= 10 {
      DecimalReads(n / 10);
      var s := Decimal(n);
      assert s[..|s| - 1] == Decimal(n / 10);
    } else {
      assert Decimal(n)[..0] == "";
    }
  }

  lemma {:induction false} DecimalInjective(m: nat, n: nat)
    requires Decimal(m) == Decimal(n)
    ensures m == n
    decreases m
  {
    var s, t := Decimal(m), Decimal(n);
    if m >= 10 && n >= 10 {
      assert s[..|s| - 1] == Decimal(m / 10);
      assert t[..|t| - 1] == Decimal(n / 10);
      DecimalInjective(m / 10, n / 10);
      assert s[|s| - 1] == "0123456789"[m % 10];
      assert t[|t| - 1] == "0123456789"[n % 10];
    }
  }

  lemma {:induction false} NumberCharsOfDigits(s: string)
    ensures Digits(s) < |s| ==> !IsDigit(s[Digits(s)])
    ensures forall i :: 0 <= i < Digits(s) ==> IsDigit(s[i])
  {
    if s != "" && IsDigit(s[0]) {
      NumberCharsOfDigits(s[1..]);
    }
  }

  lemma NumberChars(s: string)
    requires IsNumber(s)
    ensures s != "" && forall i :: 0 <= i < |s| ==> IsNumberChar(s[i])
  {
    var u := if s != "" && s[0] == '-' then s[1..] else s;
    var d := Digits(u);
    NumberCharsOfDigits(u);
    FractionChars(u[d..]);
    assert forall i :: d <= i < |u| ==> u[i] == u[d..][i - d];
    assert forall i :: 0 <= i < |u| ==> IsNumberChar(u[i]);
  }

  lemma FractionChars(s: string)
    requires IsFraction(s)
    ensures forall i :: 0 <= i < |s| ==> IsNumberChar(s[i])
  {
    if s != "" && s[0] == '.' {
      var d := Digits(s[1..]);
      NumberCharsOfDigits(s[1..]);
      ExponentChars(s[1 + d..]);
      assert forall i :: 1 <= i < 1 + d ==> s[i] == s[1..][i - 1];
      assert forall i :: 1 + d <= i < |s| ==> s[i] == s[1 + d..][i - 1 - d];
    } else {
      ExponentChars(s);
    }
  }

  lemma ExponentChars(s: string)
    requires IsExponent(s)
    ensures forall i :: 0 <= i < |s| ==> IsNumberChar(s[i])
  {
    if s != "" {
      var k := if |s| > 1 && (s[1] == '+' || s[1] == '-') then 2 else 1;
      NumberCharsOfDigits(s[k..]);
      assert forall i :: k <= i < |s| ==> s[i] == s[k..][i - k];
    }
  }

  lemma {:induction false} RunOfLexeme(lexeme: string, rest: string)
    requires forall i :: 0 <= i < |lexeme| ==> IsNumberChar(lexeme[i])
    requires rest == "" || !IsNumberChar(rest[0])
    ensures NumberRun(lexeme + rest) == |lexeme|
  {
    if lexeme != "" {
      RunOfLexeme(lexeme[1..], rest);
      assert (lexeme + rest)[1..] == lexeme[1..] + rest;
    } else {
      assert lexeme + rest == rest;
    }
  }

  lemma {:induction false} RunExtends(p: string, q: string)
    requires NumberRun(p) < |p|
    ensures NumberRun(p + q) == NumberRun(p)
  {
    if IsNumberChar(p[0]) {
      RunExtends(p[1..], q);
      assert (p + q)[1..] == p[1..] + q;
    }
  }

  // ----- values -----

  function Quote(style: Style, t: string): (s: string)
    ensures |s| >= 2 && s[0] == '"'
  {
    "\"" + Escape(style, t) + "\""
  }

  function ItemSeparator(style: Style): string { if style == Python then ", " else "," }
  function KeySeparator(style: Style): string { if style == Python then ": " else ":" }

  function Encode(style: Style, v: Value): (s: string)
    decreases v
  {
    match v
    case Null => "null"
    case Bool(b) => if b then "true" else "false"
    case Number(lexeme) => lexeme
    case Text(t) => Quote(style, t)
    case Array(items) => "[" + EncodeItems(style, items) + "]"
    case Object(fields) => "{" + EncodeFields(style, fields) + "}"
  }

  function EncodeItems(style: Style, items: seq<Value>): string
    decreases items
  {
    if items == [] then ""
    else if |items| == 1 then Encode(style, items[0])
    else Encode(style, items[0]) + ItemSeparator(style) + EncodeItems(style, items[1..])
  }

  function EncodeFields(style: Style, fields: seq<Field>): string
    decreases fields
  {
    if fields == [] then ""
    else if |fields| == 1 then EncodeField(style, fields[0])
    else EncodeField(style, fields[0]) + ItemSeparator(style) + EncodeFields(style, fields[1..])
  }

  function EncodeField(style: Style, f: Field): (s: string)
    ensures s != "" && s[0] == '"'
    decreases f
  {
    Quote(style, f.key) + KeySeparator(style) + Encode(style, f.value)
  }

  /** Values an encoder can be handed: lexemes are numbers, keys of one object differ. */
  ghost predicate WellFormed(v: Value)
    decreases v
  {
    match v
    case Number(lexeme) => IsNumber(lexeme)
    case Array(items) => forall x :: x in items ==> WellFormed(x)
    case Object(fields) => DistinctKeys(fields) && forall f :: f in fields ==> WellFormed(f.value)
    case _ => true
  }

  function SkipSpace(s: string): (r: string)
    ensures |r| <= |s|
    ensures r == "" || !IsSpace(r[0])
  {
    if s != "" && IsSpace(s[0]) then SkipSpace(s[1..]) else s
  }

  function ReadLiteral(s: string, word: string, v: Value): (r: Parsed<Value>)
    ensures r.Ok? ==> |r.rest| + |word| == |s|
  {
    if word <= s then Ok(v, s[|word|..]) else Fail
  }

  function ReadNumber(s: string): (r: Parsed<Value>)
    ensures r.Ok? ==> |r.rest| < |s|
  {
    var n := NumberRun(s);
    if IsNumber(s[..n]) then Ok(Number(s[..n]), s[n..]) else Fail
  }

  function ReadValue(s: string): (r: Parsed<Value>)
    ensures r.Ok? ==> |r.rest| < |s|
    decreases |s|, 0
  {
    if s == "" then Fail
    else if s[0] == '{' then
      var t := SkipSpace(s[1..]);
      if t != "" && t[0] == '}' then Ok(Object([]), t[1..]) else ReadFields(t, [])
    else if s[0] == '[' then
      var t := SkipSpace(s[1..]);
      if t != "" && t[0] == ']' then Ok(Array([]), t[1..]) else ReadItems(t, [])
    else ReadScalar(s)
  }

  function ReadScalar(s: string): (r: Parsed<Value>)
    requires s != ""
    ensures r.Ok? ==> |r.rest| < |s|
  {
    match s[0]
    case '"' =>
      (match ReadText(s[1..])
       case Fail => Fail
       case Ok(t, rest) => Ok(Text(t), rest))
    case 'n' => ReadLiteral(s, "null", Null)
    case 't' => ReadLiteral(s, "true", Bool(true))
    case 'f' => ReadLiteral(s, "false", Bool(false))
    case _ => ReadNumber(s)
  }

  /** The items of an array from the current one on, up to its closing bracket. */
  function ReadItems(s: string, read: seq<Value>): (r: Parsed<Value>)
    ensures r.Ok? ==> |r.rest| < |s|
    decreases |s|, 1
  {
    match ReadValue(s)
    case Fail => Fail
    case Ok(v, rest) =>
      var t := SkipSpace(rest);
      if t == "" then Fail
      else if t[0] == ']' then Ok(Array(read + [v]), t[1..])
      else if t[0] == ',' then ReadItems(SkipSpace(t[1..]), read + [v])
      else Fail
  }

  /** The fields of an object from the current one on, up to its closing brace; a repeated key
      overwrites. */
  function ReadFields(s: string, read: seq<Field>): (r: Parsed<Value>)
    ensures r.Ok? ==> |r.rest| < |s|
    decreases |s|, 2
  {
    match ReadField(s)
    case Fail => Fail
    case Ok(f, rest) =>
      var t := SkipSpace(rest);
      if t == "" then Fail
      else if t[0] == '}' then Ok(Object(Put(read, f.key, f.value)), t[1..])
      else if t[0] == ',' then ReadFields(SkipSpace(t[1..]), Put(read, f.key, f.value))
      else Fail
  }

  /** One quoted key, a colon, one value. */
  function ReadField(s: string): (r: Parsed<Field>)
    ensures r.Ok? ==> |r.rest| < |s|
    decreases |s|, 1
  {
    match ReadKey(s)
    case Fail => Fail
    case Ok(key, rest) =>
      match ReadValue(rest)
      case Fail => Fail
      case Ok(v, rest') => Ok(Field(key, v), rest')
  }

  function ReadKey(s: string): (r: Parsed<string>)
    ensures r.Ok? ==> |r.rest| < |s|
  {
    if s == "" || s[0] != '"' then Fail
    else match ReadText(s[1..])
      case Fail => Fail
      case Ok(key, rest) =>
        var colon := SkipSpace(rest);
        if colon == "" || colon[0] != ':' then Fail else Ok(key, SkipSpace(colon[1..]))
  }

  /** A whole text: one value, with white space allowed on both sides. */
  function Loads(s: string): Option<Value> {
    match ReadValue(SkipSpace(s))
    case Fail => None
    case Ok(v, rest) => if SkipSpace(rest) == "" then Some(v) else None
  }

  // ----- round trip -----

  lemma SkipNothing(s: string)
    requires s != "" && !IsSpace(s[0])
    ensures SkipSpace(s) == s
  {
  }

  lemma EncodingStart(style: Style, v: Value)
    requires WellFormed(v)
    ensures var e := Encode(style, v); e != "" && !IsSpace(e[0]) && e[0] != ']' && e[0] != '}'
  {
    if v.Number? {
      NumberChars(v.lexeme);
    }
  }

  lemma {:induction false} ValueRoundTrip(style: Style, v: Value, rest: string)
    requires WellFormed(v)
    requires v.Number? ==> rest == "" || !IsNumberChar(rest[0])
    ensures ReadValue(Encode(style, v) + rest) == Ok(v, rest)
    decreases v
  {
    match v
    case Array(items) => ArrayRoundTrip(style, items, rest);
    case Object(fields) => ObjectRoundTrip(style, fields, rest);
    case _ => ScalarRoundTrip(style, v, rest);
  }

  lemma LiteralReads(word: string, v: Value, rest: string)
    ensures ReadLiteral(word + rest, word, v) == Ok(v, rest)
  {
    assert (word + rest)[|word|..] == rest;
  }

  lemma NumberReads(lexeme: string, rest: string)
    requires IsNumber(lexeme)
    requires rest == "" || !IsNumberChar(rest[0])
    ensures ReadValue(lexeme + rest) == Ok(Number(lexeme), rest)
  {
    var s := lexeme + rest;
    NumberChars(lexeme);
    RunOfLexeme(lexeme, rest);
    assert s[..|lexeme|] == lexeme && s[|lexeme|..] == rest;
    assert s[0] == lexeme[0] && IsNumberChar(s[0]);
  }

  lemma QuotedReads(style: Style, t: string, rest: string)
    ensures ReadValue(Quote(style, t) + rest) == Ok(Text(t), rest)
  {
    hide Escape, ReadText, ReadNumber, ReadLiteral, ReadFields, ReadItems;
    var s := Quote(style, t) + rest;
    TextRoundTrip(style, t, rest);
    assert s[0] == '"' && s[1..] == Escape(style, t) + "\"" + rest;
  }

  lemma ScalarRoundTrip(style: Style, v: Value, rest: string)
    requires WellFormed(v) && !v.Array? && !v.Object?
    requires v.Number? ==> rest == "" || !IsNumberChar(rest[0])
    ensures ReadValue(Encode(style, v) + rest) == Ok(v, rest)
  {
    hide Quote, ReadText, ReadNumber, ReadFields, ReadItems;
    match v
    case Null => LiteralReads("null", v, rest);
    case Bool(b) => LiteralReads(if b then "true" else "false", v, rest);
    case Number(lexeme) => NumberReads(lexeme, rest);
    case Text(t) => QuotedReads(style, t, rest);
  }

  lemma {:induction false} ArrayRoundTrip(style: Style, items: seq<Value>, rest: string)
    requires WellFormed(Array(items))
    ensures ReadValue(Encode(style, Array(items)) + rest) == Ok(Array(items), rest)
    decreases items, 1
  {
    hide ReadItems, ReadFields, ReadScalar, EncodeItems, SkipSpace;
    var s := Encode(style, Array(items)) + rest;
    var t := EncodeItems(style, items) + ("]" + rest);
    assert s == "[" + t;
    assert s[1..] == t;
    if items == [] {
      assert EncodeItems(style, items) == "" by { NoItems(style); }
      assert t == "]" + rest;
      SkipNothing(t);
      assert t[1..] == rest;
    } else {
      ItemsStart(style, items);
      SkipNothing(t);
      ItemsRoundTrip(style, items, [], rest);
      assert [] + items == items;
    }
  }

  lemma NoItems(style: Style)
    ensures EncodeItems(style, []) == "" && EncodeFields(style, []) == ""
  {
  }

  lemma ItemsStart(style: Style, items: seq<Value>)
    requires items != [] && forall x :: x in items ==> WellFormed(x)
    ensures var e := EncodeItems(style, items); e != "" && !IsSpace(e[0]) && e[0] != ']' && e[0] != '}'
  {
    assert items[0] in items;
    EncodingStart(style, items[0]);
    assert EncodeItems(style, items)[0] == Encode(style, items[0])[0];
  }

  lemma ReadItemsLast(text: string, v: Value, read: seq<Value>, rest: string)
    requires ReadValue(text + ("]" + rest)) == Ok(v, "]" + rest)
    ensures ReadItems(text + ("]" + rest), read) == Ok(Array(read + [v]), rest)
  {
    SkipNothing("]" + rest);
    assert ("]" + rest)[1..] == rest;
  }

  lemma ReadItemsMore(text: string, v: Value, more: string, tail: string, read: seq<Value>)
    requires ReadValue(text + more) == Ok(v, more)
    requires more != "" && more[0] == ',' && SkipSpace(more[1..]) == tail
    ensures ReadItems(text + more, read) == ReadItems(tail, read + [v])
  {
    SkipNothing(more);
  }

  lemma {:induction false} ItemsRoundTrip(style: Style, items: seq<Value>, read: seq<Value>, rest: string)
    requires items != [] && forall x :: x in items ==> WellFormed(x)
    ensures ReadItems(EncodeItems(style, items) + ("]" + rest), read) == Ok(Array(read + items), rest)
    decreases items, 0
  {
    hide *;
    assert items[0] in items;
    ItemsSplit(style, items, "]" + rest);
    Delimiters();
    if |items| == 1 {
      ValueRoundTrip(style, items[0], "]" + rest);
      ReadItemsLast(Encode(style, items[0]), items[0], read, rest);
      assert read + items == read + [items[0]];
    } else {
      var others := items[1..];
      assert forall x :: x in others ==> x in items;
      assert read + [items[0]] + others == read + items;
      var tail := EncodeItems(style, others) + ("]" + rest);
      var more := ItemSeparator(style) + tail;
      ItemsStart(style, others);
      ItemSeparatorSkips(style, tail);
      ValueRoundTrip(style, items[0], more);
      ReadItemsMore(Encode(style, items[0]), items[0], more, tail, read);
      ItemsRoundTrip(style, others, read + [items[0]], rest);
    }
  }

  lemma ItemsSplit(style: Style, items: seq<Value>, end: string)
    requires items != []
    ensures EncodeItems(style, items) + end
         == Encode(style, items[0]) + if |items| == 1 then end else ItemSeparator(style) + (EncodeItems(style, items[1..]) + end)
  {
    hide Encode;
  }

  lemma NotSpace(c: char)
    requires c != ' ' && c != '\t' && c != '\n' && c != '\r'
    ensures !IsSpace(c)
  {
  }

  lemma Delimiters()
    ensures forall c :: c == ',' || c == ']' || c == '}' ==> !IsNumberChar(c) && !IsSpace(c)
  {
  }

  lemma ItemSeparatorSkips(style: Style, tail: string)
    requires tail != "" && !IsSpace(tail[0])
    ensures var more := ItemSeparator(style) + tail; more[0] == ',' && SkipSpace(more[1..]) == tail
  {
    SeparatorSkips(ItemSeparator(style), tail);
  }

  lemma SeparatorSkips(separator: string, tail: string)
    requires |separator| == 1 || (|separator| == 2 && separator[1] == ' ')
    requires tail != "" && !IsSpace(tail[0])
    ensures SkipSpace((separator + tail)[1..]) == tail
  {
    if |separator| == 2 {
      assert (separator + tail)[1..][1..] == tail;
    } else {
      assert (separator + tail)[1..] == tail;
    }
  }

  lemma {:induction false} ObjectRoundTrip(style: Style, fields: seq<Field>, rest: string)
    requires WellFormed(Object(fields))
    ensures ReadValue(Encode(style, Object(fields)) + rest) == Ok(Object(fields), rest)
    decreases fields, 2
  {
    hide ReadItems, ReadFields, ReadScalar, EncodeFields, SkipSpace;
    var s := Encode(style, Object(fields)) + rest;
    var t := EncodeFields(style, fields) + ("}" + rest);
    assert s == "{" + t;
    assert s[1..] == t;
    if fields == [] {
      assert EncodeFields(style, fields) == "" by { NoItems(style); }
      assert t == "}" + rest;
      SkipNothing(t);
      assert t[1..] == rest;
    } else {
      FieldsStart(style, fields);
      SkipNothing(t);
      assert [] + fields == fields;
      FieldsRoundTrip(style, fields, [], rest);
    }
  }

  lemma ReadFieldsLast(text: string, f: Field, read: seq<Field>, rest: string)
    requires ReadField(text + ("}" + rest)) == Ok(f, "}" + rest)
    requires f.key !in Keys(read)
    ensures ReadFields(text + ("}" + rest), read) == Ok(Object(read + [f]), rest)
  {
    SkipNothing("}" + rest);
    assert ("}" + rest)[1..] == rest;
    PutFresh(read, f.key, f.value);
  }

  lemma ReadFieldsMore(text: string, f: Field, more: string, tail: string, read: seq<Field>)
    requires ReadField(text + more) == Ok(f, more)
    requires more != "" && more[0] == ',' && SkipSpace(more[1..]) == tail
    requires f.key !in Keys(read)
    ensures ReadFields(text + more, read) == ReadFields(tail, read + [f])
  {
    SkipNothing(more);
    PutFresh(read, f.key, f.value);
  }

  lemma {:induction false} FieldsRoundTrip(style: Style, fields: seq<Field>, read: seq<Field>, rest: string)
    requires fields != [] && forall f :: f in fields ==> WellFormed(f.value)
    requires DistinctKeys(read + fields)
    ensures ReadFields(EncodeFields(style, fields) + ("}" + rest), read) == Ok(Object(read + fields), rest)
    decreases fields, 1
  {
    hide *;
    var f := fields[0];
    assert f in fields;
    if |fields| == 1 {
      Delimiters();
      FieldRoundTrip(style, f, "}" + rest);
      LastField(style, fields, read, rest);
    } else {
      var others := fields[1..];
      assert forall g :: g in others ==> g in fields;
      assert read + [f] + others == read + fields;
      var tail := EncodeFields(style, others) + ("}" + rest);
      FieldsStart(style, others);
      NotSpace('"');
      Delimiters();
      ItemSeparatorSkips(style, tail);
      FieldRoundTrip(style, f, ItemSeparator(style) + tail);
      FieldsRoundTrip(style, others, read + [f], rest);
      OneMoreField(style, fields, read, rest);
    }
  }

  lemma LastField(style: Style, fields: seq<Field>, read: seq<Field>, rest: string)
    requires |fields| == 1 && DistinctKeys(read + fields)
    requires ReadField(EncodeField(style, fields[0]) + ("}" + rest)) == Ok(fields[0], "}" + rest)
    ensures ReadFields(EncodeFields(style, fields) + ("}" + rest), read) == Ok(Object(read + fields), rest)
  {
    hide *;
    FreshKey(read, fields);
    FieldsSplit(style, fields, "}" + rest);
    ReadFieldsLast(EncodeField(style, fields[0]), fields[0], read, rest);
    assert read + fields == read + [fields[0]];
  }

  lemma OneMoreField(style: Style, fields: seq<Field>, read: seq<Field>, rest: string)
    requires |fields| > 1 && DistinctKeys(read + fields)
    requires var tail := EncodeFields(style, fields[1..]) + ("}" + rest);
             && tail != "" && !IsSpace(tail[0])
             && ReadField(EncodeField(style, fields[0]) + (ItemSeparator(style) + tail)) == Ok(fields[0], ItemSeparator(style) + tail)
             && ReadFields(tail, read + [fields[0]]) == Ok(Object(read + fields), rest)
    ensures ReadFields(EncodeFields(style, fields) + ("}" + rest), read) == Ok(Object(read + fields), rest)
  {
    hide *;
    var tail := EncodeFields(style, fields[1..]) + ("}" + rest);
    FreshKey(read, fields);
    FieldsSplit(style, fields, "}" + rest);
    ItemSeparatorSkips(style, tail);
    ReadFieldsMore(EncodeField(style, fields[0]), fields[0], ItemSeparator(style) + tail, tail, read);
  }

  lemma FieldsSplit(style: Style, fields: seq<Field>, end: string)
    requires fields != []
    ensures EncodeFields(style, fields) + end
         == EncodeField(style, fields[0]) + if |fields| == 1 then end else ItemSeparator(style) + (EncodeFields(style, fields[1..]) + end)
  {
    hide EncodeField;
  }

  lemma FieldsStart(style: Style, fields: seq<Field>)
    requires fields != []
    ensures EncodeFields(style, fields) != "" && EncodeFields(style, fields)[0] == '"'
  {
  }

  lemma {:induction false} FieldRoundTrip(style: Style, f: Field, more: string)
    requires WellFormed(f.value)
    requires more == "" || !IsNumberChar(more[0])
    ensures ReadField(EncodeField(style, f) + more) == Ok(f, more)
    decreases f, 0
  {
    hide ReadKey, ReadValue, Quote, Encode, KeySeparator, WellFormed;
    var value := Encode(style, f.value) + more;
    var afterKey := KeySeparator(style) + value;
    var s := EncodeField(style, f) + more;
    assert s == Quote(style, f.key) + afterKey;
    EncodingStart(style, f.value);
    KeyRoundTrip(style, f.key, value);
    ValueRoundTrip(style, f.value, more);
  }

  lemma KeyRoundTrip(style: Style, key: string, value: string)
    requires value != "" && !IsSpace(value[0])
    ensures ReadKey(Quote(style, key) + (KeySeparator(style) + value)) == Ok(key, value)
  {
    hide ReadText, Escape;
    var afterKey := KeySeparator(style) + value;
    var s := Quote(style, key) + afterKey;
    assert s[1..] == Escape(style, key) + "\"" + afterKey;
    TextRoundTrip(style, key, afterKey);
    assert afterKey[0] == ':';
    SeparatorSkips(KeySeparator(style), value);
  }

  lemma FreshKey(read: seq<Field>, fields: seq<Field>)
    requires fields != [] && DistinctKeys(read + fields)
    ensures fields[0].key !in Keys(read)
  {
    forall i | 0 <= i < |read| ensures read[i].key != fields[0].key {
      assert (read + fields)[i].key != (read + fields)[|read|].key;
    }
  }

  /** How the encoders spell the values that are no texts or numbers, and a list and an object of two. */
  lemma KnownValues(style: Style, x: Value, y: Value, k: string, l: string)
    ensures Encode(style, Null) == "null" && Encode(style, Bool(true)) == "true" && Encode(style, Bool(false)) == "false"
    ensures var comma := if style == Python then ", " else ",";
            Encode(style, Array([x, y])) == "[" + (Encode(style, x) + comma + Encode(style, y)) + "]"
    ensures var comma, colon := if style == Python then ", " else ",", if style == Python then ": " else ":";
            Encode(style, Object([Field(k, x), Field(l, y)]))
            == "{" + ((Quote(style, k) + colon + Encode(style, x)) + comma + (Quote(style, l) + colon + Encode(style, y))) + "}"
  {
    hide Quote;
    var items, fields := [x, y], [Field(k, x), Field(l, y)];
    assert items[1..] == [y] && EncodeItems(style, [y]) == Encode(style, y);
    assert EncodeItems(style, items) == Encode(style, x) + ItemSeparator(style) + EncodeItems(style, items[1..]);
    assert fields[1..] == [fields[1]] && EncodeFields(style, [fields[1]]) == EncodeField(style, fields[1]);
    assert EncodeFields(style, fields) == EncodeField(style, fields[0]) + ItemSeparator(style) + EncodeFields(style, fields[1..]);
  }

  /** And the characters with an escape of their own. */
  lemma KnownEscapes(style: Style)
    ensures EscapeChar(style, '"') == "\\\"" && EscapeChar(style, '\\') == "\\\\" && EscapeChar(style, '/') == "/"
    ensures EscapeChar(style, '\n') == "\\n" && EscapeChar(style, '\r') == "\\r" && EscapeChar(style, '\t') == "\\t"
    ensures EscapeChar(style, '\U{8}') == "\\b" && EscapeChar(style, '\U{C}') == "\\f"
  {
    hide Unit;
  }

  /** Other characters outside printable ASCII: by their code units in Python, as they are otherwise. */
  lemma KnownWide()
    ensures EscapeChar(Python, '\U{e9}') == "\\u00e9" && EscapeChar(Compact, '\U{e9}') == "\U{e9}"
    ensures EscapeChar(Python, '\U{1F600}') == "\\ud83d" + "\\ude00" && EscapeChar(Compact, '\U{1F600}') == "\U{1F600}"
  {
    KnownUnits();
    hide Unit;
    assert 0xD800 + (0x1F600 - 0x10000) / 1024 == 0xD83D && 0xDC00 + (0x1F600 - 0x10000) % 1024 == 0xDE00;
  }

  lemma KnownUnits()
    ensures Unit(0xe9) == "\\u00e9" && Unit(0xd83d) == "\\ud83d" && Unit(0xde00) == "\\ude00"
  {
    KnownDigits();
    hide HexDigit;
    UnitOf(0xe9, 0, 0, 0xe, 9);
    UnitOf(0xd83d, 0xd, 8, 3, 0xd);
    UnitOf(0xde00, 0xd, 0xe, 0, 0);
  }

  lemma KnownDigits()
    ensures HexDigit(0) == '0' && HexDigit(3) == '3' && HexDigit(8) == '8' && HexDigit(9) == '9'
    ensures HexDigit(0xd) == 'd' && HexDigit(0xe) == 'e'
  {
  }

  lemma UnitOf(n: nat, a: nat, b: nat, c: nat, d: nat)
    requires a < 16 && b < 16 && c < 16 && d < 16 && n == 16 * (16 * (16 * a + b) + c) + d
    ensures n < 0x10000 && Unit(n) == ['\\', 'u', HexDigit(a), HexDigit(b), HexDigit(c), HexDigit(d)]
  {
    hide HexDigit;
    var p := 16 * a + b;
    var q := 16 * p + c;
    assert n / 16 == q && n % 16 == d;
    assert q / 16 == p && q % 16 == c;
    assert p / 16 == a && p % 16 == b;
  }

  /** What an encoder writes, the parser reads back. */
  lemma LoadsEncode(style: Style, v: Value)
    requires WellFormed(v)
    ensures Loads(Encode(style, v)) == Some(v)
  {
    ValueRoundTrip(style, v, "");
    assert Encode(style, v) + "" == Encode(style, v);
    EncodingStart(style, v);
  }

  // ----- prefixes -----

  lemma {:induction false} SkipExtends(p: string, q: string)
    requires SkipSpace(p) != ""
    ensures SkipSpace(p + q) == SkipSpace(p) + q
  {
    if IsSpace(p[0]) {
      SkipExtends(p[1..], q);
      assert (p + q)[1..] == p[1..] + q;
    }
  }

  lemma {:induction false} SkipStops(s: string, i: nat)
    requires i < |s| && !IsSpace(s[i])
    ensures SkipSpace(s) != ""
  {
    if i > 0 {
      SkipStops(s[1..], i - 1);
    }
  }

  lemma ReadUnitExtends(p: string, q: string)
    requires ReadUnit(p).Some?
    ensures ReadUnit(p + q) == ReadUnit(p)
  {
  }

  lemma ReadCodePointExtends(p: string, q: string)
    requires ReadCodePoint(p).Ok?
    ensures ReadCodePoint(p + q) == Ok(ReadCodePoint(p).value, ReadCodePoint(p).rest + q)
  {
    hide ReadUnit;
    ReadUnitExtends(p, q);
    assert (p + q)[4..] == p[4..] + q;
    if IsHigh(ReadUnit(p).value) {
      ReadUnitExtends(p[6..], q);
      assert (p + q)[6..] == p[6..] + q;
      assert (p + q)[10..] == p[10..] + q;
    }
  }

  lemma ReadEscapeExtends(p: string, q: string)
    requires ReadEscape(p).Ok?
    ensures ReadEscape(p + q) == Ok(ReadEscape(p).value, ReadEscape(p).rest + q)
  {
    hide ReadCodePoint;
    assert (p + q)[1..] == p[1..] + q;
    if p[0] == 'u' {
      ReadCodePointExtends(p[1..], q);
    }
  }

  lemma {:induction false} ReadTextExtends(p: string, q: string)
    requires ReadText(p).Ok?
    ensures ReadText(p + q) == Ok(ReadText(p).value, ReadText(p).rest + q)
    decreases |p|
  {
    assert (p + q)[1..] == p[1..] + q;
    if p[0] == '"' {
    } else if p[0] == '\\' {
      ReadEscapeExtends(p[1..], q);
      ReadTextExtends(ReadEscape(p[1..]).rest, q);
    } else {
      ReadTextExtends(p[1..], q);
    }
  }

  lemma ReadScalarExtends(p: string, q: string)
    requires p != "" && ReadScalar(p).Ok? && ReadScalar(p).rest != ""
    ensures ReadScalar(p + q) == Ok(ReadScalar(p).value, ReadScalar(p).rest + q)
  {
    if p[0] == '"' {
      assert (p + q)[1..] == p[1..] + q;
      ReadTextExtends(p[1..], q);
    } else if p[0] == 'n' {
      ReadLiteralExtends(p, "null", Null, q);
    } else if p[0] == 't' {
      ReadLiteralExtends(p, "true", Bool(true), q);
    } else if p[0] == 'f' {
      ReadLiteralExtends(p, "false", Bool(false), q);
    } else {
      RunExtends(p, q);
      var n := NumberRun(p);
      assert (p + q)[..n] == p[..n] && (p + q)[n..] == p[n..] + q;
    }
  }

  lemma ReadLiteralExtends(p: string, word: string, v: Value, q: string)
    requires ReadLiteral(p, word, v).Ok?
    ensures ReadLiteral(p + q, word, v) == Ok(v, ReadLiteral(p, word, v).rest + q)
  {
    assert word <= p + q;
    assert (p + q)[|word|..] == p[|word|..] + q;
  }

  /** Reading is stable under extension, except that a number may still be growing. */
  lemma {:induction false} ReadValueExtends(p: string, q: string)
    requires ReadValue(p).Ok?
    requires ReadValue(p).rest != "" || p[0] == '{'
    ensures ReadValue(p + q) == Ok(ReadValue(p).value, ReadValue(p).rest + q)
    decreases |p|, 0
  {
    assert (p + q)[1..] == p[1..] + q;
    if p[0] == '{' || p[0] == '[' {
      var t := SkipSpace(p[1..]);
      SkipExtends(p[1..], q);
      assert (t + q)[1..] == t[1..] + q;
      if p[0] == '{' && t[0] != '}' {
        ReadFieldsExtends(t, [], q);
      } else if p[0] == '[' && t[0] != ']' {
        ReadItemsExtends(t, [], q);
      }
    } else {
      ReadScalarExtends(p, q);
    }
  }

  lemma {:induction false} ReadItemsExtends(p: string, read: seq<Value>, q: string)
    requires ReadItems(p, read).Ok?
    ensures ReadItems(p + q, read) == Ok(ReadItems(p, read).value, ReadItems(p, read).rest + q)
    decreases |p|, 1
  {
    hide ReadValue;
    ReadValueExtends(p, q);
    var rest := ReadValue(p).rest;
    var t := SkipSpace(rest);
    SkipExtends(rest, q);
    assert (t + q)[1..] == t[1..] + q;
    if t[0] == ',' {
      SkipExtends(t[1..], q);
      ReadItemsExtends(SkipSpace(t[1..]), read + [ReadValue(p).value], q);
    }
  }

  lemma {:induction false} ReadFieldsExtends(p: string, read: seq<Field>, q: string)
    requires ReadFields(p, read).Ok?
    ensures ReadFields(p + q, read) == Ok(ReadFields(p, read).value, ReadFields(p, read).rest + q)
    decreases |p|, 2
  {
    hide ReadField, Put;
    var Ok(f, rest) := ReadField(p);
    var t := SkipSpace(rest);
    ReadFieldExtends(p, q);
    SkipExtends(rest, q);
    assert (t + q)[1..] == t[1..] + q;
    if t[0] == ',' {
      SkipExtends(t[1..], q);
      ReadFieldsExtends(SkipSpace(t[1..]), Put(read, f.key, f.value), q);
    }
  }

  lemma {:induction false} ReadFieldExtends(p: string, q: string)
    requires ReadField(p).Ok? && ReadField(p).rest != ""
    ensures ReadField(p + q) == Ok(ReadField(p).value, ReadField(p).rest + q)
    decreases |p|, 1
  {
    ReadKeyExtends(p, q);
    ReadValueExtends(ReadKey(p).rest, q);
  }

  lemma ReadKeyExtends(p: string, q: string)
    requires ReadKey(p).Ok? && ReadKey(p).rest != ""
    ensures ReadKey(p + q) == Ok(ReadKey(p).value, ReadKey(p).rest + q)
  {
    assert (p + q)[1..] == p[1..] + q;
    ReadTextExtends(p[1..], q);
    var rest := ReadText(p[1..]).rest;
    var colon := SkipSpace(rest);
    SkipExtends(rest, q);
    assert (colon + q)[1..] == colon[1..] + q;
    SkipExtends(colon[1..], q);
  }

  /** No proper prefix of an object text is a JSON text. */
  lemma ProperPrefixUnreadable(s: string, n: nat)
    requires s != "" && s[0] == '{' && !IsSpace(s[|s| - 1])
    requires Loads(s).Some?
    requires n < |s|
    ensures Loads(s[..n]) == None
  {
    hide ReadValue, SkipSpace;
    var p, q := s[..n], s[n..];
    if n > 0 && Loads(p).Some? {
      assert p + q == s && p[0] == '{';
      SkipNothing(p);
      SkipNothing(s);
      ReadValueExtends(p, q);
      LastCharStays(ReadValue(p).rest, s, n);
    } else if n == 0 {
    }
  }

  lemma LastCharStays(rest: string, s: string, n: nat)
    requires n < |s| && !IsSpace(s[|s| - 1])
    ensures SkipSpace(rest + s[n..]) != ""
  {
    SkipStops(rest + s[n..], |rest| + |s[n..]| - 1);
  }
}
