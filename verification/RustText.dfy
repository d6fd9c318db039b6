/** The string operations of Rust's standard library the server and the agent use. */
module RustText {
  import opened Wrappers

  predicate IsSpace(c: char) {
    || '\t' <= c <= '\r' || c == ' ' || c == '\U{85}' || c == '\U{a0}' || c == '\U{1680}'
    || '\U{2000}' <= c <= '\U{200a}' || c == '\U{2028}' || c == '\U{2029}' || c == '\U{202f}'
    || c == '\U{205f}' || c == '\U{3000}'
  }

  predicate Blank(s: string) {
    forall c :: c in s ==> IsSpace(c)
  }

  function TrimLeft(s: string): string {
    if s != [] && IsSpace(s[0]) then TrimLeft(s[1..]) else s
  }

  function TrimRight(s: string): string {
    if s != [] && IsSpace(s[|s| - 1]) then TrimRight(s[..|s| - 1]) else s
  }

  function Trim(s: string): string {
    TrimRight(TrimLeft(s))
  }

  /** Trimming takes white space off both ends, all of it and nothing else. */
  lemma {:induction false} TrimMeaning(s: string)
    ensures exists left, right :: Blank(left) && Blank(right) && s == left + Trim(s) + right
    ensures Trim(s) != "" ==> !IsSpace(Trim(s)[0]) && !IsSpace(Trim(s)[|Trim(s)| - 1])
  {
    var left := TrimLeftMeaning(s);
    var right := TrimRightMeaning(TrimLeft(s));
    assert s == left + Trim(s) + right;
  }

  lemma {:induction false} TrimLeftMeaning(s: string) returns (left: string)
    ensures Blank(left) && s == left + TrimLeft(s)
    ensures TrimLeft(s) != "" ==> !IsSpace(TrimLeft(s)[0])
  {
    left := "";
    if s != [] && IsSpace(s[0]) {
      var rest := TrimLeftMeaning(s[1..]);
      left := [s[0]] + rest;
    }
  }

  lemma {:induction false} TrimRightMeaning(s: string) returns (right: string)
    ensures Blank(right) && s == TrimRight(s) + right
    ensures TrimRight(s) != "" ==> !IsSpace(TrimRight(s)[|TrimRight(s)| - 1]) && TrimRight(s)[0] == s[0]
  {
    right := "";
    if s != [] && IsSpace(s[|s| - 1]) {
      var rest := TrimRightMeaning(s[..|s| - 1]);
      right := rest + [s[|s| - 1]];
    }
  }

  predicate At(s: string, d: string, i: nat) {
    i + |d| <= |s| && s[i..i + |d|] == d
  }

  lemma AtTail(s: string, d: string)
    requires s != []
    ensures forall j: nat :: At(s, d, j) <==> if j == 0 then At(s, d, 0) else At(s[1..], d, j - 1)
  {
    forall j: nat | j > 0 ensures At(s, d, j) <==> At(s[1..], d, j - 1) {
      if j + |d| <= |s| {
        assert s[1..][j - 1..j - 1 + |d|] == s[j..j + |d|];
      }
    }
  }

  /** The first place d occurs in s. */
  function Find(s: string, d: string): (r: Option<nat>)
    ensures r.Some? ==> At(s, d, r.value) && forall j: nat :: j < r.value ==> !At(s, d, j)
    ensures r.None? ==> forall j: nat :: !At(s, d, j)
  {
    if At(s, d, 0) then Some(0)
    else if s == [] then None
    else
      AtTail(s, d);
      match Find(s[1..], d)
      case Some(i) => Some(i + 1)
      case None => None
  }

  /** `str::split` on one character: always at least one segment. */
  function Split(s: string, c: char): (segments: seq<string>)
    ensures |segments| >= 1
  {
    if s == [] then [""]
    else
      var rest := Split(s[1..], c);
      if s[0] == c then [""] + rest else [[s[0]] + rest[0]] + rest[1..]
  }

  function JoinWith(segments: seq<string>, c: char): string
    requires |segments| >= 1
  {
    if |segments| == 1 then segments[0] else segments[0] + [c] + JoinWith(segments[1..], c)
  }

  /** Splitting loses nothing, and leaves no separator behind. */
  lemma {:induction false} SplitJoin(s: string, c: char)
    ensures JoinWith(Split(s, c), c) == s
    ensures forall seg :: seg in Split(s, c) ==> c !in seg
  {
    if s != [] {
      SplitJoin(s[1..], c);
      var rest := Split(s[1..], c);
      assert s == [s[0]] + s[1..];
      assert rest[0] in rest;
      if s[0] == c {
        assert ([""] + rest)[1..] == rest;
      } else {
        JoinHead(s[0], rest, c);
      }
    }
  }

  lemma JoinHead(x: char, rest: seq<string>, c: char)
    requires |rest| >= 1
    ensures JoinWith([[x] + rest[0]] + rest[1..], c) == [x] + JoinWith(rest, c)
  {
    assert ([[x] + rest[0]] + rest[1..])[1..] == rest[1..];
  }
}
