/** The PII scrubber, its counted twin, and the guard the clients run with the same rules. A rule's
    regular expression is any function to ordered, disjoint, non-empty spans of the text. */
module Scrub {
  datatype Span = Span(start: nat, end: nat)

  type Matcher = string -> seq<Span>

  datatype Rule = Rule(kind: string, find: Matcher, placeholder: string)

  predicate Ordered(text: string, spans: seq<Span>) {
    && (forall i :: 0 <= i < |spans| ==> spans[i].start < spans[i].end <= |text|)
    && (forall i, j :: 0 <= i < j < |spans| ==> spans[i].end <= spans[j].start)
  }

  ghost predicate ValidRules(rules: seq<Rule>) {
    forall r, text :: r in rules ==> Ordered(text, r.find(text))
  }

  /** `replace_all`: from `from` on, every span becomes the placeholder and the rest stays. */
  function ReplaceFrom(text: string, from: nat, spans: seq<Span>, placeholder: string): string
    requires from <= |text| && Ordered(text, spans) && (spans != [] ==> from <= spans[0].start)
    decreases |spans|
  {
    if spans == [] then text[from..]
    else text[from..spans[0].start] + placeholder + ReplaceFrom(text, spans[0].end, spans[1..], placeholder)
  }

  // ----- what replacing means, by position -----

  /** The k-th stretch of text that no span covers: from the end of one span to the start of the next. */
  function StretchStart(from: nat, spans: seq<Span>, k: nat): nat
    requires k <= |spans|
  {
    if k == 0 then from else spans[k - 1].end
  }

  function StretchEnd(text: string, spans: seq<Span>, k: nat): nat
    requires k <= |spans|
  {
    if k == |spans| then |text| else spans[k].start
  }

  /** Spans in order in the text from `from` on. */
  predicate OrderedFrom(text: string, from: nat, spans: seq<Span>) {
    from <= |text| && Ordered(text, spans) && (spans != [] ==> from <= spans[0].start)
  }

  lemma StretchFits(text: string, from: nat, spans: seq<Span>, k: nat)
    requires OrderedFrom(text, from, spans) && k <= |spans|
    ensures StretchStart(from, spans, k) <= StretchEnd(text, spans, k) <= |text|
  {
  }

  function Stretch(text: string, from: nat, spans: seq<Span>, k: nat): string
    requires OrderedFrom(text, from, spans) && k <= |spans|
  {
    StretchFits(text, from, spans, k);
    text[StretchStart(from, spans, k)..StretchEnd(text, spans, k)]
  }

  /** Where the k-th stretch stands in the result: after the stretches before it and one placeholder each. */
  function Place(text: string, from: nat, spans: seq<Span>, width: nat, k: nat): nat
    requires OrderedFrom(text, from, spans) && k <= |spans|
  {
    if k == 0 then 0 else Place(text, from, spans, width, k - 1) + |Stretch(text, from, spans, k - 1)| + width
  }

  predicate StandsAt(r: string, part: string, i: nat) {
    i + |part| <= |r| && r[i..i + |part|] == part
  }

  /** The k-th stretch stands at its place, and if a span follows it, the placeholder after it. */
  predicate StretchStands(text: string, from: nat, spans: seq<Span>, placeholder: string, r: string, k: nat)
    requires OrderedFrom(text, from, spans) && k <= |spans|
  {
    var part, i := Stretch(text, from, spans, k), Place(text, from, spans, |placeholder|, k);
    StandsAt(r, part, i) && (k < |spans| ==> StandsAt(r, placeholder, i + |part|))
  }

  /** Every stretch stands at its place, with the placeholder after each but the last, and nothing else. */
  ghost predicate ReplacesFrom(text: string, from: nat, spans: seq<Span>, placeholder: string, r: string)
    requires OrderedFrom(text, from, spans)
  {
    && (forall k :: 0 <= k <= |spans| ==> StretchStands(text, from, spans, placeholder, r, k))
    && |r| == Place(text, from, spans, |placeholder|, |spans|) + |Stretch(text, from, spans, |spans|)|
  }

  lemma StretchTail(text: string, from: nat, spans: seq<Span>, k: nat)
    requires OrderedFrom(text, from, spans) && spans != [] && k < |spans|
    ensures OrderedFrom(text, spans[0].end, spans[1..])
    ensures Stretch(text, from, spans, k + 1) == Stretch(text, spans[0].end, spans[1..], k)
  {
  }

  lemma {:induction false} PlaceTail(text: string, from: nat, spans: seq<Span>, width: nat, k: nat)
    requires OrderedFrom(text, from, spans) && spans != [] && k < |spans| && OrderedFrom(text, spans[0].end, spans[1..])
    ensures Place(text, from, spans, width, k + 1)
         == |Stretch(text, from, spans, 0)| + width + Place(text, spans[0].end, spans[1..], width, k)
  {
    hide OrderedFrom, Stretch;
    StretchTail(text, from, spans, k);
    if k > 0 {
      StretchTail(text, from, spans, k - 1);
      PlaceTail(text, from, spans, width, k - 1);
    }
  }

  lemma StandsBehind(front: string, r: string, part: string, i: nat)
    requires StandsAt(r, part, i)
    ensures StandsAt(front + r, part, |front| + i)
  {
    assert (front + r)[|front| + i..|front| + i + |part|] == r[i..i + |part|];
  }

  lemma FirstStands(first: string, placeholder: string, r: string)
    ensures StandsAt(first + placeholder + r, first, 0) && StandsAt(first + placeholder + r, placeholder, |first|)
  {
    var whole := first + placeholder + r;
    assert whole[..|first|] == first && whole[|first|..|first| + |placeholder|] == placeholder;
  }

  /** One span replaced in front of a text in which the rest are. */
  lemma ReplacedBefore(text: string, from: nat, spans: seq<Span>, placeholder: string, r: string, k: nat)
    requires OrderedFrom(text, from, spans) && spans != [] && k <= |spans|
    requires OrderedFrom(text, spans[0].end, spans[1..]) && ReplacesFrom(text, spans[0].end, spans[1..], placeholder, r)
    ensures StretchStands(text, from, spans, placeholder, Stretch(text, from, spans, 0) + placeholder + r, k)
  {
    hide OrderedFrom, Stretch, Place, StandsAt;
    var end, rest, w := spans[0].end, spans[1..], |placeholder|;
    var first := Stretch(text, from, spans, 0);
    FirstPlace(text, from, spans, w);
    if k == 0 {
      FirstStands(first, placeholder, r);
    } else {
      var part, i := Stretch(text, end, rest, k - 1), Place(text, end, rest, w, k - 1);
      StretchTail(text, from, spans, k - 1);
      PlaceTail(text, from, spans, w, k - 1);
      assert StretchStands(text, end, rest, placeholder, r, k - 1);
      StandsBehind(first + placeholder, r, part, i);
      if k < |spans| {
        StandsBehind(first + placeholder, r, placeholder, i + |part|);
      }
    }
  }

  lemma ReplaceStep(text: string, from: nat, spans: seq<Span>, placeholder: string)
    requires OrderedFrom(text, from, spans) && spans != []
    ensures OrderedFrom(text, spans[0].end, spans[1..])
    ensures ReplaceFrom(text, from, spans, placeholder)
         == Stretch(text, from, spans, 0) + placeholder + ReplaceFrom(text, spans[0].end, spans[1..], placeholder)
  {
  }

  lemma {:induction false} ReplaceMeaning(text: string, from: nat, spans: seq<Span>, placeholder: string)
    requires OrderedFrom(text, from, spans)
    ensures ReplacesFrom(text, from, spans, placeholder, ReplaceFrom(text, from, spans, placeholder))
    decreases |spans|
  {
    if spans == [] {
      NothingReplaced(text, from, placeholder);
    } else {
      ReplaceStep(text, from, spans, placeholder);
      var end, rest := spans[0].end, spans[1..];
      var r := ReplaceFrom(text, end, rest, placeholder);
      ReplaceMeaning(text, end, rest, placeholder);
      LongerReplaced(text, from, spans, placeholder, r);
    }
  }

  lemma NothingReplaced(text: string, from: nat, placeholder: string)
    requires from <= |text|
    ensures ReplacesFrom(text, from, [], placeholder, text[from..])
  {
  }

  lemma LongerReplaced(text: string, from: nat, spans: seq<Span>, placeholder: string, r: string)
    requires OrderedFrom(text, from, spans) && spans != []
    requires OrderedFrom(text, spans[0].end, spans[1..]) && ReplacesFrom(text, spans[0].end, spans[1..], placeholder, r)
    ensures ReplacesFrom(text, from, spans, placeholder, Stretch(text, from, spans, 0) + placeholder + r)
  {
    hide OrderedFrom, Stretch, Place, StretchStands;
    forall k | 0 <= k <= |spans|
      ensures StretchStands(text, from, spans, placeholder, Stretch(text, from, spans, 0) + placeholder + r, k)
    {
      ReplacedBefore(text, from, spans, placeholder, r, k);
    }
    var last := |spans| - 1;
    StretchTail(text, from, spans, last);
    PlaceTail(text, from, spans, |placeholder|, last);
  }

  lemma FirstPlace(text: string, from: nat, spans: seq<Span>, width: nat)
    requires OrderedFrom(text, from, spans)
    ensures Place(text, from, spans, width, 0) == 0
  {
  }

  /** What the spans cover, in all. */
  function Covered(spans: seq<Span>): int {
    if spans == [] then 0 else spans[0].end - spans[0].start + Covered(spans[1..])
  }

  lemma {:induction false} ReplacedLength(text: string, from: nat, spans: seq<Span>, placeholder: string)
    requires OrderedFrom(text, from, spans)
    ensures |ReplaceFrom(text, from, spans, placeholder)| == |text| - from - Covered(spans) + |spans| * |placeholder|
    decreases |spans|
  {
    if spans != [] {
      ReplaceStep(text, from, spans, placeholder);
      StretchFits(text, from, spans, 0);
      ReplacedLength(text, spans[0].end, spans[1..], placeholder);
      hide OrderedFrom, ReplaceFrom;
      OneMore(|spans[1..]|, |placeholder|);
    }
  }

  lemma OneMore(n: nat, width: nat)
    ensures (n + 1) * width == width + n * width
  {
  }

  /** One rule, said of its spans alone: what lies between them stands in the result in order, a placeholder
      for each span between, and nothing else. */
  ghost predicate Replaces(rule: Rule, text: string, out: string) {
    var spans := rule.find(text);
    Ordered(text, spans) && ReplacesFrom(text, 0, spans, rule.placeholder, out) && |out| == |text| - Covered(spans) + |spans| * |rule.placeholder|
  }

  lemma AppliedReplaces(rule: Rule, text: string)
    requires Ordered(text, rule.find(text))
    ensures Replaces(rule, text, Applied(rule, text))
  {
    var spans := rule.find(text);
    assert text[0..] == text;
    ReplaceMeaning(text, 0, spans, rule.placeholder);
    ReplacedLength(text, 0, spans, rule.placeholder);
  }

  /** The text before each rule and after the last: each rule's matches in the text it is given are replaced,
      and counted. */
  ghost predicate ScrubsThrough(rules: seq<Rule>, texts: seq<string>, counts: seq<nat>) {
    && |texts| == |rules| + 1 && |counts| == |rules|
    && (forall i :: 0 <= i < |rules| ==> Replaces(rules[i], texts[i], texts[i + 1]) && counts[i] == |rules[i].find(texts[i])|)
  }

  lemma {:induction false} ScrubbedThrough(rules: seq<Rule>, text: string) returns (texts: seq<string>)
    requires ValidRules(rules)
    ensures ScrubsThrough(rules, texts, Counts(rules, text)) && texts[0] == text && texts[|rules|] == Scrubbed(rules, text)
    decreases |rules|
  {
    if rules == [] {
      texts := [text];
    } else {
      hide Replaces, Applied, Ordered;
      var after := Applied(rules[0], text);
      AppliedReplaces(rules[0], text);
      var rest := ScrubbedThrough(rules[1..], after);
      texts := [text] + rest;
      ThroughCons(rules, text, rest, Counts(rules[1..], after));
    }
  }

  lemma ThroughCons(rules: seq<Rule>, text: string, rest: seq<string>, counts: seq<nat>)
    requires rules != [] && ScrubsThrough(rules[1..], rest, counts) && Replaces(rules[0], text, rest[0])
    ensures ScrubsThrough(rules, [text] + rest, [|rules[0].find(text)|] + counts)
  {
    hide Replaces;
    var texts := [text] + rest;
    forall i | 0 <= i < |rules|
      ensures Replaces(rules[i], texts[i], texts[i + 1])
      ensures ([|rules[0].find(text)|] + counts)[i] == |rules[i].find(texts[i])|
    {
      if i > 0 { assert Replaces(rules[1..][i - 1], rest[i - 1], rest[i]); }
    }
  }

  /** The scrubbed text and its count, by what each rule finds. */
  ghost predicate Scrubs(rules: seq<Rule>, text: string, out: string, redactions: nat)
    requires ValidRules(rules)
  {
    exists texts :: && ScrubsThrough(rules, texts, Counts(rules, text)) && texts[0] == text && texts[|rules|] == out
                    && redactions == Sum(Counts(rules, text))
  }

  lemma ScrubbedScrubs(rules: seq<Rule>, text: string)
    requires ValidRules(rules)
    ensures Scrubs(rules, text, Scrubbed(rules, text), Sum(Counts(rules, text)))
  {
    var texts := ScrubbedThrough(rules, text);
  }

  function Applied(rule: Rule, text: string): string
    requires Ordered(text, rule.find(text))
  {
    if rule.find(text) == [] then text else ReplaceFrom(text, 0, rule.find(text), rule.placeholder)
  }

  function Scrubbed(rules: seq<Rule>, text: string): string
    requires ValidRules(rules)
  {
    if rules == [] then text else Scrubbed(rules[1..], Applied(rules[0], text))
  }

  /** How many spans each rule replaces, in rule order. */
  function Counts(rules: seq<Rule>, text: string): (counts: seq<nat>)
    requires ValidRules(rules)
    ensures |counts| == |rules|
  {
    if rules == [] then [] else [|rules[0].find(text)|] + Counts(rules[1..], Applied(rules[0], text))
  }

  function Sum(counts: seq<nat>): nat {
    if counts == [] then 0 else counts[0] + Sum(counts[1..])
  }

  method DoScrub(rules: seq<Rule>, text: string) returns (out: string, redactions: nat)
    requires ValidRules(rules)
    ensures out == Scrubbed(rules, text) && redactions == Sum(Counts(rules, text))
    ensures Scrubs(rules, text, out, redactions)
  {
    ScrubbedScrubs(rules, text);
    out, redactions := text, 0;
    for i := 0 to |rules|
      invariant Scrubbed(rules[i..], out) == Scrubbed(rules, text)
      invariant redactions + Sum(Counts(rules[i..], out)) == Sum(Counts(rules, text))
    {
      assert rules[i..][1..] == rules[i + 1..];
      var count := |rules[i].find(out)|;
      if count > 0 {
        out := ReplaceFrom(out, 0, rules[i].find(out), rules[i].placeholder);
        redactions := redactions + count;
      }
    }
  }

  // ----- the breakdown -----

  type Breakdown = map<string, nat>

  function Bumped(m: Breakdown, placeholder: string, count: nat): Breakdown {
    m[placeholder := count + if placeholder in m then m[placeholder] else 0]
  }

  /** What the rules with this placeholder replaced, in all. */
  function CountFor(rules: seq<Rule>, counts: seq<nat>, placeholder: string): nat
    requires |rules| == |counts|
  {
    if rules == [] then 0
    else (if rules[0].placeholder == placeholder then counts[0] else 0) + CountFor(rules[1..], counts[1..], placeholder)
  }

  function Lookup(m: Breakdown, placeholder: string): nat {
    if placeholder in m then m[placeholder] else 0
  }

  /** The breakdown after these rules, from one already made. */
  function Tally(rules: seq<Rule>, text: string, m: Breakdown): Breakdown
    requires ValidRules(rules)
    decreases |rules|
  {
    if rules == [] then m
    else
      var count := |rules[0].find(text)|;
      Tally(rules[1..], Applied(rules[0], text), if count > 0 then Bumped(m, rules[0].placeholder, count) else m)
  }

  method ScrubDetailed(rules: seq<Rule>, text: string) returns (out: string, redactions: nat, tally: Breakdown)
    requires ValidRules(rules)
    ensures out == Scrubbed(rules, text) && redactions == Sum(Counts(rules, text))
    ensures Scrubs(rules, text, out, redactions)
    ensures tally == Tally(rules, text, map[])
  {
    hide Scrubbed, Counts, Sum, Applied, Tally, Bumped, Scrubs;
    ScrubbedScrubs(rules, text);
    out, redactions, tally := text, 0, map[];
    for i := 0 to |rules|
      invariant Scrubbed(rules[i..], out) == Scrubbed(rules, text)
      invariant redactions + Sum(Counts(rules[i..], out)) == Sum(Counts(rules, text))
      invariant Tally(rules[i..], out, tally) == Tally(rules, text, map[])
    {
      ScrubStep(rules[i..], out, tally);
      assert rules[i..][1..] == rules[i + 1..];
      var rule := rules[i];
      var count := |rule.find(out)|;
      AppliedIs(rule, out);
      if count > 0 {
        out := ReplaceFrom(out, 0, rule.find(out), rule.placeholder);
        redactions := redactions + count;
        tally := Bumped(tally, rule.placeholder, count);
      }
    }
    ScrubEnd(out, tally);
  }

  lemma AppliedIs(rule: Rule, text: string)
    requires Ordered(text, rule.find(text))
    ensures Applied(rule, text) == if |rule.find(text)| > 0 then ReplaceFrom(text, 0, rule.find(text), rule.placeholder) else text
  {
  }

  lemma ScrubEnd(text: string, m: Breakdown)
    ensures Scrubbed([], text) == text && Sum(Counts([], text)) == 0 && Tally([], text, m) == m
  {
  }

  lemma ScrubStep(rules: seq<Rule>, text: string, m: Breakdown)
    requires ValidRules(rules) && rules != []
    ensures var count, after := |rules[0].find(text)|, Applied(rules[0], text);
            && Scrubbed(rules, text) == Scrubbed(rules[1..], after)
            && Sum(Counts(rules, text)) == count + Sum(Counts(rules[1..], after))
            && Tally(rules, text, m) == Tally(rules[1..], after, if count > 0 then Bumped(m, rules[0].placeholder, count) else m)
  {
  }

  /** The breakdown gives each placeholder what its rules replaced, has entries only for those that fired,
      and adds up to the total. */
  lemma BreakdownAddsUp(rules: seq<Rule>, text: string)
    requires ValidRules(rules)
    ensures var tally, counts := Tally(rules, text, map[]), Counts(rules, text);
            && (forall p :: Lookup(tally, p) == CountFor(rules, counts, p))
            && (forall p :: p in tally ==> tally[p] > 0)
            && TotalsTo(tally, Sum(counts))
  {
    assert Lists([], map[]) && TotalOver(map[], []) == 0;
    TallyAddsUp(rules, text, map[], 0);
  }

  lemma {:induction false} TallyAddsUp(rules: seq<Rule>, text: string, m: Breakdown, n: nat)
    requires ValidRules(rules) && TotalsTo(m, n) && forall p :: p in m ==> m[p] > 0
    ensures var tally, counts := Tally(rules, text, m), Counts(rules, text);
            && (forall p :: Lookup(tally, p) == Lookup(m, p) + CountFor(rules, counts, p))
            && (forall p :: p in tally ==> tally[p] > 0)
            && TotalsTo(tally, n + Sum(counts))
    decreases |rules|
  {
    hide Scrubbed, Counts, Sum, Applied, Tally, CountFor, TotalsTo, Bumped, ValidRules, Lookup;
    if rules == [] {
      TallyEnd(text, m);
    } else {
      RulesTail(rules, text);
      var count, after := |rules[0].find(text)|, Applied(rules[0], text);
      ScrubStep(rules, text, m);
      CountForStep(rules, text);
      var m' := if count > 0 then Bumped(m, rules[0].placeholder, count) else m;
      if count > 0 { TotalBumped(m, n, rules[0].placeholder, count); }
      BumpedLookup(m, rules[0].placeholder, count);
      TallyAddsUp(rules[1..], after, m', n + count);
    }
  }

  lemma RulesTail(rules: seq<Rule>, text: string)
    requires ValidRules(rules) && rules != []
    ensures ValidRules(rules[1..]) && Ordered(text, rules[0].find(text))
  {
  }

  lemma TallyEnd(text: string, m: Breakdown)
    ensures Tally([], text, m) == m && Sum(Counts([], text)) == 0 && forall p :: CountFor([], Counts([], text), p) == 0
  {
  }

  lemma BumpedLookup(m: Breakdown, placeholder: string, count: nat)
    ensures forall p :: Lookup(Bumped(m, placeholder, count), p) == Lookup(m, p) + if p == placeholder then count else 0
    ensures (forall p :: p in m ==> m[p] > 0) && count > 0 ==>
              forall p :: p in Bumped(m, placeholder, count) ==> Bumped(m, placeholder, count)[p] > 0
  {
  }

  lemma CountForStep(rules: seq<Rule>, text: string)
    requires ValidRules(rules) && rules != []
    ensures forall p :: CountFor(rules, Counts(rules, text), p)
                     == (if rules[0].placeholder == p then |rules[0].find(text)| else 0)
                        + CountFor(rules[1..], Counts(rules[1..], Applied(rules[0], text)), p)
  {
    assert Counts(rules, text)[1..] == Counts(rules[1..], Applied(rules[0], text));
  }

  function TotalOver(m: Breakdown, keys: seq<string>): nat {
    if keys == [] then 0 else Lookup(m, keys[0]) + TotalOver(m, keys[1..])
  }

  predicate Lists(keys: seq<string>, m: Breakdown) {
    && (forall i, j :: 0 <= i < j < |keys| ==> keys[i] != keys[j])
    && (forall i :: 0 <= i < |keys| ==> keys[i] in m)
    && (forall k :: k in m ==> k in keys)
  }

  /** The entries add up to n. */
  ghost predicate TotalsTo(m: Breakdown, n: nat) {
    exists keys :: Lists(keys, m) && TotalOver(m, keys) == n
  }

  lemma TotalBumped(m: Breakdown, n: nat, placeholder: string, count: nat)
    requires TotalsTo(m, n)
    ensures TotalsTo(Bumped(m, placeholder, count), n + count)
  {
    var m' := Bumped(m, placeholder, count);
    var keys :| Lists(keys, m) && TotalOver(m, keys) == n;
    if placeholder in m {
      TotalChanged(m, placeholder, count, keys);
      assert Lists(keys, m');
    } else {
      TotalSame(m, placeholder, count, keys);
      var longer := [placeholder] + keys;
      assert Lists(longer, m');
      assert longer[1..] == keys && TotalOver(m', longer) == n + count;
    }
  }

  lemma {:induction false} TotalSame(m: Breakdown, placeholder: string, count: nat, keys: seq<string>)
    requires placeholder !in keys
    ensures TotalOver(Bumped(m, placeholder, count), keys) == TotalOver(m, keys)
  {
    if keys != [] {
      assert keys[0] in keys;
      TotalSame(m, placeholder, count, keys[1..]);
    }
  }

  lemma {:induction false} TotalChanged(m: Breakdown, placeholder: string, count: nat, keys: seq<string>)
    requires placeholder in keys && forall i, j :: 0 <= i < j < |keys| ==> keys[i] != keys[j]
    ensures TotalOver(Bumped(m, placeholder, count), keys) == TotalOver(m, keys) + count
  {
    if keys[0] == placeholder {
      TotalSame(m, placeholder, count, keys[1..]);
    } else {
      assert keys == [keys[0]] + keys[1..];
      TotalChanged(m, placeholder, count, keys[1..]);
    }
  }

  // ----- the guard -----

  function Matches(rule: Rule, text: string): bool {
    rule.find(text) != []
  }

  /** The kinds found in a text: in order of the first rule of each that matches, each once. */
  method PiiKinds(rules: seq<Rule>, text: string) returns (found: seq<string>)
    ensures forall k :: k in found <==> exists r :: r in rules && r.kind == k && Matches(r, text)
    ensures forall i, j :: 0 <= i < j < |found| ==> found[i] != found[j]
    ensures found != [] ==> FirstMatch(rules, text) < |rules| && found[0] == rules[FirstMatch(rules, text)].kind
    ensures found == [] ==> FirstMatch(rules, text) == |rules|
  {
    found := [];
    for i := 0 to |rules|
      invariant forall k :: k in found <==> exists r :: r in rules[..i] && r.kind == k && Matches(r, text)
      invariant forall a, b :: 0 <= a < b < |found| ==> found[a] != found[b]
      invariant found == [] ==> FirstMatch(rules, text) >= i
      invariant found != [] ==> FirstMatch(rules, text) < |rules| && found[0] == rules[FirstMatch(rules, text)].kind
    {
      FirstMatchIs(rules, text);
      assert rules[..i + 1] == rules[..i] + [rules[i]];
      if rules[i].kind !in found && Matches(rules[i], text) {
        found := found + [rules[i].kind];
      }
    }
    assert rules[..|rules|] == rules;
  }

  /** The first rule that matches the text, or the number of rules. */
  function FirstMatch(rules: seq<Rule>, text: string): (n: nat)
    ensures n <= |rules|
  {
    if rules == [] then 0 else if Matches(rules[0], text) then 0 else 1 + FirstMatch(rules[1..], text)
  }

  lemma {:induction false} FirstMatchIs(rules: seq<Rule>, text: string)
    ensures var n := FirstMatch(rules, text);
            && (n < |rules| ==> Matches(rules[n], text))
            && forall i :: 0 <= i < n ==> !Matches(rules[i], text)
  {
    if rules != [] {
      FirstMatchIs(rules[1..], text);
    }
  }

  /** The guard and the scrubber agree. Up to the first rule that matches the text as given, the scrubber
      replaces nothing; that rule is the first to fire in it; and if there is none it changes nothing. So
      the guard reports no kind iff the scrubber makes no redaction, and its first kind is that of the
      first rule to fire, though later rules see a text the scrubber has already changed. */
  lemma {:induction false} GuardAgrees(rules: seq<Rule>, text: string)
    requires ValidRules(rules)
    ensures var n, counts := FirstMatch(rules, text), Counts(rules, text);
            && (forall i :: 0 <= i < n ==> counts[i] == 0)
            && (n < |rules| ==> counts[n] > 0)
            && (Sum(counts) == 0 <==> n == |rules|)
            && (n == |rules| ==> Scrubbed(rules, text) == text)
  {
    if rules != [] {
      if !Matches(rules[0], text) {
        GuardAgrees(rules[1..], text);
      }
    }
  }
}
