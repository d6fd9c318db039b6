/** The pre-spend cache: what the server last said about each scope, and the verdict taken from it.
    Times are milliseconds of the clock the caller passes in. */
module Admission {
  import opened Wrappers
  import ShedLottery

  type Bytes = seq<bv8>

  /** The three clients differ in two details, each stated where it matters. */
  datatype Client = Rust | Python | TypeScript

  datatype Scope = Scope(kind: string, value: string)

  datatype View = View(
    accepted: bool,
    rateLimited: bool,
    usageRatio: Option<real>,
    shedFraction: Option<real>,
    retryAfterSecs: Option<nat>,
    scope: Option<Scope>,
    rule: Option<Bytes>)

  datatype Entry = Entry(
    usageRatio: Option<real>,
    shedFraction: Option<real>,
    retryUntil: Option<int>,
    rule: Option<Bytes>,
    refreshedAt: int)

  datatype Verdict =
    | Admitted(stale: bool)
    | RetryAfter(secs: nat)
    | AtCap
    | Shed

  const PROJECT_WIDE: string := ""

  function ScopeKey(scope: Option<Scope>): string {
    match scope
    case Some(s) => s.kind + "=" + s.value
    case None => PROJECT_WIDE
  }

  function NameKey(name: string): string {
    "name=" + name
  }

  // ----- the cache -----

  function Observed(views: map<string, Entry>, view: View, now: int): map<string, Entry> {
    var key := ScopeKey(view.scope);
    var prior := if key in views then views[key].retryUntil else None;
    var until :=
      if view.accepted then None
      else if view.rateLimited && view.retryAfterSecs.Some? then Some(now + view.retryAfterSecs.value * 1000)
      else prior;
    views[key := Entry(view.usageRatio, view.shedFraction, until, view.rule, now)]
  }

  /** Python and TypeScript take an empty name for no name; Rust looks its view up. */
  function Consulted(client: Client, views: map<string, Entry>, name: Option<string>): string {
    if name.Some? && (client.Rust? || name.value != "") && NameKey(name.value) in views then NameKey(name.value)
    else PROJECT_WIDE
  }

  function CeilingSeconds(ms: int): nat
    requires ms > 0
  {
    (ms + 999) / 1000
  }

  function Judge(entry: Entry, ttl: int, event: Option<Bytes>, now: int): Verdict {
    if entry.retryUntil.Some? && now < entry.retryUntil.value then RetryAfter(CeilingSeconds(entry.retryUntil.value - now))
    else if now - entry.refreshedAt > ttl then Admitted(true)
    else if entry.usageRatio.Some? && entry.usageRatio.value >= 1.0 then AtCap
    else if LotteryDraws(entry.rule, entry.shedFraction, event) then Shed
    else Admitted(false)
  }

  predicate LotteryDraws(rule: Option<Bytes>, shed: Option<real>, event: Option<Bytes>) {
    && shed.Some? && event.Some? && shed.value > 0.0
    && ShedLottery.Ticket(if rule.Some? then rule.value else [], event.value) < shed.value
  }

  function Decide(client: Client, views: map<string, Entry>, ttl: int,
                  name: Option<string>, event: Option<Bytes>, now: int): Verdict {
    var key := Consulted(client, views, name);
    if key in views then Judge(views[key], ttl, event, now) else Admitted(false)
  }

  class AdmissionCache {
    const ttl: int
    var views: map<string, Entry>
    ghost var history: seq<Action>

    /** The views are what the history left. */
    ghost predicate Valid()
      reads this
    {
      views == Replay(history)
    }

    constructor (ttl: int)
      ensures Valid() && this.ttl == ttl && history == []
    {
      this.ttl := ttl;
      views := map[];
      history := [];
    }

    /** Fold one parsed ingest response into the cache, as the Python client does. */
    method Observe(view: View, now: int)
      requires Valid()
      modifies this
      ensures Valid() && history == old(history) + [Action.Observe(view, now)]
    {
      history := history + [Action.Observe(view, now)];
      var key := ScopeKey(view.scope);
      var until: Option<int> := None;
      if !view.accepted {
        if view.rateLimited && view.retryAfterSecs.Some? {
          until := Some(now + view.retryAfterSecs.value * 1000);
        } else if key in views {
          until := views[key].retryUntil;
        }
      }
      views := views[key := Entry(view.usageRatio, view.shedFraction, until, view.rule, now)];
    }

    /** As the Rust client does, which asks for the seconds only of a 429. */
    method ObserveRust(view: View, now: int)
      requires Valid()
      modifies this
      ensures Valid() && history == old(history) + [Action.Observe(view, now)]
    {
      history := history + [Action.Observe(view, now)];
      var key := ScopeKey(view.scope);
      var prior := Get(views, key);
      var until :=
        if view.accepted then None
        else if view.rateLimited then
          match view.retryAfterSecs
          case Some(s) => Some(now + s * 1000)
          case None => if prior.Some? then prior.value.retryUntil else None
        else if prior.Some? then prior.value.retryUntil
        else None;
      views := views[key := Entry(view.usageRatio, view.shedFraction, until, view.rule, now)];
    }

    /** As the TypeScript client does, with an optional chain over the prior entry. */
    method ObserveTypeScript(view: View, now: int)
      requires Valid()
      modifies this
      ensures Valid() && history == old(history) + [Action.Observe(view, now)]
    {
      history := history + [Action.Observe(view, now)];
      var key := ScopeKey(view.scope);
      var until: Option<int>;
      if view.accepted {
        until := None;
      } else if view.rateLimited && view.retryAfterSecs != None {
        until := Some(now + view.retryAfterSecs.value * 1000);
      } else {
        var chained := match Get(views, key) case Some(prior) => prior.retryUntil case None => None;
        until := Coalesce(chained, None);
      }
      views := views[key := Entry(view.usageRatio, view.shedFraction, until, view.rule, now)];
    }

    method Clear()
      requires Valid()
      modifies this
      ensures Valid() && history == old(history) + [Action.Clear]
    {
      history := history + [Action.Clear];
      views := map[];
    }

    /** Decide one prospective call, from the views and the time given alone. */
    function Admit(client: Client, name: Option<string>, event: Option<Bytes>, now: int): Admit
      reads this
    {
      match client
      case Rust => RustAdmit(views, ttl, name, event, now)
      case Python => PythonAdmit(views, ttl, name, event, now)
      case TypeScript => TypeScriptAdmit(views, ttl, name, event, now)
    }
  }

  // ----- the clients' own words -----

  datatype Reason = RetryAfterReason | AtCapReason | ShedReason

  datatype Admit = Admit(ok: bool, reason: Option<Reason>, retryAfterSecs: Option<int>, stale: bool)

  function Get(views: map<string, Entry>, key: string): Option<Entry> {
    if key in views then Some(views[key]) else None
  }

  /** `??` */
  function Coalesce<T>(a: Option<T>, b: Option<T>): Option<T> {
    if a != None then a else b
  }

  /** `and_then` */
  function AndThen<A, B>(a: Option<A>, f: A -> Option<B>): Option<B> {
    match a
    case Some(v) => f(v)
    case None => None
  }

  /** `or_else` */
  function OrElse<T>(a: Option<T>, b: Option<T>): Option<T> {
    match a
    case Some(_) => a
    case None => b
  }

  /** The clients divide by 1000 and round up. */
  function Ceiling(x: real): int {
    -((-x).Floor)
  }

  function RustAdmit(views: map<string, Entry>, ttl: int, name: Option<string>, event: Option<Bytes>, now: int): Admit {
    match OrElse(AndThen(name, n => Get(views, NameKey(n))), Get(views, PROJECT_WIDE))
    case None => Admit(true, None, None, false)
    case Some(entry) => RustJudge(entry, ttl, event, now)
  }

  function RustJudge(entry: Entry, ttl: int, event: Option<Bytes>, now: int): Admit {
    match entry.retryUntil
    case Some(until) =>
      if now < until then Admit(false, Some(RetryAfterReason), Some(Ceiling((until - now) as real / 1000.0)), false)
      else RustEvidence(entry, ttl, event, now)
    case None => RustEvidence(entry, ttl, event, now)
  }

  function RustEvidence(entry: Entry, ttl: int, event: Option<Bytes>, now: int): Admit {
    if now - entry.refreshedAt > ttl then Admit(true, None, None, true)
    else if AndThen(entry.usageRatio, r => Some(r >= 1.0)) == Some(true) then Admit(false, Some(AtCapReason), None, false)
    else
      match (entry.shedFraction, event)
      case (Some(f), Some(id)) =>
        var rule := OrElse(entry.rule, Some([])).value;
        if f > 0.0 && ShedLottery.Ticket(rule, id) < f then Admit(false, Some(ShedReason), None, false)
        else Admit(true, None, None, false)
      case _ => Admit(true, None, None, false)
  }

  /** `x and ...`: None and the empty string are false, and so is zero. */
  predicate TruthyName(name: Option<string>) {
    name.Some? && name.value != ""
  }

  predicate TruthyNumber(x: Option<real>) {
    x.Some? && x.value != 0.0
  }

  function PythonAdmit(views: map<string, Entry>, ttl: int, name: Option<string>, event: Option<Bytes>, now: int): Admit {
    var own := if TruthyName(name) then Get(views, NameKey(name.value)) else None;
    var found := if own == None then Get(views, PROJECT_WIDE) else own;
    if found == None then Admit(true, None, None, false) else PythonJudge(found.value, ttl, event, now)
  }

  function PythonJudge(entry: Entry, ttl: int, event: Option<Bytes>, now: int): Admit {
    if entry.retryUntil != None && now < entry.retryUntil.value then
      Admit(false, Some(RetryAfterReason), Some(Ceiling((entry.retryUntil.value - now) as real / 1000.0)), false)
    else if now - entry.refreshedAt > ttl then Admit(true, None, None, true)
    else if entry.usageRatio != None && entry.usageRatio.value >= 1.0 then Admit(false, Some(AtCapReason), None, false)
    else if
      && TruthyNumber(entry.shedFraction)
      && entry.shedFraction.value > 0.0
      && event != None
      && ShedLottery.Ticket(if entry.rule.Some? && entry.rule.value != [] then entry.rule.value else [], event.value)
         < entry.shedFraction.value
    then Admit(false, Some(ShedReason), None, false)
    else Admit(true, None, None, false)
  }

  function TypeScriptAdmit(views: map<string, Entry>, ttl: int, name: Option<string>, event: Option<Bytes>, now: int): Admit {
    match Coalesce(if TruthyName(name) then Get(views, NameKey(name.value)) else None, Get(views, PROJECT_WIDE))
    case None => Admit(true, None, None, false)
    case Some(entry) => TypeScriptJudge(entry, ttl, event, now)
  }

  function TypeScriptJudge(entry: Entry, ttl: int, event: Option<Bytes>, now: int): Admit {
    if entry.retryUntil != None && now < entry.retryUntil.value then
      Admit(false, Some(RetryAfterReason), Some(Ceiling((entry.retryUntil.value - now) as real / 1000.0)), false)
    else if now - entry.refreshedAt > ttl then Admit(true, None, None, true)
    else if entry.usageRatio != None && entry.usageRatio.value >= 1.0 then Admit(false, Some(AtCapReason), None, false)
    else if
      && entry.shedFraction != None
      && entry.shedFraction.value > 0.0
      && event != None
      && ShedLottery.Ticket(Coalesce(entry.rule, Some([])).value, event.value) < entry.shedFraction.value
    then Admit(false, Some(ShedReason), None, false)
    else Admit(true, None, None, false)
  }

  /** A verdict as the clients spell it. */
  function Spelled(v: Verdict): Admit {
    match v
    case Admitted(stale) => Admit(true, None, None, stale)
    case RetryAfter(secs) => Admit(false, Some(RetryAfterReason), Some(secs), false)
    case AtCap => Admit(false, Some(AtCapReason), None, false)
    case Shed => Admit(false, Some(ShedReason), None, false)
  }

  lemma CeilingIsExact(ms: int)
    requires ms > 0
    ensures Ceiling(ms as real / 1000.0) == CeilingSeconds(ms)
  {
    var k := CeilingSeconds(ms);
    assert (k - 1) * 1000 < ms <= k * 1000;
    var x := -(ms as real / 1000.0);
    assert (-k) as real <= x < (-k + 1) as real;
  }

  // ----- the same verdict from the whole history -----

  datatype Action = Observe(view: View, at: int) | Clear

  function Stepped(views: map<string, Entry>, a: Action): map<string, Entry> {
    match a
    case Observe(view, at) => Observed(views, view, at)
    case Clear => map[]
  }

  function Replay(history: seq<Action>): map<string, Entry> {
    if history == [] then map[] else Stepped(Replay(history[..|history| - 1]), history[|history| - 1])
  }

  predicate About(a: Action, key: string) {
    a.Observe? && ScopeKey(a.view.scope) == key
  }

  /** Observation i is the last word on its scope. */
  predicate LastWord(history: seq<Action>, key: string, i: nat) {
    && i < |history| && About(history[i], key)
    && forall j :: i < j < |history| ==> !history[j].Clear? && !About(history[j], key)
  }

  /** Observation i is a 429 with a wait that nothing since has ended: no later 2xx for the scope, no
      later 429 with a wait of its own, no clear. */
  predicate Arms(a: Action) {
    a.Observe? && !a.view.accepted && a.view.rateLimited && a.view.retryAfterSecs.Some?
  }

  predicate LastArmed(history: seq<Action>, key: string, i: nat) {
    && i < |history| && About(history[i], key) && Arms(history[i])
    && forall j :: i < j < |history| ==>
         !history[j].Clear? && !(About(history[j], key) && (history[j].view.accepted || Arms(history[j])))
  }

  function Deadline(a: Action): int
    requires Arms(a)
  {
    a.at + a.view.retryAfterSecs.value * 1000
  }

  /** The cache is a summary of its history: each scope holds its last observation and the deadline of
      its last wait still standing. */
  ghost predicate Summarizes(views: map<string, Entry>, history: seq<Action>, key: string) {
    && (key in views <==> exists i: nat :: LastWord(history, key, i))
    && (forall i: nat :: LastWord(history, key, i) && key in views ==>
          var v, e := history[i].view, views[key];
          && e.usageRatio == v.usageRatio && e.shedFraction == v.shedFraction
          && e.rule == v.rule && e.refreshedAt == history[i].at)
    && (key in views ==> (views[key].retryUntil.Some? <==> exists i: nat :: LastArmed(history, key, i)))
    && (key in views ==> forall i: nat :: LastArmed(history, key, i) ==> views[key].retryUntil == Some(Deadline(history[i])))
  }

  lemma {:induction false} LastWordStep(init: seq<Action>, a: Action, key: string, i: nat)
    ensures LastWord(init + [a], key, i)
       <==> (if i == |init| then About(a, key) else LastWord(init, key, i) && !a.Clear? && !About(a, key))
  {
    var h := init + [a];
    assert h[|init|] == a;
    assert forall j :: 0 <= j < |init| ==> h[j] == init[j];
  }

  lemma {:induction false} LastArmedStep(init: seq<Action>, a: Action, key: string, i: nat)
    ensures LastArmed(init + [a], key, i)
       <==> (if i == |init| then About(a, key) && Arms(a)
             else LastArmed(init, key, i) && !a.Clear? && !(About(a, key) && (a.view.accepted || Arms(a))))
  {
    var h := init + [a];
    assert h[|init|] == a;
    assert forall j :: 0 <= j < |init| ==> h[j] == init[j];
  }

  lemma {:induction false} ReplaySummarizes(history: seq<Action>, key: string)
    ensures Summarizes(Replay(history), history, key)
    ensures forall i: nat :: LastArmed(history, key, i) ==> key in Replay(history)
  {
    hide LastWord, LastArmed, Summarizes, Observed;
    if history == [] {
      NothingYet(key);
    } else {
      var init, a := history[..|history| - 1], history[|history| - 1];
      assert init + [a] == history;
      ReplaySummarizes(init, key);
      SummaryStep(Replay(init), init, a, key);
    }
  }

  lemma SummaryStep(views: map<string, Entry>, init: seq<Action>, a: Action, key: string)
    requires Summarizes(views, init, key)
    requires forall i: nat :: LastArmed(init, key, i) ==> key in views
    ensures Summarizes(Stepped(views, a), init + [a], key)
    ensures forall i: nat :: LastArmed(init + [a], key, i) ==> key in Stepped(views, a)
  {
    hide LastWord, LastArmed;
    var n, after := |init|, Stepped(views, a);
    assert (init + [a])[n] == a;
    assert forall i: nat :: i < n ==> (init + [a])[i] == init[i];
    forall i: nat
      ensures LastWord(init + [a], key, i)
         <==> (if i == n then About(a, key) else LastWord(init, key, i) && !a.Clear? && !About(a, key))
      ensures LastArmed(init + [a], key, i)
         <==> (if i == n then About(a, key) && Arms(a)
               else LastArmed(init, key, i) && !a.Clear? && !(About(a, key) && (a.view.accepted || Arms(a))))
      ensures LastWord(init + [a], key, i) || LastArmed(init + [a], key, i) ==> i <= n
      ensures LastWord(init, key, i) || LastArmed(init, key, i) ==> i < n
    {
      LastWordStep(init, a, key, i);
      LastArmedStep(init, a, key, i);
      InHistory(init + [a], key, i);
      InHistory(init, key, i);
    }
    if About(a, key) {
      assert LastWord(init + [a], key, n);
      assert Arms(a) ==> LastArmed(init + [a], key, n);
      if !a.view.accepted && !Arms(a) && key in views && views[key].retryUntil.Some? {
        var i: nat :| LastArmed(init, key, i);
        assert LastArmed(init + [a], key, i);
      }
    } else if a.Observe? {
      assert key in after <==> key in views;
      assert key in views ==> after[key] == views[key];
      if key in views {
        var i: nat :| LastWord(init, key, i);
        assert LastWord(init + [a], key, i);
        if views[key].retryUntil.Some? {
          var j: nat :| LastArmed(init, key, j);
          assert LastArmed(init + [a], key, j);
        }
      }
    }
  }

  lemma InHistory(history: seq<Action>, key: string, i: nat)
    ensures LastWord(history, key, i) || LastArmed(history, key, i) ==> i < |history|
  {
  }

  lemma NothingYet(key: string)
    ensures Summarizes(map[], [], key)
    ensures forall i: nat :: !LastWord([], key, i) && !LastArmed([], key, i)
  {
  }

  /** The scope a call is answered from: its name's own, if the server has spoken of it since the last
      clear, and otherwise the project's. */
  ghost function ScopeOf(client: Client, history: seq<Action>, name: Option<string>): string {
    if name.Some? && (client.Rust? || name.value != "") && exists i: nat :: LastWord(history, NameKey(name.value), i)
    then NameKey(name.value) else PROJECT_WIDE
  }

  /** A wait the server asked for is still running. */
  ghost predicate Waiting(history: seq<Action>, key: string, now: int) {
    exists i: nat :: LastArmed(history, key, i) && now < Deadline(history[i])
  }

  /** The last word on the scope says this, and it is still within its time to live. */
  ghost predicate Current(history: seq<Action>, key: string, ttl: int, now: int, i: nat) {
    LastWord(history, key, i) && now - history[i].at <= ttl
  }

  /** The verdict, said from the whole history: which waits stand, what the last word is and how old. The
      five cases exclude one another, so this is the verdict exactly. */
  lemma VerdictFromHistory(client: Client, history: seq<Action>, ttl: int, name: Option<string>, event: Option<Bytes>, now: int)
    ensures var v := Decide(client, Replay(history), ttl, name, event, now);
            var key := ScopeOf(client, history, name);
            && (v.RetryAfter? <==> Waiting(history, key, now))
            && (forall i: nat :: v.RetryAfter? && LastArmed(history, key, i) ==>
                  (v.secs - 1) * 1000 < Deadline(history[i]) - now <= v.secs * 1000)
            && (v == Admitted(true) <==>
                  !Waiting(history, key, now) && exists i: nat :: LastWord(history, key, i) && now - history[i].at > ttl)
            && (v == AtCap <==>
                  !Waiting(history, key, now) && exists i: nat :: Current(history, key, ttl, now, i) && OverCap(history[i].view))
            && (v == Shed <==>
                  !Waiting(history, key, now) && exists i: nat :: Current(history, key, ttl, now, i) && DrawnToShed(history[i].view, event))
  {
    hide LastWord, LastArmed, Arms, ShedLottery.Ticket;
    var views := Replay(history);
    var key := Consulted(client, views, name);
    if name.Some? { ReplaySummarizes(history, NameKey(name.value)); }
    ReplaySummarizes(history, PROJECT_WIDE);
    assert key == ScopeOf(client, history, name);
    if key in views {
      var i: nat :| LastWord(history, key, i);
    } else {
    }
  }

  /** The event's ticket under the view's rule, or under none, falls in the share that is shed. */
  predicate DrawnToShed(v: View, event: Option<Bytes>) {
    && !OverCap(v)
    && event.Some? && v.shedFraction.Some? && v.shedFraction.value > 0.0
    && match v.rule
       case None => ShedLottery.Ticket([], event.value) < v.shedFraction.value
       case Some(rule) => ShedLottery.Ticket(rule, event.value) < v.shedFraction.value
  }

  predicate OverCap(v: View) {
    v.usageRatio.Some? && v.usageRatio.value >= 1.0
  }

  // ----- scopes do not leak -----

  /** What the scope's key says about it: a kind that looks like a name's key shares the key of a name. */
  lemma ScopeKeyIsName(s: Scope, name: string)
    ensures ScopeKey(Some(s)) == NameKey(name) <==>
              || s == Scope("name", name)
              || exists rest :: s.kind == NameKey(rest) && name == rest + "=" + s.value
  {
    var key := ScopeKey(Some(s));
    if key == NameKey(name) {
      assert key[|s.kind|] == '=';
      assert key[..5] == "name=" && key[5..] == name;
      assert key[..|s.kind|] == s.kind && key[|s.kind| + 1..] == s.value;
      if |s.kind| < 5 {
        assert "name="[|s.kind|] == '=' && |s.kind| == 4;
        assert s.kind == key[..5][..4] == "name";
        assert key[5..] == s.value;
      } else {
        assert s.kind[..5] == key[..|s.kind|][..5] == "name=";
        var rest := s.kind[5..];
        assert s.kind == "name=" + rest;
        assert key[5..] == rest + "=" + s.value;
      }
    }
    if s == Scope("name", name) {
      assert "name" + "=" == "name=";
    }
    if exists rest :: s.kind == NameKey(rest) && name == rest + "=" + s.value {
      var rest :| s.kind == NameKey(rest) && name == rest + "=" + s.value;
      assert key == "name=" + (rest + "=" + s.value);
    }
  }

  /** The history with only what is said project-wide or about this name. */
  function SaidAbout(history: seq<Action>, name: Option<string>): seq<Action> {
    if history == [] then []
    else
      var rest, a := SaidAbout(history[..|history| - 1], name), history[|history| - 1];
      if a.Clear? || a.view.scope == None || (name.Some? && a.view.scope == Some(Scope("name", name.value)))
      then rest + [a] else rest
  }

  /** No kind looks like a name's key. */
  ghost predicate PlainKinds(history: seq<Action>) {
    forall a :: a in history && a.Observe? && a.view.scope.Some? ==> PlainKind(a.view.scope.value.kind)
  }

  ghost predicate PlainKind(kind: string) {
    forall rest :: kind != NameKey(rest)
  }

  lemma {:induction false} SameViews(history: seq<Action>, name: Option<string>, key: string)
    requires PlainKinds(history) && (key == PROJECT_WIDE || (name.Some? && key == NameKey(name.value)))
    ensures var all, few := Replay(history), Replay(SaidAbout(history, name));
            (key in all <==> key in few) && (key in all ==> all[key] == few[key])
  {
    hide Stepped, NameKey, ScopeKey, PlainKind;
    if history != [] {
      var init, a := history[..|history| - 1], history[|history| - 1];
      SameViews(init, name, key);
      var rest := SaidAbout(init, name);
      assert (rest + [a])[..|rest|] == rest;
      assert a in history;
      OwnScopeOnly(Replay(init), Replay(rest), a, name, key);
    }
  }

  lemma OwnScopeOnly(all: map<string, Entry>, few: map<string, Entry>, a: Action, name: Option<string>, key: string)
    requires (key in all <==> key in few) && (key in all ==> all[key] == few[key])
    requires key == PROJECT_WIDE || (name.Some? && key == NameKey(name.value))
    requires a.Observe? && a.view.scope.Some? ==> PlainKind(a.view.scope.value.kind)
    ensures var all', few' := Stepped(all, a), Stepped(few, a);
            (key in all' <==> key in few') && (key in all' ==> all'[key] == few'[key])
    ensures a.Observe? && a.view.scope.Some? && !(name.Some? && a.view.scope == Some(Scope("name", name.value))) ==>
              var all' := Stepped(all, a); (key in all' <==> key in all) && (key in all' ==> all'[key] == all[key])
  {
    if a.Observe? && a.view.scope.Some? && name.Some? {
      ScopeKeyIsName(a.view.scope.value, name.value);
    }
  }

  /** Views scoped to another name or to another kind never change a verdict. */
  lemma OtherScopesIgnored(client: Client, history: seq<Action>, ttl: int, name: Option<string>, event: Option<Bytes>, now: int)
    requires PlainKinds(history)
    ensures Decide(client, Replay(history), ttl, name, event, now)
         == Decide(client, Replay(SaidAbout(history, name)), ttl, name, event, now)
  {
    hide Judge;
    SameViews(history, name, PROJECT_WIDE);
    if name.Some? { SameViews(history, name, NameKey(name.value)); }
  }

  /** Every other kind can: any scope of such a kind at its cap refuses calls of a name nobody spoke of. */
  lemma OddKindLeaks(client: Client, kind: string, rest: string, value: string, ttl: int, event: Option<Bytes>, now: int)
    requires kind == NameKey(rest) && ttl >= 0
    ensures var view := View(true, false, Some(1.0), None, None, Some(Scope(kind, value)), None);
            var name := Some(rest + "=" + value);
            && Decide(client, Replay([Observe(view, now)]), ttl, name, event, now) == AtCap
            && Decide(client, Replay(SaidAbout([Observe(view, now)], name)), ttl, name, event, now) == Admitted(false)
  {
    hide ScopeKey, NameKey, LotteryDraws, Replay, SaidAbout;
    var s, name := Scope(kind, value), rest + "=" + value;
    var view := View(true, false, Some(1.0), None, None, Some(s), None);
    ScopeKeyIsName(s, name);
    AloneReplayed(Observe(view, now), Some(name));
    assert name != "";
  }

  lemma AloneReplayed(a: Action, name: Option<string>)
    ensures Replay([a]) == Stepped(map[], a)
    ensures a.Observe? && a.view.scope.Some? && (name.Some? ==> a.view.scope.value != Scope("name", name.value)) ==>
              Replay(SaidAbout([a], name)) == map[]
  {
    assert [a][..0] == [];
  }

  // ----- the clients -----

  /** Each client's own code gives the verdict of the shared rule, with the name taken the client's way. So
      Python and TypeScript always agree, and Rust with them but for an empty name. */
  lemma ClientsAgree(views: map<string, Entry>, ttl: int, name: Option<string>, event: Option<Bytes>, now: int)
    ensures RustAdmit(views, ttl, name, event, now) == Spelled(Decide(Rust, views, ttl, name, event, now))
    ensures PythonAdmit(views, ttl, name, event, now) == Spelled(Decide(Python, views, ttl, name, event, now))
    ensures TypeScriptAdmit(views, ttl, name, event, now) == PythonAdmit(views, ttl, name, event, now)
    ensures name != Some("") ==> RustAdmit(views, ttl, name, event, now) == PythonAdmit(views, ttl, name, event, now)
  {
    hide RustJudge, PythonJudge, TypeScriptJudge, Judge;
    forall key | key in views
      ensures RustJudge(views[key], ttl, event, now) == Spelled(Judge(views[key], ttl, event, now))
      ensures PythonJudge(views[key], ttl, event, now) == Spelled(Judge(views[key], ttl, event, now))
      ensures TypeScriptJudge(views[key], ttl, event, now) == Spelled(Judge(views[key], ttl, event, now))
    {
      RustJudges(views[key], ttl, event, now);
      PythonJudges(views[key], ttl, event, now);
      TypeScriptJudges(views[key], ttl, event, now);
    }
  }

  lemma RustJudges(entry: Entry, ttl: int, event: Option<Bytes>, now: int)
    ensures RustJudge(entry, ttl, event, now) == Spelled(Judge(entry, ttl, event, now))
  {
    hide ShedLottery.Ticket, Ceiling, CeilingSeconds;
    if entry.retryUntil.Some? && now < entry.retryUntil.value { CeilingIsExact(entry.retryUntil.value - now); }
  }

  lemma PythonJudges(entry: Entry, ttl: int, event: Option<Bytes>, now: int)
    ensures PythonJudge(entry, ttl, event, now) == Spelled(Judge(entry, ttl, event, now))
  {
    hide ShedLottery.Ticket, Ceiling, CeilingSeconds;
    if entry.retryUntil.Some? && now < entry.retryUntil.value { CeilingIsExact(entry.retryUntil.value - now); }
  }

  lemma TypeScriptJudges(entry: Entry, ttl: int, event: Option<Bytes>, now: int)
    ensures TypeScriptJudge(entry, ttl, event, now) == Spelled(Judge(entry, ttl, event, now))
  {
    hide ShedLottery.Ticket, Ceiling, CeilingSeconds;
    if entry.retryUntil.Some? && now < entry.retryUntil.value { CeilingIsExact(entry.retryUntil.value - now); }
  }

  /** What a call answered from this scope alone would be told. */
  function VerdictOf(views: map<string, Entry>, key: string, ttl: int, event: Option<Bytes>, now: int): Verdict {
    if key in views then Judge(views[key], ttl, event, now) else Admitted(false)
  }

  /** On any history, an empty name divides Rust from the others exactly when the server has spoken of the
      empty name since the last clear and that scope's verdict is not the project's. */
  lemma EmptyNameDiffers(history: seq<Action>, ttl: int, event: Option<Bytes>, now: int)
    ensures var views := Replay(history);
            RustAdmit(views, ttl, Some(""), event, now) != PythonAdmit(views, ttl, Some(""), event, now) <==>
              && (exists i: nat :: LastWord(history, NameKey(""), i))
              && VerdictOf(views, NameKey(""), ttl, event, now) != VerdictOf(views, PROJECT_WIDE, ttl, event, now)
  {
    hide RustAdmit, PythonAdmit, TypeScriptAdmit, Judge, LastWord, LastArmed;
    ClientsAgree(Replay(history), ttl, Some(""), event, now);
    ReplaySummarizes(history, NameKey(""));
  }

  /** As when that scope was last seen at its cap and nothing else was ever said. */
  lemma EmptyNameCapped(ttl: int, event: Option<Bytes>, now: int)
    requires ttl >= 0
    ensures var history := [Observe(View(true, false, Some(1.0), None, None, Some(Scope("name", "")), None), now)];
            && Decide(Rust, Replay(history), ttl, Some(""), event, now) == AtCap
            && Decide(Python, Replay(history), ttl, Some(""), event, now) == Admitted(false)
  {
    var history := [Observe(View(true, false, Some(1.0), None, None, Some(Scope("name", "")), None), now)];
    assert history[..|history| - 1] == [];
    ScopeKeyIsName(Scope("name", ""), "");
  }

  // ----- collapsing the status list -----

  /** One rule's status. `scope` is the one entry of its scope object, with its value if that is a
      string. */
  datatype Status = Status(ratio: Option<real>, shed: Option<real>, scope: Option<(string, Option<string>)>, rule: Option<Bytes>)

  /** The first status with the greatest ratio. */
  predicate IsWorst(statuses: seq<Status>, i: nat) {
    && i < |statuses| && statuses[i].ratio.Some?
    && (forall j :: 0 <= j < |statuses| && statuses[j].ratio.Some? ==> statuses[j].ratio.value <= statuses[i].ratio.value)
    && (forall j :: 0 <= j < i && statuses[j].ratio.Some? ==> statuses[j].ratio.value < statuses[i].ratio.value)
  }

  predicate Sheds(s: Status) {
    s.shed.Some? && s.shed.value > 0.0
  }

  predicate IsStrongestShed(statuses: seq<Status>, shed: Option<real>) {
    match shed
    case None => forall s :: s in statuses ==> !Sheds(s)
    case Some(f) => (exists s :: s in statuses && Sheds(s) && s.shed.value == f)
                    && forall s :: s in statuses && Sheds(s) ==> s.shed.value <= f
  }

  /** TypeScript takes an empty kind for none. */
  function Binding(client: Client, s: Status): Option<Scope> {
    match s.scope
    case Some((kind, Some(value))) => if client.TypeScript? && kind == "" then None else Some(Scope(kind, value))
    case _ => None
  }

  predicate NoRatio(statuses: seq<Status>) {
    forall s :: s in statuses ==> s.ratio.None?
  }

  method ViewFromStatuses(client: Client, statuses: seq<Status>) returns (view: Option<View>)
    // Rust has no view without a ratio; the others have one for any list but the empty one.
    ensures view.None? <==> (if client.Rust? then NoRatio(statuses) else statuses == [])
    ensures view.Some? ==> IsStrongestShed(statuses, view.value.shedFraction)
    ensures view.Some? && NoRatio(statuses) ==>
              view.value.usageRatio == None && view.value.scope == None && view.value.rule == None
    ensures view.Some? ==> forall i: nat :: IsWorst(statuses, i) ==>
              && view.value.usageRatio == statuses[i].ratio
              && view.value.scope == (match statuses[i].scope
                                      case Some((kind, Some(value))) =>
                                        if kind == "" && client.TypeScript? then None else Some(Scope(kind, value))
                                      case _ => None)
              && view.value.rule == statuses[i].rule
    ensures !NoRatio(statuses) ==> exists i: nat :: IsWorst(statuses, i)
    ensures view.Some? ==> view.value.accepted && !view.value.rateLimited && view.value.retryAfterSecs == None
  {
    if !client.Rust? && statuses == [] {
      return None;
    }
    var worst: Option<nat> := None;
    var ratio: Option<real> := None;
    var shed: Option<real> := None;
    for i := 0 to |statuses|
      invariant ratio.Some? <==> worst.Some?
      invariant worst.None? ==> NoRatio(statuses[..i])
      invariant worst.Some? ==> IsWorst(statuses[..i], worst.value) && ratio == statuses[worst.value].ratio
      invariant IsStrongestShed(statuses[..i], shed)
    {
      var s := statuses[i];
      ghost var seen := statuses[..i + 1];
      assert seen == statuses[..i] + [s];
      if s.ratio.Some? && (ratio.None? || s.ratio.value > ratio.value) {
        if worst.Some? {
          assert forall j :: 0 <= j < i ==> seen[j] == statuses[..i][j];
        } else {
          assert forall j :: 0 <= j < i ==> statuses[..i][j] in statuses[..i];
        }
        ratio := s.ratio;
        worst := Some(i);
      }
      if Sheds(s) && (shed.None? || s.shed.value > shed.value) {
        shed := s.shed;
      }
    }
    assert statuses[..|statuses|] == statuses;
    WorstUnique(statuses);
    if worst.None? {
      return if client.Rust? then None else Some(View(true, false, None, shed, None, None, None));
    }
    var w := statuses[worst.value];
    assert w in statuses;
    return Some(View(true, false, ratio, shed, None, Binding(client, w), w.rule));
  }

  lemma WorstUnique(statuses: seq<Status>)
    ensures forall i: nat, j: nat :: IsWorst(statuses, i) && IsWorst(statuses, j) ==> i == j
    ensures NoRatio(statuses) ==> forall i: nat :: !IsWorst(statuses, i)
  {
  }

}
