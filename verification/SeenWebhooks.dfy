/** The bounded memory of recent webhook deliveries: a set of keys, the ones still being stored, and
    the order in which they came. */
module SeenWebhooks {
  type Key = string

  datatype Inner = Inner(keys: set<Key>, inFlight: set<Key>, fifo: seq<Key>)

  datatype Answer = New | Done | InFlight

  const EMPTY := Inner({}, {}, [])

  predicate Distinct(s: seq<Key>) {
    forall i, j :: 0 <= i < j < |s| ==> s[i] != s[j]
  }

  /** What holds of the memory at every lock section. */
  ghost predicate WellFormed(s: Inner, capacity: nat) {
    && Distinct(s.fifo)
    && (forall k :: k in s.keys <==> k in s.fifo)
    && s.inFlight <= s.keys
    && |s.fifo| <= capacity
  }

  // ----- the lock sections -----

  function Seen(s: Inner, key: Key): Answer {
    if key !in s.keys then New else if key in s.inFlight then InFlight else Done
  }

  /** Pop the oldest keys until at most `capacity` remain. */
  function Evict(s: Inner, capacity: nat): Inner
    decreases |s.fifo|
  {
    if |s.fifo| <= capacity then s
    else Evict(Inner(s.keys - {s.fifo[0]}, s.inFlight - {s.fifo[0]}, s.fifo[1..]), capacity)
  }

  function Begin(s: Inner, capacity: nat, key: Key): Inner {
    if key in s.keys then s
    else Evict(Inner(s.keys + {key}, s.inFlight + {key}, s.fifo + [key]), capacity)
  }

  function Commit(s: Inner, key: Key): Inner {
    s.(inFlight := s.inFlight - {key})
  }

  function Without(s: seq<Key>, key: Key): seq<Key> {
    if s == [] then [] else if s[0] == key then Without(s[1..], key) else [s[0]] + Without(s[1..], key)
  }

  function Forget(s: Inner, key: Key): Inner {
    Inner(s.keys - {key}, s.inFlight - {key}, if key in s.keys then Without(s.fifo, key) else s.fifo)
  }

  /** `VecDeque::retain`. */
  method Retain(s: seq<Key>, key: Key) returns (kept: seq<Key>)
    ensures kept == Without(s, key)
  {
    kept := [];
    for i := 0 to |s|
      invariant kept + Without(s[i..], key) == Without(s, key)
    {
      assert s[i..] == [s[i]] + s[i + 1..];
      if s[i] != key {
        kept := kept + [s[i]];
      }
    }
  }

  /** The object those sections are the methods of. */
  class SeenWebhooks {
    const capacity: nat
    var keys: set<Key>
    var inFlight: set<Key>
    var fifo: seq<Key>

    function Value(): Inner
      reads this
    {
      Inner(keys, inFlight, fifo)
    }

    ghost predicate Valid()
      reads this
    {
      capacity >= 1 && WellFormed(Value(), capacity)
    }

    constructor (capacity: nat)
      ensures Valid() && Value() == EMPTY
      ensures this.capacity == if capacity == 0 then 1 else capacity
    {
      this.capacity := if capacity == 0 then 1 else capacity;
      keys, inFlight, fifo := {}, {}, [];
    }

    /** Claim `key`, evicting the oldest keys when over capacity. */
    method BeginKey(key: Key) returns (answer: Answer)
      requires Valid()
      modifies this
      ensures Valid()
      ensures answer == Seen(old(Value()), key)
      ensures Value() == Begin(old(Value()), capacity, key)
      // A fresh claim survives its own eviction, and evicts at most the oldest key.
      ensures answer == New ==> key in inFlight && fifo[|fifo| - 1] == key
      ensures keys == old(keys) + {key} || (old(fifo) != [] && keys == old(keys) - {old(fifo)[0]} + {key})
    {
      if key in keys {
        return if key in inFlight then InFlight else Done;
      }
      BeginFits(Value(), capacity, key);
      keys := keys + {key};
      inFlight := inFlight + {key};
      fifo := fifo + [key];
      while |fifo| > capacity
        invariant Evict(Value(), capacity) == Begin(old(Value()), capacity, key)
        decreases |fifo|
      {
        var oldest := fifo[0];
        fifo := fifo[1..];
        keys := keys - {oldest};
        inFlight := inFlight - {oldest};
      }
      return New;
    }

    method CommitKey(key: Key)
      requires Valid()
      modifies this
      ensures Valid() && Value() == Commit(old(Value()), key)
      ensures keys == old(keys) && fifo == old(fifo) && inFlight == old(inFlight) - {key}
    {
      inFlight := inFlight - {key};
    }

    method ForgetKey(key: Key)
      requires Valid()
      modifies this
      ensures Valid() && Value() == Forget(old(Value()), key)
      ensures keys == old(keys) - {key} && inFlight == old(inFlight) - {key}
      // The queue keeps its order around the key that leaves.
      ensures key !in old(keys) ==> fifo == old(fifo)
      ensures forall before, behind :: old(fifo) == before + [key] + behind ==> fifo == before + behind
    {
      ForgetFits(Value(), capacity, key);
      forall before, behind | fifo == before + [key] + behind ensures Without(fifo, key) == before + behind {
        WithoutParts(before, behind, key);
      }
      inFlight := inFlight - {key};
      if key in keys {
        keys := keys - {key};
        fifo := Retain(fifo, key);
      }
    }
  }

  // ----- every lock section keeps the memory well formed -----

  lemma BeginFits(s: Inner, capacity: nat, key: Key)
    requires capacity >= 1 && WellFormed(s, capacity)
    ensures WellFormed(Begin(s, capacity, key), capacity)
    ensures var r := Begin(s, capacity, key);
            if key in s.keys then r == s
            else if |s.fifo| < capacity then
              r == Inner(s.keys + {key}, s.inFlight + {key}, s.fifo + [key])
            else
              r == Inner(s.keys - {s.fifo[0]} + {key}, s.inFlight - {s.fifo[0]} + {key}, s.fifo[1..] + [key])
  {
    if key !in s.keys {
      var grown := Inner(s.keys + {key}, s.inFlight + {key}, s.fifo + [key]);
      assert Distinct(grown.fifo) && forall k :: k in grown.keys <==> k in grown.fifo;
      if |s.fifo| == capacity {
        var oldest := s.fifo[0];
        assert grown.fifo[0] == oldest && grown.fifo[1..] == s.fifo[1..] + [key];
        assert s.fifo == [oldest] + s.fifo[1..];
        assert oldest != key && oldest !in s.fifo[1..];
        assert grown.keys - {oldest} == s.keys - {oldest} + {key};
        assert grown.inFlight - {oldest} == s.inFlight - {oldest} + {key};
        var r := Inner(s.keys - {oldest} + {key}, s.inFlight - {oldest} + {key}, s.fifo[1..] + [key]);
        assert Evict(r, capacity) == r;
        assert Distinct(r.fifo);
      }
    }
  }

  lemma {:induction false} WithoutKeeps(s: seq<Key>, key: Key)
    requires Distinct(s)
    ensures Distinct(Without(s, key))
    ensures forall k :: k in Without(s, key) <==> k in s && k != key
    ensures |Without(s, key)| <= |s|
  {
    if s != [] {
      WithoutKeeps(s[1..], key);
      assert s == [s[0]] + s[1..];
      assert s[0] !in s[1..];
    }
  }

  lemma {:induction false} WithoutParts(before: seq<Key>, behind: seq<Key>, key: Key)
    requires Distinct(before + [key] + behind)
    ensures Without(before + [key] + behind, key) == before + behind
  {
    var all := before + [key] + behind;
    if before == [] {
      assert all[0] == key && all[1..] == behind;
      WithoutAbsent(behind, key);
    } else {
      assert all[0] == before[0] && all[1..] == before[1..] + [key] + behind;
      assert all[|before|] == key;
      WithoutParts(before[1..], behind, key);
      assert before == [before[0]] + before[1..];
    }
  }

  lemma {:induction false} WithoutAbsent(s: seq<Key>, key: Key)
    requires key !in s
    ensures Without(s, key) == s
  {
    if s != [] {
      WithoutAbsent(s[1..], key);
    }
  }

  lemma ForgetFits(s: Inner, capacity: nat, key: Key)
    requires WellFormed(s, capacity)
    ensures WellFormed(Forget(s, key), capacity)
  {
    WithoutKeeps(s.fifo, key);
  }

  // ----- how long a key is remembered -----

  datatype Op = Begins(key: Key) | Commits(key: Key) | Forgets(key: Key)

  function Apply(s: Inner, capacity: nat, op: Op): Inner {
    match op
    case Begins(key) => Begin(s, capacity, key)
    case Commits(key) => Commit(s, key)
    case Forgets(key) => Forget(s, key)
  }

  function ApplyAll(s: Inner, capacity: nat, ops: seq<Op>): Inner
    decreases |ops|
  {
    if ops == [] then s else ApplyAll(Apply(s, capacity, ops[0]), capacity, ops[1..])
  }

  /** Whether this section hands out a new claim. */
  function Claims(s: Inner, op: Op): nat {
    if op.Begins? && op.key !in s.keys then 1 else 0
  }

  /** How many new claims a run hands out. */
  function News(s: Inner, capacity: nat, ops: seq<Op>): nat
    decreases |ops|
  {
    if ops == [] then 0 else Claims(s, ops[0]) + News(Apply(s, capacity, ops[0]), capacity, ops[1..])
  }

  /** `key` is remembered before, during and after the run. */
  predicate Remembered(s: Inner, capacity: nat, ops: seq<Op>, key: Key)
    decreases |ops|
  {
    key in s.keys && (ops != [] ==> Remembered(Apply(s, capacity, ops[0]), capacity, ops[1..], key))
  }

  /** The number of keys claimed after `key`. */
  function Behind(fifo: seq<Key>, key: Key): nat {
    if fifo == [] then 0 else if fifo[0] == key then |fifo| - 1 else Behind(fifo[1..], key)
  }

  lemma {:induction false} BehindSnoc(s: seq<Key>, x: Key, key: Key)
    requires key in s
    ensures Behind(s + [x], key) == Behind(s, key) + 1
  {
    assert (s + [x])[1..] == s[1..] + [x];
    if s[0] != key {
      assert s == [s[0]] + s[1..];
      BehindSnoc(s[1..], x, key);
    }
  }

  lemma {:induction false} BehindLast(s: seq<Key>, key: Key)
    requires key !in s
    ensures Behind(s + [key], key) == 0
  {
    if s == [] {
      assert s + [key] == [key];
    } else {
      assert (s + [key])[1..] == s[1..] + [key];
      BehindLast(s[1..], key);
    }
  }

  lemma {:induction false} BehindWithout(s: seq<Key>, other: Key, key: Key)
    requires other != key && key in s && Distinct(s)
    ensures Behind(Without(s, other), key) <= Behind(s, key)
  {
    WithoutKeeps(s[1..], other);
    assert s == [s[0]] + s[1..];
    if s[0] == key {
    } else {
      assert key in s[1..] && Distinct(s[1..]);
      BehindWithout(s[1..], other, key);
      if s[0] != other {
      }
    }
  }

  lemma {:induction false} BehindShort(s: seq<Key>, key: Key)
    requires key in s
    ensures Behind(s, key) < |s|
    ensures Behind(s, key) == |s| - 1 ==> s[0] == key
  {
    if s[0] != key {
      assert s == [s[0]] + s[1..];
      BehindShort(s[1..], key);
    }
  }

  lemma ApplyFits(s: Inner, capacity: nat, op: Op)
    requires capacity >= 1 && WellFormed(s, capacity)
    ensures WellFormed(Apply(s, capacity, op), capacity)
  {
    match op
    case Begins(key) => BeginFits(s, capacity, key);
    case Commits(key) =>
    case Forgets(key) => ForgetFits(s, capacity, key);
  }

  /** Claiming another key moves `key` one place towards eviction, and out once `capacity` are behind it. */
  lemma ClaimAges(s: Inner, capacity: nat, other: Key, key: Key)
    requires capacity >= 1 && WellFormed(s, capacity) && key in s.keys && other !in s.keys
    ensures var r := Begin(s, capacity, other);
            && (key in r.keys <==> Behind(s.fifo, key) + 1 < capacity)
            && (key in r.keys ==> Behind(r.fifo, key) == Behind(s.fifo, key) + 1)
            && (key in r.keys ==> (key in r.inFlight <==> key in s.inFlight))
  {
    BeginFits(s, capacity, other);
    BehindSnoc(s.fifo, other, key);
    BehindShort(s.fifo, key);
    if |s.fifo| == capacity {
      assert (s.fifo + [other])[1..] == s.fifo[1..] + [other];
    }
  }

  /** Any section other than a forget of `key`. */
  lemma StepRemembers(s: Inner, capacity: nat, op: Op, key: Key)
    requires capacity >= 1 && WellFormed(s, capacity) && key in s.keys && op != Forgets(key)
    ensures var r := Apply(s, capacity, op);
            && (Behind(s.fifo, key) + Claims(s, op) < capacity ==> key in r.keys)
            && (!op.Forgets? && key in r.keys ==> Behind(s.fifo, key) + Claims(s, op) < capacity)
            && (key in r.keys ==> Behind(r.fifo, key) <= Behind(s.fifo, key) + Claims(s, op))
            && (!op.Forgets? && key in r.keys ==> Behind(r.fifo, key) == Behind(s.fifo, key) + Claims(s, op))
            && (key in r.keys ==> (key in r.inFlight <==> key in s.inFlight && op != Commits(key)))
  {
    BehindShort(s.fifo, key);
    match op
    case Begins(other) => if other !in s.keys { ClaimAges(s, capacity, other, key); }
    case Commits(_) =>
    case Forgets(other) => if other in s.keys { BehindWithout(s.fifo, other, key); }
  }

  /** A key that nobody forgets is remembered while fewer than `capacity` claims are behind it. It is
      in flight exactly until it is committed. */
  lemma {:induction false} RememberedUntil(s: Inner, capacity: nat, ops: seq<Op>, key: Key)
    requires capacity >= 1 && WellFormed(s, capacity) && key in s.keys
    requires Forgets(key) !in ops && Behind(s.fifo, key) + News(s, capacity, ops) < capacity
    ensures Remembered(s, capacity, ops, key)
    ensures Seen(ApplyAll(s, capacity, ops), key)
         == if key in s.inFlight && Commits(key) !in ops then InFlight else Done
    decreases |ops|
  {
    if ops != [] {
      assert ops[0] in ops && ops == [ops[0]] + ops[1..];
      StepRemembers(s, capacity, ops[0], key);
      ApplyFits(s, capacity, ops[0]);
      RememberedUntil(Apply(s, capacity, ops[0]), capacity, ops[1..], key);
    }
  }

  /** When nothing is forgotten at all that bound is exact. */
  lemma {:induction false} RememberedExactly(s: Inner, capacity: nat, ops: seq<Op>, key: Key)
    requires capacity >= 1 && WellFormed(s, capacity) && key in s.keys
    requires forall op :: op in ops ==> !op.Forgets?
    ensures Remembered(s, capacity, ops, key) <==> Behind(s.fifo, key) + News(s, capacity, ops) < capacity
    decreases |ops|
  {
    BehindShort(s.fifo, key);
    if ops != [] {
      assert ops[0] in ops;
      StepRemembers(s, capacity, ops[0], key);
      ApplyFits(s, capacity, ops[0]);
      if key in Apply(s, capacity, ops[0]).keys {
        RememberedExactly(Apply(s, capacity, ops[0]), capacity, ops[1..], key);
      }
    }
  }

  /** A new claim survives its own eviction and has nothing behind it: once committed it reads as done
      until `capacity` later claims, and with no forgets it is out exactly then. */
  lemma ClaimLasts(s: Inner, capacity: nat, key: Key, ops: seq<Op>)
    requires capacity >= 1 && WellFormed(s, capacity) && Seen(s, key) == New && Forgets(key) !in ops
    ensures var claimed := Begin(s, capacity, key);
            && Seen(claimed, key) == InFlight
            && (News(claimed, capacity, ops) < capacity ==>
                  Seen(ApplyAll(claimed, capacity, ops), key) == if Commits(key) in ops then Done else InFlight)
            && ((forall op :: op in ops ==> !op.Forgets?) ==>
                  (Remembered(claimed, capacity, ops, key) <==> News(claimed, capacity, ops) < capacity))
  {
    var claimed := Begin(s, capacity, key);
    BeginFits(s, capacity, key);
    if |s.fifo| < capacity {
      BehindLast(s.fifo, key);
    } else {
      BehindLast(s.fifo[1..], key);
    }
    if News(claimed, capacity, ops) < capacity {
      RememberedUntil(claimed, capacity, ops, key);
    }
    if forall op :: op in ops ==> !op.Forgets? {
      RememberedExactly(claimed, capacity, ops, key);
    }
  }
}
