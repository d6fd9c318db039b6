/** The shed lottery: a 64-bit hash of (rule, event), read as a point of the grid k / 2^53.

    Three formulations exist: the server's, on wrapping 64-bit words; the Python client's, on
    unbounded integers that are masked after each product; and the TypeScript client's, on BigInt
    masked after every operation. The clients are modelled on 128-bit words, which no product of two
    64-bit words overflows. Mixing loses nothing: every stage has an inverse, given here. */
module ShedLottery {
  const OFFSET: bv64 := 0xcbf2_9ce4_8422_2325
  const SEPARATOR: bv8 := 0x1f
  const GRID: nat := 0x20_0000_0000_0000  // 2^53

  // ----- the stages, on 64-bit words -----

  function Multiply(h: bv64): bv64 { h * 0x1000_0000_01b3 }
  function MultiplyFirst(h: bv64): bv64 { h * 0xbf58_476d_1ce4_e5b9 }
  function MultiplySecond(h: bv64): bv64 { h * 0x94d0_49bb_1331_11eb }
  function Fold30(h: bv64): bv64 { h ^ (h >> 30) }
  function Fold27(h: bv64): bv64 { h ^ (h >> 27) }
  function Fold31(h: bv64): bv64 { h ^ (h >> 31) }

  function Step(h: bv64, b: bv8): bv64 {
    Multiply(h ^ (b as bv64))
  }

  function Avalanche(h: bv64): bv64 {
    Fold31(MultiplySecond(Fold27(MultiplyFirst(Fold30(h)))))
  }

  function Hash(h: bv64, bytes: seq<bv8>): bv64
    decreases |bytes|
  {
    if bytes == [] then h else Hash(Step(h, bytes[0]), bytes[1..])
  }

  function Input(rule: seq<bv8>, event: seq<bv8>): seq<bv8> {
    rule + [SEPARATOR] + event
  }

  function Mixed(bytes: seq<bv8>): bv64 {
    Avalanche(Hash(OFFSET, bytes))
  }

  /** The top 53 bits, as the numerator over 2^53. */
  function Numerator(h: bv64): (k: nat)
    ensures k < GRID
  {
    ((h >> 11) as bv53) as nat
  }

  function Ticket(rule: seq<bv8>, event: seq<bv8>): (t: real)
    ensures 0.0 <= t < 1.0
  {
    var k := Numerator(Mixed(Input(rule, event)));
    assert k as real < GRID as real;
    k as real / GRID as real
  }

  // ----- the inverses -----

  function Divide(h: bv64): bv64 { h * 0xb46d_d957_aff6_957b }
  function DivideFirst(h: bv64): bv64 { h * 0x96de_1b17_3f11_9089 }
  function DivideSecond(h: bv64): bv64 { h * 0x3196_42b2_d24d_8ec3 }
  function Unfold30(h: bv64): bv64 { h ^ (h >> 30) ^ (h >> 60) }
  function Unfold27(h: bv64): bv64 { h ^ (h >> 27) ^ (h >> 54) }
  function Unfold31(h: bv64): bv64 { h ^ (h >> 31) ^ (h >> 62) }

  function Unavalanche(h: bv64): bv64 {
    Unfold30(DivideFirst(Unfold27(DivideSecond(Unfold31(h)))))
  }

  lemma MultiplyInverse(h: bv64)
    ensures Divide(Multiply(h)) == h
  {
    assert Divide(h * 0x1000_0000_01b3) == h;
  }

  lemma FirstInverse(h: bv64)
    ensures DivideFirst(MultiplyFirst(h)) == h && MultiplyFirst(DivideFirst(h)) == h
  {
    assert DivideFirst(h * 0xbf58_476d_1ce4_e5b9) == h;
    assert MultiplyFirst(h * 0x96de_1b17_3f11_9089) == h;
  }

  lemma SecondInverse(h: bv64)
    ensures DivideSecond(MultiplySecond(h)) == h && MultiplySecond(DivideSecond(h)) == h
  {
    assert DivideSecond(h * 0x94d0_49bb_1331_11eb) == h;
    assert MultiplySecond(h * 0x3196_42b2_d24d_8ec3) == h;
  }

  lemma Fold30Inverse(h: bv64)
    ensures Unfold30(Fold30(h)) == h && Fold30(Unfold30(h)) == h
  {
    assert Unfold30(h ^ (h >> 30)) == h;
    assert Fold30(h ^ (h >> 30) ^ (h >> 60)) == h;
  }

  lemma Fold27Inverse(h: bv64)
    ensures Unfold27(Fold27(h)) == h && Fold27(Unfold27(h)) == h
  {
    assert Unfold27(h ^ (h >> 27)) == h;
    assert Fold27(h ^ (h >> 27) ^ (h >> 54)) == h;
  }

  lemma Fold31Inverse(h: bv64)
    ensures Unfold31(Fold31(h)) == h && Fold31(Unfold31(h)) == h
  {
    assert Unfold31(h ^ (h >> 31)) == h;
    assert Fold31(h ^ (h >> 31) ^ (h >> 62)) == h;
  }

  /** The finalizer is a bijection on 64-bit words. */
  lemma AvalancheBijective(h: bv64)
    ensures Unavalanche(Avalanche(h)) == h
    ensures Avalanche(Unavalanche(h)) == h
  {
    var a := MultiplyFirst(Fold30(h));
    var b := MultiplySecond(Fold27(a));
    Fold31Inverse(b);
    SecondInverse(Fold27(a));
    Fold27Inverse(a);
    FirstInverse(Fold30(h));
    Fold30Inverse(h);
    var c := DivideSecond(Unfold31(h));
    var d := DivideFirst(Unfold27(c));
    Fold30Inverse(d);
    FirstInverse(Unfold27(c));
    Fold27Inverse(c);
    SecondInverse(Unfold31(h));
    Fold31Inverse(h);
  }

  lemma XorCancels(h: bv64, b: bv64)
    ensures (h ^ b) ^ b == h && (h ^ b) ^ h == b
  {
  }

  /** One step loses neither the state it started from nor the byte it absorbed. */
  lemma StepInjective(g: bv64, h: bv64, b: bv8, c: bv8)
    requires Step(g, b) == Step(h, c)
    ensures b == c ==> g == h
    ensures g == h ==> b == c
  {
    MultiplyInverse(g ^ (b as bv64));
    MultiplyInverse(h ^ (c as bv64));
    XorCancels(g, b as bv64);
    XorCancels(h, c as bv64);
    assert (b as bv64) == (c as bv64) ==> b == c;
  }

  lemma {:induction false} HashInjectiveInState(g: bv64, h: bv64, bytes: seq<bv8>)
    requires Hash(g, bytes) == Hash(h, bytes)
    ensures g == h
    decreases |bytes|
  {
    if bytes != [] {
      HashInjectiveInState(Step(g, bytes[0]), Step(h, bytes[0]), bytes[1..]);
      StepInjective(g, h, bytes[0], bytes[0]);
    }
  }

  lemma {:induction false} HashConcat(h: bv64, left: seq<bv8>, right: seq<bv8>)
    ensures Hash(h, left + right) == Hash(Hash(h, left), right)
    decreases |left|
  {
    if left == [] {
      assert left + right == right;
    } else {
      assert (left + right)[1..] == left[1..] + right;
      HashConcat(Step(h, left[0]), left[1..], right);
    }
  }

  /** Two inputs that differ in exactly one byte never share the mixed hash. */
  lemma OneByteChangesTheHash(left: seq<bv8>, b: bv8, c: bv8, right: seq<bv8>)
    requires b != c
    ensures Mixed(left + [b] + right) != Mixed(left + [c] + right)
  {
    if Mixed(left + [b] + right) == Mixed(left + [c] + right) {
      AvalancheBijective(Hash(OFFSET, left + [b] + right));
      AvalancheBijective(Hash(OFFSET, left + [c] + right));
      var h := Hash(OFFSET, left);
      HashAbsorbs(left, b, right);
      HashAbsorbs(left, c, right);
      HashInjectiveInState(Step(h, b), Step(h, c), right);
      StepInjective(h, h, b, c);
    }
  }

  lemma HashAbsorbs(left: seq<bv8>, b: bv8, right: seq<bv8>)
    ensures Hash(OFFSET, left + [b] + right) == Hash(Step(Hash(OFFSET, left), b), right)
  {
    assert left + [b] + right == left + ([b] + right);
    HashConcat(OFFSET, left, [b] + right);
    assert ([b] + right)[1..] == right;
  }

  // ----- known tickets -----

  lemma HashStep(h: bv64, bytes: seq<bv8>, k: nat, next: bv64)
    requires k < |bytes| && Step(h, bytes[k]) == next
    ensures Hash(h, bytes[k..]) == Hash(next, bytes[k + 1..])
  {
    assert bytes[k..][1..] == bytes[k + 1..];
  }

  lemma HashOfRule()
    ensures Hash(0xcbf2_9ce4_8422_2325, [0x72, 0x75, 0x6c, 0x65, 0x2d, 0x68, 0x6f, 0x74]) == 0xe720_837d_c167_581d
  {
    var bytes: seq<bv8> := [0x72, 0x75, 0x6c, 0x65, 0x2d, 0x68, 0x6f, 0x74];
    assert bytes[0..] == bytes && bytes[8..] == [];
    HashStep(0xcbf2_9ce4_8422_2325, bytes, 0, 0xaf76_084c_8602_0cd5);
    HashStep(0xaf76_084c_8602_0cd5, bytes, 1, 0x465a_1a07_b57b_73e0);
    HashStep(0x465a_1a07_b57b_73e0, bytes, 2, 0x4252_fb19_60c5_56e4);
    HashStep(0x4252_fb19_60c5_56e4, bytes, 3, 0x0868_bc1f_6f51_fd33);
    HashStep(0x0868_bc1f_6f51_fd33, bytes, 4, 0x69c9_896a_2851_19fa);
    HashStep(0x69c9_896a_2851_19fa, bytes, 5, 0xd30d_9f62_81ce_7316);
    HashStep(0xd30d_9f62_81ce_7316, bytes, 6, 0x875d_6462_91ce_369b);
    HashStep(0x875d_6462_91ce_369b, bytes, 7, 0xe720_837d_c167_581d);
  }

  lemma HashOfEvent()
    ensures Hash(0xe720_837d_c167_581d, [0x1f, 0x65, 0x76, 0x2d, 0x31]) == 0x4259_49b0_0764_7713
  {
    var bytes: seq<bv8> := [0x1f, 0x65, 0x76, 0x2d, 0x31];
    assert bytes[0..] == bytes && bytes[5..] == [];
    HashStep(0xe720_837d_c167_581d, bytes, 0, 0x31bf_8eaf_a29a_8b66);
    HashStep(0x31bf_8eaf_a29a_8b66, bytes, 1, 0x312f_a471_4c9a_3619);
    HashStep(0x312f_a471_4c9a_3619, bytes, 2, 0x375b_5c85_2a0a_7e9d);
    HashStep(0x375b_5c85_2a0a_7e9d, bytes, 3, 0xb829_3646_6fd5_4510);
    HashStep(0xb829_3646_6fd5_4510, bytes, 4, 0x4259_49b0_0764_7713);
  }

  lemma HashOfEventAlone()
    ensures Hash(0xcbf2_9ce4_8422_2325, [0x1f, 0x65, 0x76, 0x2d, 0x31]) == 0x159e_e35b_f08a_1acb
  {
    var bytes: seq<bv8> := [0x1f, 0x65, 0x76, 0x2d, 0x31];
    assert bytes[0..] == bytes && bytes[5..] == [];
    HashStep(0xcbf2_9ce4_8422_2325, bytes, 0, 0xaf74_384c_8601_db8e);
    HashStep(0xaf74_384c_8601_db8e, bytes, 1, 0x403a_5a07_b528_b051);
    HashStep(0x403a_5a07_b528_b051, bytes, 2, 0xae29_6b18_d423_5245);
    HashStep(0xae29_6b18_d423_5245, bytes, 3, 0x2587_7b30_7805_06b8);
    HashStep(0x2587_7b30_7805_06b8, bytes, 4, 0x159e_e35b_f08a_1acb);
  }

  lemma FinishWithRule()
    ensures Numerator(Avalanche(0x4259_49b0_0764_7713)) == 41495979473218
  {
    assert Fold30(0x4259_49b0_0764_7713) == 0x4259_49b1_0e01_51d3 && MultiplyFirst(0x4259_49b1_0e01_51d3) == 0xb273_9c71_4111_e07b;
    assert Fold27(0xb273_9c71_4111_e07b) == 0xb273_9c67_0f62_6e53 && MultiplySecond(0xb273_9c67_0f62_6e53) == 0x012d_ec48_ef91_c931;
    assert Fold31(0x012d_ec48_ef91_c931) == 0x012d_ec48_edca_11a0;
  }

  lemma FinishAlone()
    ensures Numerator(Avalanche(0x159e_e35b_f08a_1acb)) == 5643561205329252
  {
    assert Fold30(0x159e_e35b_f08a_1acb) == 0x159e_e35b_a6f1_97a4 && MultiplyFirst(0x159e_e35b_a6f1_97a4) == 0xd762_7226_bf4c_4984;
    assert Fold27(0xd762_7226_bf4c_4984) == 0xd762_723c_5302_0d53 && MultiplySecond(0xd762_723c_5302_0d53) == 0xa066_4fe6_0ba7_be31;
    assert Fold31(0xa066_4fe6_0ba7_be31) == 0xa066_4fe7_4b6b_21fd;
  }

  /** The tickets every client is held to: of the event ev-1 under the rule rule-hot, and under a rule with no
      name. */
  lemma KnownTickets()
    ensures Ticket([0x72, 0x75, 0x6c, 0x65, 0x2d, 0x68, 0x6f, 0x74], [0x65, 0x76, 0x2d, 0x31]) == 41495979473218.0 / 9007199254740992.0
    ensures Ticket([], [0x65, 0x76, 0x2d, 0x31]) == 5643561205329252.0 / 9007199254740992.0
  {
    hide Hash, Avalanche, Numerator;
    HashOfRule();
    HashOfEvent();
    HashOfEventAlone();
    FinishWithRule();
    FinishAlone();
    var rule: seq<bv8>, event: seq<bv8> := [0x72, 0x75, 0x6c, 0x65, 0x2d, 0x68, 0x6f, 0x74], [0x65, 0x76, 0x2d, 0x31];
    HashConcat(OFFSET, rule, [0x1f, 0x65, 0x76, 0x2d, 0x31]);
    assert Input(rule, event) == rule + [0x1f, 0x65, 0x76, 0x2d, 0x31];
    assert Input([], event) == [0x1f, 0x65, 0x76, 0x2d, 0x31];
  }
}
