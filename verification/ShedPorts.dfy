/** The Python and TypeScript clients' own shed lottery, on integers wider than a word that they mask. */
module ShedPorts {
  import opened ShedLottery

  function Masked(w: bv128): bv128 { w & 0xFFFF_FFFF_FFFF_FFFF }

  function Wide(h: bv64): bv128 { h as bv128 }

  /** The Python port: only the products are masked. */
  method PythonMixed(bytes: seq<bv8>) returns (h: bv128)
    ensures h == Wide(Mixed(bytes))
  {
    h := 0xcbf2_9ce4_8422_2325;
    ghost var state := OFFSET;
    for i := 0 to |bytes|
      invariant h == Wide(state)
      invariant Hash(state, bytes[i..]) == Hash(OFFSET, bytes)
    {
      WideStep(state, bytes[i]);
      h := WideXor(h, bytes[i]);
      h := Masked(WideMultiply(h));
      assert bytes[i..][1..] == bytes[i + 1..];
      state := Step(state, bytes[i]);
    }
    WideAvalanche(state);
    h := WideFold30(h);
    h := Masked(WideFirst(h));
    h := WideFold27(h);
    h := Masked(WideSecond(h));
    h := WideFold31(h);
  }

  /** The TypeScript port: every operation is masked. */
  method TypeScriptMixed(bytes: seq<bv8>) returns (h: bv128)
    ensures h == Wide(Mixed(bytes))
  {
    h := 0xcbf2_9ce4_8422_2325;
    ghost var state := OFFSET;
    for i := 0 to |bytes|
      invariant h == Wide(state)
      invariant Hash(state, bytes[i..]) == Hash(OFFSET, bytes)
    {
      WideStep(state, bytes[i]);
      h := Masked(WideXor(h, bytes[i]));
      h := Masked(WideMultiply(h));
      assert bytes[i..][1..] == bytes[i + 1..];
      state := Step(state, bytes[i]);
    }
    WideAvalanche(state);
    h := Masked(WideFold30(h));
    h := Masked(WideFirst(h));
    h := Masked(WideFold27(h));
    h := Masked(WideSecond(h));
    h := Masked(WideFold31(h));
  }

  /** The Python client's ticket. */
  method PythonTicket(rule: seq<bv8>, event: seq<bv8>) returns (t: real)
    ensures t == Ticket(rule, event)
  {
    hide Mixed, Wide, OnGrid, Ticket;
    var h := PythonMixed(rule + [0x1f] + event);
    TopBits(h, Mixed(Input(rule, event)));
    TicketOnGrid(rule, event);
    t := OnGrid((h >> 11) as bv53);
  }

  /** The TypeScript client's ticket. */
  method TypeScriptTicket(rule: seq<bv8>, event: seq<bv8>) returns (t: real)
    ensures t == Ticket(rule, event)
  {
    hide Mixed, Wide, OnGrid, Ticket;
    var h := TypeScriptMixed(rule + [0x1f] + event);
    TopBits(h, Mixed(Input(rule, event)));
    TicketOnGrid(rule, event);
    t := OnGrid((h >> 11) as bv53);
  }

  /** Divided by 2^53. */
  function OnGrid(k: bv53): real {
    k as nat as real / GRID as real
  }

  lemma TicketOnGrid(rule: seq<bv8>, event: seq<bv8>)
    ensures Ticket(rule, event) == OnGrid((Mixed(Input(rule, event)) >> 11) as bv53)
  {
    hide Mixed;
  }

  /** A 64-bit value shifted down by 11 fits 53 bits. */
  lemma TopBits(w: bv128, h: bv64)
    requires w == Wide(h)
    ensures w >> 11 <= 0x1F_FFFF_FFFF_FFFF
    ensures (w >> 11) as bv53 == (h >> 11) as bv53
  {
  }

  function WideXor(w: bv128, b: bv8): bv128 { w ^ (b as bv128) }
  function WideMultiply(w: bv128): bv128 { w * 0x1000_0000_01b3 }
  function WideFirst(w: bv128): bv128 { w * 0xbf58_476d_1ce4_e5b9 }
  function WideSecond(w: bv128): bv128 { w * 0x94d0_49bb_1331_11eb }
  function WideFold30(w: bv128): bv128 { w ^ (w >> 30) }
  function WideFold27(w: bv128): bv128 { w ^ (w >> 27) }
  function WideFold31(w: bv128): bv128 { w ^ (w >> 31) }

  // Each fact below is first stated on literal terms, where the bit-vector rewriter settles it, and
  // only then on the named functions.

  lemma WordFolded30(h: bv64)
    ensures WideFold30(h as bv128) == (h ^ (h >> 30)) as bv128
    ensures Wide(h ^ (h >> 30)) == (h ^ (h >> 30)) as bv128
  {
  }

  lemma WideFolded30(h: bv64)
    ensures WideFold30(Wide(h)) == Wide(Fold30(h))
  {
    WordFolded30(h);
    assert WideFold30(Wide(h)) == WideFold30(h as bv128);
    assert Fold30(h) == h ^ (h >> 30);
  }

  lemma WordFolded27(h: bv64)
    ensures WideFold27(h as bv128) == (h ^ (h >> 27)) as bv128
    ensures Wide(h ^ (h >> 27)) == (h ^ (h >> 27)) as bv128
  {
  }

  lemma WideFolded27(h: bv64)
    ensures WideFold27(Wide(h)) == Wide(Fold27(h))
  {
    WordFolded27(h);
    assert WideFold27(Wide(h)) == WideFold27(h as bv128);
    assert Fold27(h) == h ^ (h >> 27);
  }

  lemma WordFolded31(h: bv64)
    ensures WideFold31(h as bv128) == (h ^ (h >> 31)) as bv128
    ensures Wide(h ^ (h >> 31)) == (h ^ (h >> 31)) as bv128
  {
  }

  lemma WideFolded31(h: bv64)
    ensures WideFold31(Wide(h)) == Wide(Fold31(h))
  {
    WordFolded31(h);
    assert WideFold31(Wide(h)) == WideFold31(h as bv128);
    assert Fold31(h) == h ^ (h >> 31);
  }

  lemma WordMultiplied(h: bv64)
    ensures Masked((h as bv128) * 0x1000_0000_01b3) == (h * 0x1000_0000_01b3) as bv128
    ensures Wide(h * 0x1000_0000_01b3) == (h * 0x1000_0000_01b3) as bv128
    ensures WideMultiply(h as bv128) == (h as bv128) * 0x1000_0000_01b3
  {
  }

  lemma WideMultiplied(h: bv64)
    ensures Masked(WideMultiply(Wide(h))) == Wide(Multiply(h))
  {
    WordMultiplied(h);
    assert WideMultiply(Wide(h)) == WideMultiply(h as bv128);
    assert Multiply(h) == h * 0x1000_0000_01b3;
  }

  lemma WordFirstMultiplied(h: bv64)
    ensures Masked((h as bv128) * 0xbf58_476d_1ce4_e5b9) == (h * 0xbf58_476d_1ce4_e5b9) as bv128
    ensures Wide(h * 0xbf58_476d_1ce4_e5b9) == (h * 0xbf58_476d_1ce4_e5b9) as bv128
    ensures WideFirst(h as bv128) == (h as bv128) * 0xbf58_476d_1ce4_e5b9
  {
  }

  lemma WideFirstMultiplied(h: bv64)
    ensures Masked(WideFirst(Wide(h))) == Wide(MultiplyFirst(h))
  {
    WordFirstMultiplied(h);
    assert WideFirst(Wide(h)) == WideFirst(h as bv128);
    assert MultiplyFirst(h) == h * 0xbf58_476d_1ce4_e5b9;
  }

  lemma WordSecondMultiplied(h: bv64)
    ensures Masked((h as bv128) * 0x94d0_49bb_1331_11eb) == (h * 0x94d0_49bb_1331_11eb) as bv128
    ensures Wide(h * 0x94d0_49bb_1331_11eb) == (h * 0x94d0_49bb_1331_11eb) as bv128
    ensures WideSecond(h as bv128) == (h as bv128) * 0x94d0_49bb_1331_11eb
  {
  }

  lemma WideSecondMultiplied(h: bv64)
    ensures Masked(WideSecond(Wide(h))) == Wide(MultiplySecond(h))
  {
    WordSecondMultiplied(h);
    assert WideSecond(Wide(h)) == WideSecond(h as bv128);
    assert MultiplySecond(h) == h * 0x94d0_49bb_1331_11eb;
  }

  lemma MaskKeepsAWord(h: bv64)
    ensures Masked(Wide(h)) == Wide(h)
  {
    assert Masked(h as bv128) == h as bv128;
    assert Wide(h) == h as bv128;
  }

  lemma WordXored(h: bv64, b: bv8)
    ensures WideXor(h as bv128, b) == (h ^ (b as bv64)) as bv128
    ensures Wide(h ^ (b as bv64)) == (h ^ (b as bv64)) as bv128
  {
  }

  lemma WideXored(h: bv64, b: bv8)
    ensures WideXor(Wide(h), b) == Wide(h ^ (b as bv64))
  {
    WordXored(h, b);
    assert WideXor(Wide(h), b) == WideXor(h as bv128, b);
  }

  lemma WideStep(h: bv64, b: bv8)
    ensures Masked(WideXor(Wide(h), b)) == WideXor(Wide(h), b)
    ensures Masked(WideMultiply(WideXor(Wide(h), b))) == Wide(Step(h, b))
  {
    WideXored(h, b);
    MaskKeepsAWord(h ^ (b as bv64));
    WideMultiplied(h ^ (b as bv64));
  }

  /** The finalizer on a wide word, with or without the redundant masks. */
  lemma WideAvalanche(h: bv64)
    ensures var a := WideFold30(Wide(h));
            var b := WideFold27(Masked(WideFirst(a)));
            var c := WideFold31(Masked(WideSecond(b)));
            Masked(a) == a && Masked(b) == b && Masked(c) == c && c == Wide(Avalanche(h))
  {
    var a := Fold30(h);
    var b := Fold27(MultiplyFirst(a));
    var c := Fold31(MultiplySecond(b));
    WideFolded30(h);
    WideFolded27(MultiplyFirst(a));
    WideFolded31(MultiplySecond(b));
    WideFirstMultiplied(a);
    WideSecondMultiplied(b);
    MaskKeepsAWord(a);
    MaskKeepsAWord(b);
    MaskKeepsAWord(c);
  }
}
