/** The byte-level hash and the finalizer that keyed policies apply to it. */
module Hashing {
  const OFFSET_BASIS: bv64 := 0xcbf2_9ce4_8422_2325

  // Each step and its inverse are functions of their own, so that the proofs below can treat them as symbols.
  // Multiplication wraps, as all bit-vector arithmetic does.

  function TimesPrime(x: bv64): bv64 { x * 0x0000_0100_0000_01b3 }
  function OverPrime(x: bv64): bv64 { x * 0xce96_5057_aff6_957b }

  function TimesFirst(x: bv64): bv64 { x * 0xbf58_476d_1ce4_e5b9 }
  function OverFirst(x: bv64): bv64 { x * 0x96de_1b17_3f11_9089 }

  function TimesSecond(x: bv64): bv64 { x * 0x94d0_49bb_1331_11eb }
  function OverSecond(x: bv64): bv64 { x * 0x3196_42b2_d24d_8ec3 }

  function Blend(x: bv64, y: bv64): bv64 { x ^ y }
  function Unblend(x: bv64, y: bv64): bv64 { x ^ y }

  function Fold30(x: bv64): bv64 { x ^ (x >> 30) }
  function Unfold30(y: bv64): bv64 { y ^ (y >> 30) ^ (y >> 60) }

  function Fold27(x: bv64): bv64 { x ^ (x >> 27) }
  function Unfold27(y: bv64): bv64 { y ^ (y >> 27) ^ (y >> 54) }

  function Fold31(x: bv64): bv64 { x ^ (x >> 31) }
  function Unfold31(y: bv64): bv64 { y ^ (y >> 31) ^ (y >> 62) }

  /** The avalanche finalizer. */
  function Mix64(value: bv64): bv64 {
    Fold31(TimesSecond(Fold27(TimesFirst(Fold30(value)))))
  }

  /** Every step undone, last first. */
  function Unmix64(value: bv64): bv64 {
    Unfold30(OverFirst(Unfold27(OverSecond(Unfold31(value)))))
  }

  // Each inverse law is first proved with the inner step written out, where it is pure bit arithmetic.

  lemma Unfold30OfFold(x: bv64)
    ensures Unfold30(x ^ (x >> 30)) == x
  {
  }

  lemma Fold30OfUnfold(y: bv64)
    ensures Fold30(y ^ (y >> 30) ^ (y >> 60)) == y
  {
  }

  lemma Unfold27OfFold(x: bv64)
    ensures Unfold27(x ^ (x >> 27)) == x
  {
  }

  lemma Fold27OfUnfold(y: bv64)
    ensures Fold27(y ^ (y >> 27) ^ (y >> 54)) == y
  {
  }

  lemma Unfold31OfFold(x: bv64)
    ensures Unfold31(x ^ (x >> 31)) == x
  {
  }

  lemma Fold31OfUnfold(y: bv64)
    ensures Fold31(y ^ (y >> 31) ^ (y >> 62)) == y
  {
  }

  lemma OverFirstProduct(x: bv64)
    ensures OverFirst(x * 0xbf58_476d_1ce4_e5b9) == x
  {
  }

  lemma TimesFirstQuotient(x: bv64)
    ensures TimesFirst(x * 0x96de_1b17_3f11_9089) == x
  {
  }

  lemma OverSecondProduct(x: bv64)
    ensures OverSecond(x * 0x94d0_49bb_1331_11eb) == x
  {
  }

  lemma TimesSecondQuotient(x: bv64)
    ensures TimesSecond(x * 0x3196_42b2_d24d_8ec3) == x
  {
  }

  lemma OverPrimeProduct(x: bv64)
    ensures OverPrime(x * 0x0000_0100_0000_01b3) == x
  {
  }

  lemma UnfoldAfterFold(x: bv64)
    ensures Unfold30(Fold30(x)) == x && Unfold27(Fold27(x)) == x && Unfold31(Fold31(x)) == x
  {
    hide Unfold30, Unfold27, Unfold31;
    Unfold30OfFold(x);
    Unfold27OfFold(x);
    Unfold31OfFold(x);
  }

  lemma FoldAfterUnfold(y: bv64)
    ensures Fold30(Unfold30(y)) == y && Fold27(Unfold27(y)) == y && Fold31(Unfold31(y)) == y
  {
    hide Fold30, Fold27, Fold31;
    Fold30OfUnfold(y);
    Fold27OfUnfold(y);
    Fold31OfUnfold(y);
  }

  lemma OverAfterTimes(x: bv64)
    ensures OverFirst(TimesFirst(x)) == x && OverSecond(TimesSecond(x)) == x && OverPrime(TimesPrime(x)) == x
  {
    hide OverFirst, OverSecond, OverPrime;
    OverFirstProduct(x);
    OverSecondProduct(x);
    OverPrimeProduct(x);
  }

  lemma TimesAfterOver(x: bv64)
    ensures TimesFirst(OverFirst(x)) == x && TimesSecond(OverSecond(x)) == x
  {
    hide TimesFirst, TimesSecond;
    TimesFirstQuotient(x);
    TimesSecondQuotient(x);
  }

  /** The finalizer has a two-sided inverse, so it permutes all 2^64 values and loses nothing. */
  lemma MixIsBijective(value: bv64)
    ensures Unmix64(Mix64(value)) == value && Mix64(Unmix64(value)) == value
  {
    hide Fold30, Fold27, Fold31, Unfold30, Unfold27, Unfold31, TimesFirst, OverFirst, TimesSecond, OverSecond;
    var a := TimesFirst(Fold30(value));
    UnfoldAfterFold(TimesSecond(Fold27(a)));
    OverAfterTimes(Fold27(a));
    UnfoldAfterFold(a);
    OverAfterTimes(Fold30(value));
    UnfoldAfterFold(value);
    var b := OverSecond(Unfold31(value));
    FoldAfterUnfold(OverFirst(Unfold27(b)));
    TimesAfterOver(Unfold27(b));
    FoldAfterUnfold(b);
    TimesAfterOver(Unfold31(value));
    FoldAfterUnfold(value);
  }

  /** The published finalizer vectors. */
  lemma MixVectors()
    ensures Mix64(0) == 0 && Mix64(1) == 0x5692_161d_100b_05e5 && Mix64(0xffff_ffff_ffff_ffff) == 0xb4d0_55fc_f2cb_bd7b
  {
  }

  function Absorb(state: bv64, byte: bv8): bv64 {
    TimesPrime(Blend(state, byte as bv64))
  }

  /** The state after the bytes, oldest first. */
  function Absorbed(state: bv64, bytes: seq<bv8>): bv64 {
    if bytes == [] then state else Absorb(Absorbed(state, bytes[..|bytes| - 1]), bytes[|bytes| - 1])
  }

  class Fnv1a64 {
    var state: bv64

    constructor ()
      ensures state == OFFSET_BASIS
    {
      state := OFFSET_BASIS;
    }

    method Write(bytes: seq<bv8>)
      modifies this
      ensures state == Absorbed(old(state), bytes)
    {
      hide TimesPrime, Blend;
      ghost var start := state;
      for i := 0 to |bytes|
        invariant state == Absorbed(start, bytes[..i])
      {
        assert bytes[..i + 1][..i] == bytes[..i];
        state := Blend(state, bytes[i] as bv64);
        state := TimesPrime(state);
      }
      assert bytes[..|bytes|] == bytes;
    }

    method WriteU64(value: bv64)
      modifies this
      ensures state == Absorbed(old(state), LittleEndian(value))
    {
      Write(LittleEndian(value));
    }
  }

  function LittleEndian(value: bv64): (r: seq<bv8>)
    ensures |r| == 8
  {
    [(value & 0xff) as bv8, ((value >> 8) & 0xff) as bv8, ((value >> 16) & 0xff) as bv8, ((value >> 24) & 0xff) as bv8,
     ((value >> 32) & 0xff) as bv8, ((value >> 40) & 0xff) as bv8, ((value >> 48) & 0xff) as bv8,
     ((value >> 56) & 0xff) as bv8]
  }

  /** The eight bytes determine the word: reassembling them gives it back. */
  lemma LittleEndianRoundTrip(value: bv64)
    ensures var b := LittleEndian(value);
      ((b[0] as bv64) | ((b[1] as bv64) << 8) | ((b[2] as bv64) << 16) | ((b[3] as bv64) << 24)
       | ((b[4] as bv64) << 32) | ((b[5] as bv64) << 40) | ((b[6] as bv64) << 48) | ((b[7] as bv64) << 56)) == value
  {
  }

  /** The published FNV-1a vector: "hello". */
  lemma HelloVector()
    ensures Absorbed(OFFSET_BASIS, [0x68, 0x65, 0x6c, 0x6c, 0x6f]) == 0xa430_d846_80aa_bd0b
  {
    var h: seq<bv8> := [0x68, 0x65, 0x6c, 0x6c, 0x6f];
    assert h[..4][..3] == h[..3] && h[..3][..2] == h[..2] && h[..2][..1] == h[..1] && h[..1][..0] == [];
    assert Absorbed(OFFSET_BASIS, h[..1]) == 0xaf63_e54c_8601_fbd7;
    assert Absorbed(OFFSET_BASIS, h[..2]) == 0x08ba_5307_b55e_af76;
    assert Absorbed(OFFSET_BASIS, h[..3]) == 0x334a_3019_2fe3_892e;
    assert Absorbed(OFFSET_BASIS, h[..4]) == 0x0a98_fccc_5fa2_3b26;
  }

  /** Hashing in pieces is hashing the whole: the stream has no memory of its write boundaries. */
  lemma {:induction false} WritesConcatenate(state: bv64, a: seq<bv8>, b: seq<bv8>)
    ensures Absorbed(state, a + b) == Absorbed(Absorbed(state, a), b)
  {
    hide Absorb;
    if b == [] {
      assert a + b == a;
    } else {
      assert (a + b)[..|a + b| - 1] == a + b[..|b| - 1];
      WritesConcatenate(state, a, b[..|b| - 1]);
    }
  }

  function Unabsorb(state: bv64, byte: bv8): bv64 {
    Unblend(OverPrime(state), byte as bv64)
  }

  lemma UnblendOfBlend(s: bv64, b: bv64)
    ensures Unblend(s ^ b, b) == s
  {
  }

  lemma UnblendAfterBlend(s: bv64, b: bv64)
    ensures Unblend(Blend(s, b), b) == s
  {
    hide Unblend;
    UnblendOfBlend(s, b);
  }

  lemma UnabsorbInverts(state: bv64, byte: bv8)
    ensures Unabsorb(Absorb(state, byte), byte) == state
  {
    hide TimesPrime, OverPrime, Blend, Unblend;
    OverAfterTimes(Blend(state, byte as bv64));
    UnblendAfterBlend(state, byte as bv64);
  }

  /** Equal bytes never merge two different states. */
  lemma {:induction false} StatesStayApart(s: bv64, t: bv64, bytes: seq<bv8>)
    requires s != t
    ensures Absorbed(s, bytes) != Absorbed(t, bytes)
  {
    hide Absorb, Unabsorb;
    if bytes != [] {
      var last := |bytes| - 1;
      StatesStayApart(s, t, bytes[..last]);
      UnabsorbInverts(Absorbed(s, bytes[..last]), bytes[last]);
      UnabsorbInverts(Absorbed(t, bytes[..last]), bytes[last]);
    }
  }

  lemma BytesSeparate(s: bv64, x: bv8, y: bv8)
    requires x != y
    ensures Absorb(s, x) != Absorb(s, y)
  {
    hide TimesPrime, OverPrime;
    OverAfterTimes(Blend(s, x as bv64));
    OverAfterTimes(Blend(s, y as bv64));
    DifferentBytesDifferentWords(s, x, y);
  }

  lemma DifferentBytesDifferentWords(s: bv64, x: bv8, y: bv8)
    requires x != y
    ensures Blend(s, x as bv64) != Blend(s, y as bv64)
  {
  }

  /** Two inputs of equal length that differ in a single byte never collide. */
  lemma SingleByteChangeNeverCollides(before: seq<bv8>, x: bv8, y: bv8, after: seq<bv8>)
    requires x != y
    ensures Absorbed(OFFSET_BASIS, before + [x] + after) != Absorbed(OFFSET_BASIS, before + [y] + after)
  {
    var s := Absorbed(OFFSET_BASIS, before);
    WritesConcatenate(OFFSET_BASIS, before + [x], after);
    WritesConcatenate(OFFSET_BASIS, before + [y], after);
    WritesConcatenate(OFFSET_BASIS, before, [x]);
    WritesConcatenate(OFFSET_BASIS, before, [y]);
    assert [x][..0] == [] && [y][..0] == [];
    BytesSeparate(s, x, y);
    hide Absorb;
    assert Absorbed(s, [x]) == Absorb(s, x) && Absorbed(s, [y]) == Absorb(s, y);
    StatesStayApart(Absorb(s, x), Absorb(s, y), after);
  }
}
