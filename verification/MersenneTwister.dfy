/** The MT19937 generator: block reloads in place refine one infinite recurrence. */
module MersenneTwister {

  const N := 624
  const M := 397

  type Word = bv32

  function HiBit(u: Word): Word { u & 0x80000000 }

  function LoBits(u: Word): Word { u & 0x7FFFFFFF }

  function MixBits(u: Word, v: Word): Word { HiBit(u) | LoBits(v) }

  function Twist(s0: Word, s1: Word): Word {
    (MixBits(s0, s1) >> 1) ^ (if s1 & 1 == 1 then 0x9908B0DF else 0)
  }

  // The four tempering steps.

  function Shift11(x: Word): Word { x ^ (x >> 11) }

  function Shift7(x: Word): Word { x ^ ((x << 7) & 0x9D2C5680) }

  function Shift15(x: Word): Word { x ^ ((x << 15) & 0xEFC60000) }

  function Shift18(x: Word): Word { x ^ (x >> 18) }

  function Temper(x: Word): Word { Shift18(Shift15(Shift7(Shift11(x)))) }

  /** One step of the seeding generator. */
  function Congruential(x: Word): Word { x * 69069 }

  function Mixed(far: Word, s0: Word, s1: Word): Word { far ^ Twist(s0, s1) }

  /** The sequence: seeded words, then each word from the words 624, 623 and 227 places before. */
  ghost function Sequence(seed: Word, k: nat): Word {
    if k == 0 then seed | 1
    else if k < N then Congruential(Sequence(seed, k - 1))
    else Mixed(Sequence(seed, k - N + M), Sequence(seed, k - N), Sequence(seed, k - N + 1))
  }

  lemma SequenceStep(seed: Word, k: nat)
    ensures Sequence(seed, k + N) == Mixed(Sequence(seed, k + M), Sequence(seed, k), Sequence(seed, k + 1))
  {
    hide Mixed, Congruential;
  }

  /** The n-th number drawn after seeding. */
  ghost function Drawn(seed: Word, n: nat): Word {
    Temper(Sequence(seed, N + n))
  }

  /** A seed and its odd neighbour give the same sequence. */
  lemma {:induction false} OddSeed(seed: Word, k: nat)
    ensures Sequence(seed, k) == Sequence(seed | 1, k)
  {
    hide Mixed, Congruential;
    if k == 0 {
    } else if k < N {
      OddSeed(seed, k - 1);
    } else {
      OddSeed(seed, k - N + M);
      OddSeed(seed, k - N);
      OddSeed(seed, k - N + 1);
    }
  }

  lemma OddTimes(x: Word)
    requires x & 1 == 1
    ensures Congruential(x) & 1 == 1
  {}

  /** Every seed word is odd. */
  lemma {:induction false} SeedWordsOdd(seed: Word, k: nat)
    requires k < N
    ensures Sequence(seed, k) & 1 == 1
  {
    hide Congruential;
    if k > 0 {
      SeedWordsOdd(seed, k - 1);
      OddTimes(Sequence(seed, k - 1));
    }
  }

  const DEFAULT_SEED: Word := 4357

  lemma NextBlock(drawn: nat)
    requires drawn % N == 0
    ensures (drawn + 1 + (N - 1)) % N == 0 && drawn + 1 + (N - 1) == drawn + N
  {}

  // ----- What is drawn tells the state

  function Unshift11(a: Word): Word { a ^ (a >> 11) ^ (a >> 22) }

  /** Seven bits more are right at each step. */
  function Unshift7(b: Word): Word {
    var low14 := b ^ ((b << 7) & 0x9D2C5680);
    var low21 := b ^ ((low14 << 7) & 0x9D2C5680);
    var low28 := b ^ ((low21 << 7) & 0x9D2C5680);
    b ^ ((low28 << 7) & 0x9D2C5680)
  }

  function Unshift15(c: Word): Word { c ^ ((c << 15) & 0xEFC60000) }

  function Unshift18(y: Word): Word { y ^ (y >> 18) }

  /** Tempering undone, last step first. */
  function Untemper(y: Word): Word { Unshift11(Unshift7(Unshift15(Unshift18(y)))) }

  function LowHalf(x: Word): Word { x & 0xFFFF }

  function HighHalf(x: Word): Word { x & 0xFFFF0000 }

  lemma Halves(x: Word, y: Word)
    requires LowHalf(x) == LowHalf(y) && HighHalf(x) == HighHalf(y)
    ensures x == y
  {}

  lemma LowHalfBack(x: Word)
    ensures LowHalf(Unshift11(Shift11(x))) == LowHalf(x) == LowHalf(Unshift18(Shift18(x)))
  {}

  lemma HighHalfBack(x: Word)
    ensures HighHalf(Unshift11(Shift11(x))) == HighHalf(x) == HighHalf(Unshift18(Shift18(x)))
  {}

  lemma RightShiftsBack(x: Word)
    ensures Unshift11(Shift11(x)) == x == Unshift18(Shift18(x))
  {
    hide Shift11, Unshift11, Shift18, Unshift18, LowHalf, HighHalf;
    LowHalfBack(x);
    HighHalfBack(x);
    Halves(Unshift11(Shift11(x)), x);
    Halves(Unshift18(Shift18(x)), x);
  }

  lemma LeftShiftsBack(x: Word)
    ensures Unshift7(Shift7(x)) == x == Unshift15(Shift15(x))
  {}

  /** Tempering loses nothing. */
  lemma TemperBack(x: Word)
    ensures Untemper(Temper(x)) == x
  {
    hide Shift11, Shift7, Shift15, Shift18, Unshift11, Unshift7, Unshift15, Unshift18;
    var a := Shift11(x);
    var b := Shift7(a);
    var c := Shift15(b);
    RightShiftsBack(x);
    LeftShiftsBack(a);
    LeftShiftsBack(b);
    RightShiftsBack(c);
  }

  /** The bits that went into a twist. */
  function Untwist(t: Word): Word {
    if t & 0x80000000 == 0 then t << 1 else ((t ^ 0x9908B0DF) << 1) | 1
  }

  /** A twist tells the top bit of one word and the other 31 bits of the next. */
  lemma TwistBack(s0: Word, s1: Word)
    ensures Untwist(Twist(s0, s1)) == MixBits(s0, s1)
  {}

  /** The inverse of 69069. */
  function Uncongruential(x: Word): Word { x * 2783094533 }

  lemma CongruentialNext(x: Word)
    ensures Congruential(x + 1) == Congruential(x) + 69069
  {}

  lemma UncongruentialNext(x: Word)
    ensures Uncongruential(x + 69069) == Uncongruential(x) + 1
  {}

  lemma BackNext(x: Word)
    requires Uncongruential(Congruential(x)) == x
    ensures Uncongruential(Congruential(x + 1)) == x + 1
  {
    hide Congruential, Uncongruential;
    CongruentialNext(x);
    UncongruentialNext(Congruential(x));
  }

  lemma BackFrom(x: Word)
    requires Uncongruential(Congruential(x - 1)) == x - 1
    ensures Uncongruential(Congruential(x)) == x
  {
    hide Congruential, Uncongruential;
    BackNext(x - 1);
  }

  lemma BackZero()
    ensures Uncongruential(Congruential(0)) == 0
  {}

  lemma OneLess(x: Word)
    requires x != 0
    ensures x - 1 < x
  {}

  /** The seeding step loses nothing. */
  lemma {:induction false} CongruentialBack(x: Word)
    ensures Uncongruential(Congruential(x)) == x
    decreases x
  {
    hide Congruential, Uncongruential;
    if x == 0 {
      BackZero();
    } else {
      OneLess(x);
      CongruentialBack(x - 1);
      BackFrom(x);
    }
  }

  /** From place a of the one sequence and b of the other on, 624 words are the same. */
  ghost predicate SameWords(seed: Word, a: nat, seed': Word, b: nat) {
    forall i :: 0 <= i < N ==> SameWord(seed, a, seed', b, i)
  }

  ghost predicate SameWord(seed: Word, a: nat, seed': Word, b: nat, i: nat) {
    Sequence(seed, a + i) == Sequence(seed', b + i)
  }

  lemma SameWordsAt(seed: Word, a: nat, seed': Word, b: nat, i: nat)
    requires SameWords(seed, a, seed', b) && i < N
    ensures Sequence(seed, a + i) == Sequence(seed', b + i)
  {
    hide Sequence;
    assert SameWord(seed, a, seed', b, i);
  }

  lemma SameWordNext(seed: Word, a: nat, seed': Word, b: nat, i: nat)
    requires SameWords(seed, a, seed', b) && i < N
    ensures SameWord(seed, a + 1, seed', b + 1, i)
  {
    hide Sequence, Mixed, SameWords;
    if i < N - 1 {
      SameWordsAt(seed, a, seed', b, i + 1);
      assert a + 1 + i == a + (i + 1) && b + 1 + i == b + (i + 1);
    } else {
      SameWordsAt(seed, a, seed', b, 0);
      SameWordsAt(seed, a, seed', b, 1);
      SameWordsAt(seed, a, seed', b, M);
      SequenceStep(seed, a);
      SequenceStep(seed', b);
      assert a + 1 + i == a + N && b + 1 + i == b + N;
    }
  }

  /** So they are from the next places on. */
  lemma SameWordsNext(seed: Word, a: nat, seed': Word, b: nat)
    requires SameWords(seed, a, seed', b)
    ensures SameWords(seed, a + 1, seed', b + 1)
  {
    hide SameWord;
    var a', b' := a + 1, b + 1;
    forall i | 0 <= i < N ensures SameWord(seed, a', seed', b', i) {
      SameWordNext(seed, a, seed', b, i);
    }
  }

  /** And for ever. */
  lemma {:induction false} SameWordsOn(seed: Word, a: nat, seed': Word, b: nat, n: nat)
    requires SameWords(seed, a, seed', b)
    ensures SameWords(seed, a + n, seed', b + n)
  {
    hide SameWords;
    if n > 0 {
      SameWordsOn(seed, a, seed', b, n - 1);
      SameWordsNext(seed, a + n - 1, seed', b + n - 1);
    }
  }

  lemma TwoParts(x: Word, x': Word)
    requires HiBit(x) == HiBit(x') && LoBits(x) == LoBits(x')
    ensures x == x'
  {}

  lemma MixedParts(p: Word, q: Word, p': Word, q': Word)
    requires MixBits(p, q) == MixBits(p', q')
    ensures HiBit(p) == HiBit(p') && LoBits(q) == LoBits(q')
  {}

  lemma SameTwist(far: Word, s0: Word, s1: Word, t0: Word, t1: Word)
    requires Mixed(far, s0, s1) == Mixed(far, t0, t1)
    ensures Twist(s0, s1) == Twist(t0, t1)
  {
    hide Twist;
  }

  /** The word 624 places on and the one 397 places on tell the top bit here and the other bits next. */
  lemma PartsBack(seed: Word, a: nat, seed': Word, b: nat)
    requires Sequence(seed, a + N) == Sequence(seed', b + N) && Sequence(seed, a + M) == Sequence(seed', b + M)
    ensures HiBit(Sequence(seed, a)) == HiBit(Sequence(seed', b))
    ensures LoBits(Sequence(seed, a + 1)) == LoBits(Sequence(seed', b + 1))
  {
    hide Sequence, Mixed, Twist, Untwist, MixBits, HiBit, LoBits;
    var s0, s1, t0, t1 := Sequence(seed, a), Sequence(seed, a + 1), Sequence(seed', b), Sequence(seed', b + 1);
    SequenceStep(seed, a);
    SequenceStep(seed', b);
    SameTwist(Sequence(seed, a + M), s0, s1, t0, t1);
    TwistBack(s0, s1);
    TwistBack(t0, t1);
    MixedParts(s0, s1, t0, t1);
  }

  /** 624 equal words are preceded by equal words, short of the first word of a sequence. */
  lemma SameWordsBack(seed: Word, a: nat, seed': Word, b: nat)
    requires a > 0 && b > 0 && SameWords(seed, a + 1, seed', b + 1)
    ensures SameWords(seed, a, seed', b)
  {
    hide Sequence, HiBit, LoBits;
    SameWordsAt(seed, a + 1, seed', b + 1, N - 1);
    SameWordsAt(seed, a + 1, seed', b + 1, M - 1);
    SameWordsAt(seed, a + 1, seed', b + 1, N - 2);
    SameWordsAt(seed, a + 1, seed', b + 1, M - 2);
    PartsBack(seed, a, seed', b);
    PartsBack(seed, a - 1, seed', b - 1);
    TwoParts(Sequence(seed, a), Sequence(seed', b));
    forall i: nat | i < N ensures SameWord(seed, a, seed', b, i) {
      if i > 0 {
        SameWordsAt(seed, a + 1, seed', b + 1, i - 1);
        assert a + 1 + (i - 1) == a + i && b + 1 + (i - 1) == b + i;
      }
    }
  }

  lemma {:induction false} SameWordsFromStart(seed: Word, seed': Word, a: nat)
    requires a > 0 && SameWords(seed, a, seed', a)
    ensures SameWords(seed, 1, seed', 1)
  {
    hide SameWords;
    if a > 1 {
      SameWordsBack(seed, a - 1, seed', a - 1);
      SameWordsFromStart(seed, seed', a - 1);
    }
  }

  /** The same 624 numbers drawn in a row, after a draws from one seed and b from another. */
  ghost predicate SameDraws(seed: Word, a: nat, seed': Word, b: nat) {
    forall i :: 0 <= i < N ==> SameDraw(seed, a, seed', b, i)
  }

  ghost predicate SameDraw(seed: Word, a: nat, seed': Word, b: nat, i: nat) {
    Drawn(seed, a + i) == Drawn(seed', b + i)
  }

  lemma SameDrawWord(seed: Word, a: nat, seed': Word, b: nat, i: nat)
    requires SameDraw(seed, a, seed', b, i)
    ensures SameWord(seed, N + a, seed', N + b, i)
  {
    hide Sequence, Temper, Untemper;
    TemperBack(Sequence(seed, N + (a + i)));
    TemperBack(Sequence(seed', N + (b + i)));
    assert N + (a + i) == N + a + i && N + (b + i) == N + b + i;
  }

  lemma SameDrawsWords(seed: Word, a: nat, seed': Word, b: nat)
    requires SameDraws(seed, a, seed', b)
    ensures SameWords(seed, N + a, seed', N + b)
  {
    hide SameDraw, SameWord;
    var a', b' := N + a, N + b;
    forall i | 0 <= i < N ensures SameWord(seed, a', seed', b', i) {
      assert SameDraw(seed, a, seed', b, i);
      SameDrawWord(seed, a, seed', b, i);
    }
  }

  /** 624 numbers drawn in a row determine all later ones. */
  lemma DrawsDetermine(seed: Word, a: nat, seed': Word, b: nat, n: nat)
    requires SameDraws(seed, a, seed', b)
    ensures Drawn(seed, a + n) == Drawn(seed', b + n)
  {
    SameDrawsWords(seed, a, seed', b);
    hide Sequence, Temper, SameDraws, SameWords;
    SameWordsOn(seed, N + a, seed', N + b, n);
    SameWordsAt(seed, N + a + n, seed', N + b + n, 0);
    assert N + (a + n) == N + a + n + 0 && N + (b + n) == N + b + n + 0;
  }

  /** Drawn at a known place they determine the seed, up to its lowest bit, which has no influence. */
  lemma DrawsTellSeed(seed: Word, seed': Word, a: nat)
    requires SameDraws(seed, a, seed', a)
    ensures seed | 1 == seed' | 1
  {
    SameDrawsWords(seed, a, seed', a);
    hide SameDraws, SameWords, Congruential, Mixed;
    SameWordsFromStart(seed, seed', N + a);
    SameWordsAt(seed, 1, seed', 1, 0);
    assert Sequence(seed, 1) == Congruential(Sequence(seed, 0));
    assert Sequence(seed', 1) == Congruential(Sequence(seed', 0));
    CongruentialBack(Sequence(seed, 0));
    CongruentialBack(Sequence(seed', 0));
  }

  // ----- The first number of the default seed

  // Seeding steps in bulk, so that the 398th word of a known seed can be worked out.

  function Four(x: Word): Word { Congruential(Congruential(Congruential(Congruential(x)))) }

  function Sixteen(x: Word): Word { Four(Four(Four(Four(x)))) }

  function SixtyFour(x: Word): Word { Sixteen(Sixteen(Sixteen(Sixteen(x)))) }

  lemma SeedStep(seed: Word, k: nat)
    requires k + 1 < N
    ensures Sequence(seed, k + 1) == Congruential(Sequence(seed, k))
  {
    hide Congruential, Mixed;
  }

  lemma FourOn(seed: Word, k: nat)
    requires k + 4 < N
    ensures Sequence(seed, k + 4) == Four(Sequence(seed, k))
  {
    hide Congruential, Sequence;
    SeedStep(seed, k);
    SeedStep(seed, k + 1);
    SeedStep(seed, k + 2);
    SeedStep(seed, k + 3);
  }

  lemma SixteenOn(seed: Word, k: nat)
    requires k + 16 < N
    ensures Sequence(seed, k + 16) == Sixteen(Sequence(seed, k))
  {
    hide Sequence, Four;
    FourOn(seed, k);
    FourOn(seed, k + 4);
    FourOn(seed, k + 8);
    FourOn(seed, k + 12);
  }

  /** Sixty-four seeding steps from a known word. */
  lemma SeedsOn(seed: Word, k: nat, from: Word, to: Word)
    requires k + 64 < N && Sequence(seed, k) == from && SixtyFour(from) == to
    ensures Sequence(seed, k + 64) == to
  {
    hide Sequence, Sixteen;
    SixteenOn(seed, k);
    SixteenOn(seed, k + 16);
    SixteenOn(seed, k + 32);
    SixteenOn(seed, k + 48);
  }

  lemma Stride1()
    ensures SixtyFour(4357) == 3726226949
  {}

  lemma Stride2()
    ensures SixtyFour(3726226949) == 4067973893
  {}

  lemma Stride3()
    ensures SixtyFour(4067973893) == 572260357
  {}

  lemma Stride4()
    ensures SixtyFour(572260357) == 1376036101
  {}

  lemma Stride5()
    ensures SixtyFour(1376036101) == 1731348997
  {}

  lemma Stride6()
    ensures SixtyFour(1731348997) == 1185214213
  {}

  lemma Thirteen()
    ensures Four(Four(Four(Congruential(1185214213)))) == 61989553
  {}

  lemma ThirteenOn(seed: Word, k: nat)
    requires k + 13 < N
    ensures Sequence(seed, k + 13) == Four(Four(Four(Congruential(Sequence(seed, k)))))
  {
    hide Sequence, Four, Congruential;
    SeedStep(seed, k);
    FourOn(seed, k + 1);
    FourOn(seed, k + 5);
    FourOn(seed, k + 9);
  }

  lemma FirstWords()
    ensures Sequence(DEFAULT_SEED, 0) == 4357 && Sequence(DEFAULT_SEED, 1) == 300933633
  {
    hide Mixed;
    SeedStep(DEFAULT_SEED, 0);
  }

  /** The far word for the first reload. */
  lemma FarWord()
    ensures Sequence(DEFAULT_SEED, M) == 61989553
  {
    hide Sequence, SixtyFour, Four, Congruential;
    FirstWords();
    Stride1();
    SeedsOn(DEFAULT_SEED, 0, 4357, 3726226949);
    Stride2();
    SeedsOn(DEFAULT_SEED, 64, 3726226949, 4067973893);
    Stride3();
    SeedsOn(DEFAULT_SEED, 128, 4067973893, 572260357);
    Stride4();
    SeedsOn(DEFAULT_SEED, 192, 572260357, 1376036101);
    Stride5();
    SeedsOn(DEFAULT_SEED, 256, 1376036101, 1731348997);
    Stride6();
    SeedsOn(DEFAULT_SEED, 320, 1731348997, 1185214213);
    Thirteen();
    ThirteenOn(DEFAULT_SEED, 384);
  }

  /** The first number drawn after seeding with the default seed. */
  lemma FirstDraw()
    ensures Drawn(DEFAULT_SEED, 0) == 3510405877
  {
    FirstMixed();
    FirstTempered();
    hide Sequence, Mixed, Temper;
    FirstWords();
    FarWord();
    SequenceStep(DEFAULT_SEED, 0);
  }

  lemma FirstMixed()
    ensures Mixed(61989553, 4357, 300933633) == 2454627182
  {}

  lemma FirstTempered()
    ensures Temper(2454627182) == 3510405877
  {}

  class Generator {
    const state: array<Word>
    var next: nat
    var left: int
    ghost var seed: Word
    ghost var drawn: nat

    /** The first 624 words of the state are a stretch of the sequence. */
    ghost predicate HoldsFrom(base: nat)
      reads this, state
    {
      state.Length == N + 1 && forall i :: 0 <= i < N ==> state[i] == Sequence(seed, base + i)
    }

    /** Never seeded, freshly seeded, or somewhere inside a reloaded block. */
    ghost predicate Valid()
      reads this, state
    {
      state.Length == N + 1 &&
      if left == -1 then seed == DEFAULT_SEED && drawn == 0
      else if drawn == 0 then left == 0 && HoldsFrom(0)
      else
        0 <= left < N && next == N - left &&
        (drawn + left) % N == 0 && HoldsFrom(drawn + left)
    }

    constructor ()
      ensures Valid() && seed == DEFAULT_SEED && drawn == 0 && left == -1 && fresh(state)
    {
      state := new Word[N + 1](i => 0);
      next, left := 0, -1;
      seed, drawn := DEFAULT_SEED, 0;
    }

    method SeedMT(s: Word)
      requires state.Length == N + 1
      modifies this, state
      ensures Valid() && seed == s && drawn == 0 && left == 0 && HoldsFrom(0)
    {
      var x := s | 1;
      seed, drawn := s, 0;
      left := 0;
      state[0] := x;
      for j := 1 to N
        modifies state
        invariant x == Sequence(s, j - 1)
        invariant forall i :: 0 <= i < j ==> state[i] == Sequence(s, i)
      {
        hide Congruential, Mixed;
        x := Congruential(x);
        state[j] := x;
      }
    }

    /** The first i words are new, the others still those of was. */
    ghost predicate Reloading(was: seq<Word>, base: nat, i: nat)
      reads this, state
    {
      state.Length == |was| == N + 1 && i <= N &&
      (forall k :: 0 <= k < N ==> was[k] == Sequence(seed, base + k)) &&
      (forall k :: 0 <= k < i ==> state[k] == Sequence(seed, base + N + k)) &&
      forall k :: i <= k <= N ==> state[k] == was[k]
    }

    /** One word of the reload: far is the word that many places ahead, old or new. */
    method ReloadWord(i: nat, far: nat, s0: Word, s1: Word, ghost was: seq<Word>, ghost base: nat)
      requires i < N && far == (if i < N - M then i + M else i - (N - M)) && Reloading(was, base, i)
      requires s0 == was[i] && s1 == Sequence(seed, base + i + 1)
      modifies state
      ensures Reloading(was, base, i + 1)
    {
      hide Mixed, Sequence;
      SequenceStep(seed, base + i);
      assert state[far] == Sequence(seed, base + (i + M));
      state[i] := Mixed(state[far], s0, s1);
    }

    /** The three phases of the reload: each word is replaced only after its last use as an old word. */
    method ReloadBlock(ghost base: nat)
      requires HoldsFrom(base)
      modifies state
      ensures HoldsFrom(base + N)
    {
      hide Twist, Temper, Mixed, Sequence, Congruential;
      ghost var was := state[..];
      var s0, s1 := state[0], state[1];
      for i := 0 to N - M
        invariant Reloading(was, base, i) && s0 == was[i] && s1 == was[i + 1]
      {
        ReloadWord(i, i + M, s0, s1, was, base);
        s0, s1 := s1, state[i + 2];
      }
      for i := N - M to N - 1
        invariant Reloading(was, base, i) && s0 == was[i] && s1 == was[i + 1]
      {
        ReloadWord(i, i - (N - M), s0, s1, was, base);
        s0, s1 := s1, state[i + 2];
      }
      s1 := state[0];
      ReloadWord(N - 1, M - 1, s0, s1, was, base);
    }

    method ReloadMT() returns (r: Word)
      requires state.Length == N + 1
      requires left < -1 ==> seed == DEFAULT_SEED && drawn == 0
      requires left >= -1 ==> left == -1 && drawn % N == 0 && HoldsFrom(drawn)
      modifies this, state
      ensures Valid() && seed == old(seed) && drawn == old(drawn) + 1
      ensures r == Drawn(seed, old(drawn))
    {
      if left < -1 {
        SeedMT(DEFAULT_SEED);
      }
      hide Twist, Temper, Sequence, Mixed, Congruential;
      ghost var base := drawn;
      NextBlock(base);
      left, next := N - 1, 1;
      ReloadBlock(base);
      r := Temper(state[0]);
      drawn := drawn + 1;
      assert drawn + left == base + N;
    }

    /** Each call draws the next number of the sequence of the seed in force. */
    method RandomMT() returns (r: Word)
      requires Valid()
      modifies this, state
      ensures Valid() && seed == old(seed) && drawn == old(drawn) + 1
      ensures r == Drawn(seed, old(drawn))
    {
      hide Twist, Temper, Sequence;
      left := left - 1;
      if left < 0 {
        r := ReloadMT();
        return;
      }
      r := Temper(state[next]);
      next := next + 1;
      drawn := drawn + 1;
    }
  }
}
