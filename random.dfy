/** The seedable multiply-with-carry generator of km_para.c: two unsigned 32-bit state
    words, reseeded by `srandnum` and advanced by `randnum`. Unsigned C arithmetic is written
    out modulo 2^32: `x & 65535` is `x % 65536`, `x >> 16` is `x / 65536` and `x << 16` is
    `(x * 65536) % 2^32`. */
module Random {

  const Modulus: int := 0x1_0000_0000

  /** An unsigned 32-bit word. */
  type Word = x: int | 0 <= x < 0x1_0000_0000

  /** The values the state words hold before any reseeding, and the fallbacks used when a
      seed transform yields zero. */
  const DefaultW: Word := 521288629
  const DefaultZ: Word := 362436069

  datatype State = State(w: Word, z: Word)

  /** `srandnum`: the seed is multiplied as a C int and reinterpreted as unsigned, i.e.
      taken modulo 2^32 (Dafny's % never yields a negative value); a zero word is replaced
      by its fallback. */
  function SeedWord(seed: int, factor: int, fallback: Word): Word
  {
    var x := (seed * factor) % Modulus;
    if x != 0 then x else fallback
  }

  function Seeded(seed: int): State
  {
    State(SeedWord(seed, 104623, DefaultW), SeedWord(seed, 48947, DefaultZ))
  }

  /** Reseeding never leaves a zero word: each word is the seed transform modulo 2^32, or
      the fallback exactly when that transform is zero. */
  lemma SeededNonzero(seed: int)
    ensures Seeded(seed).w != 0 && Seeded(seed).z != 0
    ensures (seed * 104623) % Modulus != 0 ==> Seeded(seed).w == (seed * 104623) % Modulus
    ensures (seed * 104623) % Modulus == 0 ==> Seeded(seed).w == 521288629
    ensures (seed * 48947) % Modulus != 0 ==> Seeded(seed).z == (seed * 48947) % Modulus
    ensures (seed * 48947) % Modulus == 0 ==> Seeded(seed).z == 362436069
  {
  }

  /** One multiply-with-carry update of a state word, in unsigned 32-bit arithmetic. */
  function Mwc(x: Word, multiplier: int): Word
  {
    (multiplier * (x % 65536) + x / 65536) % Modulus
  }

  /** The unsigned update of both words, as `randnum` performs it. */
  function Step(s: State): State
  {
    State(Mwc(s.w, 18000), Mwc(s.z, 36969))
  }

  /** The word `randnum` returns once the state has been updated to s. */
  function Output(s: State): Word
  {
    ((s.z * 65536) % Modulus + s.w) % Modulus
  }

  /** The multiply-with-carry update never wraps around for either multiplier, and it maps a
      word to zero exactly when the word is zero. */
  lemma MwcNoWrap(x: Word, multiplier: int)
    requires multiplier == 18000 || multiplier == 36969
    ensures 0 <= multiplier * (x % 65536) + x / 65536 < Modulus
    ensures Mwc(x, multiplier) == multiplier * (x % 65536) + x / 65536
    ensures Mwc(x, multiplier) == 0 <==> x == 0
  {
    var lo, hi := x % 65536, x / 65536;
    assert x == 65536 * hi + lo;
    assert 0 <= lo < 65536 && 0 <= hi < 65536;
    assert multiplier * lo <= multiplier * 65535;
  }

  /** The state after k calls to `randnum`. */
  function StateAfter(s: State, k: nat): State
  {
    if k == 0 then s else Step(StateAfter(s, k - 1))
  }

  /** The value returned by call number k (counting from 0) to `randnum` from state s. */
  function Draw(s: State, k: nat): Word
  {
    Output(StateAfter(s, k + 1))
  }

  /** Drawing a numbers and then b more leaves the state of drawing a + b numbers. */
  lemma {:induction false} StateAfterAdd(s: State, a: nat, b: nat)
    ensures StateAfter(StateAfter(s, a), b) == StateAfter(s, a + b)
  {
    if b > 0 {
      StateAfterAdd(s, a, b - 1);
    }
  }

  /** A state with both words nonzero keeps them nonzero however many numbers are drawn;
      in particular every state reached from a seed is nondegenerate. */
  lemma {:induction false} StaysNonzero(s: State, k: nat)
    requires s.w != 0 && s.z != 0
    ensures StateAfter(s, k).w != 0 && StateAfter(s, k).z != 0
  {
    if k > 0 {
      StaysNonzero(s, k - 1);
      MwcNoWrap(StateAfter(s, k - 1).w, 18000);
      MwcNoWrap(StateAfter(s, k - 1).z, 36969);
    }
  }

  lemma SeededStreamNonzero(seed: int, k: nat)
    ensures StateAfter(Seeded(seed), k).w != 0 && StateAfter(Seeded(seed), k).z != 0
  {
    SeededNonzero(seed);
    StaysNonzero(Seeded(seed), k);
  }

  /** The two global state words `randum_w` and `randum_z`. */
  class Generator {
    var w: Word
    var z: Word

    function Current(): State
      reads this
    {
      State(w, z)
    }

    /** The words as statically initialised, before any call to `srandnum`. */
    constructor ()
      ensures Current() == State(DefaultW, DefaultZ)
    {
      w := DefaultW;
      z := DefaultZ;
    }

    /** `srandnum`. */
    method Reseed(seed: int)
      modifies this
      ensures Current() == Seeded(seed)
    {
      var x := (seed * 104623) % Modulus;
      w := if x != 0 then x else DefaultW;
      x := (seed * 48947) % Modulus;
      z := if x != 0 then x else DefaultZ;
    }

    /** `randnum`: the new words are computed without wrap-around, and the result combines
        them; the result depends on nothing but the state. */
    method Next() returns (u: Word)
      modifies this
      ensures Current() == Step(old(Current()))
      ensures u == Output(Current())
    {
      MwcNoWrap(z, 36969);
      MwcNoWrap(w, 18000);
      z := 36969 * (z % 65536) + z / 65536;
      w := 18000 * (w % 65536) + w / 65536;
      u := ((z * 65536) % Modulus + w) % Modulus;
    }
  }
}
