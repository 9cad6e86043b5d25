/** The seeded random stream of the puzzle: the xmur3 string hash, whose first
    output seeds the mulberry32 generator. Every operation is 32-bit
    wrap-around arithmetic, so the model works on bv32, where `*` is the
    low 32 bits of the product (Math.imul), `>>` is the unsigned shift
    (>>>) and `^`, `|` are the bitwise operators. */
module Prng {

  /** A UTF-16 code unit, what charCodeAt reads from a string. */
  type CodeUnit = bv16

  /** The amount mulberry32 adds to its state on every call. */
  const Increment: bv32 := 0x6d2b79f5

  /** A JavaScript string: its UTF-16 code units, what charCodeAt and
      length read. */
  type JsString = seq<CodeUnit>

  // ----- xmur3 -----

  /** The hash state before any code unit is absorbed: it depends on the
      length of the string (taken mod 2^32 by the `^`). */
  function Xmur3Start(s: JsString): bv32 {
    1779033703 ^ ((|s| % 0x1_0000_0000) as bv32)
  }

  /** Absorbing one code unit: multiply, then rotate left by 13. */
  function AbsorbStep(h: bv32, ch: CodeUnit): bv32 {
    var x := (h ^ (ch as bv32)) * 3432918353;
    (x << 13) | (x >> 19)
  }

  /** The hash state after absorbing s, left to right, from h. */
  function Absorb(h: bv32, s: JsString): bv32
    decreases |s|
  {
    if s == [] then h else AbsorbStep(Absorb(h, s[..|s| - 1]), s[|s| - 1])
  }

  /** The state update of the closure xmur3 returns. */
  function Scramble(h: bv32): bv32 {
    var a := (h ^ (h >> 16)) * 2246822507;
    (a ^ (a >> 13)) * 3266489909
  }

  /** The value the xmur3 closure returns for the updated state h. */
  function Emit(h: bv32): bv32 {
    h ^ (h >> 16)
  }

  /** The mulberry32 seed derived from a seed string: the FIRST output of
      xmur3 over its code units. */
  function SeedState(s: JsString): bv32 {
    Emit(Scramble(Absorb(Xmur3Start(s), s)))
  }

  /** The xmur3 closure: the hash state lives in h. */
  class Xmur3 {
    var h: bv32

    constructor (str: JsString)
      ensures h == Absorb(Xmur3Start(str), str)
    {
      var x := Xmur3Start(str);
      for i := 0 to |str|
        invariant x == Absorb(Xmur3Start(str), str[..i])
      {
        assert str[..i + 1][..i] == str[..i];
        x := AbsorbStep(x, str[i]);
      }
      assert str[..|str|] == str;
      h := x;
    }

    /** One call of the returned closure. */
    method Next() returns (u: bv32)
      modifies this
      ensures h == Scramble(old(h)) && u == Emit(h)
    {
      h := Scramble(h);
      u := Emit(h);
    }
  }

  // ----- mulberry32 -----

  /** The output mulberry32 computes from its freshly advanced state t, as
      an unsigned 32-bit value u; the source returns the float u / 2^32.
      It is written through MixRounds, one round per assignment, rather
      than as three `var` bindings: the recursion keeps the verifier from
      expanding the bit-vector arithmetic wherever Mix occurs, which the
      stream lemmas cannot afford. Round 1 is the first assignment (the
      product with t | 1), round 2 the second (the one with t | 61), and
      round 3 the final xor-shift by 14 that is returned. */
  function Mix(t: bv32): bv32 {
    MixRounds(t, 3)
  }

  /** The value of the closure's local t after the first `round` of its
      three assignments, starting from the advanced state t. */
  function MixRounds(t: bv32, round: nat): bv32 {
    if round == 0 then t
    else
      var x := MixRounds(t, round - 1);
      if round == 1 then (x ^ (x >> 15)) * (x | 1)
      else if round == 2 then x ^ (x + (x ^ (x >> 7)) * (x | 61))
      else x ^ (x >> 14)
  }

  /** The state after n calls, starting from a. */
  function Advance(a: bv32, n: nat): bv32 {
    if n == 0 then a else Advance(a, n - 1) + Increment
  }

  /** The states a generator starting from a passes through in its first
      n calls. */
  function States(a: bv32, n: nat): (ss: seq<bv32>)
    ensures |ss| == n
  {
    if n == 0 then [] else States(a, n - 1) + [Advance(a, n)]
  }

  /** Entry i of the states is the state after i + 1 calls. */
  lemma {:induction false} StatesAt(a: bv32, n: nat, i: nat)
    requires i < n
    ensures States(a, n)[i] == Advance(a, i + 1)
  {
    if i < n - 1 {
      StatesAt(a, n - 1, i);
    }
  }

  /** The outputs of the calls whose advanced states are ss, in order. */
  function Outputs(ss: seq<bv32>): (us: seq<bv32>)
    ensures |us| == |ss|
  {
    seq(|ss|, j requires 0 <= j < |ss| => Mix(ss[j]))
  }

  /** Outputs are computed call by call: those of two runs of calls, one
      after the other, are the outputs of each run, one after the other. */
  lemma OutputsConcat(xs: seq<bv32>, ys: seq<bv32>)
    ensures Outputs(xs + ys) == Outputs(xs) + Outputs(ys)
  {
  }

  /** The first n outputs of a generator whose state is a. */
  function Stream(a: bv32, n: nat): (us: seq<bv32>)
    ensures |us| == n
  {
    Outputs(States(a, n))
  }

  /** Output i of a generator is mixed from its state after i + 1 calls,
      however many outputs are drawn after it. */
  lemma StreamAt(a: bv32, n: nat, i: nat)
    requires i < n
    ensures Stream(a, n)[i] == Mix(Advance(a, i + 1))
  {
    StatesAt(a, n, i);
  }

  /** n calls and then m more are n + m calls. */
  lemma {:induction false} AdvanceAdd(a: bv32, n: nat, m: nat)
    ensures Advance(Advance(a, n), m) == Advance(a, n + m)
  {
    if m > 0 {
      AdvanceAdd(a, n, m - 1);
    }
  }

  /** The states of n calls, then of m more calls from where they stopped,
      are the states of n + m calls. */
  lemma {:induction false} StatesConcat(a: bv32, n: nat, m: nat)
    ensures States(a, n) + States(Advance(a, n), m) == States(a, n + m)
  {
    if m > 0 {
      StatesConcat(a, n, m - 1);
      AdvanceAdd(a, n, m);
      assert States(a, n) + States(Advance(a, n), m)
          == (States(a, n) + States(Advance(a, n), m - 1)) + [Advance(a, n + m)];
    }
  }

  /** Drawing n outputs and then m more from the same generator gives the
      first n + m outputs: the stream does not depend on how it is split. */
  lemma StreamConcat(a: bv32, n: nat, m: nat)
    ensures Stream(a, n) + Stream(Advance(a, n), m) == Stream(a, n + m)
  {
    StatesConcat(a, n, m);
    OutputsConcat(States(a, n), States(Advance(a, n), m));
  }

  /** One more call appends the output of the state it advances to. */
  lemma StreamSnoc(a: bv32, n: nat)
    ensures Stream(a, n + 1) == Stream(a, n) + [Mix(Advance(a, n + 1))]
  {
    OutputsConcat(States(a, n), [Advance(a, n + 1)]);
  }

  /** The mulberry32 closure. Its state a is the JavaScript number that
      `a += 0x6d2b79f5` grows, kept modulo 2^32: every operation that reads
      it (`>>>`, `^`, `|`, Math.imul) reads it modulo 2^32. */
  class Mulberry32 {
    var a: bv32

    constructor (seed: bv32)
      ensures a == seed
    {
      a := seed;
    }

    /** One call of the closure: advance the state, then mix it. */
    method Next() returns (u: bv32)
      modifies this
      ensures a == old(a) + Increment && u == Mix(a)
    {
      a := a + Increment;
      u := Mix(a);
    }
  }

  /** Building the generator for a seed string. The source draws a fresh
      seed from Math.random when the string is empty; that seed is the
      parameter `fallback` here. */
  method Rnd(seed: JsString, fallback: JsString) returns (rng: Mulberry32, used: JsString)
    ensures used == if seed == [] then fallback else seed
    ensures fresh(rng) && rng.a == SeedState(used)
  {
    used := if seed == [] then fallback else seed;
    var hasher := new Xmur3(used);
    var h := hasher.Next();
    rng := new Mulberry32(h);
  }
}
