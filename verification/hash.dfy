/**
 * The string hash of main.c and the C-string conventions it relies on.
 *
 * The C code computes on `unsigned int`: every `int` operand that meets an
 * unsigned one is converted modulo 2^32 before the operation, and every
 * product is reduced modulo 2^32. `U32` writes that conversion out.
 */
module Hash {

  /** Number of buckets of the entity table. */
  const HASH_SIZE_ENT: nat := 113
  /** Multiplier handed to the hash by the entity table. */
  const HASH_MULTIPLIER: nat := 51
  /** Size of every name buffer, terminating NUL included. */
  const MAX_STRING_SIZE: nat := 100

  const TWO32: nat := 0x1_0000_0000

  /** Conversion of a C `int` value to `unsigned int` (reduction modulo 2^32). */
  function U32(x: int): (r: nat)
    ensures r < TWO32
    ensures (r - x) % TWO32 == 0
  {
    x % TWO32
  }

  /**
   * A name as the program stores it: a NUL-terminated string of 7-bit ASCII
   * characters, shorter than its buffer. Names are never empty, since the hash
   * reads their second character.
   */
  predicate ValidName(s: string)
  {
    1 <= |s| < MAX_STRING_SIZE && forall i :: 0 <= i < |s| ==> 0 < s[i] as int < 128
  }

  /** One loop iteration: `result = (mult * (c - '_' + result) % mod)`. */
  function Step(acc: nat, c: char, mult: int, mod: int): (r: nat)
    requires U32(mod) != 0
    ensures r < U32(mod)
  {
    U32(U32(mult) * U32(U32(c as int - '_' as int) + acc)) % U32(mod)
  }

  /**
   * The value the hash loop leaves in `result` after reading all of `s`:
   * the first character is only shifted by `'_'`, every later one goes
   * through `Step`. The final `% mod` is commented out in the source, so a
   * one-character name is never reduced.
   */
  function HashSpec(s: string, mult: int, mod: int): (r: nat)
    requires |s| >= 1 && U32(mod) != 0
    ensures r < TWO32
    ensures |s| >= 2 ==> r < U32(mod)
    ensures |s| == 1 ==> r == U32(s[0] as int - 95)
    decreases |s|
  {
    if |s| == 1 then U32(s[0] as int - '_' as int)
    else Step(HashSpec(s[..|s| - 1], mult, mod), s[|s| - 1], mult, mod)
  }

  /** The hash loop of main.c, one character per iteration. */
  method ComputeHash(s: string, mult: int, mod: int) returns (result: nat)
    requires |s| >= 1 && U32(mod) != 0
    requires forall i :: 0 <= i < |s| ==> s[i] != '\0'
    ensures result == HashSpec(s, mult, mod)
    ensures |s| >= 2 ==> result < U32(mod)
  {
    result := U32(s[0] as int - '_' as int);
    var i := 1;
    while i < |s|
      invariant 1 <= i <= |s|
      invariant result == HashSpec(s[..i], mult, mod)
    {
      assert s[..i + 1][..i] == s[..i];
      result := U32(U32(mult) * U32(U32(s[i] as int - '_' as int) + result)) % U32(mod);
      i := i + 1;
    }
    assert s[..i] == s;
  }

  /** Index of the entity-table bucket a name goes to. */
  function Bucket(name: string): (h: nat)
    requires |name| >= 1
    ensures |name| >= 2 ==> h < HASH_SIZE_ENT
  {
    HashSpec(name, HASH_MULTIPLIER, HASH_SIZE_ENT)
  }

  /** A name whose hash is a valid index into the 113-entry table. */
  predicate Indexable(name: string)
  {
    ValidName(name) && Bucket(name) < HASH_SIZE_ENT
  }

  /**
   * Every valid name of two or more characters has a bucket index; a
   * one-character name has one exactly when its character is not below '_'.
   */
  lemma IndexableIff(name: string)
    requires ValidName(name)
    ensures Indexable(name) <==> |name| >= 2 || name[0] >= '_'
  {
  }

  /** A one-character name below '_' hashes far outside the table: "A" gives 2^32 - 30. */
  lemma OneCharNameOutOfRange()
    ensures ValidName("A") && Bucket("A") == TWO32 - 30 && !Indexable("A")
  {
  }

  /**
   * The sum the hash loop forms, in exact arithmetic with no reduction:
   * Horner's rule over the characters shifted by '_', so the first two
   * characters both carry the highest power of the multiplier.
   */
  function ShiftedSum(s: string, mult: int): int
    requires |s| >= 1
    decreases |s|
  {
    if |s| == 1 then s[0] as int - '_' as int
    else mult * (s[|s| - 1] as int - '_' as int + ShiftedSum(s[..|s| - 1], mult))
  }

  /**
   * The sum the doc comment of hash describes: the ASCII value of the
   * character at position i weighted by the i-th power of the multiplier.
   */
  function DocSum(s: string, mult: int): int
  {
    if s == [] then 0 else s[0] as int + mult * DocSum(s[1..], mult)
  }


  /** One step with no wrap-around: a small accumulator and a character not below '_'. */
  lemma StepNoWrap(a: nat, c: char)
    requires a < HASH_SIZE_ENT && '_' <= c < 128 as char
    ensures Step(a, c, HASH_MULTIPLIER, HASH_SIZE_ENT) == (51 * (c as int - 95 + a)) % 113
  {
    var x := c as int - 95;
    assert U32(x) == x && U32(x + a) == x + a;
    assert U32(51) == 51 && U32(113) == 113;
    assert 0 <= 51 * (x + a) < TWO32;
    assert U32(51 * (x + a)) == 51 * (x + a);
  }

  /** Reducing the accumulator modulo 113 first does not change the step's remainder. */
  lemma ReduceFirst(x: int, w: int)
    ensures (51 * (x + w)) % 113 == (51 * (x + w % 113)) % 113
  {
    var q, r := w / 113, w % 113;
    assert w == 113 * q + r;
    var y := 51 * (x + r);
    var d, e := y / 113, y % 113;
    assert y == 113 * d + e && 0 <= e < 113;
    assert 51 * (x + w) == 113 * (d + 51 * q) + e;
  }

  /**
   * As long as no character lies below '_', nothing wraps around and the
   * bucket of a name of two or more characters is its shifted sum modulo 113.
   */
  lemma {:induction false} BucketIsShiftedSum(s: string)
    requires |s| >= 2
    requires forall i :: 0 <= i < |s| ==> '_' <= s[i] < 128 as char
    ensures Bucket(s) == ShiftedSum(s, HASH_MULTIPLIER) % HASH_SIZE_ENT
    decreases |s|
  {
    var p := s[..|s| - 1];
    var c := s[|s| - 1];
    var a := HashSpec(p, HASH_MULTIPLIER, HASH_SIZE_ENT);
    var w := ShiftedSum(p, HASH_MULTIPLIER);
    if |s| == 2 {
      assert a == p[0] as int - 95 == w;
    } else {
      BucketIsShiftedSum(p);
      ReduceFirst(c as int - 95, w);
    }
    StepNoWrap(a, c);
  }

  /**
   * A character below '_' makes `c - '_'` wrap around modulo 2^32 and the
   * bucket departs from the shifted sum: "AB" goes to bucket 58, where the
   * shifted sum modulo 113 is 42.
   */
  lemma WrapAroundDepartsFromShiftedSum()
    ensures Bucket("AB") == 58 && ShiftedSum("AB", HASH_MULTIPLIER) % HASH_SIZE_ENT == 42
  {
    assert "AB"[..1] == "A";
    var a := HashSpec("A", HASH_MULTIPLIER, HASH_SIZE_ENT);
    assert a == TWO32 - 30;
    assert U32('B' as int - '_' as int) == TWO32 - 29;
    assert U32(TWO32 - 29 + a) == TWO32 - 59;
    assert U32(U32(51) * (TWO32 - 59)) == TWO32 - 3009;
    assert (TWO32 - 3009) % U32(113) == 58;
    assert ShiftedSum("AB", HASH_MULTIPLIER) == -3009;
  }

  /**
   * The hash is not the sum its doc comment describes, reduced modulo 113:
   * "__" goes to bucket 0, while that sum is 95 + 95 * 51 = 4940, which is
   * 81 modulo 113.
   */
  lemma BucketDepartsFromDocComment()
    ensures Bucket("__") == 0 && DocSum("__", HASH_MULTIPLIER) % HASH_SIZE_ENT == 81
  {
    assert "__"[..1] == "_";
    assert HashSpec("_", HASH_MULTIPLIER, HASH_SIZE_ENT) == 0;
    assert "__"[1..] == "_" && "_"[1..] == [];
    assert DocSum("__", HASH_MULTIPLIER) == 4940;
  }
}
