/** The presence bitmap: the choice of mask representation from the field
    count, the three bit-operation generators, and the meaning of the
    operations they emit (OR-set, AND-NOT-clear, AND-test) on the mask. */
module PresenceBitmap {
  import opened Constants

  /** The Java type of `_presenceMask0_`: `int`, `long`, or `long[words]`. */
  datatype Representation = IntMask | LongMask | LongArrayMask(words: nat)

  /** Mask declaration of `generateBuilder`. */
  function PlanMask(fieldCount: nat): Representation
  {
    if fieldCount <= 32 then IntMask
    else if fieldCount <= 64 then LongMask
    else LongArrayMask((fieldCount + 63) / 64)
  }

  /** Which bit one emitted statement touches: bit `shift` of the single
      `int` or `long` word, or bit `offset` of array word `index`. Java masks
      an `int` shift distance to its low 5 bits and a `long` one to its low 6,
      so the shift is held at that width. */
  datatype BitTarget =
    | IntBit(intShift: bv5)
    | LongBit(longShift: bv6)
    | WordBit(index: nat, offset: bv6)

  /** The three kinds of emitted code: `|= bit`, `&= ~bit` and `(mask & bit) != 0`. */
  datatype BitCode =
    | OrAssign(target: BitTarget)
    | AndNotAssign(target: BitTarget)
    | TestNonZero(target: BitTarget)

  /** `1 << bitIndex`, `1L << bitIndex`, or `[bitIndex / 64]` with
      `1L << (bitIndex % 64)`, for the given thresholds and word width. */
  function AddressBit(bitIndex: nat, totalFields: nat, intLimit: nat, longLimit: nat, width: nat): BitTarget
    requires width == 64
  {
    if totalFields <= intLimit then IntBit((bitIndex % 32) as bv5)
    else if totalFields <= longLimit then LongBit((bitIndex % 64) as bv6)
    else WordBit(bitIndex / width, (bitIndex % width) as bv6)
  }

  /** `PresenceBitmapHelper.generateSetBitStatement`. */
  function GenerateSetBitStatement(bitIndex: nat, totalFields: nat): BitCode
  {
    OrAssign(AddressBit(bitIndex, totalFields, IntBitmapThreshold, LongBitmapThreshold, BitsPerLong))
  }

  /** `PresenceBitmapHelper.generateCheckBitExpression`. */
  function GenerateCheckBitExpression(bitIndex: nat, totalFields: nat): BitCode
  {
    TestNonZero(AddressBit(bitIndex, totalFields, IntBitmapThreshold, LongBitmapThreshold, BitsPerLong))
  }

  /** `PresenceBitmapHelper.generateClearBitStatement`. */
  function GenerateClearBitStatement(bitIndex: nat, totalFields: nat): BitCode
  {
    AndNotAssign(AddressBit(bitIndex, totalFields, IntBitmapThreshold, LongBitmapThreshold, BitsPerLong))
  }

  // The processor's own private copies of the three generators, which spell
  // the thresholds and the word width as the literals 32 and 64.

  function ProcessorSetBitStatement(bitIndex: nat, totalFields: nat): BitCode
  {
    OrAssign(AddressBit(bitIndex, totalFields, 32, 64, 64))
  }

  function ProcessorCheckBitExpression(bitIndex: nat, totalFields: nat): BitCode
  {
    TestNonZero(AddressBit(bitIndex, totalFields, 32, 64, 64))
  }

  function ProcessorClearBitStatement(bitIndex: nat, totalFields: nat): BitCode
  {
    AndNotAssign(AddressBit(bitIndex, totalFields, 32, 64, 64))
  }

  /** The runtime value of `_presenceMask0_`. The `long[]` is private to one
      builder and never handed out, so it is held as a sequence value. */
  datatype Mask = IntBits(intBits: bv32) | LongBits(longBits: bv64) | LongWords(words: seq<bv64>)

  /** Java's initial value for the declared mask: `0`, `0L` or `new long[words]`. */
  function InitialMask(r: Representation): Mask
  {
    match r
    case IntMask => IntBits(0)
    case LongMask => LongBits(0)
    case LongArrayMask(k) => LongWords(seq(k, _ => 0))
  }

  /** The mask has the shape declared for `fieldCount` fields. */
  predicate Shaped(m: Mask, fieldCount: nat)
  {
    match PlanMask(fieldCount)
    case IntMask => m.IntBits?
    case LongMask => m.LongBits?
    case LongArrayMask(k) => m.LongWords? && |m.words| == k
  }

  /** The emitted code is well typed against the mask: an `int` shift on an
      `int` mask, a `long` shift on a `long` mask, and an array index below the
      array length. */
  predicate Fits(t: BitTarget, m: Mask)
  {
    match t
    case IntBit(_) => m.IntBits?
    case LongBit(_) => m.LongBits?
    case WordBit(k, _) => m.LongWords? && k < |m.words|
  }

  /** `(1 << s)` on an `int`. */
  function IntBitValue(s: bv5): bv32
  {
    (1 as bv32) << s
  }

  /** `(1L << s)` on a `long`. */
  function LongBitValue(s: bv6): bv64
  {
    (1 as bv64) << s
  }

  /** Effect of an emitted `|=` or `&= ~` statement on the mask. */
  function Execute(c: BitCode, m: Mask): Mask
    requires !c.TestNonZero? && Fits(c.target, m)
  {
    match c.target
    case IntBit(s) =>
      IntBits(if c.OrAssign? then m.intBits | IntBitValue(s) else m.intBits & !IntBitValue(s))
    case LongBit(s) =>
      LongBits(if c.OrAssign? then m.longBits | LongBitValue(s) else m.longBits & !LongBitValue(s))
    case WordBit(k, off) =>
      var w := m.words[k];
      LongWords(m.words[k := if c.OrAssign? then w | LongBitValue(off) else w & !LongBitValue(off)])
  }

  /** Value of an emitted `(mask & bit) != 0` test. */
  function Evaluate(c: BitCode, m: Mask): bool
    requires c.TestNonZero? && Fits(c.target, m)
  {
    match c.target
    case IntBit(s) => m.intBits & IntBitValue(s) != 0
    case LongBit(s) => m.longBits & LongBitValue(s) != 0
    case WordBit(k, off) => m.words[k] & LongBitValue(off) != 0
  }

  /** Boundary cases of the representation choice and the word count. */
  lemma PlanMaskBoundaries(n: nat)
    ensures PlanMask(n).IntMask? <==> n <= 32
    ensures PlanMask(n).LongMask? <==> 33 <= n <= 64
    ensures PlanMask(n).LongArrayMask? <==> n > 64
    ensures PlanMask(n).LongArrayMask? ==>
              PlanMask(n).words * 64 >= n && (PlanMask(n).words - 1) * 64 < n
    ensures PlanMask(32) == IntMask && PlanMask(33) == LongMask
    ensures PlanMask(64) == LongMask && PlanMask(65) == LongArrayMask(2)
  {
  }

  /** The three generators address the same bit, and the processor's private
      copies emit the same code as the helper's. */
  lemma GeneratorsAgree(i: nat, n: nat)
    ensures GenerateSetBitStatement(i, n).target == GenerateCheckBitExpression(i, n).target
    ensures GenerateSetBitStatement(i, n).target == GenerateClearBitStatement(i, n).target
    ensures ProcessorSetBitStatement(i, n) == GenerateSetBitStatement(i, n)
    ensures ProcessorCheckBitExpression(i, n) == GenerateCheckBitExpression(i, n)
    ensures ProcessorClearBitStatement(i, n) == GenerateClearBitStatement(i, n)
  {
  }

  /** Which bit field `i` of `n` owns: the ordinal itself for one word, the
      pair (i / 64, i % 64) for the array. */
  lemma BitIndexing(i: nat, n: nat)
    requires i < n
    ensures n <= 32 ==> GenerateSetBitStatement(i, n).target == IntBit(i as bv5)
    ensures 32 < n <= 64 ==> GenerateSetBitStatement(i, n).target == LongBit(i as bv6)
    ensures n > 64 ==> GenerateSetBitStatement(i, n).target == WordBit(i / 64, (i % 64) as bv6)
  {
  }

  /** For every field ordinal `i < n`, the emitted code fits every mask of the
      declared shape: the word index stays below `(n + 63) / 64`. */
  lemma {:induction false} TargetFits(i: nat, n: nat, m: Mask)
    requires i < n && Shaped(m, n)
    ensures Fits(GenerateSetBitStatement(i, n).target, m)
  {
    if n > 64 {
      var k := (n + 63) / 64;
      assert i / 64 * 64 <= i;
      assert k * 64 > n - 64;
      assert i / 64 < k;
    }
  }

  /** Distinct ordinals below `n` address distinct bits. */
  lemma {:induction false} TargetInjective(i: nat, j: nat, n: nat)
    requires i < n && j < n && i != j
    ensures GenerateSetBitStatement(i, n).target != GenerateSetBitStatement(j, n).target
  {
    if n <= 32 {
      SmallInjective5(i, j);
    } else if n <= 64 {
      SmallInjective6(i, j);
    } else if i / 64 == j / 64 {
      SmallInjective6(i % 64, j % 64);
    }
  }

  lemma SmallInjective5(i: nat, j: nat)
    requires i < 32 && j < 32 && i != j
    ensures (i % 32) as bv5 != (j % 32) as bv5
  {
  }

  lemma SmallInjective6(i: nat, j: nat)
    requires i < 64 && j < 64 && i != j
    ensures (i % 64) as bv6 != (j % 64) as bv6
  {
  }

  /** The initial mask has the declared shape and no bit set. */
  lemma InitialMaskClear(i: nat, n: nat)
    requires i < n
    ensures Shaped(InitialMask(PlanMask(n)), n)
    ensures Fits(GenerateCheckBitExpression(i, n).target, InitialMask(PlanMask(n)))
    ensures !Evaluate(GenerateCheckBitExpression(i, n), InitialMask(PlanMask(n)))
  {
    TargetFits(i, n, InitialMask(PlanMask(n)));
  }

  // Bit-level laws, one representation and one fact at a time: the solver
  // handles each shift separately far better than all of them together.
  lemma IntSetTests(t: BitTarget, m: Mask)
    requires t.IntBit? && Fits(t, m)
    ensures Evaluate(TestNonZero(t), Execute(OrAssign(t), m))
  {
  }
  lemma IntClearTests(t: BitTarget, m: Mask)
    requires t.IntBit? && Fits(t, m)
    ensures !Evaluate(TestNonZero(t), Execute(AndNotAssign(t), m))
  {
  }
  lemma IntSetIdempotent(t: BitTarget, m: Mask)
    requires t.IntBit? && Fits(t, m)
    ensures Execute(OrAssign(t), Execute(OrAssign(t), m)) == Execute(OrAssign(t), m)
  {
  }
  lemma IntClearIdempotent(t: BitTarget, m: Mask)
    requires t.IntBit? && Fits(t, m)
    ensures Execute(AndNotAssign(t), Execute(AndNotAssign(t), m)) == Execute(AndNotAssign(t), m)
  {
  }
  lemma IntSetFrame(t: BitTarget, u: BitTarget, m: Mask)
    requires t.IntBit? && Fits(t, m) && Fits(u, m) && t != u
    ensures Evaluate(TestNonZero(u), Execute(OrAssign(t), m)) == Evaluate(TestNonZero(u), m)
  {
  }
  lemma IntClearFrame(t: BitTarget, u: BitTarget, m: Mask)
    requires t.IntBit? && Fits(t, m) && Fits(u, m) && t != u
    ensures Evaluate(TestNonZero(u), Execute(AndNotAssign(t), m)) == Evaluate(TestNonZero(u), m)
  {
  }
  lemma LongSetTests(t: BitTarget, m: Mask)
    requires t.LongBit? && Fits(t, m)
    ensures Evaluate(TestNonZero(t), Execute(OrAssign(t), m))
  {
  }
  lemma LongClearTests(t: BitTarget, m: Mask)
    requires t.LongBit? && Fits(t, m)
    ensures !Evaluate(TestNonZero(t), Execute(AndNotAssign(t), m))
  {
  }
  lemma LongSetIdempotent(t: BitTarget, m: Mask)
    requires t.LongBit? && Fits(t, m)
    ensures Execute(OrAssign(t), Execute(OrAssign(t), m)) == Execute(OrAssign(t), m)
  {
  }
  lemma LongClearIdempotent(t: BitTarget, m: Mask)
    requires t.LongBit? && Fits(t, m)
    ensures Execute(AndNotAssign(t), Execute(AndNotAssign(t), m)) == Execute(AndNotAssign(t), m)
  {
  }
  lemma LongSetFrame(t: BitTarget, u: BitTarget, m: Mask)
    requires t.LongBit? && Fits(t, m) && Fits(u, m) && t != u
    ensures Evaluate(TestNonZero(u), Execute(OrAssign(t), m)) == Evaluate(TestNonZero(u), m)
  {
  }
  lemma LongClearFrame(t: BitTarget, u: BitTarget, m: Mask)
    requires t.LongBit? && Fits(t, m) && Fits(u, m) && t != u
    ensures Evaluate(TestNonZero(u), Execute(AndNotAssign(t), m)) == Evaluate(TestNonZero(u), m)
  {
  }
  lemma WordSetTests(t: BitTarget, m: Mask)
    requires t.WordBit? && Fits(t, m)
    ensures Evaluate(TestNonZero(t), Execute(OrAssign(t), m))
  {
  }
  lemma WordClearTests(t: BitTarget, m: Mask)
    requires t.WordBit? && Fits(t, m)
    ensures !Evaluate(TestNonZero(t), Execute(AndNotAssign(t), m))
  {
  }
  lemma WordSetIdempotent(t: BitTarget, m: Mask)
    requires t.WordBit? && Fits(t, m)
    ensures Execute(OrAssign(t), Execute(OrAssign(t), m)) == Execute(OrAssign(t), m)
  {
  }
  lemma WordClearIdempotent(t: BitTarget, m: Mask)
    requires t.WordBit? && Fits(t, m)
    ensures Execute(AndNotAssign(t), Execute(AndNotAssign(t), m)) == Execute(AndNotAssign(t), m)
  {
  }
  lemma WordSetFrame(t: BitTarget, u: BitTarget, m: Mask)
    requires t.WordBit? && Fits(t, m) && Fits(u, m) && t != u
    ensures Evaluate(TestNonZero(u), Execute(OrAssign(t), m)) == Evaluate(TestNonZero(u), m)
  {
  }
  lemma WordClearFrame(t: BitTarget, u: BitTarget, m: Mask)
    requires t.WordBit? && Fits(t, m) && Fits(u, m) && t != u
    ensures Evaluate(TestNonZero(u), Execute(AndNotAssign(t), m)) == Evaluate(TestNonZero(u), m)
  {
  }
  /** Executing `|=` on a target makes its test true, `&= ~` makes it false,
      and each is idempotent. */
  lemma {:induction false} TargetSetClear(t: BitTarget, m: Mask)
    requires Fits(t, m)
    ensures Fits(t, Execute(OrAssign(t), m)) && Evaluate(TestNonZero(t), Execute(OrAssign(t), m))
    ensures Fits(t, Execute(AndNotAssign(t), m)) && !Evaluate(TestNonZero(t), Execute(AndNotAssign(t), m))
    ensures Execute(OrAssign(t), Execute(OrAssign(t), m)) == Execute(OrAssign(t), m)
    ensures Execute(AndNotAssign(t), Execute(AndNotAssign(t), m)) == Execute(AndNotAssign(t), m)
  {
    match t
    case IntBit(_) =>
      IntSetTests(t, m);
      IntClearTests(t, m);
      IntSetIdempotent(t, m);
      IntClearIdempotent(t, m);
    case LongBit(_) =>
      LongSetTests(t, m);
      LongClearTests(t, m);
      LongSetIdempotent(t, m);
      LongClearIdempotent(t, m);
    case WordBit(_, _) =>
      WordSetTests(t, m);
      WordClearTests(t, m);
      WordSetIdempotent(t, m);
      WordClearIdempotent(t, m);
  }

  /** Executing code on one target leaves the test of any other target unchanged. */
  lemma {:induction false} TargetFrame(t: BitTarget, u: BitTarget, m: Mask)
    requires Fits(t, m) && Fits(u, m) && t != u
    ensures Fits(u, Execute(OrAssign(t), m)) && Fits(u, Execute(AndNotAssign(t), m))
    ensures Evaluate(TestNonZero(u), Execute(OrAssign(t), m)) == Evaluate(TestNonZero(u), m)
    ensures Evaluate(TestNonZero(u), Execute(AndNotAssign(t), m)) == Evaluate(TestNonZero(u), m)
  {
    match t
    case IntBit(_) =>
      IntSetFrame(t, u, m);
      IntClearFrame(t, u, m);
    case LongBit(_) =>
      LongSetFrame(t, u, m);
      LongClearFrame(t, u, m);
    case WordBit(_, _) =>
      WordSetFrame(t, u, m);
      WordClearFrame(t, u, m);
  }

  // Presence operations on a mask of the shape declared for n fields.

  function SetPresent(m: Mask, i: nat, n: nat): Mask
    requires i < n && Shaped(m, n)
  {
    TargetFits(i, n, m);
    Execute(GenerateSetBitStatement(i, n), m)
  }

  function ClearPresent(m: Mask, i: nat, n: nat): Mask
    requires i < n && Shaped(m, n)
  {
    TargetFits(i, n, m);
    Execute(GenerateClearBitStatement(i, n), m)
  }

  function IsPresent(m: Mask, i: nat, n: nat): bool
    requires i < n && Shaped(m, n)
  {
    TargetFits(i, n, m);
    Evaluate(GenerateCheckBitExpression(i, n), m)
  }

  /** Executing any fitting code keeps the declared shape. */
  lemma ExecuteShaped(c: BitCode, m: Mask, n: nat)
    requires !c.TestNonZero? && Fits(c.target, m) && Shaped(m, n)
    ensures Shaped(Execute(c, m), n)
  {
  }

  /** Set and clear keep the declared shape; after set the bit tests true,
      after clear it tests false; both are idempotent. */
  lemma {:induction false} SetClearTest(m: Mask, i: nat, n: nat)
    requires i < n && Shaped(m, n)
    ensures Shaped(SetPresent(m, i, n), n) && IsPresent(SetPresent(m, i, n), i, n)
    ensures Shaped(ClearPresent(m, i, n), n) && !IsPresent(ClearPresent(m, i, n), i, n)
    ensures Shaped(SetPresent(m, i, n), n) && SetPresent(SetPresent(m, i, n), i, n) == SetPresent(m, i, n)
    ensures Shaped(ClearPresent(m, i, n), n) && ClearPresent(ClearPresent(m, i, n), i, n) == ClearPresent(m, i, n)
  {
    TargetFits(i, n, m);
    var t := GenerateSetBitStatement(i, n).target;
    assert GenerateClearBitStatement(i, n) == AndNotAssign(t);
    assert GenerateCheckBitExpression(i, n) == TestNonZero(t);
    ExecuteShaped(OrAssign(t), m, n);
    ExecuteShaped(AndNotAssign(t), m, n);
    TargetSetClear(t, m);
  }

  /** Set and clear of field `i` leave every other field's bit unchanged. */
  lemma {:induction false} SetClearFrame(m: Mask, i: nat, j: nat, n: nat)
    requires i < n && j < n && i != j && Shaped(m, n)
    ensures Shaped(SetPresent(m, i, n), n) && IsPresent(SetPresent(m, i, n), j, n) == IsPresent(m, j, n)
    ensures Shaped(ClearPresent(m, i, n), n) && IsPresent(ClearPresent(m, i, n), j, n) == IsPresent(m, j, n)
  {
    TargetFits(i, n, m);
    TargetFits(j, n, m);
    var t := GenerateSetBitStatement(i, n).target;
    var u := GenerateSetBitStatement(j, n).target;
    assert GenerateClearBitStatement(i, n) == AndNotAssign(t);
    assert GenerateCheckBitExpression(j, n) == TestNonZero(u);
    TargetInjective(i, j, n);
    ExecuteShaped(OrAssign(t), m, n);
    ExecuteShaped(AndNotAssign(t), m, n);
    TargetFrame(t, u, m);
  }

  /** On the array representation, set and clear change only word `i / 64`. */
  lemma OtherWordsUnchanged(m: Mask, i: nat, n: nat, k: nat)
    requires i < n && Shaped(m, n) && n > 64 && k < |m.words| && k != i / 64
    ensures SetPresent(m, i, n).words[k] == m.words[k]
    ensures ClearPresent(m, i, n).words[k] == m.words[k]
  {
  }

  /** A schema of 65 fields uses two words, and setting field 64 sets
      bit 0 of word 1 only. */
  lemma SixtyFiveFields()
    ensures PlanMask(65) == LongArrayMask(2)
    ensures GenerateSetBitStatement(64, 65) == OrAssign(WordBit(1, 0))
    ensures SetPresent(InitialMask(PlanMask(65)), 64, 65) == LongWords([0, 1])
  {
    assert InitialMask(PlanMask(65)).words == [0, 0];
    assert LongBitValue(0) == 1;
  }
}
