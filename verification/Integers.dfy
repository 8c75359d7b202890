/** Go's fixed-width integers, where the model cannot do without them. */
module Integers {

  const TWO31 := 0x8000_0000
  const TWO63 := 0x8000_0000_0000_0000
  const TWO64 := 0x1_0000_0000_0000_0000

  /** Two's complement: the value congruent to `x` modulo 2^64 that an int64 can hold. */
  function Int64(x: int): (r: int)
    ensures InInt64(r)
    decreases if x < 0 then -x else x + 1
  {
    if x >= TWO63 then Int64(x - TWO64) else if x < -TWO63 then Int64(x + TWO64) else x
  }

  /** The same for int32. */
  function Int32(x: int): (r: int)
    ensures -TWO31 <= r < TWO31
    decreases if x < 0 then -x else x + 1
  {
    if x >= TWO31 then Int32(x - 2 * TWO31) else if x < -TWO31 then Int32(x + 2 * TWO31) else x
  }

  predicate InInt64(x: int) { -TWO63 <= x < TWO63 }

  lemma {:induction false} Int64Period(x: int)
    ensures Int64(x + TWO64) == Int64(x)
    decreases if x < 0 then -x else x + 1
  {
    if x < -TWO63 - TWO64 {
      Int64Period(x + TWO64);
    }
  }

  /** Adding in int64 as one goes gives the int64 value of the exact sum. */
  lemma {:induction false} Int64Sum(x: int, y: int)
    ensures Int64(Int64(x) + y) == Int64(x + y)
    decreases if x < 0 then -x else x + 1
  {
    if x >= TWO63 {
      Int64Sum(x - TWO64, y);
      Int64Period(x - TWO64 + y);
    } else if x < -TWO63 {
      Int64Sum(x + TWO64, y);
      Int64Period(x + y);
    }
  }

  /** Between -2^63 and 2^63 - 1, and congruent modulo 2^64. */
  lemma {:induction false} Int64Meaning(x: int) returns (k: int)
    ensures -9_223_372_036_854_775_808 <= Int64(x) <= 9_223_372_036_854_775_807
    ensures Int64(x) == x + k * 18_446_744_073_709_551_616
    decreases if x < 0 then -x else x + 1
  {
    k := 0;
    if x >= TWO63 {
      k := Int64Meaning(x - TWO64);
      k := k - 1;
    } else if x < -TWO63 {
      k := Int64Meaning(x + TWO64);
      k := k + 1;
    }
  }

  lemma {:induction false} Int32Meaning(x: int) returns (k: int)
    ensures -2_147_483_648 <= Int32(x) <= 2_147_483_647
    ensures Int32(x) == x + k * 4_294_967_296
    decreases if x < 0 then -x else x + 1
  {
    k := 0;
    if x >= TWO31 {
      k := Int32Meaning(x - 2 * TWO31);
      k := k - 1;
    } else if x < -TWO31 {
      k := Int32Meaning(x + 2 * TWO31);
      k := k + 1;
    }
  }

  lemma Int64Exact(x: int)
    requires InInt64(x)
    ensures Int64(x) == x
  {
  }

  lemma Int32Exact(x: int)
    requires -TWO31 <= x < TWO31
    ensures Int32(x) == x
  {
  }
}
