/**
 * The example functions registered by the demo program: a sum and a
 * product over 64-bit integers, and the length of the longest substring
 * without a repeated byte.
 */
module Example {

  /** Go's `int` on a 64-bit platform; the model fixes the word size at 64 bits. */
  const TwoTo63: int := 0x8000_0000_0000_0000
  const TwoTo64: int := 0x1_0000_0000_0000_0000

  newtype int64 = x: int | -0x8000_0000_0000_0000 <= x < 0x8000_0000_0000_0000

  /** A byte of a Go string. */
  newtype byte = x: int | 0 <= x < 256

  /** Two's-complement wrap-around of a mathematical integer into 64 bits. */
  function Wrap(x: int): (r: int)
    ensures -TwoTo63 <= r < TwoTo63
  {
    (x + TwoTo63) % TwoTo64 - TwoTo63
  }

  lemma ModUnique(y: int, q: int, r: int)
    requires y == q * TwoTo64 + r && 0 <= r < TwoTo64
    ensures y % TwoTo64 == r
  {
  }

  /** Wrapping ignores multiples of 2^64. */
  lemma WrapShift(x: int, k: int)
    ensures Wrap(x + k * TwoTo64) == Wrap(x)
  {
    var y := x + TwoTo63;
    var q, r := y / TwoTo64, y % TwoTo64;
    ModUnique(y + k * TwoTo64, q + k, r);
  }

  /** A value already in range wraps to itself, so a sum or product that does not overflow is exact. */
  lemma WrapInRange(x: int)
    requires -TwoTo63 <= x < TwoTo63
    ensures Wrap(x) == x
  {
    ModUnique(x + TwoTo63, 0, x + TwoTo63);
  }

  lemma WrapAdd(a: int, b: int)
    ensures Wrap(Wrap(a) + b) == Wrap(a + b)
  {
    var q := (a + TwoTo63) / TwoTo64;
    assert Wrap(a) + b == (a + b) + (-q) * TwoTo64;
    WrapShift(a + b, -q);
  }

  lemma WrapMul(a: int, b: int)
    ensures Wrap(Wrap(a) * b) == Wrap(a * b)
  {
    var q := (a + TwoTo63) / TwoTo64;
    assert Wrap(a) == a - q * TwoTo64;
    assert Wrap(a) * b == a * b + (-q * b) * TwoTo64;
    WrapShift(a * b, -q * b);
  }

  /** The mathematical sum. */
  function Sum(nums: seq<int64>): int {
    if nums == [] then 0 else Sum(nums[..|nums| - 1]) + nums[|nums| - 1] as int
  }

  /** The mathematical product. */
  function Product(nums: seq<int64>): int {
    if nums == [] then 1 else Product(nums[..|nums| - 1]) * nums[|nums| - 1] as int
  }

  /** add: the sum of `nums` with Go's wrap-around; 0 for no numbers. */
  method Add(nums: seq<int64>) returns (sum: int64)
    ensures sum as int == Wrap(Sum(nums))
    ensures nums == [] ==> sum == 0
  {
    sum := 0;
    WrapInRange(0);
    for k := 0 to |nums|
      invariant sum as int == Wrap(Sum(nums[..k]))
    {
      assert nums[..k + 1][..k] == nums[..k];
      WrapAdd(Sum(nums[..k]), nums[k] as int);
      sum := Wrap(sum as int + nums[k] as int) as int64;
    }
    assert nums[..|nums|] == nums;
  }

  /** mul: the product of `nums` with Go's wrap-around; 1 for no numbers. */
  method Mul(nums: seq<int64>) returns (res: int64)
    ensures res as int == Wrap(Product(nums))
    ensures nums == [] ==> res == 1
  {
    res := 1;
    WrapInRange(1);
    for k := 0 to |nums|
      invariant res as int == Wrap(Product(nums[..k]))
    {
      assert nums[..k + 1][..k] == nums[..k];
      WrapMul(Product(nums[..k]), nums[k] as int);
      res := Wrap(res as int * nums[k] as int) as int64;
    }
    assert nums[..|nums|] == nums;
  }

  /** When the true sum fits in 64 bits, add returns it exactly. */
  lemma AddExact(nums: seq<int64>)
    requires -TwoTo63 <= Sum(nums) < TwoTo63
    ensures Wrap(Sum(nums)) == Sum(nums)
  {
    WrapInRange(Sum(nums));
  }

  /** The sum of a concatenation is the sum of the two parts. */
  lemma {:induction false} SumAppend(xs: seq<int64>, ys: seq<int64>)
    ensures Sum(xs + ys) == Sum(xs) + Sum(ys)
    decreases |ys|
  {
    if ys == [] {
      assert xs + ys == xs;
    } else {
      var ys' := ys[..|ys| - 1];
      assert (xs + ys)[..|xs + ys| - 1] == xs + ys';
      SumAppend(xs, ys');
    }
  }

  /** add over a concatenation is add of the two partial results: the wrap-around can be taken at any point. */
  lemma AddSplit(xs: seq<int64>, ys: seq<int64>)
    ensures Wrap(Sum(xs + ys)) == Wrap(Wrap(Sum(xs)) + Wrap(Sum(ys)))
  {
    SumAppend(xs, ys);
    WrapAdd(Sum(xs), Sum(ys));
    WrapAdd(Sum(ys), Wrap(Sum(xs)));
  }

  lemma {:induction false} ProductAppend(xs: seq<int64>, ys: seq<int64>)
    ensures Product(xs + ys) == Product(xs) * Product(ys)
    decreases |ys|
  {
    if ys == [] {
      assert xs + ys == xs;
    } else {
      var ys' := ys[..|ys| - 1];
      assert (xs + ys)[..|xs + ys| - 1] == xs + ys';
      ProductAppend(xs, ys');
      var last := ys[|ys| - 1] as int;
      assert Product(xs + ys) == Product(xs) * Product(ys') * last;
    }
  }

  /** mul over a concatenation is mul of the two partial results. */
  lemma MulSplit(xs: seq<int64>, ys: seq<int64>)
    ensures Wrap(Product(xs + ys)) == Wrap(Wrap(Product(xs)) * Wrap(Product(ys)))
  {
    ProductAppend(xs, ys);
    WrapMul(Product(xs), Product(ys));
    WrapMul(Product(ys), Wrap(Product(xs)));
  }

  /** A zero anywhere makes the product zero, whatever the wrap-around. */
  lemma {:induction false} ProductZero(nums: seq<int64>, k: nat)
    requires k < |nums| && nums[k] == 0
    ensures Product(nums) == 0
  {
    assert nums == nums[..k] + [nums[k]] + nums[k + 1..];
    ProductAppend(nums[..k] + [nums[k]], nums[k + 1..]);
    ProductAppend(nums[..k], [nums[k]]);
    assert Product([nums[k]]) == 0 by {
      assert [nums[k]][..0] == [];
    }
  }

  // ---------------------------------------------------------------------
  // lengthOfLongestSubstring
  // ---------------------------------------------------------------------

  /** No byte occurs twice in `s[a..b]`. */
  predicate DistinctRange(s: seq<byte>, a: int, b: int)
    requires 0 <= a <= b <= |s|
  {
    forall x, y :: a <= x < y < b ==> s[x] != s[y]
  }

  /** The bytes of `s[a..b]`. */
  function Elems(s: seq<byte>, a: int, b: int): set<byte>
    requires 0 <= a <= b <= |s|
  {
    set k | a <= k < b :: s[k]
  }

  function Max(a: int, b: int): int {
    if a >= b then a else b
  }

  /** `s[a..j+2]`, one byte past the window ending at `j`, has a repeated byte. */
  predicate Blocked(s: seq<byte>, a: int, j: int) {
    0 <= a <= j + 2 <= |s| && !DistinctRange(s, a, j + 2)
  }

  /** No window starting before `i` can be extended past `j + 1` without a repeat. */
  predicate StartsBlocked(s: seq<byte>, i: int, j: int) {
    j + 1 < |s| ==> forall a :: 0 <= a < i ==> Blocked(s, a, j)
  }

  /** Every repeat-free window ending at or before `j + 1` is at most `bound` long. */
  predicate WindowsBounded(s: seq<byte>, j: int, bound: int) {
    forall a, b :: 0 <= a <= b <= j + 1 && b <= |s| && DistinctRange(s, a, b) ==> b - a <= bound
  }

  lemma DistinctShrink(s: seq<byte>, a: int, b: int, c: int, d: int)
    requires 0 <= a <= c <= d <= b <= |s| && DistinctRange(s, a, b)
    ensures DistinctRange(s, c, d)
  {
  }

  /** The window grows by `s[j+1]`, which it does not contain yet. */
  lemma Advance(s: seq<byte>, i: int, j: int, bound: int)
    requires 0 <= i <= j + 1 && j + 1 < |s|
    requires DistinctRange(s, i, j + 1) && s[j + 1] !in Elems(s, i, j + 1)
    requires StartsBlocked(s, i, j) && WindowsBounded(s, j, bound)
    ensures DistinctRange(s, i, j + 2)
    ensures Elems(s, i, j + 2) == Elems(s, i, j + 1) + {s[j + 1]}
    ensures StartsBlocked(s, i, j + 1)
    ensures WindowsBounded(s, j + 1, Max(bound, j + 2 - i))
  {
    forall x, y | i <= x < y < j + 2 ensures s[x] != s[y] {
      if y == j + 1 {
        assert s[x] in Elems(s, i, j + 1);
      }
    }
    var j1 := j + 1;
    if j1 + 1 < |s| {
      forall a | 0 <= a < i ensures Blocked(s, a, j1) {
        assert Blocked(s, a, j);
        if DistinctRange(s, a, j1 + 2) {
          DistinctShrink(s, a, j1 + 2, a, j + 2);
        }
      }
    }
    var e := j + 2;
    forall a | 0 <= a < i ensures !DistinctRange(s, a, e) {
      assert Blocked(s, a, j);
    }
  }

  /** `s[j+1]` already occurs in the window, so the window loses `s[i]`. */
  lemma Retreat(s: seq<byte>, i: int, j: int)
    requires 0 <= i <= j + 1 && j + 1 < |s|
    requires DistinctRange(s, i, j + 1) && s[j + 1] in Elems(s, i, j + 1)
    requires StartsBlocked(s, i, j)
    ensures i <= j
    ensures Elems(s, i + 1, j + 1) == Elems(s, i, j + 1) - {s[i]}
    ensures DistinctRange(s, i + 1, j + 1)
    ensures StartsBlocked(s, i + 1, j)
  {
    var k :| i <= k < j + 1 && s[k] == s[j + 1];
    assert Blocked(s, i, j);
  }

  /**
   * lengthOfLongestSubstring: the window `s[i..j]` (inclusive) slides over
   * `s`, `m` holding its bytes. The result is the length of the longest
   * substring with no repeated byte; `len(s)` itself when that is at most 1.
   */
  method LengthOfLongestSubstring(s: seq<byte>) returns (res: int)
    ensures |s| <= 1 ==> res == |s|
    ensures 0 <= res <= |s|
    ensures exists a, b :: 0 <= a <= b <= |s| && DistinctRange(s, a, b) && b - a == res
    ensures forall a, b :: 0 <= a <= b <= |s| && DistinctRange(s, a, b) ==> b - a <= res
  {
    if |s| <= 1 {
      assert DistinctRange(s, 0, |s|);
      return |s|;
    }
    var m: set<byte> := {};
    var i, j := 0, 0;
    res := 0;
    m := m + {s[i]};
    m := m + {s[j]};
    ghost var wa, wb := 0, 0;
    assert Elems(s, 0, 1) == {s[0]};
    assert WindowsBounded(s, 0, Max(res, 1));
    while j < |s| - 1
      invariant 0 <= i <= j + 1 && j < |s|
      invariant m == Elems(s, i, j + 1)
      invariant DistinctRange(s, i, j + 1)
      invariant StartsBlocked(s, i, j)
      invariant WindowsBounded(s, j, Max(res, 1))
      invariant j >= 1 ==> res >= 1
      invariant 0 <= wa <= wb <= |s| && DistinctRange(s, wa, wb) && wb - wa == res
      decreases 2 * |s| - i - j
    {
      if s[j + 1] !in m {
        Advance(s, i, j, Max(res, 1));
        j := j + 1;
        if j - i + 1 > res {
          wa, wb := i, j + 1;
        }
        res := Max(res, j - i + 1);
        m := m + {s[j]};
      } else {
        Retreat(s, i, j);
        m := m - {s[i]};
        i := i + 1;
      }
    }
    assert WindowsBounded(s, |s| - 1, res);
  }
}
