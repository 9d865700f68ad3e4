/**
 * `x03_fibonacci`: the Fibonacci sequence indexed from zero with
 * fib(0) = fib(1) = 1, computed twice: by plain recursion (`fib`) and by a
 * loop that pushes every value onto a vector and pops the last (`fib2`).
 */
module Fibonacci {
  /** The range of the source's `u32` index. */
  type U32 = n: nat | n < 0x1_0000_0000

  /** One more than the largest `u128`. */
  const U128Limit: nat := 0x1_0000_0000_0000_0000_0000_0000_0000_0000

  /** The values a `u128` holds. */
  type U128 = x: nat | x < U128Limit

  /** `fib`, on unbounded naturals.  Every value is at least 1 and at least
      its index. */
  function Fib(n: nat): (r: nat)
    ensures r >= 1 && r >= n
  {
    if n <= 1 then 1 else Fib(n - 1) + Fib(n - 2)
  }

  /** From index 1 on the sequence never decreases, so once `fib(n)` fits in
      a `u128` so does every value computed on the way to it. */
  lemma {:induction false} FibMonotone(i: nat, j: nat)
    requires i <= j
    ensures Fib(i) <= Fib(j)
    decreases j - i
  {
    if i < j {
      FibMonotone(i + 1, j);
      assert Fib(i) <= Fib(i + 1) by {
        if i + 1 >= 2 {
          assert Fib(i + 1) == Fib(i) + Fib(i - 1);
        }
      }
    }
  }

  /** `fib2`: `stack[i]` is `fib(i)` for every index pushed so far, and the
      value popped at the end is the last one, `fib(n)`.  Every push is a
      `u128` addition, which cannot overflow when `fib(n)` itself fits. */
  method Fib2(n: U32) returns (r: U128)
    requires Fib(n) < U128Limit
    ensures r == Fib(n)
  {
    var stack: seq<nat> := [];
    for i := 0 to n + 1
      invariant |stack| == i
      invariant forall j {:trigger stack[j]} | 0 <= j < i :: stack[j] == Fib(j)
    {
      if i <= 1 {
        stack := stack + [1];
      } else {
        var sum := stack[i - 1] + stack[i - 2];
        // The `u128` addition does not overflow.
        FibMonotone(i, n);
        assert sum < U128Limit;
        stack := stack + [sum];
      }
    }
    if |stack| == 0 {
      // "Stack is empty": the loop pushed n + 1 values.
      assert false;
    }
    var top := stack[|stack| - 1];
    assert top == Fib(n);
    r := top;
    stack := stack[..|stack| - 1];
  }

  /** The values `main` prints: indices 0 to 20, none of which overflows. */
  lemma FibUpToTwenty()
    ensures Fib(20) == 10946
    ensures forall n | 0 <= n <= 20 :: Fib(n) <= 10946 < U128Limit
  {
    assert Fib(2) == 2;
    assert Fib(3) == 3;
    assert Fib(4) == 5;
    assert Fib(5) == 8;
    assert Fib(6) == 13;
    assert Fib(7) == 21;
    assert Fib(8) == 34;
    assert Fib(9) == 55;
    assert Fib(10) == 89;
    assert Fib(11) == 144;
    assert Fib(12) == 233;
    assert Fib(13) == 377;
    assert Fib(14) == 610;
    assert Fib(15) == 987;
    assert Fib(16) == 1597;
    assert Fib(17) == 2584;
    assert Fib(18) == 4181;
    assert Fib(19) == 6765;
    forall n | 0 <= n <= 20 ensures Fib(n) <= 10946 {
      FibMonotone(n, 20);
    }
  }
}
