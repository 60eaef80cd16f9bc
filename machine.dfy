/**
 * Machine words of the x86_64 target: the 64-bit `usize` that holds
 * addresses and stack offsets, its wrapping arithmetic, and the signed
 * `isize` in which the activation counter lives.
 */
module Machine {
  /** 2^64, the number of distinct `usize` values. */
  const WORD: int := 0x1_0000_0000_0000_0000
  /** 2^63: an `isize` lies in [-HALF, HALF). */
  const HALF: int := 0x8000_0000_0000_0000

  type usize = x: int | 0 <= x < WORD

  predicate IsIsize(x: int) {
    -HALF <= x < HALF
  }

  /** `a - b` on `usize` as an optimised build computes it: modulo 2^64. */
  function WrappingSub(a: usize, b: usize): (r: usize)
    ensures b <= a ==> r == a - b
    ensures a < b ==> r == WORD - (b - a)
  {
    (a - b) % WORD
  }

  /** `a + b` on a 64-bit register, as `add rsp, reg` computes it. */
  function WrappingAdd(a: usize, b: usize): (r: usize)
    ensures a + b < WORD ==> r == a + b
    ensures WORD <= a + b ==> r == a + b - WORD
  {
    (a + b) % WORD
  }

  /** The `isize` that a two's-complement `fetch_add` leaves when the exact sum is `x`. */
  function WrapIsize(x: int): (r: int)
    ensures IsIsize(r)
    ensures IsIsize(x) ==> r == x
    ensures HALF <= x < HALF + WORD ==> r == x - WORD
    ensures -HALF - WORD <= x < -HALF ==> r == x + WORD
  {
    (x + HALF) % WORD - HALF
  }

  /** `x as usize` for an `isize` x: the same 64 bits read without sign. */
  function AsUsize(x: int): (r: usize)
    requires IsIsize(x)
    ensures 0 <= x ==> r == x
    ensures x < 0 ==> r == x + WORD
  {
    x % WORD
  }

  /**
   * The two stack-rebase offsets are each other's negation modulo 2^64:
   * moving by `a - b` and then by `b - a` is no move at all.
   */
  lemma OffsetsCancel(a: usize, b: usize)
    ensures WrappingAdd(WrappingSub(a, b), WrappingSub(b, a)) == 0
  {
    if a != b {
      assert WrappingSub(a, b) + WrappingSub(b, a) == WORD;
    }
  }

  /** Rebasing a pointer from window `b` to window `a` and back returns the pointer itself. */
  lemma {:induction false} RebaseRoundTrip(p: usize, a: usize, b: usize)
    ensures WrappingAdd(WrappingAdd(p, WrappingSub(a, b)), WrappingSub(b, a)) == p
  {
    var q := WrappingAdd(p, WrappingSub(a, b));
    if b <= a {
      assert q == (p + (a - b)) % WORD;
      assert WrappingAdd(q, WrappingSub(b, a)) == (q + WORD - (a - b)) % WORD;
    } else {
      assert q == (p + WORD - (b - a)) % WORD;
      assert WrappingAdd(q, WrappingSub(b, a)) == (q + (b - a)) % WORD;
    }
  }

  /**
   * A pointer inside the window [from, from + size) moved by `to - from`
   * lands at the same offset inside [to, to + size), when that window fits
   * in the address space: no wrap-around is visible to the stack.
   */
  lemma RebaseWithinWindow(p: usize, from: usize, to: usize, size: nat)
    requires from <= p < from + size
    requires to + size <= WORD
    ensures WrappingAdd(p, WrappingSub(to, from)) == to + (p - from)
  {
  }
}
