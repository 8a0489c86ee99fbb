// Shared vocabulary of the model: optional values, results with the
// exceptions the .NET code throws, and the byte type.

module Wrappers {
  datatype Option<T> = None | Some(value: T)

  datatype Result<T, E> = Success(value: T) | Failure(error: E)
}

module Common {
  /** An unsigned 8-bit value, as System.Byte. */
  newtype byte = b: int | 0 <= b < 256

  /** The exceptions of the .NET runtime that the modelled code can raise. */
  datatype Error =
    | ArgumentNull(param: string)
    | Argument(param: string)
    | ArgumentOutOfRange(param: string)
    | IndexOutOfRange
    | DivideByZero
    | NullReference
    | InvalidCast
    /** ImageProcessingException naming the processor, with the original exception inside. */
    | ImageProcessing(processor: string, inner: Error)

  /** How a void operation ends: normally, or with an exception. */
  datatype Outcome = Done | Threw(error: Error)

  /**
   * The ArgumentOutOfRangeException of a span built or sliced past its
   * buffer (GetRowSpan, Span.Slice); an element index past a span or an
   * array throws IndexOutOfRange instead.
   */
  const SliceOutOfRange: Error := ArgumentOutOfRange("start")

  function Min(a: int, b: int): int { if a < b then a else b }
  function Max(a: int, b: int): int { if a < b then b else a }

  /**
   * The product a * b, by repeated addition. Offsets and sizes are written
   * with it so that the invariants of the buffers unfold to linear facts;
   * MulIsProduct ties it to the built-in product.
   */
  function Mul(a: nat, b: nat): nat {
    if a == 0 then 0 else Mul(a - 1, b) + b
  }

  lemma {:induction false} MulIsProduct(a: nat, b: nat)
    ensures Mul(a, b) == a * b
  {
    if a > 0 {
      MulIsProduct(a - 1, b);
      assert a * b == (a - 1) * b + b;
    }
  }

  /** Mul distributes over a sum in its first argument. */
  lemma {:induction false} MulAdd(a: nat, b: nat, m: nat)
    ensures Mul(a + b, m) == Mul(a, m) + Mul(b, m)
  {
    if a > 0 {
      MulAdd(a - 1, b, m);
    }
  }

  /** Mul is monotone in its first argument. */
  lemma MulGrows(a: nat, b: nat, m: nat)
    requires a <= b
    ensures Mul(a, m) <= Mul(b, m)
  {
    MulAdd(a, b - a, m);
  }

  /** a / w for w > 0, by repeated subtraction. */
  function Quotient(a: nat, w: nat): nat
    requires w > 0
    decreases a
  {
    if a < w then 0 else 1 + Quotient(a - w, w)
  }

  /** Division undoes multiplication. */
  lemma {:induction false} QuotientOfMul(q: nat, w: nat)
    requires w > 0
    ensures Quotient(Mul(q, w), w) == q
  {
    if q > 0 {
      QuotientOfMul(q - 1, w);
    }
  }

  /** A positive multiple of w is at least w. */
  lemma {:induction false} MultipleAtLeast(a: int, w: int)
    requires a >= 1 && w > 0
    ensures a * w >= w
    decreases a
  {
    if a > 1 {
      MultipleAtLeast(a - 1, w);
      assert a * w == (a - 1) * w + w;
    }
  }

  /** Division with remainder has one answer. */
  lemma DivModUnique(n: int, w: int, q: int, r: int)
    requires w > 0 && 0 <= r < w && n == q * w + r
    ensures q == n / w && r == n % w
  {
    var q0, r0 := n / w, n % w;
    assert n == q0 * w + r0;
    if q0 < q {
      assert (q - q0) * w == q * w - q0 * w;
      MultipleAtLeast(q - q0, w);
    } else if q0 > q {
      assert (q0 - q) * w == q0 * w - q * w;
      MultipleAtLeast(q0 - q, w);
    }
  }

  /** a <= b scales to a * m <= b * m. */
  lemma MulMonotone(a: int, b: int, m: nat)
    requires a <= b
    ensures a * m <= b * m
  {
    assert b * m - a * m == (b - a) * m;
  }
}
