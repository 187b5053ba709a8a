/** Rust's integer operators where they differ from Dafny's. */
module MachineInts {

  type Byte = b: int | 0 <= b < 256

  const TWO_32: int := 0x1_0000_0000
  const TWO_31: int := 0x8000_0000

  /** Division that truncates toward zero. */
  function TruncatedDiv(a: int, b: int): int
    requires b > 0
  {
    if a >= 0 then a / b else -(-a / b)
  }

  /** The low 32 bits, as a signed number. */
  function ToI32(n: int): (r: int)
    ensures -TWO_31 <= r < TWO_31 && (n - r) % TWO_32 == 0
    ensures -TWO_31 <= n < TWO_31 ==> r == n
  {
    var low := n % TWO_32;
    if low < TWO_31 then low else low - TWO_32
  }

  lemma QuotientIs(a: int, b: int, q: int, r: int)
    requires b > 0 && a == q * b + r && 0 <= r < b
    ensures a / b == q && a % b == r
  {
    var q', r' := a / b, a % b;
    assert a == q' * b + r';
    if q > q' {
      MultipleIsLarge(q - q', b);
    } else if q < q' {
      MultipleIsLarge(q' - q, b);
    }
  }

  lemma MultipleIsLarge(k: int, b: int)
    requires k >= 1 && b > 0
    ensures k * b >= b
  {
    assert (k - 1) * b >= 0;
    assert k * b == (k - 1) * b + b;
  }

  /** Numbers a whole number of words apart have the same low 32 bits. */
  lemma SameLowBits(a: int, b: int, words: int)
    requires a == b + words * TWO_32
    ensures ToI32(a) == ToI32(b)
  {
    QuotientIs(a, TWO_32, b / TWO_32 + words, b % TWO_32);
  }

  /** Wrapping a difference again and again wraps it once. */
  lemma WrappingIsOnce(a: int, b: int)
    ensures ToI32(a - ToI32(b)) == ToI32(a - b) && ToI32(ToI32(a) - b) == ToI32(a - b)
  {
    var words := (b - ToI32(b)) / TWO_32;
    assert b - ToI32(b) == words * TWO_32;
    SameLowBits(a - ToI32(b), a - b, words);
    words := (a - ToI32(a)) / TWO_32;
    assert a - ToI32(a) == words * TWO_32;
    SameLowBits(a - b, ToI32(a) - b, words);
  }

  lemma WrappedOperandsWrapOnce(a: int, b: int)
    ensures ToI32(ToI32(a) - ToI32(b)) == ToI32(a - b)
  {
    WrappingIsOnce(ToI32(a), b);
    WrappingIsOnce(a, b);
  }

  function Sum(amounts: seq<nat>): nat {
    if amounts == [] then 0 else Sum(amounts[..|amounts| - 1]) + amounts[|amounts| - 1]
  }

  lemma SumAppends(amounts: seq<nat>, last: nat)
    ensures Sum(amounts + [last]) == Sum(amounts) + last
  {
    assert (amounts + [last])[..|amounts|] == amounts;
  }

  lemma SumOfFour(a: nat, b: nat, c: nat, d: nat)
    ensures Sum([a, b, c, d]) == a + b + c + d
  {
    SumAppends([], a);
    SumAppends([a], b);
    SumAppends([a, b], c);
    SumAppends([a, b, c], d);
    assert [] + [a] == [a] && [a] + [b] == [a, b] && [a, b] + [c] == [a, b, c] && [a, b, c] + [d] == [a, b, c, d];
  }

  /** Taking amounts off one after the other, wrapping each of them and each difference. */
  function Deduct32(n: int, amounts: seq<nat>): int {
    if amounts == [] then ToI32(n)
    else ToI32(Deduct32(n, amounts[..|amounts| - 1]) - ToI32(amounts[|amounts| - 1]))
  }

  lemma {:induction false} DeductionsWrapOnce(n: int, amounts: seq<nat>)
    ensures Deduct32(n, amounts) == ToI32(n - Sum(amounts))
  {
    if amounts != [] {
      var earlier, last := amounts[..|amounts| - 1], amounts[|amounts| - 1];
      DeductionsWrapOnce(n, earlier);
      WrappedOperandsWrapOnce(n - Sum(earlier), last);
    }
  }
}
