/** Value types shared by every component of the model. */
module Common {

  datatype Option<+T> = None | Some(value: T)

  type Byte = b: nat | b < 256 witness 0

  /** A 16-byte identifier. */
  type Uuid = s: seq<Byte> | |s| == 16 witness seq(16, _ => 0)

  /** A 32-bit floating point number, represented by its bit pattern. */
  type Float32 = x: nat | x < 0x1_0000_0000 witness 0

  /**
   * A distance: a float32 that is neither negative nor NaN, represented by its bit
   * pattern. On these values the IEEE 754 order is the order of the bit patterns, so
   * the comparisons of the code are the comparisons of the naturals.
   */
  type Distance = d: nat | d <= 0x7F80_0000 witness 0

  /** The largest finite float32. */
  const MAX_FLOAT: Distance := 0x7F7F_FFFF

  /** Not infinite: the exponent is not all ones. */
  predicate IsFinite(d: Distance) {
    d / 0x80_0000 < 0xFF
  }

  lemma MaxFloatIsLargest(d: Distance)
    ensures IsFinite(MAX_FLOAT) && (IsFinite(d) <==> d <= MAX_FLOAT)
  {}

  type Vector = seq<Float32>

  /** Go strings are byte sequences. */
  type Bytes = seq<Byte>

  type Metadata = map<Bytes, Bytes>

  const TWO_TO_THE_64: nat := 0x1_0000_0000_0000_0000

  function Min(a: nat, b: nat): nat { if a < b then a else b }

  function Max(a: nat, b: nat): nat { if a < b then b else a }

  lemma SubsetSize<T>(a: set<T>, b: set<T>)
    requires a <= b
    ensures |a| <= |b|
    ensures |a| == |b| ==> a == b
  {
    assert b == a + (b - a);
  }
}
