/**
  Missing-value predicates of the BCF2 typed encoding.

  Fixed-width signed integers reserve the least value of their width as the
  "missing" sentinel; text is missing when it is empty or the placeholder ".";
  a flag is missing when it is unset. Floating-point values carry a reserved
  NaN bit pattern, which is represented here by a constructor of its own.
*/
module Missing {

  newtype Int8 = x: int | -0x80 <= x < 0x80
  newtype Int16 = x: int | -0x8000 <= x < 0x8000
  newtype Int32 = x: int | -0x8000_0000 <= x < 0x8000_0000

  const Int8Missing: Int8 := -0x80
  const Int16Missing: Int16 := -0x8000
  const Int32Missing: Int32 := -0x8000_0000

  /** A single-precision value as decoded from a record: the reserved missing
      pattern or a number. */
  datatype Float = MissingFloat | FloatValue(r: real)

  /** 2^n */
  function Pow2(n: nat): (p: nat)
    ensures p >= 1
  {
    if n == 0 then 1 else 2 * Pow2(n - 1)
  }

  /** The least value of a two's-complement integer of the given width. */
  function LeastOfWidth(bits: nat): (least: int)
    requires bits >= 1
  {
    var half: int := Pow2(bits - 1);
    -half
  }

  lemma {:induction false} Pow2Add(a: nat, b: nat)
    ensures Pow2(a + b) == Pow2(a) * Pow2(b)
  {
    if a > 0 {
      Pow2Add(a - 1, b);
    }
  }

  predicate IsMissingFlag(value: bool) {
    !value
  }

  predicate IsMissingFloat(value: Float) {
    value.MissingFloat?
  }

  predicate IsMissingInt8(value: Int8) {
    value == Int8Missing
  }

  predicate IsMissingInt16(value: Int16) {
    value == Int16Missing
  }

  predicate IsMissingInt32(value: Int32) {
    value == Int32Missing
  }

  predicate IsMissingText(value: string) {
    value == "" || value == "."
  }

  /** Each integer width has exactly one missing value, the least value that
      the width can represent (-2^(bits-1)); every other value of the width is
      present. */
  lemma SentinelIsLeastOfWidth()
    ensures forall v: Int8 :: IsMissingInt8(v) <==> v as int == LeastOfWidth(8)
    ensures forall v: Int16 :: IsMissingInt16(v) <==> v as int == LeastOfWidth(16)
    ensures forall v: Int32 :: IsMissingInt32(v) <==> v as int == LeastOfWidth(32)
  {
    assert Pow2(7) == 0x80;
    assert Pow2(8) == 0x100;
    Pow2Add(8, 7);
    Pow2Add(16, 15);
    Pow2Add(8, 8);
  }

  /** A text value is missing exactly when it has no character, or its only
      character is the placeholder '.'. */
  lemma MissingTextShape(s: string)
    ensures IsMissingText(s) <==> (|s| == 0 || (|s| == 1 && s[0] == '.'))
  {
    if |s| == 1 && s[0] == '.' {
      assert s == ".";
    }
  }
}
