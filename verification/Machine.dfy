/** Bytes, the range of size_t, and arithmetic that refuses to leave it. */
module Machine {
  import opened Outcomes

  type Byte = x: int | 0 <= x < 256

  const SIZE_MAX: nat := 0xFFFF_FFFF_FFFF_FFFF

  type Size = x: int | 0 <= x <= SIZE_MAX

  /** Refuses exactly the sums that do not fit. */
  function CheckedAdd(left: Size, right: Size): (r: Result<Size>)
    ensures r.Success? <==> left + right <= SIZE_MAX
    ensures r.Success? ==> r.value == left + right
    ensures r.Failure? ==> r.error == InvalidImage
  {
    if right > SIZE_MAX - left then Failure(InvalidImage) else Success(left + right)
  }

  /** Refuses exactly the products that do not fit; the test itself does not overflow. */
  function CheckedMultiply(left: Size, right: Size): (r: Result<Size>)
    ensures r.Success? <==> left * right <= SIZE_MAX
    ensures r.Success? ==> r.value == left * right
    ensures r.Failure? ==> r.error == InvalidImage
  {
    QuotientTest(left, right);
    if left != 0 && right > SIZE_MAX / left then Failure(InvalidImage) else Success(left * right)
  }

  lemma QuotientTest(left: Size, right: Size)
    ensures left != 0 && right > SIZE_MAX / left <==> left * right > SIZE_MAX
    ensures left * right >= 0
  {
    if left != 0 {
      var q := SIZE_MAX / left;
      assert left * q <= SIZE_MAX < left * (q + 1);
      if right > q {
        assert left * (q + 1) <= left * right;
      } else {
        assert left * right <= left * q;
      }
    }
  }
}
