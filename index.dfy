/** `Index`: a position in a displayed list, stored zero-based and readable in either base. */
module Indices {
  import opened Wrappers

  /** The stored zero-based position. The datatype is immutable, so it never changes after construction. */
  datatype Index = Index(zeroBased: nat)

  /** The `IndexOutOfBoundsException` of the private constructor. */
  datatype IndexError = IndexOutOfBounds

  /** `Index.fromZeroBased`: the private constructor refuses a negative position. */
  function FromZeroBased(n: int): (r: Result<Index, IndexError>)
    ensures r.Ok? <==> n >= 0
    ensures r.Ok? ==> GetZeroBased(r.value) == n
  {
    if n < 0 then Err(IndexOutOfBounds) else Ok(Index(n))
  }

  /** `Index.fromOneBased`: stores `k - 1`, so it refuses every `k < 1`. */
  function FromOneBased(k: int): (r: Result<Index, IndexError>)
    ensures r.Ok? <==> k >= 1
    ensures r.Ok? ==> GetZeroBased(r.value) == k - 1 && GetOneBased(r.value) == k
  {
    FromZeroBased(k - 1)
  }

  function GetZeroBased(i: Index): (r: int)
    ensures r >= 0
  {
    i.zeroBased
  }

  /** `getOneBased` is always positive and one more than the zero-based value. */
  function GetOneBased(i: Index): (r: int)
    ensures r > 0 && r == GetZeroBased(i) + 1
  {
    i.zeroBased + 1
  }

  /** `Index.equals` compares the stored zero-based values. */
  predicate Equals(a: Index, b: Index) {
    GetZeroBased(a) == GetZeroBased(b)
  }

  /** Converting in one base and reading back in the other shifts the value by one. */
  lemma RoundTrips(n: int, k: int)
    ensures n >= 0 ==> GetOneBased(FromZeroBased(n).value) == n + 1
    ensures k >= 1 ==> GetZeroBased(FromOneBased(k).value) == k - 1
  {
  }

  /** `Equals` coincides with equality of the values, and `fromOneBased(k)` equals `fromZeroBased(k - 1)`. */
  lemma EqualsIsIdentity(a: Index, b: Index, k: int)
    ensures Equals(a, b) <==> a == b
    ensures k >= 1 ==> FromOneBased(k) == FromZeroBased(k - 1) && FromOneBased(k).Ok?
  {
  }
}
