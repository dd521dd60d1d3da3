/** Value types shared by the whole model: the Java integer widths the
    services use, failure-carrying wrappers for the collaborators that may
    return null or throw, and the "first element that satisfies" search that
    both the fee-marker scan and the codec dispatch perform. */
module Base {

  /** Java `byte`, kept opaque: nothing in the model inspects byte values. */
  newtype byte = b: int | 0 <= b < 256

  /** Java `short`, `int` and `long`. */
  type int16 = x: int | -0x8000 <= x < 0x8000
  type int32 = x: int | -0x8000_0000 <= x < 0x8000_0000
  type int64 = x: int | -0x8000_0000_0000_0000 <= x < 0x8000_0000_0000_0000

  /** A value that may be absent (a Java `null` return). */
  datatype Option<+T> = None | Some(value: T)

  /** A value or the reason it could not be produced (a Java exception). */
  datatype Result<+T, +E> = Ok(value: T) | Err(error: E)

  /** Index of the first element of `s` that satisfies `p`, or None when no
      element does. */
  function FirstIndex<T>(s: seq<T>, p: T -> bool): (r: Option<nat>)
    ensures r.None? <==> forall i :: 0 <= i < |s| ==> !p(s[i])
    ensures r.Some? ==> r.value < |s| && p(s[r.value])
    ensures r.Some? ==> forall j :: 0 <= j < r.value ==> !p(s[j])
  {
    if |s| == 0 then None
    else if p(s[0]) then Some(0)
    else match FirstIndex(s[1..], p)
      case None => None
      case Some(k) => Some(k + 1)
  }

  /** The first-index search is determined by its two defining facts: an index
      whose element satisfies `p` and that no earlier element satisfies is the
      one the search returns. */
  lemma {:induction false} FirstIndexUnique<T>(s: seq<T>, p: T -> bool, k: nat)
    requires k < |s| && p(s[k])
    requires forall j :: 0 <= j < k ==> !p(s[j])
    ensures FirstIndex(s, p) == Some(k)
  {
  }
}
