/** Python list subscripting, where a negative index counts from the end. */
module PyList {
  import opened Wrappers

  /**
   * The position that the subscript k selects in a list of length len,
   * or None where Python raises IndexError.
   */
  function PyIndex(k: int, len: nat): (r: Option<nat>)
    ensures r.Some? <==> -(len as int) <= k < len
    ensures r.Some? ==> r.value < len
    ensures r.Some? && 0 <= k ==> r.value == k
    ensures r.Some? && k < 0 ==> r.value == len + k
  {
    if 0 <= k < len then Some(k)
    else if -(len as int) <= k < 0 then Some(len + k)
    else None
  }
}
