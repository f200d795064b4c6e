/** A JSON field the client expects to be an array, as `Array.isArray` sees it. */
module ClientJson {

  datatype MaybeArray<T> = Array(items: seq<T>) | NotArray

  /** `Array.isArray(x) ? x : []`. */
  function ArrayOrEmpty<T>(x: MaybeArray<T>): (r: seq<T>)
    ensures x.Array? ==> r == x.items
    ensures x.NotArray? ==> r == []
  {
    if x.Array? then x.items else []
  }
}
