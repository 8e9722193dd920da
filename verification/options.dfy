/** Rust's `Option`, and the two operations of it and of `Vec` that the lexer uses. */
module Options {

  datatype Option<+T> = None | Some(value: T) {

    /** `Option::expect`: the contained value; calling it on `None` would panic,
        so every call site must prove `Some?`. */
    function Extract(): T
      requires Some?
    {
      value
    }
  }

  /** `Vec::get`: the element at index `i`, or `None` when `i` is out of bounds. */
  function Get<T>(s: seq<T>, i: nat): (r: Option<T>)
    ensures r.Some? <==> i < |s|
    ensures r.Some? ==> r.value == s[i]
  {
    if i < |s| then Some(s[i]) else None
  }
}
