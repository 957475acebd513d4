/** Failure-carrying values shared by the modules of the model. */
module Common {

  /** A value that may be absent, as Python's `None`. */
  datatype Option<T> = None | Some(value: T)

  /** The outcome of an operation that may raise. */
  datatype Result<T, E> = Ok(value: T) | Err(error: E)

  /** The last element of a sequence, or None for the empty one. */
  function LastOf<T>(s: seq<T>): Option<T> {
    if s == [] then None else Some(s[|s| - 1])
  }

  /** Extending a sequence replaces its last element by the extension's, unless the extension is empty. */
  lemma LastOfConcat<T>(s: seq<T>, t: seq<T>)
    ensures LastOf(s + t) == (if t == [] then LastOf(s) else LastOf(t))
  {
    if t == [] {
      assert s + t == s;
    }
  }

  /** Regrouping a concatenation, stated once for the proofs that need the step spelled out. */
  lemma AppendAssoc<T>(a: seq<T>, b: seq<T>, c: seq<T>)
    ensures a + b + c == a + (b + c)
  {
  }
}
