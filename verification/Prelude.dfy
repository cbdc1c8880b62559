/** Small datatypes and sequence facts shared by the other modules. */
module Prelude {
  datatype Option<+T> = None | Some(value: T)

  datatype Result<+T, +E> = Ok(value: T) | Err(error: E)

  /** Look up a key, with a default for a missing one (`map.get(k) ?? d`). */
  function GetOr<K, V>(m: map<K, V>, k: K, d: V): V {
    if k in m then m[k] else d
  }

  function OrElse<T>(o: Option<T>, d: T): T { if o.Some? then o.value else d }

  /** A column of a row after an update: what is given for it, and what it held otherwise. */
  ghost predicate Holds<T>(after: T, given: Option<T>, before: T) {
    match given
    case Some(x) => after == x
    case None => after == before
  }

  ghost predicate StrictlyIncreasing(s: seq<int>) {
    forall i, j :: 0 <= i < j < |s| ==> s[i] < s[j]
  }
}
