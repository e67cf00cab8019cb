/** Result shapes shared by every module of the model. */
module Common {

  datatype Option<T> = None | Some(value: T)

  /** How one asynchronous step of the library settles: it fulfils, or it rejects with a reason. */
  datatype Outcome<E> = Ok | Fail(reason: E)

  /** A settled promise: fulfilled with a value or rejected with a reason. */
  datatype Settled<T, E> = Fulfilled(value: T) | Rejected(reason: E)

  /** One more element of a prefix. */
  lemma TakeNext<T>(s: seq<T>, i: int)
    requires 0 <= i < |s|
    ensures s[..i + 1] == s[..i] + [s[i]]
  {
  }
}
