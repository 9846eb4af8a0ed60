/** Result and Option values standing for the source's error returns and optional fields. */
module Results {
  datatype Option<+T> = None | Some(value: T)
  datatype Result<+T, +E> = Ok(value: T) | Err(error: E)

  /** Every message of a round could be decoded. */
  predicate Decoded<T>(msgs: seq<Option<T>>) { forall k :: 0 <= k < |msgs| ==> msgs[k].Some? }

  function Payloads<T>(msgs: seq<Option<T>>): (vs: seq<T>)
    requires Decoded(msgs)
    ensures |vs| == |msgs| && forall k :: 0 <= k < |msgs| ==> vs[k] == msgs[k].value
  {
    seq(|msgs|, k requires 0 <= k < |msgs| => msgs[k].value)
  }
}
