/** Success-or-failure values, shared by the modules below. */
module Results {

  datatype Option<+T> = None | Some(value: T)

  /** What a Go function returning (value, error) hands back; error texts are dropped. */
  datatype Result<+T> = Ok(value: T) | Err

  /** What a list holds in which nothing is missing. */
  function Values<T>(ts: seq<Option<T>>): (vs: seq<T>)
    requires forall i :: 0 <= i < |ts| ==> ts[i].Some?
    ensures |vs| == |ts|
  {
    seq(|ts|, i requires 0 <= i < |ts| => ts[i].value)
  }
}
