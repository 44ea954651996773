/** The optional value used wherever the Java code can throw instead of returning. */
module Wrappers {

  datatype Option<+T> = None | Some(value: T)

  /** The empty sequence for None, a one-element sequence for Some. */
  function ToSeq<T>(o: Option<T>): (s: seq<T>)
    ensures |s| <= 1
    ensures o.Some? <==> |s| == 1
    ensures o.Some? ==> s[0] == o.value
  {
    match o
    case None => []
    case Some(v) => [v]
  }
}
