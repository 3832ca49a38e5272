/** Optional values and results with an error reason, shared by every module. */
module Wrappers {

  datatype Option<T> = None | Some(value: T)
  {
    function GetOr(default: T): (r: T)
      ensures this.Some? ==> r == value
      ensures this.None? ==> r == default
    {
      match this
      case Some(v) => v
      case None => default
    }
  }

  datatype Result<T, E> = Success(value: T) | Failure(error: E)
  {
    predicate IsFailure() {
      Failure?
    }

    function ToOption(): (r: Option<T>)
      ensures r.Some? <==> Success?
      ensures Success? ==> r.value == value
    {
      match this
      case Success(v) => Some(v)
      case Failure(_) => None
    }
  }
}
