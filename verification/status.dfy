/** Status codes and results (include/tidepool/api/status.h). Message text is not modelled. */
module Status {

  datatype StatusCode =
    | OK
    | NotImplemented
    | NotFound
    | InvalidArgument
    | AlreadyExists
    | IoError
    | NetworkError
    | Unavailable
    | OutOfCapacity
    | Corruption
    | Internal

  /** A value, or the code of the failure that prevented it. */
  datatype Result<+T> = Success(value: T) | Failure(code: StatusCode) {

    function Code(): StatusCode {
      match this
      case Success(_) => OK
      case Failure(c) => c
    }
  }

  datatype Option<+T> = None | Some(value: T)
}

/** The source of every failure the code cannot foresee: allocation, LevelDB and socket errors.
    `injected` counts the failures so far, so a contract can speak of calls that met none. */
module Faults {

  /** How many of some calls met a failure; `quiet` says of each that it met none. */
  function Loud(quiet: seq<bool>): nat {
    if quiet == [] then 0 else Loud(quiet[..|quiet| - 1]) + if quiet[|quiet| - 1] then 0 else 1
  }

  lemma LoudMore(quiet: seq<bool>, q: bool)
    ensures Loud(quiet + [q]) == Loud(quiet) + if q then 0 else 1
  {
    assert (quiet + [q])[..|quiet|] == quiet;
  }

  class Environment {
    var injected: nat

    constructor ()
      ensures injected == 0
    {
      injected := 0;
    }

    method Fails() returns (failed: bool)
      modifies this
      ensures injected == old(injected) + (if failed then 1 else 0)
    {
      failed := *;
      if failed {
        injected := injected + 1;
      }
    }
  }
}
