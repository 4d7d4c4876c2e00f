/** Reading from the states a run has passed through. */
module Histories {

  /** The state a read saw: any state of the history, the last one by default. */
  function At<T>(h: seq<T>, k: nat): T
    requires h != []
  {
    h[if k < |h| then k else |h| - 1]
  }

  function Last<T>(h: seq<T>): T
    requires h != []
  {
    h[|h| - 1]
  }
}
