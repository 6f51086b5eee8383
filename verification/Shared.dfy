/** What several modules share. */
module Shared {

  datatype Option<T> = None | Some(value: T)

  /** What became of a header or block that was written. */
  datatype WriteStatus = NonStat | CanonStat | SideStat

  /**
   Some predicates are closed, `forall k {:trigger Opened(k)} :: Sealed(k) ==> P`: they do not unfold before
   `Opened` is asserted.  Methods that only pass such a predicate on need not look inside.
   */
  ghost predicate Opened(k: int) {
    true
  }

  ghost predicate Sealed(k: int) {
    true
  }
}
