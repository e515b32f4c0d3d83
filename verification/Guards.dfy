/** Predicates that are always true. A long condition is stated for all x with one of them, so that a proof sees its
    parts only where it names the predicate, as in Parts(0), and otherwise passes the condition on. There are several
    because such conditions are nested: a proof may look into one without looking into what that one contains. */
module Guards {
  /** The invariant of the buffer cache. */
  predicate Inside(x: nat) {
    true
  }

  /** Agreement of cache, disk and block map, and what has been written. */
  predicate Detail(x: nat) {
    true
  }

  /** The stages of a commit or recovery, and the runs of the log. */
  predicate Stages(x: nat) {
    true
  }

  /** Block ownership and page tables. */
  predicate Parts(x: nat) {
    true
  }

  /** The record of log_write calls. */
  predicate ByLog(x: nat) {
    true
  }
}
