/** Rows of on/off flags, as the page keeps its "active" classes. */
module Flags {

  /** The positions whose flag is set. */
  function Marked(flags: seq<bool>): set<nat>
  {
    set k: nat | k < |flags| && flags[k]
  }
}
