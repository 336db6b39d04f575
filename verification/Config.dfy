/** The parameters of an index: index/config.go. */
module Configs {
  import opened Common

  const SEARCH_SIMPLE: nat := 0
  const SEARCH_HEURISTIC: nat := 1

  datatype Config = Config(
    searchAlgorithm: nat,
    levelMultiplier: Float32,
    ef: nat,
    efConstruction: nat,
    m: nat,
    mMax: nat,
    mMax0: nat,
    heuristicExtendCandidates: bool,
    heuristicKeepPruned: bool)
  {
    /** One of the two known algorithms, and no candidate extension (the default). */
    predicate Supported() {
      searchAlgorithm <= SEARCH_HEURISTIC && !heuristicExtendCandidates
    }

    /** The number of edges a vertex is pruned to. */
    function Cap(l: nat): nat {
      if l == 0 then mMax0 else mMax
    }

    ghost function Caps(): nat -> nat {
      l => Cap(l)
    }

    /** The number of edges no vertex exceeds: a new vertex gets up to m, an old one up to Cap. */
    ghost function Limit(): nat -> nat {
      l => Max(m, Cap(l))
    }
  }
}
