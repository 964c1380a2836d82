/** The settings of the engine that the modelled code reads. */
module Config {

  /** Number of nearest chunks requested from the vector index per query. */
  const RETRIEVAL_K: nat := 5

  /** The phrases of the unsafe-query guardrail. Each is used as the regular
      expression `\b<phrase>\b`: the phrase, with a word boundary on both sides. */
  const UNSAFE_PHRASES: seq<string> :=
    ["best", "safest", "most effective", "preferred drug", "which drug"]
}
