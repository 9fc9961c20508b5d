/** The branches that segmentation finds and the audit ranks. */
module Branches {
  import opened Options

  datatype Terminal = Terminal(id: int, kind: string)

  /** The textual branch id is determined by anchor and head, which stand for it. */
  datatype Branch = Branch(anchor: int, head: int, nodes: seq<int>, nodeCount: nat,
                           terminal: Option<Terminal>, pureTravel: bool, leaves: seq<int>)
}
