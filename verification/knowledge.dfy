/** The inferred knowledge the owning node exposes for its input ports. The
    inference engine that computes it is not part of this model; the node is
    only read through `getIncomingKnowledge`. */
module Knowledge {
  import opened Wrappers
  import opened JsValues

  /** The inferred result details; `schema` reads `Undefined` when the
      result carries no schema. */
  datatype InferredResult = InferredResult(schema: Json)

  /** The knowledge object of one port; `result` is `None` when it is falsy. */
  datatype PortKnowledge = PortKnowledge(result: Option<InferredResult>)

  /** `node.getIncomingKnowledge(portIndex)`; `None` when it yields a falsy value. */
  type Node = int -> Option<PortKnowledge>

  /** Whether the node knows an inferred result for `port`. */
  predicate HasInferredResult(node: Node, port: int) {
    node(port).Some? && node(port).value.result.Some?
  }
}
