/** The contract of a processing module, and the errors the engine reports. */
module Modules {
  import opened Wrappers
  import opened Packets

  datatype NodeType =
    | Source | Transformer | Filter | Encryptor | Packer | Obfuscator | Transport
    | Router | Aggregator | Observer | PolicyResolver | Sink

  datatype Resource = PayloadSize | ProcessingTime

  datatype ModuleError =
    | InitFailed(name: string)
    | Crashed(name: string)
    | QuotaExceeded(name: string, resource: Resource)
    | NotExclusivelyOwned(name: string)

  datatype BuildFailure =
    | QueueFull(node: NodeId)
    | DeadEnd(node: NodeId)
    | UnreachableExit(entry: NodeId)
    | Orphan(node: NodeId)
    | AmbiguousInsert(node: NodeId, outgoing: nat)
    | ManyToMany(node: NodeId, predecessors: nat, successors: nat)

  datatype GraphError =
    | Cycle(cycle: seq<NodeId>)
    | MissingNode(node: NodeId)
    | BuildFailed(reason: BuildFailure)

  datatype ExecutionError = InModule(moduleError: ModuleError) | InGraph(graphError: GraphError)

  /** What `process` returns for one packet. */
  datatype Outcome = Forward(packet: Packet) | Absorb | Fail(error: ModuleError)

  /** An outcome, and how long computing it took. */
  datatype Response = Response(outcome: Outcome, elapsed: nat)

  /**
   A module. Its internal state is whatever it can compute from the packets handed to it so far,
   so `respond` takes that history; a stateless module ignores it. `exclusive` says whether the
   graph holds the only reference to it.
   */
  datatype Module = Module(
    name: string,
    nodeType: NodeType,
    maxPayload: Option<nat>,
    maxTime: Option<nat>,
    exclusive: bool,
    respond: (seq<Packet>, Packet) -> Response,
    initResult: Option<ModuleError>,
    shutdownResult: Option<ModuleError>)
  {
    predicate WithinPayload(p: Packet) {
      maxPayload.Some? ==> |p.payload| <= maxPayload.value
    }

    /** One `process` call on a module with this history, with the time budget checked after it. */
    function Process(handed: seq<Packet>, p: Packet): Outcome {
      if !exclusive then Fail(NotExclusivelyOwned(name))
      else
        var r := respond(handed, p);
        if maxTime.Some? && r.elapsed > maxTime.value
        then Fail(QuotaExceeded(name, ProcessingTime))
        else r.outcome
    }

    /** The history after a `process` call: a module that is not exclusively owned is never run. */
    function Handed(handed: seq<Packet>, p: Packet): seq<Packet> {
      if exclusive then handed + [p] else handed
    }

    /**
     A call fails for the module's sake alone, unless the module is shared, when it is not run at all,
     or takes longer than its budget, when what it produced is dropped.
     */
    lemma ProcessExactly(handed: seq<Packet>, p: Packet)
      ensures var late := maxTime.Some? && respond(handed, p).elapsed >= maxTime.value + 1;
              && (exclusive && !late ==> Process(handed, p) == respond(handed, p).outcome)
              && (exclusive && late ==> Process(handed, p) == Fail(QuotaExceeded(name, ProcessingTime)))
              && (!exclusive ==> Process(handed, p) == Fail(NotExclusivelyOwned(name)))
              && Handed(handed, p) == handed + if exclusive then [p] else []
    {
      assert handed + [] == handed;
    }

    /** The outcome does not depend on what came before. */
    ghost predicate Stateless() {
      forall h, p :: respond(h, p) == respond([], p)
    }
  }
}
