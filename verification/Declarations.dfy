/**
  What a request declares (include/cpath/collective.hpp:22-85, fabric.hpp:22-103, policy.hpp:20-86, request.hpp:24-63).
 */
module Declarations {
  import opened Candidates
  import opened Collectives
  import Requests

  const MAX_EDGES: nat := 1048576
  const MAX_DOMAINS: nat := 65536
  const MAX_BINDINGS: nat := 65536
  const MAX_SET: nat := 4096
  const MAX_EXPANSIONS: nat := 0x100_0000

  datatype CollectiveKind = RingKind | TreeKind | PairwiseKind | AllToAllKind | Hierarchical

  datatype CollectiveSpec = CollectiveSpec(id: nat, kind: CollectiveKind, demand: nat, groups: seq<Group>)

  /** Kinds of failure domain, narrowest first. */
  datatype DomainKind = Device | Host | Rack | Pod | Site
  {
    function Rank(): (r: nat)
      ensures r < 5
    {
      match this
      case Device => 0
      case Host => 1
      case Rack => 2
      case Pod => 3
      case Site => 4
    }
  }

  datatype Evidence = Unknown | Synthetic | Measured

  datatype DomainSpec = DomainSpec(id: nat, parent: Option<nat>, kind: DomainKind)

  datatype Placement = Placement(site: Option<nat>, pod: Option<nat>, rack: Option<nat>, host: Option<nat>, device: nat,
      supplied: bool)

  datatype NodeSpec = NodeSpec(id: nat, placement: Placement, tier: Option<nat>, eligible: bool)

  datatype EdgeSpec = EdgeSpec(id: nat, from: nat, to: nat, capacity: nat, latency: nat, reserved: nat,
      tier: Option<nat>,
                               domain: Option<nat>, evidence: Evidence, eligible: bool)

  /** The generations of topology, failure domains and capacity evidence. */
  datatype Generations = Generations(topology: nat, domains: nat, capacity: nat)

  datatype FabricSpec = FabricSpec(generations: Generations, domains: seq<DomainSpec>, nodes: seq<NodeSpec>,
      edges: seq<EdgeSpec>)

  datatype PolicySpec = PolicySpec(generation: nat, maxHops: nat, paths: nat, disjointness: Disjointness,
      diversity: Diversity,
                                   level: DomainKind, evidence: Requests.EvidenceFloor, latencyWeight: nat,
                                   congestionWeight: nat, maxPathCost: nat, allowUnverified: bool, maxExpansions: nat,
                                   forbiddenNodes: seq<nat>, forbiddenTiers: seq<nat>, forbiddenDomains: seq<nat>,
                                   allowedTiers: seq<nat>)

  datatype BindingSpec = BindingSpec(participant: nat, node: nat, domains: seq<nat>, tiers: seq<nat>)

  datatype RequestSpec = RequestSpec(collective: CollectiveSpec, fabric: FabricSpec, policy: PolicySpec,
      planGeneration: nat,
                                     bindings: seq<BindingSpec>)

  function DomainKey(d: DomainSpec): nat {
    d.id
  }

  function NodeKey(n: NodeSpec): nat {
    n.id
  }

  function EdgeKey(e: EdgeSpec): nat {
    e.id
  }

  function BindingKey(b: BindingSpec): nat {
    b.participant
  }
}
