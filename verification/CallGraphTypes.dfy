/** The objects of the call graph: functions (nodes) and calls (edges), both on intrusive lists. */
module CallGraphTypes {
  import opened Common

  /** Identity of a call statement. */
  type Stmt = nat

  /** A table from call statements to edges. */
  type Table = map<Stmt, Edge>

  /** An address reference held by a caller.  The speculative ones pair, by statement and
      speculative id, with the direct edges of a speculative call. */
  datatype Ref = Ref(referred: Node, stmt: Stmt, speculative: bool, speculativeId: nat)

  class Node {
    /** The symbol this node finally stands for once aliases are resolved. */
    const symbol: nat

    var callees: Edge?
    var callers: Edge?
    var indirectCalls: Edge?
    var callSiteHash: Option<Table>
    var references: seq<Ref>

    var cloneOf: Node?
    var clones: Node?
    var prevSiblingClone: Node?
    var nextSiblingClone: Node?
    var thunk: bool

    constructor (symbol: nat)
      ensures this.symbol == symbol
      ensures callees == null && callers == null && indirectCalls == null
      ensures callSiteHash == None && references == []
      ensures cloneOf == null && clones == null && prevSiblingClone == null && nextSiblingClone == null
      ensures !thunk
    {
      this.symbol := symbol;
      callees, callers, indirectCalls := null, null, null;
      callSiteHash, references := None, [];
      cloneOf, clones, prevSiblingClone, nextSiblingClone := null, null, null, null;
      thunk := false;
    }

    predicate SemanticallyEquivalent(target: Node) {
      symbol == target.symbol
    }
  }

  class Edge {
    const caller: Node
    var callee: Node?
    var prevCaller: Edge?
    var nextCaller: Edge?
    var prevCallee: Edge?
    var nextCallee: Edge?
    var callStmt: Stmt
    var count: int
    var speculative: bool
    var indirectUnknownCallee: bool
    var speculativeId: nat
    /** Present exactly on indirect edges; the value is the number of speculative targets. */
    var indirectInfo: Option<nat>

    constructor (caller: Node, callee: Node?, callStmt: Stmt, count: int, indirect: bool)
      ensures this.caller == caller && this.callee == callee
      ensures this.callStmt == callStmt && this.count == count
      ensures indirectUnknownCallee == indirect && indirectInfo == None
      ensures !speculative && speculativeId == 0
      ensures prevCaller == null && nextCaller == null && prevCallee == null && nextCallee == null
    {
      this.caller, this.callee := caller, callee;
      this.callStmt, this.count := callStmt, count;
      indirectUnknownCallee, indirectInfo := indirect, None;
      speculative, speculativeId := false, 0;
      prevCaller, nextCaller, prevCallee, nextCallee := null, null, null, null;
    }

    function NumSpeculativeCallTargets(): nat
      reads this
    {
      if indirectInfo.Some? then indirectInfo.value else 0
    }
  }
}
