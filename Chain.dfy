/**
 * The node chain (`SPLNode`): `nodes` nodes linked forwards (`next`) and
 * backwards (`prev`). A node is identified by its position `i`, so a link is
 * the position of the node it points to.
 */
module Chain {
  import opened ScaleUtil

  datatype Option<T> = None | Some(value: T)

  /** One node's position and its optional neighbours. */
  datatype Links = Links(i: nat, prev: Option<nat>, next: Option<nat>)

  /** `this.next.prev = this`: the creator links the node it created back to itself. */
  function LinkBack(chain: seq<Links>, creator: nat): (r: seq<Links>)
    requires |chain| > 0
    ensures |r| == |chain|
    ensures r[0] == Links(chain[0].i, Some(creator), chain[0].next)
    ensures forall k :: 0 < k < |r| ==> r[k] == chain[k]
  {
    chain[0 := chain[0].(prev := Some(creator))]
  }

  /**
   * The nodes `new SPLNode(i)` brings into being, from node `i` on: `addNeighbor`
   * creates node `i + 1` (and, recursively, the rest) while `i < nodes - 1`,
   * then points that node's `prev` back at `i`. Node `i` itself gets no `prev`.
   */
  function Build(i: nat): (chain: seq<Links>)
    ensures |chain| == if i < Nodes then Nodes - i else 1
    ensures forall k :: 0 <= k < |chain| ==> chain[k].i == i + k
    ensures forall k :: 0 <= k < |chain| ==>
              chain[k].next == if i + k < Nodes - 1 then Some(i + k + 1) else None
    ensures chain[0].prev == None
    ensures forall k :: 0 < k < |chain| ==> chain[k].prev == Some(i + k - 1)
    decreases Nodes - i
  {
    var node := Links(i, None, if i < Nodes - 1 then Some(i + 1) else None);
    if i < Nodes - 1 then [node] + LinkBack(Build(i + 1), i) else [node]
  }

  /** The chain `SqPartialLine` builds: `root = new SPLNode(0)`. */
  function Root(): seq<Links>
  {
    Build(0)
  }

  /**
   * The shape of the chain as seen from any node: node `k` sits at position
   * `k`, its `prev` is node `k - 1` unless it is the first, and its `next` is
   * node `k + 1` unless it is the last.
   */
  ghost predicate Shaped(chain: seq<Links>)
  {
    && |chain| == Nodes
    && forall k :: 0 <= k < Nodes ==>
         chain[k] == Links(k, if k > 0 then Some(k - 1) else None, if k < Nodes - 1 then Some(k + 1) else None)
  }

  /**
   * The constructed chain has that shape: nodes 0 to `nodes - 1` in order,
   * a `next` exactly on all but the last node, a `prev` exactly on all but the
   * first, and every `next` node's `prev` is the node that created it.
   */
  lemma RootShape()
    ensures Shaped(Root())
    ensures forall k :: 0 <= k < Nodes ==> (Root()[k].next.Some? <==> k < Nodes - 1)
    ensures forall k :: 0 <= k < Nodes ==> (Root()[k].prev.Some? <==> k > 0)
    ensures forall k :: 0 <= k < Nodes && Root()[k].next.Some? ==>
              Root()[k].next.value < Nodes && Root()[Root()[k].next.value].prev == Some(k)
  {
  }

  /**
   * `getNext(dir, cb)` on a node: its `next` when `dir == 1` and its `prev`
   * for any other `dir`; when that neighbour is missing, the node itself, with
   * the boundary callback firing (`atBoundary`).
   */
  function GetNext(node: Links, dir: int): (r: (nat, bool))
    ensures r.1 <==> (if dir == 1 then node.next else node.prev) == None
    ensures r.1 ==> r.0 == node.i
    ensures !r.1 ==> (if dir == 1 then node.next else node.prev) == Some(r.0)
  {
    var neighbour := if dir == 1 then node.next else node.prev;
    match neighbour
    case Some(j) => (j, false)
    case None => (node.i, true)
  }

  /**
   * On the chain, `getNext` moves one node forwards for `dir == 1` and one
   * node backwards otherwise; it reports the boundary, and stays, exactly at
   * the last node going forwards and at the first node going backwards.
   */
  lemma GetNextInChain(chain: seq<Links>, at: nat, dir: int)
    requires Shaped(chain) && at < Nodes
    ensures GetNext(chain[at], dir).0 < Nodes
    ensures GetNext(chain[at], dir).1 <==> (if dir == 1 then at == Nodes - 1 else at == 0)
    ensures GetNext(chain[at], dir).1 ==> GetNext(chain[at], dir).0 == at
    ensures !GetNext(chain[at], dir).1 ==> GetNext(chain[at], dir).0 == if dir == 1 then at + 1 else at - 1
  {
  }
}
