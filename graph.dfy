/**
 * The records of the graph: src/Node.ts, src/Link.ts, src/GraphData.ts, and
 * the raw `{name, pan}` / `{source, target}` records the loader reads.
 */
module Graph {
  import opened Text

  /** A raw node of the loaded document: its name and its `pan` category. */
  datatype RawNode = RawNode(name: string, pan: string)

  /** A raw link of the loaded document: the names of its two endpoints. */
  datatype RawLink = RawLink(source: string, target: string)

  datatype RawData = RawData(nodes: seq<RawNode>, links: seq<RawLink>)

  /** The three highlight flags of a node, as one value. */
  datatype Highlight = Highlight(self: bool, inbound: bool, outbound: bool)

  const Unhighlighted := Highlight(false, false, false)

  /**
   * A package or module. Its name and category are fixed once the node is
   * built; its link lists and highlight flags are updated in place.
   */
  class Node {
    const name: string
    const kind: string
    var inboundLinks: seq<Link>
    var outboundLinks: seq<Link>
    var highlightInbound: bool
    var highlightOutbound: bool
    var highlightSelf: bool

    /** A node starts with no links and no highlight. */
    constructor (name: string, kind: string)
      ensures this.name == name && this.kind == kind
      ensures inboundLinks == [] && outboundLinks == []
      ensures State() == Unhighlighted
    {
      this.name := name;
      this.kind := kind;
      inboundLinks := [];
      outboundLinks := [];
      highlightInbound := false;
      highlightOutbound := false;
      highlightSelf := false;
    }

    function State(): Highlight
      reads this
    {
      Highlight(highlightSelf, highlightInbound, highlightOutbound)
    }
  }

  /** A reference from `source` to `target`; `null` is an endpoint left unset. */
  class Link {
    const source: Node?
    const target: Node?

    constructor (source: Node?, target: Node?)
      ensures this.source == source && this.target == target
    {
      this.source := source;
      this.target := target;
    }
  }

  /** The visible (or, for the backup, hidden) nodes and links, and the name lookup. */
  class GraphData {
    var Nodes: seq<Node>
    var Links: seq<Link>
    var NodeLookup: map<string, Node>

    constructor ()
      ensures Nodes == [] && Links == [] && NodeLookup == map[]
    {
      Nodes := [];
      Links := [];
      NodeLookup := map[];
    }
  }

  /**
   * The lookup that setting `NodeLookup.set(node.name, node)` for each node
   * in turn produces: a later node with the same name replaces an earlier one.
   */
  function LookupOf(nodes: seq<Node>): map<string, Node>
  {
    if nodes == [] then map[]
    else LookupOf(nodes[..|nodes| - 1])[nodes[|nodes| - 1].name := nodes[|nodes| - 1]]
  }

  /** `name` is the name of the node at index `i`. */
  predicate NamedAt(nodes: seq<Node>, i: int, name: string)
  {
    0 <= i < |nodes| && nodes[i].name == name
  }

  /**
   * Every name of a node is a key of the lookup, and every key maps to the
   * LAST node bearing that name.
   */
  lemma {:induction false} LookupOfLast(nodes: seq<Node>, name: string)
    ensures name in LookupOf(nodes) <==> exists i :: NamedAt(nodes, i, name)
    ensures name in LookupOf(nodes) ==>
      exists i :: NamedAt(nodes, i, name) && LookupOf(nodes)[name] == nodes[i]
        && forall j :: i < j < |nodes| ==> nodes[j].name != name
  {
    if nodes != [] {
      var init, last := nodes[..|nodes| - 1], nodes[|nodes| - 1];
      LookupOfLast(init, name);
      if last.name == name {
        assert NamedAt(nodes, |nodes| - 1, name);
      } else if exists i :: NamedAt(nodes, i, name) {
        var i :| NamedAt(nodes, i, name);
        assert NamedAt(init, i, name);
        var k :| NamedAt(init, k, name) && LookupOf(init)[name] == init[k]
          && forall j :: k < j < |init| ==> init[j].name != name;
        assert NamedAt(nodes, k, name);
      }
      if name in LookupOf(init) {
        var k :| NamedAt(init, k, name);
        assert NamedAt(nodes, k, name);
      }
    }
  }

  /** Every node the lookup holds is one of the loaded nodes, under its own name. */
  lemma LookupValues(nodes: seq<Node>)
    ensures forall k :: k in LookupOf(nodes) ==> LookupOf(nodes)[k] in nodes && LookupOf(nodes)[k].name == k
  {
  }

  /** `NodeLookup.get(name)` when `NodeLookup.has(name)`, the unset endpoint otherwise. */
  function Resolve(lookup: map<string, Node>, name: string): (r: Node?)
    ensures r != null <==> name in lookup
  {
    if name in lookup then lookup[name] else null
  }

  /** The links whose source is `n`: those `outboundLinks` holds. */
  function SourceIs(n: Node): Link -> bool
  {
    (l: Link) => l.source == n
  }

  /** The links whose target is `n`: those `inboundLinks` holds. */
  function TargetIs(n: Node): Link -> bool
  {
    (l: Link) => l.target == n
  }

  /** `filterName` of line 188. */
  function NodeCondition(filter: string): Node -> bool
  {
    (n: Node) => MatchesQuery(n.name, filter)
  }

  /**
   * The link test of line 190, `filterName(link.source) || filterName(link.target)`,
   * on links for which it evaluates (see `LinkTestDefined`).
   */
  function LinkCondition(filter: string): Link -> bool
  {
    (l: Link) => (l.source != null && MatchesQuery(l.source.name, filter))
         || (l.target != null && MatchesQuery(l.target.name, filter))
  }

  /**
   * The link test dereferences `link.source`, and `link.target` too when the
   * source does not match: it evaluates only when those endpoints are set.
   */
  predicate LinkTestDefined(l: Link, filter: string)
  {
    l.source != null && (MatchesQuery(l.source.name, filter) || l.target != null)
  }
}
