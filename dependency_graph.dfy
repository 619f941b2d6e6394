/**
 * The graph bookkeeping of `DependencyGraph` (src/DependencyGraph.ts):
 * building the graph from the loaded document, the text filter that moves
 * nodes and links between the visible `Data` and the hidden `_filteredData`,
 * and the highlight toggle of the node click handler.
 */
module DependencyGraphs {
  import opened Wrappers
  import opened Filtering
  import opened Text
  import opened Graph

  /** The nodes the links of `links` come from (`Targets`: the nodes they point to), unset endpoints aside. */
  function Sources(links: seq<Link>): set<Node?>
  {
    set l | l in links && l.source != null :: l.source
  }

  function Targets(links: seq<Link>): set<Node?>
  {
    set l | l in links && l.target != null :: l.target
  }

  /** The endpoints of `link` are what the lookup holds for the names of `raw`. */
  predicate ResolvedFrom(link: Link, lookup: map<string, Node>, raw: RawLink)
  {
    link.source == Resolve(lookup, raw.source) && link.target == Resolve(lookup, raw.target)
  }

  /**
   * The flags a node has after a click on some node, from the flags it had
   * before: whether it is visible, whether it is the clicked node, whether it
   * is the source of one of the clicked node's inbound links or the target of
   * one of its outbound links, and the clicked node's new `highlightSelf`.
   */
  function AfterClick(before: Highlight, visible: bool, clicked: bool,
                      inboundSource: bool, outboundTarget: bool, on: bool): Highlight
  {
    Highlight(
      if clicked then on else if visible then false else before.self,
      if inboundSource then on else if visible then false else before.inbound,
      if outboundTarget then on else if visible then false else before.outbound)
  }

  /**
   * A click that turns the clicked node off leaves every visible node
   * unhighlighted; one that turns it on highlights exactly the clicked node,
   * its inbound sources and its outbound targets among the visible ones.
   */
  lemma ClickOnVisible(before: Highlight, clicked: bool, inboundSource: bool, outboundTarget: bool, on: bool)
    ensures AfterClick(before, true, clicked, inboundSource, outboundTarget, on)
      == Highlight(clicked && on, inboundSource && on, outboundTarget && on)
  {
  }

  /**
   * The query "b" over nodes A, B, C with links A->B and B->C: only B's name
   * passes the node test, yet both links pass the link test through B, so
   * `setFilter` leaves visible links whose other endpoint is hidden.
   */
  lemma QueryBScenario()
    ensures !IsBlank(Some("b")) && Lower("b") == "b"
    ensures MatchesQuery("B", "b")
    ensures !MatchesQuery("A", "b") && !MatchesQuery("C", "b")
  {
    BlankIffAllWhitespace("b");
    assert !IsWhitespace("b"[0]);
    assert Lower("B") == "b" && StartsWith("b", "b");
    assert Lower("A") == "a" && Lower("C") == "c";
    assert !Includes("", "b");
    assert !StartsWith("a", "b") && !StartsWith("c", "b");
    assert "a"[1..] == "" && "c"[1..] == "";
    assert !Includes("a", "b");
    assert !Includes("c", "b");
  }

  /** The lookup loading builds for three nodes named A, B and C. */
  lemma LookupOfThree(a: Node, b: Node, c: Node)
    requires a.name == "A" && b.name == "B" && c.name == "C"
    ensures LookupOf([a, b, c]) == map["A" := a, "B" := b, "C" := c]
  {
    assert [a][..0] == [] && [a, b][..1] == [a] && [a, b, c][..2] == [a, b];
    assert LookupOf([a]) == map["A" := a];
    assert LookupOf([a, b]) == map["A" := a, "B" := b];
  }

  /** Under the query "b", of nodes named A, B and C only B is kept. */
  lemma FilterThreeByB(a: Node, b: Node, c: Node)
    requires a.name == "A" && b.name == "B" && c.name == "C"
    ensures Filter([a, b, c], NodeCondition("b")) == [b]
    ensures Filter([a, b, c], Negate(NodeCondition("b"))) == [a, c]
  {
    QueryBScenario();
    var p := NodeCondition("b");
    assert !p(a) && p(b) && !p(c);
    assert [a, b, c] == [a] + [b] + [c] && [a] == [] + [a];
    FilterSnoc([], a, p);
    FilterSnoc([a], b, p);
    FilterSnoc([a, b], c, p);
    FilterSnoc([], a, Negate(p));
    FilterSnoc([a], b, Negate(p));
    FilterSnoc([a, b], c, Negate(p));
  }

  /** Under the query "b", the links A->B and B->C both stay visible, through their endpoint B. */
  lemma FilterTwoLinksByB(a: Node, b: Node, c: Node, ab: Link, bc: Link)
    requires a.name == "A" && b.name == "B" && c.name == "C"
    requires ab.source == a && ab.target == b && bc.source == b && bc.target == c
    ensures LinkTestDefined(ab, "b") && LinkTestDefined(bc, "b")
    ensures Filter([ab, bc], LinkCondition("b")) == [ab, bc]
    ensures Filter([ab, bc], Negate(LinkCondition("b"))) == []
  {
    QueryBScenario();
    var q := LinkCondition("b");
    assert q(ab) && q(bc);
    assert [ab, bc] == [ab] + [bc] && [ab] == [] + [ab];
    FilterSnoc([], ab, q);
    FilterSnoc([ab], bc, q);
    FilterSnoc([], ab, Negate(q));
    FilterSnoc([ab], bc, Negate(q));
  }

  /** The graph loaded from nodes A, B, C and links A->B, B->C, with nothing hidden. */
  method LoadThree() returns (g: DependencyGraph, ghost a: Node, ghost b: Node, ghost c: Node, ghost ab: Link, ghost bc: Link)
    ensures fresh(g) && fresh(g.Data) && fresh(g.filteredData)
    ensures g.Valid()
    ensures g.AllNodes == [a, b, c] && a.name == "A" && b.name == "B" && c.name == "C"
    ensures g.AllLinks == [ab, bc] && ab.source == a && ab.target == b && bc.source == b && bc.target == c
    ensures g.Data.Nodes == g.AllNodes && g.Data.Links == g.AllLinks
    ensures g.filteredData.Nodes == [] && g.filteredData.Links == []
  {
    var raw := RawData([RawNode("A", "CPAN"), RawNode("B", "CPAN"), RawNode("C", "CPAN")],
                       [RawLink("A", "B"), RawLink("B", "C")]);
    g := new DependencyGraph(raw);
    a, b, c := g.AllNodes[0], g.AllNodes[1], g.AllNodes[2];
    ab, bc := g.AllLinks[0], g.AllLinks[1];
    assert g.AllNodes == [a, b, c] && g.AllLinks == [ab, bc];
    assert ResolvedFrom(ab, g.Data.NodeLookup, raw.links[0]) && ResolvedFrom(bc, g.Data.NodeLookup, raw.links[1]);
    LookupOfThree(a, b, c);
    ResolvedThree(g.Data.NodeLookup, a, b, c, ab, bc);
  }

  /** Links read as A->B and B->C against the lookup of A, B, C join those nodes. */
  lemma ResolvedThree(lookup: map<string, Node>, a: Node, b: Node, c: Node, ab: Link, bc: Link)
    requires lookup == map["A" := a, "B" := b, "C" := c]
    requires ResolvedFrom(ab, lookup, RawLink("A", "B")) && ResolvedFrom(bc, lookup, RawLink("B", "C"))
    ensures ab.source == a && ab.target == b && bc.source == b && bc.target == c
  {
  }

  /**
   * The query "b" applied to the graph loaded from nodes A, B, C and links
   * A->B, B->C: only B stays visible, A and C are hidden, and both links stay
   * visible, each with one hidden endpoint.
   */
  method QueryBOnThreeNodes() returns (g: DependencyGraph, ghost a: Node, ghost b: Node, ghost c: Node, ghost ab: Link, ghost bc: Link)
    ensures g.Valid()
    ensures g.AllNodes == [a, b, c] && a.name == "A" && b.name == "B" && c.name == "C"
    ensures g.AllLinks == [ab, bc] && ab.source == a && ab.target == b && bc.source == b && bc.target == c
    ensures g.Data.Nodes == [b] && g.filteredData.Nodes == [a, c]
    ensures g.Data.Links == [ab, bc] && g.filteredData.Links == []
  {
    g, a, b, c, ab, bc := LoadThree();
    FilterThreeByB(a, b, c);
    FilterTwoLinksByB(a, b, c, ab, bc);
    QueryBScenario();
    g.SetFilter(Some("b"));
  }

  class DependencyGraph {
    /** The visible nodes and links, and the name lookup. */
    const Data: GraphData
    /** `_filteredData`: the nodes and links a filter has hidden. */
    const filteredData: GraphData
    /** `_filterText`: the lower-cased text of the last non-blank filter. */
    var filterText: Option<string>

    /** Every node and link loaded, in the order of the document. */
    ghost var AllNodes: seq<Node>
    ghost var AllLinks: seq<Link>

    /**
     * Visible plus hidden is always the whole loaded graph, the lookup is the
     * one loading built, and every loaded node's link lists are exactly, in
     * order, the links it is the source or target of.
     */
    ghost predicate Valid()
      reads this, Data, filteredData
      reads (set m | m in AllNodes)`inboundLinks, (set m | m in AllNodes)`outboundLinks
    {
      Partitioned() && Wired()
    }

    /** Every loaded node (link) is visible or hidden, and exactly once. */
    ghost predicate Partitioned()
      reads this, Data, filteredData
    {
      Data != filteredData
      && multiset(Data.Nodes) + multiset(filteredData.Nodes) == multiset(AllNodes)
      && multiset(Data.Links) + multiset(filteredData.Links) == multiset(AllLinks)
      && Data.NodeLookup == LookupOf(AllNodes)
    }

    /** Link endpoints are loaded nodes, and link lists agree with the links. */
    ghost predicate Wired()
      reads this, (set m | m in AllNodes)`inboundLinks, (set m | m in AllNodes)`outboundLinks
    {
      (forall l :: l in AllLinks ==>
         (l.source != null ==> l.source in AllNodes) && (l.target != null ==> l.target in AllNodes))
      && (forall m :: m in AllNodes ==>
            m.outboundLinks == Filter(AllLinks, SourceIs(m)) && m.inboundLinks == Filter(AllLinks, TargetIs(m)))
    }

    /** Builds the graph from the loaded document (`loadData`, called by the constructor). */
    constructor (raw: RawData)
      ensures Valid() && fresh(Data) && fresh(filteredData)
      ensures filterText == None
      ensures Data.Nodes == AllNodes && Data.Links == AllLinks
      ensures filteredData.Nodes == [] && filteredData.Links == []
      ensures |AllNodes| == |raw.nodes|
      ensures forall i :: 0 <= i < |raw.nodes| ==>
        AllNodes[i].name == raw.nodes[i].name && AllNodes[i].kind == raw.nodes[i].pan
        && AllNodes[i].State() == Unhighlighted
      ensures forall i, j :: 0 <= i < j < |AllNodes| ==> AllNodes[i] != AllNodes[j]
      ensures |AllLinks| == |raw.links|
      ensures forall j :: 0 <= j < |raw.links| ==> ResolvedFrom(AllLinks[j], Data.NodeLookup, raw.links[j])
      ensures forall i, j :: 0 <= i < j < |AllLinks| ==> AllLinks[i] != AllLinks[j]
      ensures forall n :: n in AllNodes ==> fresh(n)
      ensures forall l :: l in AllLinks ==> fresh(l)
    {
      Data := new GraphData();
      filteredData := new GraphData();
      filterText := None;
      AllNodes := [];
      AllLinks := [];
      new;
      LoadData(raw);
    }

    /**
     * `loadData`: one fresh node per raw node, registered in the lookup under
     * its name; then one link per raw link, whose endpoints are the nodes the
     * lookup holds for its names (unset when a name is unknown), appended to
     * its source's outbound and its target's inbound links.
     */
    method LoadData(raw: RawData)
      requires Data != filteredData
      requires Data.Nodes == [] && Data.Links == [] && Data.NodeLookup == map[]
      requires filteredData.Nodes == [] && filteredData.Links == []
      modifies this, Data
      ensures Valid()
      ensures filterText == old(filterText)
      ensures Data.Nodes == AllNodes && Data.Links == AllLinks
      ensures |AllNodes| == |raw.nodes|
      ensures forall i :: 0 <= i < |raw.nodes| ==>
        AllNodes[i].name == raw.nodes[i].name && AllNodes[i].kind == raw.nodes[i].pan
        && AllNodes[i].State() == Unhighlighted
      ensures forall i, j :: 0 <= i < j < |AllNodes| ==> AllNodes[i] != AllNodes[j]
      ensures |AllLinks| == |raw.links|
      ensures forall j :: 0 <= j < |raw.links| ==> ResolvedFrom(AllLinks[j], Data.NodeLookup, raw.links[j])
      ensures forall i, j :: 0 <= i < j < |AllLinks| ==> AllLinks[i] != AllLinks[j]
      ensures forall n :: n in AllNodes ==> fresh(n)
      ensures forall l :: l in AllLinks ==> fresh(l)
    {
      var nodes := LoadNodes(raw.nodes);
      Data.Nodes, AllNodes := nodes, nodes;
      LinkAll(raw.links);
    }

    /** With nothing hidden, the invariant reduces to the wiring of the loaded links. */
    lemma AllVisibleIsValid()
      requires Data != filteredData
      requires Data.Nodes == AllNodes && Data.Links == AllLinks
      requires filteredData.Nodes == [] && filteredData.Links == []
      requires Data.NodeLookup == LookupOf(AllNodes)
      requires forall l :: l in AllLinks ==>
        (l.source != null ==> l.source in AllNodes) && (l.target != null ==> l.target in AllNodes)
      requires forall m :: m in AllNodes ==>
        m.outboundLinks == Filter(AllLinks, SourceIs(m)) && m.inboundLinks == Filter(AllLinks, TargetIs(m))
      ensures Valid()
    {
    }

    /** The first half of `loadData`: the nodes, and the lookup filled as they are built. */
    method LoadNodes(rawNodes: seq<RawNode>) returns (nodes: seq<Node>)
      requires Data.NodeLookup == map[]
      modifies Data`NodeLookup
      ensures Data.NodeLookup == LookupOf(nodes)
      ensures |nodes| == |rawNodes|
      ensures forall k :: 0 <= k < |nodes| ==>
        fresh(nodes[k]) && nodes[k].name == rawNodes[k].name && nodes[k].kind == rawNodes[k].pan
        && nodes[k].inboundLinks == [] && nodes[k].outboundLinks == [] && nodes[k].State() == Unhighlighted
      ensures forall k, k' :: 0 <= k < k' < |nodes| ==> nodes[k] != nodes[k']
    {
      nodes := [];
      for i := 0 to |rawNodes|
        invariant |nodes| == i
        invariant forall k :: 0 <= k < i ==>
          fresh(nodes[k]) && nodes[k].name == rawNodes[k].name && nodes[k].kind == rawNodes[k].pan
          && nodes[k].inboundLinks == [] && nodes[k].outboundLinks == [] && nodes[k].State() == Unhighlighted
        invariant forall k, k' :: 0 <= k < k' < i ==> nodes[k] != nodes[k']
        invariant Data.NodeLookup == LookupOf(nodes)
      {
        var newNode := new Node(rawNodes[i].name, rawNodes[i].pan);
        Data.NodeLookup := Data.NodeLookup[rawNodes[i].name := newNode];
        assert (nodes + [newNode])[..i] == nodes;
        nodes := nodes + [newNode];
      }
    }

    /** The second half of `loadData`, on the loaded nodes: `Data.Links` and the wiring. */
    method LinkAll(rawLinks: seq<RawLink>)
      requires Data != filteredData
      requires filteredData.Nodes == [] && filteredData.Links == []
      requires Data.Nodes == AllNodes && Data.NodeLookup == LookupOf(AllNodes)
      requires forall m :: m in AllNodes ==> m.inboundLinks == [] && m.outboundLinks == []
      modifies this`AllLinks, Data`Links
      modifies (set m | m in AllNodes)`inboundLinks, (set m | m in AllNodes)`outboundLinks
      ensures Valid()
      ensures Data.Links == AllLinks && |AllLinks| == |rawLinks|
      ensures forall j :: 0 <= j < |rawLinks| ==> ResolvedFrom(AllLinks[j], Data.NodeLookup, rawLinks[j])
      ensures forall i, j :: 0 <= i < j < |AllLinks| ==> AllLinks[i] != AllLinks[j]
      ensures forall m :: m in AllNodes ==> m.State() == old(m.State())
      ensures forall l :: l in AllLinks ==> fresh(l)
    {
      LookupValues(AllNodes);
      var links := LoadLinks(Data.Nodes, Data.NodeLookup, rawLinks);
      Data.Links, AllLinks := links, links;
      AllVisibleIsValid();
    }

    /** One link per raw link, wired into its endpoints' lists. */
    method LoadLinks(nodes: seq<Node>, lookup: map<string, Node>, rawLinks: seq<RawLink>)
      returns (links: seq<Link>)
      requires forall name :: name in lookup ==> lookup[name] in nodes
      requires forall m :: m in nodes ==> m.inboundLinks == [] && m.outboundLinks == []
      modifies nodes`inboundLinks, nodes`outboundLinks
      ensures |links| == |rawLinks|
      ensures forall k :: 0 <= k < |links| ==> fresh(links[k]) && ResolvedFrom(links[k], lookup, rawLinks[k])
      ensures forall k, k' :: 0 <= k < k' < |links| ==> links[k] != links[k']
      ensures forall l :: l in links ==>
        (l.source != null ==> l.source in nodes) && (l.target != null ==> l.target in nodes)
      ensures forall m :: m in nodes ==>
        m.outboundLinks == Filter(links, SourceIs(m)) && m.inboundLinks == Filter(links, TargetIs(m))
      ensures forall m :: m in nodes ==> m.State() == old(m.State())
    {
      links := [];
      for j := 0 to |rawLinks|
        invariant |links| == j
        invariant forall k :: 0 <= k < j ==> fresh(links[k])
        invariant forall k :: 0 <= k < j ==> ResolvedFrom(links[k], lookup, rawLinks[k])
        invariant forall k, k' :: 0 <= k < k' < j ==> links[k] != links[k']
        invariant forall l :: l in links ==>
          (l.source != null ==> l.source in nodes) && (l.target != null ==> l.target in nodes)
        invariant forall m :: m in nodes ==>
          m.outboundLinks == Filter(links, SourceIs(m)) && m.inboundLinks == Filter(links, TargetIs(m))
      {
        var newLink := AddLink(nodes, lookup, links, rawLinks[j]);
        assert forall k :: 0 <= k < j ==> (links + [newLink])[k] == links[k];
        links := links + [newLink];
      }
    }

    /**
     * One iteration of the link loop of `loadData`: the link's endpoints are
     * the nodes the lookup holds for its names, unset when a name is unknown
     * (lines 32-44); the link joins its source's outbound and its target's
     * inbound links (lines 35 and 41).
     */
    method AddLink(nodes: seq<Node>, lookup: map<string, Node>, links: seq<Link>, rawLink: RawLink)
      returns (newLink: Link)
      requires forall name :: name in lookup ==> lookup[name] in nodes
      requires forall m :: m in nodes ==>
        m.outboundLinks == Filter(links, SourceIs(m)) && m.inboundLinks == Filter(links, TargetIs(m))
      modifies nodes`inboundLinks, nodes`outboundLinks
      ensures fresh(newLink)
      ensures ResolvedFrom(newLink, lookup, rawLink)
      ensures forall m :: m in nodes ==>
        m.outboundLinks == Filter(links + [newLink], SourceIs(m))
        && m.inboundLinks == Filter(links + [newLink], TargetIs(m))
    {
      var source: Node? := null;
      var target: Node? := null;
      if rawLink.source in lookup {
        source := lookup[rawLink.source];
      }
      if rawLink.target in lookup {
        target := lookup[rawLink.target];
      }
      newLink := new Link(source, target);
      forall m | m in nodes
        ensures Filter(links + [newLink], SourceIs(m)) == Filter(links, SourceIs(m)) + (if m == source then [newLink] else [])
        ensures Filter(links + [newLink], TargetIs(m)) == Filter(links, TargetIs(m)) + (if m == target then [newLink] else [])
      {
        FilterSnoc(links, newLink, SourceIs(m));
        FilterSnoc(links, newLink, TargetIs(m));
      }
      if source != null {
        source.outboundLinks := source.outboundLinks + [newLink];
      }
      if target != null {
        target.inboundLinks := target.inboundLinks + [newLink];
      }
    }

    /** Every visible node and link is a loaded one. */
    lemma VisibleAreLoaded()
      requires Valid()
      ensures forall n :: n in Data.Nodes ==> n in AllNodes
      ensures forall l :: l in Data.Links ==> l in AllLinks
    {
      forall n | n in Data.Nodes ensures n in AllNodes {
        assert (multiset(Data.Nodes) + multiset(filteredData.Nodes))[n] > 0;
      }
      forall l | l in Data.Links ensures l in AllLinks {
        assert (multiset(Data.Links) + multiset(filteredData.Links))[l] > 0;
      }
    }

    /**
     * The links of a loaded node are loaded links whose other endpoint, when
     * set, is a loaded node.
     */
    lemma IncidentAreLoaded(n: Node)
      requires Valid() && n in AllNodes
      ensures forall l :: l in n.inboundLinks ==> l in AllLinks && l.target == n
      ensures forall l :: l in n.outboundLinks ==> l in AllLinks && l.source == n
      ensures forall l :: l in n.inboundLinks && l.source != null ==> l.source in AllNodes
      ensures forall l :: l in n.outboundLinks && l.target != null ==> l.target in AllNodes
    {
      forall l | l in n.inboundLinks ensures l in AllLinks && l.target == n {
        FilterMembership(AllLinks, TargetIs(n), l);
      }
      forall l | l in n.outboundLinks ensures l in AllLinks && l.source == n {
        FilterMembership(AllLinks, SourceIs(n), l);
      }
    }

    /**
     * A loaded link is in a node's outbound (inbound) links exactly when that
     * node is its source (target); a link whose name did not resolve is in no
     * node's list on that side.
     */
    lemma LinkWiring(l: Link, m: Node)
      requires Valid() && l in AllLinks && m in AllNodes
      ensures l in m.outboundLinks <==> l.source == m
      ensures l in m.inboundLinks <==> l.target == m
    {
      FilterMembership(AllLinks, SourceIs(m), l);
      FilterMembership(AllLinks, TargetIs(m), l);
    }

    /**
     * Every loaded node's name is a key of the lookup, and every key maps to a
     * loaded node bearing that name.
     */
    lemma LookupHoldsEveryName()
      requires Valid()
      ensures forall n :: n in AllNodes ==> n.name in Data.NodeLookup
      ensures forall k :: k in Data.NodeLookup ==> Data.NodeLookup[k] in AllNodes && Data.NodeLookup[k].name == k
    {
      forall n | n in AllNodes ensures n.name in Data.NodeLookup {
        var i :| 0 <= i < |AllNodes| && AllNodes[i] == n;
        assert NamedAt(AllNodes, i, n.name);
        LookupOfLast(AllNodes, n.name);
      }
      LookupValues(AllNodes);
    }

    /**
     * A loaded link is in the outbound links of the node its source name
     * looks up to when that name is known, and in no node's outbound links
     * otherwise; likewise for its target and inbound links.
     */
    lemma ResolvedLinkWiring(link: Link, raw: RawLink)
      requires Valid() && link in AllLinks && ResolvedFrom(link, Data.NodeLookup, raw)
      ensures raw.source in Data.NodeLookup ==> link in Data.NodeLookup[raw.source].outboundLinks
      ensures raw.source !in Data.NodeLookup ==> forall m :: m in AllNodes ==> link !in m.outboundLinks
      ensures raw.target in Data.NodeLookup ==> link in Data.NodeLookup[raw.target].inboundLinks
      ensures raw.target !in Data.NodeLookup ==> forall m :: m in AllNodes ==> link !in m.inboundLinks
    {
      LookupValues(AllNodes);
      forall m | m in AllNodes
        ensures link in m.outboundLinks <==> link.source == m
        ensures link in m.inboundLinks <==> link.target == m
      {
        LinkWiring(link, m);
      }
    }

    /**
     * `setFilter`: a blank value clears the filter and appends every hidden
     * node and link back onto the visible ones; any other value, lower-cased
     * but not trimmed, narrows the visible nodes to those whose lower-cased
     * name contains it and the visible links to those with a source or a
     * target that does, moving the rest to the hidden ones.
     */
    method SetFilter(value: Option<string>)
      requires Valid()
      requires !IsBlank(value) ==> forall l :: l in Data.Links ==> LinkTestDefined(l, Lower(value.value))
      modifies this, Data, filteredData
      ensures Valid()
      ensures AllNodes == old(AllNodes) && AllLinks == old(AllLinks)
      ensures unchanged(Data`NodeLookup, filteredData`NodeLookup)
      ensures IsBlank(value) ==>
        filterText == None
        && Data.Nodes == old(Data.Nodes) + old(filteredData.Nodes) && filteredData.Nodes == []
        && Data.Links == old(Data.Links) + old(filteredData.Links) && filteredData.Links == []
        && multiset(Data.Nodes) == multiset(AllNodes) && multiset(Data.Links) == multiset(AllLinks)
      ensures !IsBlank(value) ==>
        var filter := Lower(value.value);
        filterText == Some(filter)
        && Data.Nodes == Filter(old(Data.Nodes), NodeCondition(filter))
        && filteredData.Nodes == old(filteredData.Nodes) + Filter(old(Data.Nodes), Negate(NodeCondition(filter)))
        && Data.Links == Filter(old(Data.Links), LinkCondition(filter))
        && filteredData.Links == old(filteredData.Links) + Filter(old(Data.Links), Negate(LinkCondition(filter)))
        && (forall n :: n in Data.Nodes <==> n in old(Data.Nodes) && MatchesQuery(n.name, filter))
        && (forall l :: l in Data.Links <==> l in old(Data.Links) && LinkCondition(filter)(l))
    {
      var v := value;
      if IsBlank(v) {
        v := None;
      }
      if v.Some? {
        ShowMatching(Lower(v.value));
      } else {
        ShowAll();
      }
    }

    /** Lines 186-190: keeps visible what matches `filter` and moves the rest to the hidden lists. */
    method ShowMatching(filter: string)
      requires Valid()
      requires forall l :: l in Data.Links ==> LinkTestDefined(l, filter)
      modifies this, Data, filteredData
      ensures Valid()
      ensures AllNodes == old(AllNodes) && AllLinks == old(AllLinks)
      ensures unchanged(Data`NodeLookup, filteredData`NodeLookup)
      ensures filterText == Some(filter)
      ensures Data.Nodes == Filter(old(Data.Nodes), NodeCondition(filter))
      ensures filteredData.Nodes == old(filteredData.Nodes) + Filter(old(Data.Nodes), Negate(NodeCondition(filter)))
      ensures Data.Links == Filter(old(Data.Links), LinkCondition(filter))
      ensures filteredData.Links == old(filteredData.Links) + Filter(old(Data.Links), Negate(LinkCondition(filter)))
      ensures forall n :: n in Data.Nodes <==> n in old(Data.Nodes) && MatchesQuery(n.name, filter)
      ensures forall l :: l in Data.Links <==> l in old(Data.Links) && LinkCondition(filter)(l)
    {
      var filterName := NodeCondition(filter);
      var nodes, hiddenNodes := FilterInPlace(Data.Nodes, filteredData.Nodes, filterName);
      var links, hiddenLinks := FilterInPlace(Data.Links, filteredData.Links, LinkCondition(filter));
      forall n ensures n in nodes <==> n in Data.Nodes && MatchesQuery(n.name, filter) {
        FilterMembership(Data.Nodes, filterName, n);
      }
      forall l ensures l in links <==> l in Data.Links && LinkCondition(filter)(l) {
        FilterMembership(Data.Links, LinkCondition(filter), l);
      }
      filterText := Some(filter);
      Data.Nodes, filteredData.Nodes := nodes, hiddenNodes;
      Data.Links, filteredData.Links := links, hiddenLinks;
      RepartitionKeepsValid();
    }

    /** Lines 192-196: clears the filter and appends every hidden node and link to the visible ones. */
    method ShowAll()
      requires Valid()
      modifies this, Data, filteredData
      ensures Valid()
      ensures AllNodes == old(AllNodes) && AllLinks == old(AllLinks)
      ensures unchanged(Data`NodeLookup, filteredData`NodeLookup)
      ensures filterText == None
      ensures Data.Nodes == old(Data.Nodes) + old(filteredData.Nodes) && filteredData.Nodes == []
      ensures Data.Links == old(Data.Links) + old(filteredData.Links) && filteredData.Links == []
      ensures multiset(Data.Nodes) == multiset(AllNodes) && multiset(Data.Links) == multiset(AllLinks)
    {
      var nodes := PushAll(Data.Nodes, filteredData.Nodes);
      var links := PushAll(Data.Links, filteredData.Links);
      filterText := None;
      Data.Nodes, filteredData.Nodes := nodes, [];
      Data.Links, filteredData.Links := links, [];
      RepartitionKeepsValid();
    }

    /**
     * The click handler: remembers the clicked node's `highlightSelf`, clears
     * all three flags of every visible node, sets the clicked node's
     * `highlightSelf` to the negation of what it was, and copies that value
     * into `highlightInbound` of the sources of its inbound links and
     * `highlightOutbound` of the targets of its outbound links.
     */
    method ClickNode(node: Node)
      requires Valid() && node in AllNodes
      requires forall l :: l in node.inboundLinks ==> l.source != null
      requires forall l :: l in node.outboundLinks ==> l.target != null
      modifies (set m | m in AllNodes)`highlightSelf, (set m | m in AllNodes)`highlightInbound,
               (set m | m in AllNodes)`highlightOutbound
      ensures Valid()
      ensures forall m :: m in AllNodes ==>
        m.State() == AfterClick(old(m.State()), m in Data.Nodes, m == node,
                                m in Sources(node.inboundLinks), m in Targets(node.outboundLinks),
                                !old(node.highlightSelf))
      ensures node.highlightSelf == !old(node.highlightSelf)
    {
      VisibleAreLoaded();
      IncidentAreLoaded(node);
      var previousHighlight := node.highlightSelf;
      ClearVisible();
      label Cleared:
      node.highlightSelf := !previousHighlight;
      SetInboundOfSources(node.inboundLinks, node.highlightSelf);
      SetOutboundOfTargets(node.outboundLinks, node.highlightSelf);
      HighlightKeepsValid();
      forall m | m in AllNodes
        ensures m.State() == AfterClick(old(m.State()), m in Data.Nodes, m == node,
                                        m in Sources(node.inboundLinks), m in Targets(node.outboundLinks),
                                        !previousHighlight)
      {
        assert old@Cleared(m.State()) == if m in Data.Nodes then Unhighlighted else old(m.State());
      }
    }

    /** Moving nodes and links between the visible and the hidden lists keeps the invariant. */
    twostate lemma RepartitionKeepsValid()
      requires old(Valid())
      requires AllNodes == old(AllNodes) && AllLinks == old(AllLinks) && Data.NodeLookup == old(Data.NodeLookup)
      requires multiset(Data.Nodes) + multiset(filteredData.Nodes) == old(multiset(Data.Nodes) + multiset(filteredData.Nodes))
      requires multiset(Data.Links) + multiset(filteredData.Links) == old(multiset(Data.Links) + multiset(filteredData.Links))
      requires forall m :: m in old(AllNodes) ==> unchanged(m`inboundLinks, m`outboundLinks)
      ensures Valid()
    {
    }

    /** Changing highlight flags only keeps the invariant. */
    twostate lemma HighlightKeepsValid()
      requires old(Valid())
      requires unchanged(this, Data, filteredData)
      requires forall m :: m in old(AllNodes) ==> unchanged(m`inboundLinks, m`outboundLinks)
      ensures Valid()
    {
    }

    /** Line 110-112: all three flags of every visible node become false. */
    method ClearVisible()
      modifies (set n | n in Data.Nodes)`highlightSelf, (set n | n in Data.Nodes)`highlightInbound,
               (set n | n in Data.Nodes)`highlightOutbound
      ensures forall m :: m in AllNodes ==>
        m.State() == if m in Data.Nodes then Unhighlighted else old(m.State())
    {
      for i := 0 to |Data.Nodes|
        invariant forall m :: m in AllNodes ==>
          m.State() == if m in Data.Nodes[..i] then Unhighlighted else old(m.State())
      {
        var n := Data.Nodes[i];
        assert Data.Nodes[..i + 1] == Data.Nodes[..i] + [n];
        n.highlightSelf, n.highlightInbound, n.highlightOutbound := false, false, false;
      }
      assert Data.Nodes[..|Data.Nodes|] == Data.Nodes;
    }

    /** Line 114: the source of each link gets `highlightInbound` set to `on`. */
    method SetInboundOfSources(links: seq<Link>, on: bool)
      requires forall l :: l in links ==> l.source != null
      modifies Sources(links)`highlightInbound
      ensures forall m :: m in AllNodes ==>
        m.highlightInbound == if m in Sources(links) then on else old(m.highlightInbound)
    {
      for i := 0 to |links|
        invariant forall m :: m in AllNodes ==>
          m.highlightInbound == if m in Sources(links[..i]) then on else old(m.highlightInbound)
      {
        assert links[..i + 1] == links[..i] + [links[i]];
        links[i].source.highlightInbound := on;
      }
      assert links[..|links|] == links;
    }

    /** Line 115: the target of each link gets `highlightOutbound` set to `on`. */
    method SetOutboundOfTargets(links: seq<Link>, on: bool)
      requires forall l :: l in links ==> l.target != null
      modifies Targets(links)`highlightOutbound
      ensures forall m :: m in AllNodes ==>
        m.highlightOutbound == if m in Targets(links) then on else old(m.highlightOutbound)
    {
      for i := 0 to |links|
        invariant forall m :: m in AllNodes ==>
          m.highlightOutbound == if m in Targets(links[..i]) then on else old(m.highlightOutbound)
      {
        assert links[..i + 1] == links[..i] + [links[i]];
        links[i].target.highlightOutbound := on;
      }
      assert links[..|links|] == links;
    }

    /**
     * Clicking twice a loaded node whose `highlightSelf` was false: the first
     * click turns it on, the second turns it off and leaves every visible node
     * unhighlighted.
     */
    method ClickTwice(node: Node)
      requires Valid() && node in AllNodes && !node.highlightSelf
      requires forall l :: l in node.inboundLinks ==> l.source != null
      requires forall l :: l in node.outboundLinks ==> l.target != null
      modifies (set m | m in AllNodes)`highlightSelf, (set m | m in AllNodes)`highlightInbound,
               (set m | m in AllNodes)`highlightOutbound
      ensures Valid()
      ensures forall m :: m in Data.Nodes ==> m.State() == Unhighlighted
    {
      ClickNode(node);
      ClickNode(node);
      VisibleAreLoaded();
    }
  }
}
