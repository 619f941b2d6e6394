# DepGraph graph bookkeeping, in Dafny

DepGraph draws a package dependency graph with d3 and lets the user filter it
by name and highlight a node's neighbourhood. This project models the state
of `DependencyGraph` that is not physics or drawing:

- **Graph construction** (`loadData`). Each raw `{name, pan}` record becomes a
  fresh `Node`, registered in the `NodeLookup` map under its name; a later
  node with the same name replaces an earlier one. Each raw
  `{source, target}` record then becomes a fresh `Link`. An endpoint whose
  name is in the lookup is set to that node, and the link is pushed onto its
  outbound (inbound) links. An endpoint whose name is unknown stays unset,
  and the link is kept anyway.
- **Stable in-place partition** (`filterInPlace`). A read index walks the
  array and a write index compacts the elements that pass the test. Those
  that fail are pushed onto the backup array, and the array is truncated to
  the write index.
- **Text filter** (`setFilter`).
  - An undefined, empty or all-white-space value means "no filter". Every
    hidden node and link is appended back onto the visible ones, and the
    hidden arrays are emptied.
  - Any other value is lower-cased, but not trimmed.
  - The visible nodes are narrowed to those whose lower-cased name contains
    the value.
  - The visible links are narrowed to those whose source or target passes
    that node test.
- **Highlight toggle** (the click handler on a node's circle). It remembers
  the clicked node's `highlightSelf` and clears all three flags of every
  visible node. It then sets the clicked node's `highlightSelf` to the
  negation of the remembered value. Finally it copies that value into
  `highlightInbound` of its inbound links' sources and into
  `highlightOutbound` of its outbound links' targets.

Modules:

- `Wrappers` (option.dfy) holds `Option`, for `string | undefined`.
- `Filtering` (filtering.dfy) holds the specification `Filter`, its lemmas,
  and the write-index loop `FilterInPlace`.
- `Text` (text.dfy) holds white space, `toLowerCase` and `includes`.
- `Graph` (graph.dfy) holds the records: the classes `Node`, `Link` and
  `GraphData`, the raw records, and the lookup.
- `DependencyGraphs` (dependency_graph.dfy) holds the class `DependencyGraph`.

`DependencyGraph` has the following state:

- `Data` is the visible graph and `filteredData` is `_filteredData`, the
  hidden one.
- `filterText` is `_filterText`.
- Two ghost fields record every node and link ever loaded.

Its invariant `Valid()` says three things:

- Visible plus hidden is always a permutation of everything loaded, for
  nodes and for links.
- The lookup is the one loading built.
- Every loaded node's `outboundLinks` (`inboundLinks`) are exactly, in
  loading order, the loaded links whose source (target) it is.

Loading establishes `Valid()`; `SetFilter` and `ClickNode` preserve it.
`SetFilter` dispatches to `ShowMatching` (a non-blank value) and `ShowAll`
(a blank one), the two branches of `setFilter`.

Some behaviours of the code worth noting, all of which the model follows:

- A link is kept when its source **or** its target matches (there is no AND
  policy).
- A second non-blank filter narrows what is currently visible. It does not
  restore first and then re-apply.
- The node test looks at node names only. A link can therefore stay visible
  while one of its endpoints is hidden. Under the query "b", nodes A, B and C
  with links A->B and B->C keep only node B visible, but both links
  (`DependencyGraphs.QueryBOnThreeNodes`).
- The query is not trimmed.
- Links have no highlight flags. A click with the clicked node turning off
  clears the visible nodes. A click on another node clears every visible
  node before highlighting.

## Model

| member | source | states |
|---|---|---|
| Filtering.FilterInPlace | src/DependencyGraph.ts:167-178 | the array ends holding exactly the elements that pass the test, in their original order; the backup ends as its old contents followed by the rejected elements in their original order; kept plus backup is a permutation of input plus old backup |
| Filtering.KeepOrBackUp | src/DependencyGraph.ts:169-176 | one step of the loop: the next element joins the kept elements if it passes and the rejected ones otherwise, at the end in both cases |
| Filtering.FilterMembership | src/DependencyGraph.ts:171-174 | an element is kept iff it was in the input and passes the test |
| Filtering.FilterPartition | src/DependencyGraph.ts:168-178 | kept and rejected elements together are a permutation of the input: nothing lost, nothing duplicated |
| Filtering.FilterConcat | src/DependencyGraph.ts:169-176 | filtering a concatenation is the concatenation of the filtered parts (relative order is kept) |
| Filtering.FilterTwice | src/DependencyGraph.ts:189-190 | filtering what a first filter kept is filtering the original by both tests: a later filter only narrows |
| Filtering.FilterAllPass | src/DependencyGraph.ts:171-172 | every kept element passes the test |
| Filtering.FilterEmpty | src/DependencyGraph.ts:169-178 | nothing is kept iff no element of the input passes |
| Filtering.PushAll | src/DependencyGraph.ts:193-195 | pushing each element in turn leaves the target followed by all the elements, in order |
| Text.IsWhitespace | src/DependencyGraph.ts:183 | the class `\s`: exactly the ECMAScript white-space and line-terminator code points (TAB, LF, VT, FF, CR, SPACE, U+00A0, U+1680, U+2000–U+200A, U+2028, U+2029, U+202F, U+205F, U+3000, U+FEFF) |
| Text.StripWhitespace | src/DependencyGraph.ts:183 | removing white space never lengthens the string and leaves no white-space character |
| Text.IsBlank | src/DependencyGraph.ts:183 | the "no filter" test: undefined, empty, or nothing left once white space is removed (its meaning is stated by `BlankIffAllWhitespace`) |
| Text.BlankIffAllWhitespace | src/DependencyGraph.ts:183-184 | a defined value counts as "no filter" exactly when every character of it is white space (so also when it is empty) |
| Text.LowerChar | src/DependencyGraph.ts:186 | an upper-case ASCII letter becomes the lower-case letter at the same position of the alphabet, and any other character, including a non-ASCII capital, is returned unchanged (ASCII scope, see "Left out") |
| Text.Lower | src/DependencyGraph.ts:186 | lower-casing keeps the length and lower-cases each character in place, so no upper-case ASCII letter is left |
| Text.LowerIdempotent | src/DependencyGraph.ts:186-188 | lower-casing an already lower-cased string changes nothing, so the lower-cased query matches lower-cased names consistently |
| Text.Includes | src/DependencyGraph.ts:188 | `includes`: the query starts at the first position of the name or occurs in the rest; it only holds when the query is no longer than the name, and always holds for the empty query |
| Text.MatchesQuery | src/DependencyGraph.ts:188 | `filterName` on a name: the lower-cased name includes the (already lower-cased, untrimmed) query; it only holds when the query is no longer than the name, and the empty query matches every name |
| Text.IncludesIff | src/DependencyGraph.ts:188 | `includes` holds exactly when the query occurs as a contiguous slice at some position of the name |
| Graph.Node.constructor | src/Node.ts:3-17 | a new node has the given name and type, empty inbound and outbound link lists, and all three highlight flags false |
| Graph.Link.constructor | src/Link.ts:3-7 | a new link has the given endpoints |
| Graph.GraphData.constructor | src/GraphData.ts:3-7 | new graph data has no nodes, no links and an empty lookup |
| Graph.LookupOf | src/DependencyGraph.ts:24-30 | the lookup built by setting each node under its name in loading order, a later node replacing an earlier one of the same name (stated by `LookupOfLast` and `LookupValues`) |
| Graph.LookupOfLast | src/DependencyGraph.ts:24-30 | the lookup's keys are exactly the node names, and each key maps to the last node bearing that name |
| Graph.LookupValues | src/DependencyGraph.ts:28 | every node in the lookup is one of the loaded nodes, stored under its own name |
| Graph.NodeCondition | src/DependencyGraph.ts:188 | `filterName` as a test on nodes: the node's name matches the query |
| Graph.LinkCondition | src/DependencyGraph.ts:190 | the link test: the source is set and matches, or the target is set and matches |
| Graph.LinkTestDefined | src/DependencyGraph.ts:190 | the link test evaluates without reading `name` of an unset endpoint: the source is set, and the target is set whenever the source does not match |
| Graph.Resolve | src/DependencyGraph.ts:33-34 | an endpoint is set exactly when its name is a key of the lookup |
| DependencyGraphs.AfterClick | src/DependencyGraph.ts:110-115 | one node's flags after a click: each flag takes the new value when the node has that role (clicked, inbound source, outbound target), is cleared otherwise when the node is visible, and is kept otherwise (stated by `ClickOnVisible` and `ClickNode`) |
| DependencyGraphs.ClickOnVisible | src/DependencyGraph.ts:110-115 | after a click, a visible node has `highlightSelf` iff it is the clicked node, `highlightInbound` iff it is an inbound source, and `highlightOutbound` iff it is an outbound target, in each case only when the click turned the node on |
| DependencyGraphs.QueryBScenario | src/DependencyGraph.ts:183-188 | "b" is not blank and is its own lower case; of the names A, B and C only B contains it once lower-cased |
| DependencyGraphs.LookupOfThree | src/DependencyGraph.ts:24-30 | loading nodes named A, B and C builds the lookup mapping each name to its node |
| DependencyGraphs.FilterThreeByB | src/DependencyGraph.ts:188-189 | under the query "b", nodes A, B and C split into B kept and A, C hidden, in order |
| DependencyGraphs.FilterTwoLinksByB | src/DependencyGraph.ts:188-190 | under the query "b", the links A->B and B->C both pass the link test, through B, and none is hidden |
| DependencyGraphs.ResolvedThree | src/DependencyGraph.ts:31-34 | links read as A->B and B->C against the lookup of A, B and C join exactly those nodes |
| DependencyGraphs.LoadThree | src/DependencyGraph.ts:22-46 | loading nodes A, B, C and links A->B, B->C gives a valid graph with those three nodes and two links wired to them, all visible |
| DependencyGraphs.QueryBOnThreeNodes | src/DependencyGraph.ts:182-190 | on that graph, `setFilter("b")` keeps the invariant and leaves only B visible, hides A and C in that order, and keeps both links visible with nothing hidden |
| DependencyGraphs.DependencyGraph.constructor | src/DependencyGraph.ts:18-46 | loading establishes the invariant with nothing hidden and no filter text; it makes one freshly allocated, distinct, unhighlighted node per raw node with that node's name and type, in order; it makes one freshly allocated, distinct link per raw link, in order, whose endpoints are what the lookup holds for the raw names, or unset |
| DependencyGraphs.DependencyGraph.LoadData | src/DependencyGraph.ts:22-46 | the same guarantees as the constructor, for the body of `loadData` |
| DependencyGraphs.DependencyGraph.LoadNodes | src/DependencyGraph.ts:24-30 | one fresh, distinct node per raw node, in order, with its name and type, no links and no highlight; the lookup ends as the one built by setting each name in turn |
| DependencyGraphs.DependencyGraph.LinkAll | src/DependencyGraph.ts:31-46 | after the nodes are loaded, building the links establishes the invariant with `Data.Links` holding one freshly allocated, distinct link per raw link, in order, with resolved endpoints, and leaves every node's highlight flags as they were |
| DependencyGraphs.DependencyGraph.LoadLinks | src/DependencyGraph.ts:31-46 | one fresh, distinct link per raw link, in order, with resolved endpoints, which are loaded nodes; every node's outbound (inbound) links are exactly, in order, the links it is the source (target) of; no highlight flag changes |
| DependencyGraphs.DependencyGraph.AddLink | src/DependencyGraph.ts:32-45 | a fresh link with resolved endpoints is appended to its source's outbound and its target's inbound links, and to no other list |
| DependencyGraphs.DependencyGraph.AllVisibleIsValid | src/DependencyGraph.ts:24-46 | with everything visible and the links wired, the invariant holds |
| DependencyGraphs.DependencyGraph.VisibleAreLoaded | src/DependencyGraph.ts:24-46 | every visible node and link is a loaded one |
| DependencyGraphs.DependencyGraph.IncidentAreLoaded | src/DependencyGraph.ts:35-41 | a node's inbound (outbound) links are loaded links that target (leave) it, and their other endpoint, when set, is a loaded node |
| DependencyGraphs.DependencyGraph.LinkWiring | src/DependencyGraph.ts:33-41 | a loaded link is in a node's outbound (inbound) links iff that node is its source (target) |
| DependencyGraphs.DependencyGraph.LookupHoldsEveryName | src/DependencyGraph.ts:28 | every loaded node's name is a key of the lookup, and every key maps to a loaded node with that name |
| DependencyGraphs.DependencyGraph.ResolvedLinkWiring | src/DependencyGraph.ts:33-44 | a loaded link is in the outbound links of the node its source name looks up to when that name is known, and in no node's outbound links when it is not; likewise for the target and inbound links |
| DependencyGraphs.DependencyGraph.SetFilter | src/DependencyGraph.ts:182-197 | keeps the invariant, so visible plus hidden stays a permutation of everything loaded, and leaves both lookups as they were; a blank value clears the filter text, appends the hidden nodes and links to the visible ones in order and empties the hidden ones, so everything is visible; any other value records the lower-cased text and keeps exactly the visible nodes whose lower-cased name contains it, and exactly the visible links whose source or target does, in order, appending the rest to the hidden ones in order |
| DependencyGraphs.DependencyGraph.ShowMatching | src/DependencyGraph.ts:186-190 | keeps the invariant; records the text; keeps exactly the visible nodes whose lower-cased name contains it and the visible links with such a source or target, in order, appending the rest to the hidden ones in order |
| DependencyGraphs.DependencyGraph.ShowAll | src/DependencyGraph.ts:192-196 | keeps the invariant; clears the filter text; appends the hidden nodes and links to the visible ones in order and empties the hidden ones, so the visible ones are a permutation of everything loaded |
| DependencyGraphs.DependencyGraph.RepartitionKeepsValid | src/DependencyGraph.ts:186-196 | moving nodes and links between the visible and hidden lists, without losing or duplicating any, keeps the invariant |
| DependencyGraphs.DependencyGraph.ClickNode | src/DependencyGraph.ts:106-116 | keeps the invariant; the clicked node's `highlightSelf` becomes the negation of its previous value; every loaded node's flags are then: set to that value for the clicked node, its inbound sources and its outbound targets; cleared for the other visible nodes; unchanged for the other hidden nodes |
| DependencyGraphs.DependencyGraph.ClickTwice | src/DependencyGraph.ts:106-116 | clicking a loaded node, visible or hidden, whose `highlightSelf` is false, and then clicking it again, keeps the invariant and leaves every visible node with all three flags false |
| DependencyGraphs.DependencyGraph.HighlightKeepsValid | src/DependencyGraph.ts:110-115 | changing only highlight flags keeps the invariant |
| DependencyGraphs.DependencyGraph.ClearVisible | src/DependencyGraph.ts:110-112 | every visible node ends with all three flags false; every other loaded node keeps its flags |
| DependencyGraphs.DependencyGraph.SetInboundOfSources | src/DependencyGraph.ts:114 | the source of each link has `highlightInbound` set to the value; every other loaded node keeps it |
| DependencyGraphs.DependencyGraph.SetOutboundOfTargets | src/DependencyGraph.ts:115 | the target of each link has `highlightOutbound` set to the value; every other loaded node keeps it |

## Left out

- The d3 force simulation, drag pinning, `alphaTarget`, the `_xCenter` columns and the `_simulation.restart()` call at the end of `filterInPlace` are left out. They belong to an external library and work in floating point.
- The SVG building, the tick callback, `_linkArc` and `_colorByType` are left out. They only render.
- The node coordinates `x` and `y` are left out. Only the simulation and the rendering use them.
- The asynchronous `d3.json` loading and `initialize` are left out. The raw document is a parameter of the constructor.
- The `console.error` of an unknown endpoint name and the `console.log` calls of the click handler are left out. They are output only.
- `src/main.ts` and the build configuration are not part of this model.
- Graph.Node.constructor: the code assigns `name` and `type` after constructing the node, with no link created in between. The model passes them to the constructor and keeps them constant; nothing in the modelled code changes them later.
- DependencyGraphs.DependencyGraph.constructor: `Data` is a public field of the source object that other code could reassign, and `_filteredData` is a private one that the class never reassigns. The model holds both as constant references to two distinct objects; nothing in the modelled code reassigns them.
- Filtering.FilterInPlace: the JavaScript array is modelled as a sequence value. The method writes the same sequence positions as the code and returns the result, which `ShowMatching` stores back. The aliasing of the array with `Data.Nodes`/`Data.Links` is therefore captured only by that assignment.
- Text.Lower: `toLowerCase` is modelled for the ASCII letters only. Other upper-case letters, and letters whose lower case has a different length, are left unchanged.
- Text.LowerChar: the same ASCII scope; a non-ASCII capital such as 'Ä' is returned unchanged, whereas `toLowerCase` would lower-case it.
- Text.IsWhitespace: the model uses the code points of ECMAScript's `\s` over Dafny characters. JavaScript's UTF-16 code units, including surrogate halves, are not distinguished.
- DependencyGraphs.DependencyGraph.SetFilter: requires that the link test can evaluate on every visible link. The source must be set, and so must the target whenever the source does not match. The code reads `name` of an unset endpoint and throws a TypeError, and the model does not cover that partial run.
- DependencyGraphs.DependencyGraph.ShowMatching: carries the same requirement as `SetFilter`, for the same reason: line 190 throws on a visible link whose link test reads `name` of an unset endpoint.
- DependencyGraphs.DependencyGraph.ClickNode: requires that the clicked node's inbound links have a source and its outbound links have a target. The code would otherwise throw a TypeError part-way through the handler, and the model does not cover that partial run.
- DependencyGraphs.DependencyGraph.ClickNode: the handler is attached to the nodes drawn at graph creation. The model accepts a click on any loaded node, visible or not.
