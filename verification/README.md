# Verified model of the scanner's deterministic core

This project models, in Dafny 4.11, the parts of the repository whose promises are hard to see
from one function: the canonical identity of a code property graph, the slice fingerprint built
on top of it, the IFDS taint solver with its incremental form, and six smaller cores (Git tree
expansion, the AST mapper, AST ownership, the incremental graph builder, the JSON budget and its
scanner, the planning ledger). `dafny verify dfyconfig.toml` checks everything.

How the pieces fit:

- **Canonical graph identity.** `ByteStrings`, `FiniteSets`, `Graphs`, `Arcs` and `Encoding` hold
  framed bytes, isomorphism by edge multiplicities, and the encoding. `Refinement`,
  `Individualisation`, `Swaps`, `Cells`, `SearchTrees`, `TreeInvariance` and `Canonicality` prove
  the theory: refinement commutes with isomorphism, certified swaps are automorphisms, the pruned
  search tree keeps every leaf code, and the least code is a complete invariant. `Cpgs`, `Budgets`,
  `GraphIndexes`, `CanonicalSearch`, `WeakOrders` and `CanonicalOrders` are the program: an index
  of tables, a refinement loop, a worklist search on a shared state budget, and the outcome.
  `SearchSizes` counts one search to the last state and `GraphVectors` writes the hashed bytes out.
- **Slice identity.** `Rebuilds`, `Slices`, `SliceLaws`, `Normalisation`, `Fingerprints`,
  `FingerprintRuns` and `SliceIdentities`; what a strong fingerprint keeps of the slice in
  `SliceMeanings`, its bytes in `SliceVectors`; package moves in `OrderTwins`, `PackageMoves`,
  `LocalNumbers`, `MoveExactness`, `MovedPairs` and `MoveStates`.
- **IFDS.** `Tabulation`, `Witnesses`, `Incremental`, `Boundaries`, `LoneFacts` (theory), `Supergraphs`,
  `SupergraphRuns`, `TabulationRuns`, `Findings`, `Solver`, `Solutions`, `IncrementalSolves` (program),
  `Readings`, `RepeatedFindings`, `DetectorBounds`, `DetectorReports`, `DetectorWitnesses`, `CrossedFlows`,
  `RejoinedFlows` (when the incremental promise holds for every detector); `ReportedFlows` reads the
  results on labels and edges, `SolutionHashes` says what the solution hash determines.
- **Supporting cores.** `GitTrees`, `GitCommits`, `GitExpansions`, `GitObjects`, `GitVectors`;
  `KeyedOrders`, `KeyedLists`, `MapperWalks`, `MapperTrees`, `MapperLoops`, `MapperForests`, `Mappers`,
  `MapperChains`, `MappedGraphs`; `Ownership`; `CpgDeltas`; `JsonTexts`, `JsonBudgets`, `JsonScans`,
  `JsonInverses`, `JsonVectors`; `Ledger`; `JoinedTexts`.

SHA-256 is a function parameter: identities are stated on the bytes that are hashed. The clock
is a nondeterministic answer at every checkpoint: it can turn a run into a deadline failure and
can do nothing else. Text is the sequence of its UTF-8 bytes or of its code points.

Where the promise in the documentation turned out not to hold for every input, the model follows
the code and the exact condition is proved:

- `incremental_solve` promises the findings and hash of a full solve and a bound on the visited
  procedures. Detectors choose sources and sinks among the nodes with text only, so the conditions
  are about routes (CFG edges and followed calls) between such nodes. The bound holds for every
  detector if and only if no node with text inside the closure reaches an owned node outside it
  (`DetectorBounds.VisitsExactly`). The same facts are reported at the same sinks for every detector
  if and only if every route from a source to a sink inside the closure starts inside and has a route
  beside it that the restricted run follows and that meets no other text
  (`DetectorReports.ReportsExactly`). The whole promise, witnesses and hash included, holds for every
  detector if and only if, besides these two, no restricted route from a source inside reaches a node
  with text that no procedure owns, and from every source inside, whatever texts are stopped, the
  single-source search finds each sink inside through the same nodes, restricted and not
  (`DetectorWitnesses.PromiseExactly`, every graph and every affected set). Where no route that left by a
  call comes back, so in particular where every node has text, three reachability conditions are exact and
  no search is needed (`DetectorBounds.IncrementalExactly`,
  `DetectorBounds.LegibleExactly`); where control flow stays inside procedures they always hold
  (`IncrementalSolves.ClosureReproducesFull`). `CrossedFlows` is a graph of two methods and a detector
  on which the incremental run drops the only finding, or visits a procedure it should not;
  `RejoinedFlows` is one on which all three reachability conditions hold and the two solves still report
  different witnesses, because the callee comes before the next step in canonical order.
- Package moves promise an unchanged fingerprint. Locals are numbered before package prefixes are
  collapsed, so the strong bytes survive a move if and only if some automorphism of the slice, taken
  without names and prefixes, carries every local's number before the move to its number after it
  (`MoveExactness.MoveExact`, every slice). Where no two locals look the same without names and
  prefixes this says that the move keeps the order of the anonymised labels of the locals
  (`MoveExactness.MoveExactly`); one local or none is always safe (`MoveExactness.LoneLocalKept`).
  `MovedPairs.MoveCanChangeBytes` is a move that fails. Class and state count are those of two searches, one
  over the slice without names and one over the numbered and collapsed slice (`MoveStates.StatesExactly`),
  and the whole fingerprint survives a move at a given budget if and only if the two searches together take
  as many states or exceed the budget both times, and the numbers are carried where they finish
  (`MoveStates.MoveKeepsFingerprint`). `MoveStates.MoveCanChangeClass` is a move that turns a strong slice weak.
- The mapper promises a graph that does not depend on array order, and has no guard against cycles. Its
  walk ends if and only if no cycle of AST edges hangs below a root (`MapperLoops.TerminatesExactly`),
  and then the promise holds as long as records that repeat an id agree (`Mappers.MapDeterministic`). Of two
  records for one id the last one wins, so array order shows wherever their labels differ
  (`Mappers.RepeatedIdShows`).
- The solution hash separates findings by a bar and does not count the nodes of a witness. Where every
  sink, fact and node is below 124 times 2 to the 56, equal texts mean equal sinks, facts and witnesses in
  equal order (`SolutionHashes.SolutionExact`); above it the bar can be read as the first byte of a node
  (`SolutionHashes.HighNumberClashes`).
- The JSON budget admits a value one container deeper than the preflight of the reader lets through:
  exactly when an empty container sits at depth 24 (`JsonScans.PassesAdmitted`,
  `JsonScans.DeepEmptyList`). Every other admitted value is read back as itself, up to key order
  (`JsonInverses.DecodeExact`).

## Model

| member | source | states |
|---|---|---|
| ByteStrings.U64Cancel | analysis/ordering.py:158-161 | eight-byte frames of two 64-bit numbers followed by anything are equal only if the numbers and the rests are |
| ByteStrings.BigEndianMonotone | analysis/ordering.py:158-161 | big-endian frames compare as the numbers they hold, whatever follows |
| ByteStrings.TextCancel | analysis/ordering.py:164-168 | a length-framed text can be split off in only one way |
| Encoding.LabelCancel | analysis/ordering.py:171-180 | the four framed label fields are uniquely decodable |
| Encoding.EncodeIsomorphic | analysis/ordering.py:227-252 | carrying graph and order along an isomorphism leaves the encoded bytes unchanged |
| Encoding.EncodeUniquelyDecodes | analysis/ordering.py:227-252 | equal bytes for any two complete orders make "position i to position i" an isomorphism of labels and of the directed typed edge multiset |
| Arcs.SortCanonical | analysis/ordering.py:241-243 | the sorted edge list is equal exactly when the edge multisets are |
| Encoding.EdgesAscend | analysis/ordering.py:241-243 | edges are written by kind, then source position, then target position |
| Refinement.InternFaithful | analysis/ordering.py:255-258 | interned colours are equal, and ordered, exactly as the signatures are, and run from 0 without gaps |
| Refinement.SignatureExact | analysis/ordering.py:294-303 | two nodes get one signature exactly when they share a colour and see the same (kind, colour) multisets, in and out |
| Refinement.RoundFixed | analysis/ordering.py:304-307 | an unchanged number of colours means an unchanged colouring, so the early return loses nothing |
| Refinement.RefineStable | analysis/ordering.py:288-308 | the loop ends in a stable colouring, finer than the start and in its order |
| Refinement.RefineCoarsest | analysis/ordering.py:288-308 | every stable colouring finer than the start is finer than the result |
| Individualisation.StartExact | analysis/ordering.py:291-293 | starting colours separate nodes exactly by label and marker |
| Individualisation.ColoursOfCoarsestStable | analysis/ordering.py:288-308 | `refine` gives the coarsest stable colouring finer than (label, marker) |
| Individualisation.MarkedAlone | analysis/ordering.py:288-308 | a marked node is alone in its cell |
| Individualisation.ColoursOfCarried | analysis/ordering.py:288-308 | refinement commutes with every isomorphism that carries the markers |
| Swaps.SwapExact | analysis/ordering.py:310-331 | the certificate holds if and only if the transposition is an automorphism |
| Swaps.SwapTransitive | analysis/ordering.py:310-331 | with SwapReflexive and SwapSymmetric: the certificate is an equivalence |
| Swaps.SwapSymmetric | analysis/ordering.py:310-331 | swapping is symmetric |
| Swaps.SwapCarried | analysis/ordering.py:310-331 | the certificate does not see node ids |
| Cells.TargetCarried | analysis/ordering.py:343-353 | the chosen cell's colour is the same in isomorphic graphs |
| Cells.TargetSmallest | analysis/ordering.py:346-353 | the chosen cell is a smallest one among those with several nodes, and of the smallest the one with the least colour |
| Cells.RepresentativesCover | analysis/ordering.py:354-359 | every node of the cell can be swapped with a kept representative |
| Cells.RepresentativesApart | analysis/ordering.py:354-359 | no two kept representatives can be swapped: one per class survives |
| Cells.LeastOfClassKept | analysis/ordering.py:354-359 | of each class of interchangeable nodes the least id is kept, and the kept ids ascend |
| TreeInvariance.TreeInvariant | analysis/ordering.py:334-364 | isomorphic graphs have search trees with as many states and the same set of leaf codes |
| TreeInvariance.SiblingCodes | analysis/ordering.py:354-362 | subtrees below interchangeable nodes carry the same leaf codes |
| TreeInvariance.PruningExact | analysis/ordering.py:310-364 | the pruned tree has exactly the leaf codes of the unpruned one |
| Canonicality.BestLeast | analysis/ordering.py:349-351 | the leaf the search keeps has the least code of the tree |
| Canonicality.BestFirst | analysis/ordering.py:349-351 | among the leaves with the least code the kept one has the least order |
| Canonicality.SearchTreeHasLeaf | analysis/ordering.py:363-364 | a leaf is always met, so the final assertion never fails |
| Canonicality.CanonicalInvariance | analysis/ordering.py:288-425 | isomorphic graphs: same verdict, same number of search states and same strong bytes, for every budget and every amount already spent |
| Canonicality.CanonicalCompleteness | analysis/ordering.py:334-364 | equal strong bytes: the two chosen orders are an isomorphism, position by position |
| Canonicality.CanonicalExact | analysis/ordering.py:334-364 | strong bytes are equal if and only if the graphs are isomorphic |
| Canonicality.CanonicalLeast | analysis/ordering.py:334-364 | the strong bytes are the least code of the tree without pruning |
| SearchSizes.TriangleStates | analysis/ordering.py:334-364 | a directed triangle beside two isolated nodes: exactly five states, because the pair is split first and gives one child |
| SearchSizes.TriangleBudget | analysis/ordering.py:388-425 | that graph is strong with a budget of five states and weak with four |
| GraphVectors.EncodeVector | analysis/ordering.py:227-252 | the encoding of a graph of two nodes and an edge, byte for byte |
| GraphVectors.StrongVector | analysis/ordering.py:404-412 | its chosen order, state count and the text of its strong identity, byte for byte |
| GraphVectors.SignatureVectors | analysis/ordering.py:294-303 | the signatures of its nodes in one round, byte for byte: colour, incoming edges, outgoing edges |
| GraphVectors.RejectedExactly | analysis/ordering.py:183-224 | a graph is refused iff it is too large, an id repeats, an id or text does not fit 64 bits, or an edge is dangling or has no kind |
| Budgets.Budget.EnterState | analysis/ordering.py:82-86 | exactly `limit` states may be entered; the next one is refused |
| GraphIndexes.Build | analysis/ordering.py:268-286 | the filled tables are the labels, adjacencies and sorted pair kinds of the graph |
| GraphIndexes.RefineMarked | analysis/ordering.py:288-308 | the loop over mutable colours returns the specified colouring unless the deadline passes |
| GraphIndexes.SwapIsAutomorphism | analysis/ordering.py:310-331 | the table lookups decide the certificate |
| CanonicalSearch.ChooseRepresentatives | analysis/ordering.py:354-359 | the loop keeps exactly the specified representatives |
| CanonicalSearch.LeafOrder | analysis/ordering.py:347-348 | sorting by colour lists the nodes of a discrete colouring |
| CanonicalSearch.Search | analysis/ordering.py:334-364 | the worklist either returns the best leaf of the whole tree with its size counted on the budget, or reports the budget spent exactly when the tree is larger, or the deadline |
| WeakOrders.WeakOrderComplete | analysis/ordering.py:367-385 | the fallback lists every node once |
| WeakOrders.WeakOrderPermuted | analysis/ordering.py:367-385 | the fallback is the same for every order of the node and edge lists |
| WeakOrders.WeakOrderAscends | analysis/ordering.py:367-385 | the fallback orders by the digest of the declaration, then path, then the ascending kinds of the edges at the node, then framed label, then id |
| GraphVectors.WeakVector | analysis/ordering.py:404-412 | a weak identity hashes its own domain and the encoding along the fallback order |
| CanonicalOrders.CanonicalOrderWithin | analysis/ordering.py:388-425 | only the deadline can keep a run from the outcome that input and budget determine |
| CanonicalOrders.CanonicalOrder | analysis/ordering.py:388-425 | the same for a fresh budget; a non-positive limit is an error |
| CanonicalOrders.StrongIdentityInvariant | analysis/ordering.py:388-425 | isomorphic graphs get the same class and state count, and the same hashed bytes when strong |
| CanonicalOrders.EqualPreimagesIsomorphic | analysis/ordering.py:404-412 | equal hashed bytes have one class and come from isomorphic graphs |
| CanonicalOrders.WeakIdentityStable | analysis/ordering.py:406-412 | the weak identity survives reordering of the input lists |
| Rebuilds.RebuildIsomorphic | analysis/fingerprint.py:263-286 | a copied graph is isomorphic to its original with the labels rewritten |
| Slices.Cone | analysis/fingerprint.py:199-224 | the stack walk finds exactly the witness nodes and every node that reaches the sink over CFG, CALL and PDG edges |
| Slices.SliceSetIs | analysis/fingerprint.py:199-224 | a node is in the slice iff it is on the witness or edges of kind CFG, CALL or PDG lead from it to the last witness node |
| Slices.Slice | analysis/fingerprint.py:162-244 | empty and stray witnesses are refused, otherwise the slice is the specified induced graph with the remapped witness |
| Slices.SliceInduced | analysis/fingerprint.py:226-244 | the slice keeps every label and every edge among its nodes with multiplicity |
| SliceVectors.SliceNodes | analysis/fingerprint.py:226-244 | the nodes of the slice, numbered from zero along ascending ids, with fields and path unchanged |
| SliceLaws.SliceIdempotent | analysis/fingerprint.py:162-244 | slicing the slice by its remapped witness returns the same graph |
| SliceLaws.SlicesCarried | analysis/fingerprint.py:162-244 | graphs that agree along a bijection up to a change of labels have slices that agree in the same way |
| Normalisation.RenamedIsomorphic | analysis/fingerprint.py:314-334 | numbering locals along two orders that match up to names gives isomorphic graphs, although neither order is fixed beyond an automorphism |
| Normalisation.TerminalSuffix | analysis/fingerprint.py:406-410 | the kept part of a qualified name is what follows its last dot, whatever the prefix |
| Fingerprints.SliceIdentityInvariant | analysis/fingerprint.py:289-334 | graphs equal up to isomorphism and IDENTIFIER text, with corresponding witnesses, get the same class, state count and strong bytes, both searches sharing one budget |
| Fingerprints.NormalNeverFails | analysis/fingerprint.py:435-446 | on a valid slice the passes finish or exhaust the budget, nothing else |
| Fingerprints.StrongSliceComplete | analysis/fingerprint.py:550-599 | equal strong fingerprints certify isomorphic normalised slices |
| SliceMeanings.CollapseExact | analysis/fingerprint.py:392-425 | collapsed labels agree iff kind and text do and both names agree in being empty and in what follows the last dot |
| SliceMeanings.StrongMeans | analysis/fingerprint.py:550-599 | two strong fingerprints are equal iff a bijection of the slices before normalisation keeps edges, kinds, the text of everything but locals, the locals' numbers and the last segments of both names |
| SliceVectors.StrongSliceVector | analysis/fingerprint.py:454-599 | the strong identity of a slice of a local and a call, byte for byte, with its two states |
| SliceVectors.FingerprintRefusals | analysis/fingerprint.py:188-197 | refused for an empty budget or an invalid graph, an empty witness, or a witness node outside the graph |
| FingerprintRuns.NumberLocals | analysis/fingerprint.py:320-326 | each local gets the number of locals before it in the order |
| FingerprintRuns.Normalise | analysis/fingerprint.py:435-446 | the passes compute the specified normal form on what the budget allows |
| FingerprintRuns.ComputeSliceFingerprint | analysis/fingerprint.py:550-599 | only the deadline can keep a run from the class, content or remapped witness, and state count its input and budget determine; the hashed bytes are the next rows |
| SliceIdentities.SourceWitness | analysis/fingerprint.py:525-547 | the loops produce the source-scoped weak bytes, or refuse exactly because a step of the witness is no edge |
| SliceIdentities.SourceExact | analysis/fingerprint.py:525-547 | source-scoped weak bytes are equal iff digest and witness are and the edges along the witness agree kind by kind with multiplicity |
| SliceIdentities.LegacyExact | analysis/fingerprint.py:474-487 | legacy weak bytes are equal iff the remapped witnesses are |
| SliceVectors.LegacyVector | analysis/fingerprint.py:474-487 | a legacy weak text, byte for byte |
| SliceVectors.SourceVector | analysis/fingerprint.py:525-547 | a source-scoped weak text, byte for byte |
| SliceVectors.WeakIdentityIs | analysis/fingerprint.py:550-599 | a weak run without a digest hashes the places of the witness among the slice's ascending nodes, with one the digest, the witness itself and the edges along it |
| SliceIdentities.IdentityClass | analysis/fingerprint.py:474-599 | equal hashed bytes have one class and one namespace, and equal content when strong |
| SliceIdentities.ComputeIdentity | analysis/fingerprint.py:494-599 | both entry points: only the deadline can keep a run from the identity its input determines; a digest of another length and a disconnected witness are refused on every outcome |
| OrderTwins.TwinWinners | analysis/ordering.py:288-364 | the search sees labels only through their byte order: relabelling that keeps the order keeps verdict, states and chosen order |
| OrderTwins.WinnerAscends | analysis/ordering.py:288-364 | the chosen order lists framed labels in ascending byte order |
| PackageMoves.CollapseMoved | analysis/fingerprint.py:392-425 | collapsing prefixes erases a move that keeps last segments |
| PackageMoves.PackageMoveInvariant | analysis/fingerprint.py:392-446 | a move that keeps last segments, and the order of the slice's anonymised labels if it has locals, leaves class, states and strong bytes unchanged |
| LocalNumbers.NumberedExact | analysis/fingerprint.py:314-334 | numbered and collapsed, a graph and its moved copy are isomorphic iff an automorphism of the graph without names and prefixes carries every local number |
| LocalNumbers.NumberCounts | analysis/fingerprint.py:320-326 | along the canonical order a local's number is the number of locals with a smaller anonymised label, where locals stay apart |
| LocalNumbers.NumbersKept | analysis/fingerprint.py:314-334 | so the numbers agree before and after iff the anonymised labels of the locals compare alike |
| MoveExactness.NormalIsNumbered | analysis/fingerprint.py:435-446 | what the passes leave of a slice is, up to isomorphism, the numbered and collapsed graph |
| MoveExactness.MoveExact | analysis/fingerprint.py:289-446 | every slice, any two budgets that let both searches finish: a move keeps the strong bytes iff the numbers are carried by an automorphism |
| MoveExactness.MoveExactly | analysis/fingerprint.py:289-446 | where no two locals look the same without names and prefixes: iff the move keeps the order of the anonymised labels of the locals |
| MoveExactness.LoneLocalKept | analysis/fingerprint.py:289-446 | a slice with at most one local keeps its strong bytes under every move |
| MovedPairs.ApartSliceStrong | analysis/fingerprint.py:550-599 | a slice whose nodes all differ without names and prefixes is strong within two states |
| MovedPairs.MoveCanChangeBytes | analysis/fingerprint.py:289-334 | a concrete move that keeps every last segment and changes the strong bytes |
| MoveStates.StatesExactly | analysis/fingerprint.py:550-599 | for every slice and budget: strong iff the collapsed labels fit and the search without names and the search over the numbered slice fit the budget together; the states counted are theirs, up to the budget |
| MoveStates.FirstSearchMade | analysis/fingerprint.py:304-316 | the search without names is made iff the slice has an IDENTIFIER node |
| MoveStates.MoveKeepsClass | analysis/fingerprint.py:289-446 | at a given budget a move keeps class and state count iff the two searches together take as many states or exceed the budget both times |
| MoveStates.MoveKeepsEveryClass | analysis/fingerprint.py:289-446 | a move keeps class and state count at every budget iff the two searches together take as many states |
| MoveStates.CarriedSecondSearch | analysis/fingerprint.py:435-446 | where an automorphism carries the numbers the second search takes as many states, so the first one decides |
| MoveStates.MoveKeepsFingerprint | analysis/fingerprint.py:289-446 | every slice and every budget: a move keeps class, states and strong bytes iff it keeps the states in that sense and carries the numbers where both searches finish |
| MoveStates.MoveCanChangeClass | analysis/fingerprint.py:289-446 | two locals, two packages: moving both into one package makes a slice that is strong within two states weak |
| Tabulation.StepInvariant | analysis/ifds/solver.py:266-315 | every step keeps: discovered items are reachable, processed items have their successors discovered, each discoverer really leads to what it discovered |
| Tabulation.EmptyWorkExact | analysis/ifds/solver.py:287-315 | whatever items were taken, an empty worklist means exactly the reachable (node, fact) pairs are known |
| Tabulation.TabulationExact | analysis/ifds/solver.py:249-315 | the run ends with exactly the reachable pairs, and predecessor chains strictly decrease in discovery time |
| TabulationRuns.Saturate | analysis/ifds/solver.py:249-315 | whatever summaries the cache holds, the loop (sort, pop the minimum, add unseen successors, splice summaries) discovers exactly what seeds, edges, calls and spliced returns attain, each item with a real discoverer; without a summary in scope it is the canonical run, discoverers included |
| Witnesses.TrailRealises | analysis/ifds/solver.py:333-364 | a witness starts at a node seeding its fact, ends at its item and follows CFG or call edges from unsanitised nodes |
| Witnesses.TrailSimple | analysis/ifds/solver.py:333-364 | a witness visits no node twice |
| Incremental.FindingRealised | analysis/ifds/solver.py:367-407 | so does the witness of every reported finding: seed of its fact to sink, unsanitised CFG or call edges, no node twice |
| Witnesses.Witness | analysis/ifds/solver.py:333-364 | the backtracking loop returns that witness; its guard against revisits never fires |
| LoneFacts.TabulatedProjected | analysis/ifds/solver.py:266-315 | facts do not disturb each other: what a run discovers of one fact, and through what, is what the run with that fact alone discovers |
| LoneFacts.TrailProjected | analysis/ifds/solver.py:333-364 | so the witness of an item is the witness in that run |
| Supergraphs.ProblemWellFormed | analysis/ifds/supergraph.py:99-173 | the tables built from any valid graph and order are closed: successors are nodes, call targets own themselves, ranks are distinct |
| Supergraphs.CallersCover | analysis/ifds/supergraph.py:152-163 | a set closed under the static caller table is closed under every call the solver follows |
| SupergraphRuns.BuildSupergraph | analysis/ifds/supergraph.py:99-173 | the filled and sorted tables are the specified owners, successors, callers, callees and bodies |
| SupergraphRuns.SortAscends | analysis/ifds/supergraph.py:167-171 | adjacency lists come out in canonical order |
| SupergraphRuns.TransitiveCallers | analysis/ifds/supergraph.py:81-96 | exactly the procedures with a call chain into the seed |
| Solutions.SeedSources | analysis/ifds/solver.py:182-202 | the interned facts per node, numbered along ascending ids |
| Solutions.SeedsApart | analysis/ifds/solver.py:182-202 | a node is seeded iff a source clause matches, with one fact per matching clause, and no fact is shared between nodes |
| Solutions.BodyExact | analysis/ifds/supergraph.py:131-151 | a procedure's entry and body are exactly the nodes it owns |
| ReportedFlows.OwnerExactly | analysis/ifds/supergraph.py:109-140 | a METHOD owns itself; any other node belongs to a METHOD whose qualified name, or declaration if it has none, is the node's declaration, the last in canonical order if several are |
| ReportedFlows.SeedsAscend | analysis/ifds/solver.py:182-202 | facts are numbered along ascending node ids |
| Solver.SummaryCache.Invalidate | analysis/ifds/solver.py:171-174 | exactly the named procedures lose their summaries |
| Solver.Tabulate | analysis/ifds/solver.py:214-330 | the attained facts, and one new summary per procedure touched that maps each entry fact to the facts found in the procedure; the canonical run where no procedure in scope has a summary |
| Findings.BuildFindings | analysis/ifds/solver.py:367-407 | one finding per discovered pair at a sink, in canonical order |
| Findings.SortedOnce | analysis/ifds/solver.py:410-425 | two runs that list the same findings in any order hash the same list |
| Findings.HashedBytes | analysis/ifds/solver.py:410-425 | the hashed bytes are those of the sorted findings |
| SolutionHashes.HashedOrder | analysis/ifds/solver.py:410-418 | findings are hashed by the canonical rank of the sink and then by fact |
| SolutionHashes.SolutionVector | analysis/ifds/solver.py:410-425 | the text of one finding, byte for byte |
| SolutionHashes.SolutionExact | analysis/ifds/solver.py:410-425 | below 124 times 2^56 two texts are equal iff the lists of sinks, facts and witnesses are |
| SolutionHashes.HashedTextTells | analysis/ifds/solver.py:410-425 | so two solves with one hashed text report the same sinks, facts and witnesses |
| SolutionHashes.HighNumberClashes | analysis/ifds/solver.py:410-425 | two different lists with a node above that bound and one text |
| Solutions.Solve | analysis/ifds/solver.py:439-485 | the error outcomes exactly, otherwise the findings, hashed bytes, visited procedures and summaries of the full run |
| ReportedFlows.ReportedExactly | analysis/ifds/solver.py:439-485 | a source and a sink are reported iff a path of CFG edges and CALL edges into METHOD nodes joins them from an owned source, with no sanitiser before its last node; every witness is such a path and every finding carries its provenance |
| ReportedFlows.VisitedExactly | analysis/ifds/solver.py:266-273 | the visited procedures are the owners of the nodes such paths reach |
| ReportedFlows.SummaryExactly | analysis/ifds/solver.py:317-330 | a summary maps every fact at the entry to all facts found in the procedure |
| ReportedFlows.EnginesAre | analysis/ifds/solver.py:456-457 | the engines taken are ifds and ide |
| Incremental.RunFiltered | analysis/ifds/solver.py:254-260 | the restricted run is the full run with everything outside left out: same items, same order, same discoverers |
| Incremental.IncrementalEqualsFull | analysis/ifds/solver.py:572-623 | fresh findings merged with the preserved ones are the full findings, witnesses included |
| Boundaries.SplitsApart | analysis/ifds/solver.py:249-315 | whatever the detector, the restricted run is a part of the full one where no route that left by a call comes back to where the restricted run goes |
| Boundaries.CoveredKeepsSinks | analysis/ifds/solver.py:586-615 | then no item at a sink inside is lost, if everything with text that reaches a possible sink inside lies inside and reaches it on the restricted tables |
| Boundaries.IntraproceduralSeparates | analysis/ifds/solver.py:295-309 | where every CFG edge stays inside one procedure, every caller-closed set meets all the conditions, whatever nodes carry text |
| RepeatedFindings.RepeatsLengthen | analysis/ifds/solver.py:410-425 | a finding that is both fresh and preserved makes the hashed bytes longer than those of the full solve |
| IncrementalSolves.IncrementalSolve | analysis/ifds/solver.py:488-623 | the error outcomes exactly, otherwise the merged result and the new cache; the prior cache's contents do not matter, only its header |
| ReportedFlows.IncrementalReportsExactly | analysis/ifds/solver.py:572-623 | its result is the prior findings whose sink belongs to no recomputed procedure and findings for exactly the tainted paths that start in and call only recomputed procedures |
| ReportedFlows.ClosureExactly | analysis/ifds/solver.py:572-574 | the recomputed procedures are the affected ones and those with a chain of CALL edges down to one |
| ReportedFlows.ParametersAre | analysis/ifds/solver.py:433-437 | both parameters must be given, and a prior finding must carry the same two |
| IncrementalSolves.IncrementalReproducesFull | analysis/ifds/solver.py:572-623 | fed a full solve over the same graph, a closure that meets the conditions gives the same findings with the same witnesses and the same hashed bytes, visits only the closure, and is never refused as stale |
| IncrementalSolves.ClosureReproducesFull | analysis/ifds/solver.py:572-623 | where control flow stays inside procedures this holds for every affected set and its caller closure |
| DetectorBounds.VisitsExactly | analysis/ifds/solver.py:266-309 | the visited procedures stay inside the chosen ones for every detector iff no node with text inside reaches an owned node outside along CFG edges and calls into them; unowned nodes are no visit |
| DetectorBounds.ReportsMean | analysis/ifds/solver.py:598-615 | the merged result reports the same facts at the same sinks iff every item the full run finds at a sink inside is found by the restricted run |
| DetectorBounds.IncrementalExactly | analysis/ifds/solver.py:488-623 | for every detector, findings, hashed bytes and visited bound are right only if the three reachability conditions hold, and iff they hold where no route that left by a call comes back |
| DetectorBounds.LegibleExactly | analysis/ifds/solver.py:488-623 | on graphs whose nodes all have text the three conditions are exact, with no further hypothesis |
| DetectorReports.ReportsExactly | analysis/ifds/solver.py:488-623 | for every graph: the incremental solve reports what the full one reports for every detector iff every route to a possible sink inside is dominated by a restricted one |
| DetectorWitnesses.FindingWay | analysis/ifds/solver.py:333-407 | the witness of a reported finding is the way of a search from its source alone, whatever else the detector seeds |
| DetectorWitnesses.PromiseExactly | analysis/ifds/solver.py:488-623 | for every graph and affected set: findings, witnesses, hashed bytes and visited bound are those of the full solve for every detector iff routes are dominated, contained and housed and single-source searches agree on their ways |
| CrossedFlows.CrossedFlowLoses | analysis/ifds/solver.py:614-615 | two methods with text joined by a CFG edge, and a detector, for which recomputing the sink procedure loses the only finding |
| CrossedFlows.CrossedFlowVisits | analysis/ifds/solver.py:295-299 | on the same graph, recomputing the source procedure visits the other one |
| RejoinedFlows.FoundThrough | analysis/ifds/solver.py:287-310 | from a lone seed, what its canonically first successor leads to is discovered through that successor |
| RejoinedFlows.RejoinedFlowDiffers | analysis/ifds/solver.py:287-310 | a graph and a detector where the three conditions hold, a call leaves and comes back, and the two solves report different witnesses for one sink |
| GitTrees.TreeEntries | integrations/scm/git_objects.py:459-489 | a payload is accepted iff it is the text of a supported tree, and that tree is returned |
| GitTrees.CutFinds | integrations/scm/git_objects.py:467-474 | at a legal entry the two searches find its own separators |
| GitTrees.PrintInjective | integrations/scm/git_objects.py:459-489 | two supported trees with one text agree entry by entry |
| GitVectors.GitOrderIs | integrations/scm/git_objects.py:481-483 | entries compare by their names where these part; a name that goes on comes later, except that a directory counts as followed by a slash |
| GitVectors.DirectoryBeside | integrations/scm/git_objects.py:481-483 | a file whose name goes on after a directory's comes first iff its next byte is below the slash |
| GitVectors.TreeVector | integrations/scm/git_objects.py:459-489 | the payload of a file lib.rs, a directory lib and a program, in that order, is a supported tree |
| GitVectors.LegalIs | integrations/scm/git_objects.py:103-127 | the names that are refused |
| GitVectors.LegalOidIs | integrations/scm/git_objects.py:97-100 | an object id is twenty bytes that are not all zero |
| GitCommits.UnhexExact | integrations/scm/git_objects.py:97-100 | a text is read as an object id iff it is that id's lower-case hexadecimal |
| GitCommits.CommitTree | integrations/scm/git_objects.py:424-456 | a tree is returned iff the payload is a commit's text: a bounded header of well-formed lines with the tree first and only there and few enough parents, a blank line, anything; and it is the tree named there |
| GitCommits.CommitNamesOne | integrations/scm/git_objects.py:424-456 | one commit text has one header, one body and one tree |
| GitVectors.CommitVector | integrations/scm/git_objects.py:424-456 | a commit with a tree, a parent, an author and a message, written out |
| GitVectors.HexVector | integrations/scm/git_objects.py:97-100 | ids are written in lower-case hexadecimal |
| GitExpansions.Expansion.Walk | integrations/scm/git_objects.py:551-577 | the recursive walk adds exactly the listing of the tree, or fails because there is none or a limit would be passed |
| GitExpansions.Expand | integrations/scm/git_objects.py:542-587 | succeeds iff the commit names a root tree that has a listing within all limits and reaches every object supplied, and returns its files and its directories, each sorted by path |
| GitExpansions.ListingRebuilds | integrations/scm/git_objects.py:551-577 | in the walk's own listing no path repeats, and regrouping it by parent in Git order rebuilds every tree payload byte for byte |
| GitExpansions.TreeRebuilds | integrations/scm/git_objects.py:580-587 | the two returned lists together are exactly the listing, ascend by path text, and rebuild every tree payload byte for byte |
| GitExpansions.PathTextInjective | integrations/scm/git_objects.py:103-127 | joining legal parts with slashes keeps distinct paths distinct |
| GitVectors.PathFitsIs | integrations/scm/git_objects.py:103-127 | a path is bounded by its depth and by the length of its text with slashes |
| GitVectors.EntryCounted | integrations/scm/git_objects.py:554-577 | every file counts once and by its size, directories only as entries |
| GitVectors.ExceedsIs | integrations/scm/git_objects.py:554-577 | a listing is refused for too many entries, files or bytes |
| GitVectors.ReturnedAscends | integrations/scm/git_objects.py:580-587 | files and directories are returned apart, each by ascending path text |
| GitObjects.ReadHeaderExact | integrations/scm/git_objects.py:404-408 | the header pattern matches exactly the headers the printer writes, and reads back kind and size |
| GitObjects.MetadataExact | integrations/scm/git_objects.py:395-421 | a preimage is accepted iff it is that of a commit or tree within its bounds that hashes to the id, and that kind and payload are returned |
| GitObjects.PreimageSplits | integrations/scm/git_objects.py:320-323 | a preimage has one kind, one size and one payload |
| GitObjects.IndexObjects | integrations/scm/git_objects.py:498-541 | the loop indexes the supplied objects iff there are few enough, each is measured and matches its id and digests, no id repeats and the totals stay within bounds |
| GitVectors.SizesCounted | integrations/scm/git_objects.py:531-540 | every object counts with its header towards the total, and trees once more by their payload |
| GitVectors.AcceptedExactly | integrations/scm/git_objects.py:502-530 | what is asked of one object: id, digests, the bound of its kind, and the hashes of its text |
| GitVectors.AdmissibleIs | integrations/scm/git_objects.py:498-541 | all objects together: few enough, each accepted, no id twice, both totals in bounds |
| GitVectors.HeaderVector | integrations/scm/git_objects.py:320-323 | object headers written out |
| GitObjects.ExpandObjects | integrations/scm/git_objects.py:492-587 | the whole of `expand_objects`: succeeds iff the objects can be indexed and the commit expands, and returns that listing's files and directories |
| GitObjects.OneCommitOneTree | integrations/scm/git_objects.py:492-587 | whatever objects two callers supply under whatever limits, one commit id expands to one listing from the same commits and trees, unless two supplied preimages collide under SHA-1 |
| KeyedOrders.SortNames | analysis/cpg_ingest/mapper.py:257-268 | sorting any list of names gives the one ascending list of their set |
| KeyedLists.SortList | analysis/cpg_ingest/mapper.py:257-268 | also with names listed more than once, sorting gives the one rising list of the multiset |
| MapperTrees.WalkAst | analysis/cpg_ingest/mapper.py:271-320 | wherever the walk ends, the stack loop makes exactly the visits of the unfolded AST in preorder and keeps the record of each node's last visit, whatever the order of its input lists |
| MapperTrees.GrownUnique | analysis/cpg_ingest/mapper.py:289-320 | those visits are determined by the node table and the counted AST edges |
| MapperTrees.RecordsBelow | analysis/cpg_ingest/mapper.py:271-320 | exactly the nodes below a root are recorded |
| MapperChains.BelowShows | analysis/cpg_ingest/mapper.py:294-320 | a node below a root shows the last declaration and the last file name on a chain of AST edges down to it, and its places among siblings since that declaration |
| MapperChains.OthersShow | analysis/cpg_ingest/mapper.py:322-334 | any other node shows no declaration, no path and its own file name |
| MapperChains.SiblingsAscend | analysis/cpg_ingest/mapper.py:257-268 | siblings are taken by file, line, column and id |
| MapperChains.RootsAre | analysis/cpg_ingest/mapper.py:392-395 | roots are the nodes that no AST edge enters |
| MapperChains.RootsAscend | analysis/cpg_ingest/mapper.py:286-288 | and so are roots |
| MapperChains.OthersFollow | analysis/cpg_ingest/mapper.py:322-334 | nodes the walk does not reach are numbered after all visits in that order |
| MapperChains.PathVector | analysis/cpg_ingest/mapper.py:316-320 | a stored path, written out |
| MapperLoops.TerminatesExactly | analysis/cpg_ingest/mapper.py:289-320 | the walk ends iff no cycle of AST edges hangs below a root |
| MapperForests.ForestWalked | analysis/cpg_ingest/mapper.py:271-320 | where no node has two AST parent edges the walk always ends and visits each node once |
| MapperWalks.WalkVisits | analysis/cpg_ingest/mapper.py:271-320 | on a forest exactly the nodes below a root are visited, each once |
| MapperWalks.PathsApart | analysis/cpg_ingest/mapper.py:294-320 | on a forest, different nodes under one nearest declaration have different structural paths |
| MapperWalks.PathTextsApart | analysis/cpg_ingest/mapper.py:316-320 | also as the dotted text that is stored |
| Mappers.MapExport | analysis/cpg_ingest/mapper.py:372-445 | for every export whose walk ends: the built graph, edges and locations are the specified ones, the last record of a repeated id winning, or the export is refused |
| MappedGraphs.MapsExactly | analysis/cpg_ingest/mapper.py:372-445 | every id once with the fields of its last record, by file, line, column and visit; between any two nodes as many CFG and AST edges as in the export, as many PDG edges as CDG and REACHING_DEF edges together, and no others |
| MappedGraphs.RefusedExactly | analysis/cpg_ingest/mapper.py:381-440 | refused iff an edge has another kind or an end that is not listed |
| Mappers.MapDeterministic | analysis/cpg_ingest/mapper.py:339-445 | every permutation of the node and edge arrays ends too and gives the same graph and locations, also with several AST parents and with ids listed twice as long as both records agree |
| Mappers.RepeatedIdShows | analysis/cpg_ingest/mapper.py:372-395 | an export of two records with different labels for one id: its two array orders are mapped to different graphs |
| Mappers.ForestWalkable | analysis/cpg_ingest/mapper.py:372-395 | an export whose AST edges form a forest is always mapped or refused |
| Ownership.CollectParents | analysis/cpg_ingest/raw_v2.py:241-244 | accepted iff no node has two different AST parents |
| Ownership.Scan | analysis/cpg_ingest/raw_v2.py:268-282 | rejects iff the parent map has a cycle; the trails together hold at most one entry per node |
| Ownership.ValidateOwnership | analysis/cpg_ingest/raw_v2.py:268-290 | accepted iff acyclic, formals and returns hang below a METHOD and linked formals share it |
| Ownership.RulesAre | analysis/cpg_ingest/raw_v2.py:268-290 | the three rules on chains of parents: nobody is their own ancestor, formals and returns hang directly below a METHOD, linked formals below the same one |
| Ownership.Owners | analysis/cpg_ingest/typed_observed.py:460-477 | the memoised owner map is the recursive nearest METHOD at or above each node, in linear total work |
| Ownership.OwnerExactly | analysis/cpg_ingest/typed_observed.py:460-477 | the owner is the first METHOD on the way up, the node itself included |
| Ownership.FormalOwner | analysis/cpg_ingest/raw_v2.py:283-290 | on accepted graphs a linked formal's owner is its direct parent and both ends have one owner |
| CpgDeltas.TransitiveClosure | analysis/cpg_delta.py:236-246 | exactly what is reachable from the seeds, seeds included |
| CpgDeltas.ComputeAffected | analysis/cpg_delta.py:260-284 | changed declarations, everything referring to them, direct callers, and members of subtypes, and nothing else |
| CpgDeltas.AffectedIs | analysis/cpg_delta.py:249-284 | affected is what refers to a changed declaration in any number of steps, what calls one directly, and the members of every type below a changed type |
| CpgDeltas.ReparseAll | analysis/cpg_delta.py:359-384 | a collision is reported iff some reparsed id is a kept one |
| CpgDeltas.BuildPreserving | analysis/cpg_delta.py:324-393 | the outcome as a function of its inputs: kept nodes, inner edges, reparsed parts and delta, or a collision |
| CpgDeltas.BuiltExactly | analysis/cpg_delta.py:324-393 | nodes, edges and delta of the new graph, element by element, with fresh ids from one above the greatest kept id |
| CpgDeltas.ReparsedIs | analysis/cpg_delta.py:359-377 | each declaration is parsed from one above the greatest id of the one before |
| CpgDeltas.CollidesExactly | analysis/cpg_delta.py:359-369 | a collision is reported iff a parsed node has the id of a kept one |
| CpgDeltas.DeltaExact | analysis/cpg_delta.py:380-393 | old minus removed plus added is new, for nodes and edges, and removed and added are disjoint |
| CpgDeltas.RemovedExactly | analysis/cpg_delta.py:380-393 | the removed ids are exactly those of the affected parent nodes iff no such id is also kept or comes back from the reparser |
| CpgDeltas.UnaffectedKeepIds | analysis/cpg_delta.py:324-393 | with a well-behaved reparser there is no collision, ids stay unique and unaffected declarations keep exactly their ids |
| JsonTexts.PrintLength | integrations/scm/source_acquisition.py:65-114 | the charged size of every value is the byte length of its text |
| JsonVectors.SampleText | integrations/scm/source_acquisition.py:108-114 | the canonical text of a value with two keys, constants, a number, escapes and UTF-8, written out |
| JsonVectors.EscapeVectors | integrations/scm/source_acquisition.py:83-114 | the seven short escapes |
| JsonVectors.CharVectors | integrations/scm/source_acquisition.py:83-114 | numbered escapes and UTF-8 of one to four bytes |
| JsonTexts.SortedMeasure | integrations/scm/source_acquisition.py:108-114 | sorting keys changes no size, count, nesting or type |
| JsonTexts.SortedKeysAscend | integrations/scm/source_acquisition.py:108-114 | printed keys ascend |
| JsonTexts.NestBeyondDepth | integrations/scm/source_acquisition.py:65-106 | containers nest deeper than the depth bound iff an empty container sits at it |
| JsonBudgets.JsonBudget | integrations/scm/source_acquisition.py:65-106 | the stack walk admits exactly the values that fit: types, count, depth and text size |
| JsonVectors.FitsIs | integrations/scm/source_acquisition.py:65-106 | the bounds in numbers: maximum at most 8 MiB, a hundred thousand values, nothing twenty-five steps down, text within the maximum |
| JsonVectors.SampleMeasures | integrations/scm/source_acquisition.py:65-106 | values and levels of that value, counted |
| JsonVectors.TypedIs | integrations/scm/source_acquisition.py:65-106 | 64-bit integers, strings of at most 2 MiB characters without surrogates, string keys, nothing else |
| JsonBudgets.CanonicalBytes | integrations/scm/source_acquisition.py:108-114 | text is produced iff the value fits, and the length check after printing never fires |
| JsonScans.Preflight | integrations/scm/source_acquisition.py:136-167 | the byte loop computes the scanner's verdict |
| JsonVectors.ScanVector | integrations/scm/source_acquisition.py:136-167 | a scan with blanks, a string with an escaped quote and a bracket, counted |
| JsonVectors.SeparatorsAre | integrations/scm/source_acquisition.py:150-163 | the bytes that open, close and separate |
| JsonVectors.BoundsAre | integrations/scm/source_acquisition.py:165-166 | depth 0 to 24 and a hundred thousand values |
| JsonScans.ScanValue | integrations/scm/source_acquisition.py:136-167 | on canonical text the counters come to the number of values and the nesting, and the scan breaks iff one passes its bound |
| JsonScans.PassesExactly | integrations/scm/source_acquisition.py:136-167 | canonical text passes iff values and nesting are within bounds |
| JsonScans.PassesAdmitted | integrations/scm/source_acquisition.py:65-167 | the text of an admitted value passes the preflight iff no empty container sits at depth 24 |
| JsonScans.DeepEmptyList | integrations/scm/source_acquisition.py:65-167 | twenty-five nested brackets are admitted and then stopped by the preflight |
| JsonInverses.ValueCancel | integrations/scm/source_acquisition.py:108-114 | the text of a value, followed by a delimiter or nothing, splits off in one way: escapes, UTF-8, numbers, nesting |
| JsonInverses.PrintExact | integrations/scm/source_acquisition.py:178-179 | canonical texts are equal iff the values are, up to key order |
| JsonInverses.DecodeExact | integrations/scm/source_acquisition.py:136-179 | whatever `json.loads` returns: an admitted value is read back as itself up to key order or not at all, and is read back iff the preflight condition holds and the parser returns it |
| Ledger.Walk.Visit | scripts/check_bhmea_execution_state.py:212-221 | the depth-first visit fails only on a cycle, otherwise lists the item after all it needs |
| Ledger.TopologicalOrder | scripts/check_bhmea_execution_state.py:208-224 | refused iff cyclic; otherwise every item once, dependencies first |
| Ledger.Ancestors | scripts/check_bhmea_execution_state.py:226-234 | exactly the transitive dependencies |
| Ledger.Validate | scripts/check_bhmea_execution_state.py:106-271 | accepted iff the inventory is complete, no prerequisite of the gate table was removed, dependencies are known and sound, the graph is acyclic, the placement rules hold, and tasks, claims, submission and readiness rest on passed gates |
| Ledger.GatesKeptIs | scripts/check_bhmea_execution_state.py:21-40 | what G1, G2, G3_RELEASE and G3_STAGE must require, by name |
| Ledger.InventoryIs | scripts/check_bhmea_execution_state.py:123-160 | exactly twenty tasks and eighteen claims, two milestones for each task, and every milestone named after a task |
| Ledger.ClaimsNumbered | scripts/check_bhmea_execution_state.py:19-20 | claims C01 to C18, and the three that wait for the release |
| Ledger.TasksNumbered | scripts/check_bhmea_execution_state.py:19-20 | tasks R01 to R20 |
| Ledger.ComponentsAre | scripts/check_bhmea_execution_state.py:21-40 | the components G2 waits for, by task |
| Ledger.EarlyNeedsAre | scripts/check_bhmea_execution_state.py:21-40 | what G1 waits for, by task |
| Ledger.PlacedIs | scripts/check_bhmea_execution_state.py:236-258 | where the gates stand in the graph, by name |
| Ledger.StatusesAre | scripts/check_bhmea_execution_state.py:260-271 | what tasks, claims, submission and readiness may say |
| Ledger.ReadyPassedGates | scripts/check_bhmea_execution_state.py:21-40 | a ready release or stage, or a submission that says fulfilled, has G0, G1, G2, every required component and its install or stage milestone complete, with every ancestor of its gate |

## Left out

- SHA-256, SHA-1, UTF-8 decoding, zlib and `json.loads` themselves: hashes are stated on their input bytes, names carry an uninterpreted "is valid text" answer.
- Wall-clock time and elapsed telemetry: only that a deadline yields no result.
- `eligible_for_baseline_suppression`, provenance and SARIF field projections: one-line selections.
- ByteStrings.U64: truncates outside 64 bits; such graphs are refused before they are encoded, and fact numbers in the solution hash are taken to be below 2^64.
- PackageMoves.PackageMoveInvariant: a sufficient condition, read off the labels alone; the exact ones are MoveStates.MoveKeepsFingerprint (class, states and bytes) and MoveExactness.MoveExact (bytes).
- IncrementalSolves.IncrementalReproducesFull: equality is claimed for one graph; carrying findings between different graphs is a documented limitation of the solver.
- DetectorBounds.IncrementalExactly: the form that needs reachability only; where a route that left by a call comes back, the witness depends on canonical ranks (RejoinedFlows.RejoinedFlowDiffers) and the exact condition is that of DetectorWitnesses.PromiseExactly.
- JsonInverses.DecodeExact: `json.loads` is a parameter; it is compared with the canonical text, not modelled.
- SupergraphRuns.BuildSupergraph: visits METHOD nodes along the canonical order instead of sorting the filtered list by it.
- Mappers.MapExport: the two error types of a refused export are one outcome; an export on which the original does not terminate has no outcome.
- GitExpansions.Expand: takes the objects as an index, which GitObjects.ExpandObjects builds and checks; error categories are one outcome.
- GitObjects.ExpandObjects: the result does not repeat the supplied objects, sizes and digests; reading them from a directory is I/O.
- Ownership.ValidateOwnership: covers the ownership rules only, not the per-kind edge checks around them.
- CpgDeltas.BuildPreserving: takes the sorted list of affected declarations as an argument; routing by thresholds is not modelled.
- JsonBudgets.JsonBudget: the two error categories are one refusal.
- Ledger.Validate: covers graph, inventory and statuses, not the spelling of fields, evidence paths and gate scopes.
- `freeze_value`, `thaw_value` and the role views of `typed_observed.py`: they would only add easy members.
- Source capture, staging, publication, connectors, services, database and deployment code: I/O and plumbing.
