# identify-x86: data pipeline and graph model

This project models, in Dafny, the core of identify-x86. identify-x86 is a tool that finds
which bytes of an x86 executable are instructions. It decodes an instruction at every byte
offset (the *superset*), builds a graph over those candidate instructions, and lets a graph
neural network label each node as code or not.

The model covers four parts of the repository:

- The **fetch** crate (`test-data/fetch`) loads executables and their ground truth. It covers
  the `Interval`/`IntervalSet` address sets, the `AddressClasses` of a sample and their text
  dump, and the segment protection flags and memory image of the loader. It also covers the
  PDB and ELF symbol readers and the ByteWeight reader.
- The **datatool** crate (`test-data/datatool`) covers the following:
  - superset graph construction, in the current module and in the older one, with relation
    type codes, control-flow and overlap edges, and data-dependency edges;
  - the `SingleVec` tagged-pointer container and the `CodeVocab` vocabulary;
  - the similarity index and the train/test splitter;
  - evaluation against the ground truth;
  - the parsers of the outputs of IDA, DeepDi and identify-x86;
  - the ByteWeight source and the stamped source synchronisation.
- **ml/learn.py** builds the executable graph in Python: the edge builder and the edges of
  each instruction row.
- **ml/identify_x86_graph.py** reads the split file.

Each module follows one source file. Where the source updates an object in place, the model is
a class whose methods state the new state. Examples are `IntervalSet`, `AddressClasses`, the
graph edge lists, `CodeVocabBuilder`, `SplitBuilder`, `EdgesBuilder` and `SingleVec`. Where
the source computes a value, the model is a function with lemmas about it.

Errors are modelled with `Result<T>`, which has three cases:

- `Ok`: the value;
- `Err`: an `anyhow` error or a Python exception that the caller sees;
- `Panic`: a Rust `panic!`, `assert!`, `unwrap` on `None`, or arithmetic overflow in a debug
  build.

Fixed-width integers are subset types of `int` (`u8`, `u16`, `u32`, `u64`, `i32`).
Wrap-around and truncating casts are written out explicitly.

## Model

| member | source | states |
|---|---|---|
| Superset.IndexOfFinds | test-data/datatool/src/model/graph/mod.rs:256-259 | The address index finds an instruction exactly when one sits at that address, and it finds the last one there. |
| Superset.IndexOfDistinct | test-data/datatool/src/model/graph/mod.rs:256-259 | When the superset's addresses are distinct, looking up an instruction's address gives back that instruction's node index. |
| Superset.BuildIndex | test-data/datatool/src/model/graph/mod.rs:256-259 | The `addr -> index` hash map that the loop builds answers every address exactly as `IndexOf` does. A later entry overwrites an earlier one. |
| Superset.StripAddrs | test-data/datatool/src/model/graph/mod.rs:291-296 | The stored superset keeps each node's feature and ground-truth label, in order. Only the address is dropped. |
| Superset.LabelByteRoundTrip | test-data/datatool/src/model/graph/mod.rs:316-322 | Writing a label as its byte and reading the byte back gives the same label. |
| GraphCore.TypeCode | test-data/datatool/src/model/graph/mod.rs:21-33 | Every relation type is written as a code below 7. |
| GraphCore.TypeCodeRoundTrip | test-data/datatool/src/model/graph/mod.rs:21-33 | Decoding a relation type's code gives back that relation type, so the codes are distinct. |
| GraphCore.OutEdges | test-data/datatool/src/model/graph/mod.rs:40-67 | A node's successors are exactly its fall-through node and its jump target node, where each exists. There are at most two, and each is a valid node index. |
| GraphCore.Toposort | test-data/datatool/src/model/graph/mod.rs:69-136 | The search skips every successor at or below the current index, and when node `i` is reached from the outer loop every higher node has already been visited. So the depth-first post-order, reversed, lists the nodes `0, 1, ..., n-1` in address order. The length must not overflow. |
| GraphCore.SortTriples | test-data/datatool/src/model/graph/mod.rs:231-236 | Sorting the (edge, type) pairs gives them in ascending (from, to) order; equal edges are not compared by type. |
| GraphCore.SortTriplesMultiset | test-data/datatool/src/model/graph/mod.rs:231-236 | The sorted pairs are a permutation of the original pairs. |
| GraphCore.Graph.constructor | test-data/datatool/src/model/graph/mod.rs:219-224 | A new graph has no edges and no edge types. |
| GraphCore.Graph.AddEdge | test-data/datatool/src/model/graph/mod.rs:226-229 | The edge and its type are appended to the two parallel vectors, which stay the same length. |
| GraphCore.SortTriplesStable | test-data/datatool/src/model/graph/mod.rs:231-236 | The sort is stable: for every edge, the types of the pairs with that edge keep their original order. |
| GraphCore.Graph.Sort | test-data/datatool/src/model/graph/mod.rs:231-236 | After the sort, the (edge, type) pairs are in ascending (from, to) order and are a permutation of the pairs before it. The new pairs are exactly `SortTriples` of the old ones, so the sort is stable: the types of equal edges keep their order. |
| DataDep.ReachesBelow | test-data/datatool/src/model/graph/mod.rs:103-106 | A definition that reaches a use lies at a lower node index, because flow edges only go forward. |
| DataDep.ApplyState | test-data/datatool/src/model/graph/mod.rs:168-177 | Every register that the node defines now holds only that node. Every other register keeps its definitions. |
| DataDep.MergeInto | test-data/datatool/src/model/graph/mod.rs:179-187 | The merged list keeps the destination as its prefix and holds exactly the union of both lists. It stays free of duplicates when the destination was. |
| DataDep.AggregateState | test-data/datatool/src/model/graph/mod.rs:179-187 | For each register, the merged state holds exactly the union of the two states' definitions, with no duplicates added. |
| DataDep.CollectedMembers | test-data/datatool/src/model/graph/mod.rs:144-166 | The collected edges of a node are exactly the `DataDependency` and `DataDependent` pairs between the node and every definition that reaches one of the registers it uses. |
| DataDep.CollectEdges | test-data/datatool/src/model/graph/mod.rs:144-166 | The graph's edge list is extended by exactly the collected data edges of the node. |
| DataDep.CollectOne | test-data/datatool/src/model/graph/mod.rs:151-165 | Handling one used register appends the data pairs of that register's definitions. |
| DataDep.AddPairs | test-data/datatool/src/model/graph/mod.rs:153-164 | For every definition, the edge `(user, def)` of type `DataDependency` and the edge `(def, user)` of type `DataDependent` are appended. |
| DataDep.ReachesBeforeAll | test-data/datatool/src/model/graph/mod.rs:189-209 | The definitions that the predecessors of a node pass on are exactly those that reach it. |
| DataDep.AppliedPasses | test-data/datatool/src/model/graph/mod.rs:198-202 | After the node's definitions are applied, the state holds exactly the definitions that the node passes on to its successors. |
| DataDep.VisitNode | test-data/datatool/src/model/graph/mod.rs:195-209 | Visiting a node in topological order emits its data edges and moves its state on to all of its successors. The invariant that the states hold exactly the reaching definitions is kept. |
| DataDep.Propagate | test-data/datatool/src/model/graph/mod.rs:204-206 | Merging the node's applied state into each successor keeps every pending state exact. |
| DataDep.CollectedAreDataEdges | test-data/datatool/src/model/graph/mod.rs:144-166 | With an exact state, the edges collected at a node are exactly the data-dependency edges whose user is that node. |
| DataDep.WalkDataDep | test-data/datatool/src/model/graph/mod.rs:139-210 | The data-dependency pass appends edges after the existing ones. The appended edges are exactly the reaching-definition edges of the superset, and each appears exactly `DataEdgeCount` times: once for every register its user node uses whose definition at the other end reaches that node. |
| DataDep.CollectedCount | test-data/datatool/src/model/graph/mod.rs:144-166 | With a state listing each reaching definition once, the edges collected at a node hold every edge exactly as often as `UseCount` says, whatever order the state lists its definitions in. |
| DataDep.DataPairsCount | test-data/datatool/src/model/graph/mod.rs:153-164 | The pairs of one used register hold the dependency edge and the dependent edge of each definition as often as the definition is listed. |
| DataDep.DataEdgeCounted | test-data/datatool/src/model/graph/mod.rs:144-166 | An edge is counted at least once exactly when it is a data-dependency edge. |
| GraphSamples.OverlapTriplesMembers | test-data/datatool/src/model/graph/mod.rs:272-277 | The overlap edges of a node are exactly the `Overlap` pairs, in both directions, with the instructions that start inside its bytes. |
| GraphSamples.NodeTriplesMembers | test-data/datatool/src/model/graph/mod.rs:263-287 | The edges emitted for one node are exactly its `Next`, `JumpTo` and `Overlap` edges. |
| GraphSamples.NodeLoopMembers | test-data/datatool/src/model/graph/mod.rs:263-287 | After the first `n` nodes, the emitted edges are exactly those that visiting nodes `0..n` prescribes. |
| GraphSamples.FlowByVisit | test-data/datatool/src/model/graph/mod.rs:263-287 | The node-by-node description of the edges agrees with the independent definition of a flow edge. |
| GraphSamples.NodeLoopExactly | test-data/datatool/src/model/graph/mod.rs:263-287 | The node loop emits exactly the flow edges: fall-through, jump and overlap. |
| GraphSamples.OutEdgesAreFlowEdges | test-data/datatool/src/model/graph/mod.rs:40-67 | The successors that the toposort follows are exactly the targets of the `Next` and `JumpTo` edges. |
| GraphSamples.SelfOverlap | test-data/datatool/src/model/graph/mod.rs:272-277 | A non-empty instruction that falls through overlaps itself, so the graph holds a self loop of type `Overlap`. |
| GraphSamples.New | test-data/datatool/src/model/graph/mod.rs:249-300 | Building a sample never errors. It panics exactly when the node count does not fit an `i32` or an instruction's end overflows `u32`. Otherwise it keeps the superset without addresses and the source. Its sorted edges are exactly the data and flow edges, each as often as the data-dependency pass records it (`DataEdgeCount`) plus as often as the node loop pushes it, so the doubled overlap self-loop of a falling-through node appears twice. |
| GraphSamples.BuildEdges | test-data/datatool/src/model/graph/mod.rs:252-289 | The fresh graph's edges are sorted and are exactly the data-dependency edges and the flow edges. Each edge occurs `DataEdgeCount` times plus the number of times `NodeLoopTriples` lists it. |
| GraphSamples.NodeLoop | test-data/datatool/src/model/graph/mod.rs:263-287 | The loop over the nodes appends the edges that visiting every node prescribes. |
| GraphSamples.VisitNode | test-data/datatool/src/model/graph/mod.rs:264-286 | Visiting one node appends its next, jump and overlap edges. |
| GraphSamples.PushNext | test-data/datatool/src/model/graph/mod.rs:265-270 | The fall-through edge is appended when an instruction starts right after this one. |
| GraphSamples.PushJump | test-data/datatool/src/model/graph/mod.rs:280-286 | The jump edge is appended when the jump target is an instruction of the superset. |
| GraphSamples.PushOverlaps | test-data/datatool/src/model/graph/mod.rs:272-277 | For every instruction starting inside the node's bytes, an `Overlap` edge is appended in each direction. |
| GraphSamples.ToArrays | test-data/datatool/src/model/graph/mod.rs:311-340 | Export never errors, and it panics exactly when some instruction has size 0. Otherwise the sizes and codes have one entry per node, the labels are present exactly when every node is labelled, and the relations hold two indices per edge. |
| GraphSamples.AsI32OfU32 | test-data/datatool/src/model/graph/mod.rs:337 | The `as i32` cast of a node index is the same value modulo 2^32, and it is unchanged when the index fits. |
| GraphSamples.RelationsRoundTrip | test-data/datatool/src/model/graph/mod.rs:330-340 | Reading the exported relation types and index pairs back gives the edges and types of the sample. |
| GraphSamples.NodesRoundTrip | test-data/datatool/src/model/graph/mod.rs:311-322 | Each exported size is the instruction size minus one. Each exported label byte decodes to the node's label. |
| LegacyGraph.TypeCode | test-data/datatool/src/model/graph.rs:10-18 | Every relation type of the older graph module is written as a code below 5. |
| LegacyGraph.TypeCodeRoundTrip | test-data/datatool/src/model/graph.rs:10-18 | Decoding a relation type's code gives back that relation type. |
| LegacyGraph.OverlapEdgesMembers | test-data/datatool/src/model/graph.rs:43-48 | The overlap edges of a node are exactly the `Overlap` pairs, in both directions, with the instructions that start inside its bytes. |
| LegacyGraph.NodeEdgesMembers | test-data/datatool/src/model/graph.rs:36-56 | The edges emitted for one node are exactly its next/previous pair, its overlap pairs and its JumpTo/JumpFrom pair. |
| LegacyGraph.EdgesMembers | test-data/datatool/src/model/graph.rs:36-56 | After `n` nodes, the edge list holds exactly the edges that visiting nodes `0..n` prescribes. |
| LegacyGraph.PrescribedByVisit | test-data/datatool/src/model/graph.rs:36-56 | The node-by-node description agrees with the independent definition of the older graph's edges. |
| LegacyGraph.GraphExactly | test-data/datatool/src/model/graph.rs:28-56 | The finished graph holds exactly the prescribed next, previous, overlap, JumpTo and JumpFrom edges. |
| LegacyGraph.EdgesShape | test-data/datatool/src/model/graph.rs:36-56 | The edges come in pairs, each being an edge and its reverse. The pairs are grouped by the node that emitted them, in node order. The list is not sorted. |
| LegacyGraph.SelfOverlap | test-data/datatool/src/model/graph.rs:43-48 | Every non-empty instruction has an `Overlap` self loop, because the overlap range starts at its own address. |
| LegacyGraph.New | test-data/datatool/src/model/graph.rs:28-67 | Building never errors, and it panics exactly when an instruction's end overflows `u32`. Otherwise the sample is the address-free superset, the prescribed edges and the source. |
| LegacyGraph.Visit | test-data/datatool/src/model/graph.rs:37-55 | Visiting a node appends exactly that node's edges. |
| LegacyGraph.PushOverlaps | test-data/datatool/src/model/graph.rs:43-48 | The overlap loop appends exactly the overlap pairs of the instructions in the range. |
| LegacyGraph.AsU32 | test-data/datatool/src/model/graph.rs:99 | The `as u32` cast of a node index that fits leaves it unchanged. |
| LegacyGraph.ToArrays | test-data/datatool/src/model/graph.rs:77-102 | Sizes and codes have one entry per node. Labels are present exactly when every node is labelled. Relations hold two indices per edge. |
| LegacyGraph.RelationsRoundTrip | test-data/datatool/src/model/graph.rs:94-102 | Reading the exported type codes and index pairs back gives the edge list. |
| LegacyGraph.LabelsRoundTrip | test-data/datatool/src/model/graph.rs:80-89 | Each exported label byte decodes to the node's label. |
| LearnGraph.EdgesBuilder.constructor | ml/learn.py:117-122 | A new builder has empty buffers, no parts and an edge count of 0. |
| LearnGraph.EdgesBuilder.AddEdge | ml/learn.py:124-133 | The edge and its kind are appended to the pending edges, whether they land in the buffer or in a flushed part, and the count goes up by one. |
| LearnGraph.EdgesBuilder.Build | ml/learn.py:135-149 | The built index and type tensors are all added edges in order, across every flushed part and the buffer. The builder is emptied, but its count is kept. |
| LearnGraph.EdgesBuilder.Len | ml/learn.py:151-152 | `len` is the number of edges added so far, including those already built. |
| LearnGraph.RowOverlapsMembers | ml/learn.py:176-182 | A row's overlap edges are exactly the `EDGE_OVERLAP` pairs, in both directions, with the rows that start strictly inside the instruction. |
| LearnGraph.GraphEdgesMembers | ml/learn.py:164-185 | After `n` rows, the edges are exactly those that visiting rows `0..n` prescribes. |
| LearnGraph.GraphExactly | ml/learn.py:154-186 | The graph holds exactly the prescribed next, previous and overlap edges. |
| LearnGraph.NoSelfOverlap | ml/learn.py:176-182 | Unlike the Rust graphs, no row gets an overlap self loop, because the range starts at `addr + 1`. |
| LearnGraph.KindsInRange | ml/learn.py:111-114 | Every edge kind is below `EDGE_RELCOUNT`. |
| LearnGraph.BuildExecutableGraph | ml/learn.py:154-186 | The returned edge indices and types are the prescribed edges in visiting order. |
| LearnGraph.AddRow | ml/learn.py:165-182 | One row appends its next/previous pair and its overlap pairs to the builder. |
| LearnGraph.AddNext | ml/learn.py:167-174 | The next/previous pair is appended exactly when a row starts where this one ends, and nothing is appended on `KeyError`. |
| LearnGraph.AddOverlaps | ml/learn.py:176-182 | The overlap loop appends the overlap pairs of the rows found in the range. |
| LearnGraph.EncodeSizes | ml/learn.py:104-109 | Each encoded size is the instruction size minus one. |
| LearnGraph.RowLengthMisreadsSize | ml/learn.py:167 | As written, `x.size` is the number of fields of the row, not the instruction length. On a three-row frame this makes an overlap edge where the next edge belongs. |
| LearnGraph.SizeColumnNext | ml/learn.py:167-174 | Reading the `size` column instead gives a next edge from `i` to `j` exactly when `j` starts at the end of `i`. |
| Vocab.InsertRanked | test-data/datatool/src/model/vocab.rs:56 | Inserting a code into a list ranked by descending frequency keeps the list ranked and adds exactly that code. |
| Vocab.IndexMap | test-data/datatool/src/model/vocab.rs:81-90 | The id map holds exactly the vocabulary's codes. Each id is the code's position plus the two special values, and it points back to the code. |
| Vocab.NewIds | test-data/datatool/src/model/vocab.rs:81-90 | With distinct codes, the `i`-th code gets id `i + 2`. |
| Vocab.IdThenCode | test-data/datatool/src/model/vocab.rs:123-145 | A listed code gets an id of at least 2, and indexing the vocabulary with that id gives the code back. |
| Vocab.UnlistedIsUnknown | test-data/datatool/src/model/vocab.rs:123-145 | An unlisted code gets the `UNKNOWN` id. Indexing with `UNKNOWN` panics, and indexing with `INVALID` gives the invalid code. |
| Vocab.CodeVocabBuilder.constructor | test-data/datatool/src/model/vocab.rs:18-22 | A new builder counts nothing. |
| Vocab.CodeVocabBuilder.Add | test-data/datatool/src/model/vocab.rs:24-27 | The code's count goes up by one, and every other count is unchanged. |
| Vocab.CodeVocabBuilder.AddSample | test-data/datatool/src/model/vocab.rs:29-33 | Each code's count goes up by its number of occurrences in the sample. |
| Vocab.CodeVocabBuilder.Merge | test-data/datatool/src/model/vocab.rs:35-39 | Each count becomes the sum of the two builders' counts, over the union of their codes. |
| Vocab.CodeVocabBuilder.Len | test-data/datatool/src/model/vocab.rs:41-44 | The length is the number of distinct codes seen. |
| Vocab.CodeVocabBuilder.BuildTopK | test-data/datatool/src/model/vocab.rs:51-61 | The vocabulary holds the `k` most frequent codes, with the invalid code removed, most frequent first. |
| Vocab.CodeVocabBuilder.Build | test-data/datatool/src/model/vocab.rs:63-67 | The vocabulary holds every counted code except the invalid one, ranked by descending frequency. |
| Vocab.RankCodes | test-data/datatool/src/model/vocab.rs:53-57 | Sorting by descending count gives a ranked list that holds each counted code once. |
| Vocab.PrefixIsTopK | test-data/datatool/src/model/vocab.rs:51-61 | Taking the first `k` codes of the ranked list gives the top `k`: no code left out is more frequent than one kept. |
| Vocab.CodeNamed | test-data/datatool/src/model/vocab.rs:97-106 | Looking a line up in the table of code names finds a code exactly when the line is a code's `Debug` name, and that code has the name. |
| Vocab.NameThenCode | test-data/datatool/src/model/vocab.rs:97-99 | With distinct names, looking up a code's name gives back that code. |
| Vocab.SerializeTo | test-data/datatool/src/model/vocab.rs:112-120 | The written text is `INVALID`, then `UNKNOWN`, then one code name per line, each line ended by a newline. |
| Vocab.ParseCodes | test-data/datatool/src/model/vocab.rs:101-108 | Parsing the lines fails exactly when some line is not a code name. Otherwise each parsed code has that line as its name. |
| Vocab.Deserialized | test-data/datatool/src/model/vocab.rs:92-110 | Reading panics exactly when the first two lines are not `INVALID` and `UNKNOWN`. A successful read gives a well-formed vocabulary. |
| Vocab.DeserializeFrom | test-data/datatool/src/model/vocab.rs:92-110 | The reading loop computes the read that `Deserialized` specifies. |
| Vocab.SerializeRoundTrip | test-data/datatool/src/model/vocab.rs:92-120 | Reading back a serialized vocabulary gives the same vocabulary. |
| Vocab.ParseNames | test-data/datatool/src/model/vocab.rs:101-108 | Parsing the names of a sequence of codes gives back those codes. |
| SingleVec.MaxValue | test-data/datatool/src/model/graph/single_vec.rs:7 | The largest value that fits once shifted left by one and tagged is `(2^bits - 2) / 2`. This is the intended bound, not the bound as written. |
| SingleVec.SingleIntoPtr | test-data/datatool/src/model/graph/single_vec.rs:14-20 | The tagged pointer is odd and fits in a `usize`. |
| SingleVec.PtrIntoSingle | test-data/datatool/src/model/graph/single_vec.rs:25-29 | Untagging panics exactly when the tag bit is clear. Otherwise it gives the shifted-out value truncated to `u32`. |
| SingleVec.SingleRoundTrip | test-data/datatool/src/model/graph/single_vec.rs:14-29 | Every value up to the bound survives tagging and untagging. |
| SingleVec.MaxValueIsLargest | test-data/datatool/src/model/graph/single_vec.rs:7-17 | One more than the bound no longer survives: its tagged pointer wraps to the bare tag bit. |
| SingleVec.EveryItemFits | test-data/datatool/src/model/graph/single_vec.rs:7 | On a 64-bit target, every `u32` is within both the as-written bound and the intended bound. |
| SingleVec.AsWrittenRejectsFittingValue | test-data/datatool/src/model/graph/single_vec.rs:7 | On a 32-bit target, the as-written `1 << (usize::BITS - 1) - 1` is `2^30`. It rejects `0x4000_0001`, which tagging and untagging keep intact. |
| SingleVec.ReprOf | test-data/datatool/src/model/graph/single_vec.rs:77-88 | A vector pointer is represented as an even, non-null pointer to the vector. |
| SingleVec.PtrFromRepr | test-data/datatool/src/model/graph/single_vec.rs:104-116 | Converting back panics exactly when a single value exceeds the bound or a vector pointer is odd. |
| SingleVec.ReprRoundTrip | test-data/datatool/src/model/graph/single_vec.rs:77-116 | Any representation that converts back without panicking is the representation of its own pointer. |
| SingleVec.Next | test-data/datatool/src/model/graph/single_vec.rs:189-203 | The iterator yields nothing exactly when nothing remains. Otherwise it yields the first remaining item and moves past it. |
| SingleVec.CollectRemaining | test-data/datatool/src/model/graph/single_vec.rs:189-203 | Draining the iterator yields exactly the remaining items, in order. |
| SingleVec.SingleVec.constructor | test-data/datatool/src/model/graph/single_vec.rs:59-63 | A new vector is empty and holds no pointer. |
| SingleVec.SingleVec.FromSingle | test-data/datatool/src/model/graph/single_vec.rs:65-69 | The vector holds exactly the one value, stored inline. |
| SingleVec.SingleVec.FromVec | test-data/datatool/src/model/graph/single_vec.rs:71-75 | The vector holds exactly the given items. |
| SingleVec.SingleVec.Push | test-data/datatool/src/model/graph/single_vec.rs:118-129 | The value is appended: an empty vector becomes a single value, and a single value becomes a heap vector of two. |
| SingleVec.SingleVec.Clear | test-data/datatool/src/model/graph/single_vec.rs:131-134 | The vector becomes empty. |
| SingleVec.SingleVec.Contains | test-data/datatool/src/model/graph/single_vec.rs:136-142 | The answer is true exactly when the value is one of the items. |
| SingleVec.SingleVec.Len | test-data/datatool/src/model/graph/single_vec.rs:144-150 | The length is the number of items. |
| SingleVec.SingleVec.Iterate | test-data/datatool/src/model/graph/single_vec.rs:152-158 | The iterator has all the items remaining. |
| SingleVec.SingleVec.Clone | test-data/datatool/src/model/graph/single_vec.rs:167-175 | The clone is a fresh vector with the same items. |
| DummySingleVec.Next | test-data/datatool/src/model/graph/dummy_single_vec.rs:55-61 | The plain iterator yields nothing exactly when it is exhausted. Otherwise it yields the next item. |
| DummySingleVec.SingleVec.constructor | test-data/datatool/src/model/graph/dummy_single_vec.rs:12-14 | A new vector is empty. |
| DummySingleVec.SingleVec.FromSingle | test-data/datatool/src/model/graph/dummy_single_vec.rs:16-20 | The vector holds exactly the one value. |
| DummySingleVec.SingleVec.FromVec | test-data/datatool/src/model/graph/dummy_single_vec.rs:22-26 | The vector holds exactly the given items. |
| DummySingleVec.SingleVec.Push | test-data/datatool/src/model/graph/dummy_single_vec.rs:28-30 | The value is appended. |
| DummySingleVec.SingleVec.Clear | test-data/datatool/src/model/graph/dummy_single_vec.rs:32-34 | The vector becomes empty. |
| DummySingleVec.SingleVec.Contains | test-data/datatool/src/model/graph/dummy_single_vec.rs:36-38 | The answer is true exactly when the value is one of the items. |
| DummySingleVec.SingleVec.Len | test-data/datatool/src/model/graph/dummy_single_vec.rs:40-42 | The length is the number of items. |
| DummySingleVec.SingleVec.Iterate | test-data/datatool/src/model/graph/dummy_single_vec.rs:44-48 | The iterator has all the items remaining. |
| Evaluate.EvaluateResult | test-data/datatool/src/evaluate.rs:41-71 | Evaluation panics exactly when some superset node has no ground-truth label. Otherwise the result is the true positives, false positives and false negatives of the prediction against the code addresses. |
| Evaluate.CollectCode | test-data/datatool/src/evaluate.rs:45-52 | The true result is exactly the addresses labelled as code. It is absent when some label is missing. |
| Evaluate.SplitPredicted | test-data/datatool/src/evaluate.rs:56-62 | The predicted addresses split into those that are code (true positives) and those that are not (false positives). |
| Evaluate.Missed | test-data/datatool/src/evaluate.rs:64-68 | The false negatives are the code addresses that were not predicted. |
| Evaluate.Partition | test-data/datatool/src/evaluate.rs:12-28 | True and false positives partition the prediction. True positives and false negatives partition the code. So the summary counts add up to the number of predicted addresses and the number of code addresses. |
| Split.Windows | test-data/datatool/src/split.rs:17 | A region of length `L` has `L - n + 1` windows of length `n`, or none when `L < n`. |
| Split.WindowsAt | test-data/datatool/src/split.rs:17-18 | The `k`-th window is the `n` bytes starting at offset `k`. |
| Split.AllWindowsCount | test-data/datatool/src/split.rs:16-22 | The windows of all executable regions number the sum of the per-region counts. |
| Split.NewIndex | test-data/datatool/src/split.rs:12-28 | The n-gram index counts every window of every executable region: each n-gram maps to its multiplicity, and the total is the number of windows. |
| Split.CountRegion | test-data/datatool/src/split.rs:17-21 | Counting one region adds exactly that region's windows to the index. |
| Split.CountWindow | test-data/datatool/src/split.rs:18-20 | Counting one window adds one occurrence of it and raises the total by one. |
| Split.LenIsDistinct | test-data/datatool/src/split.rs:44-46 | The index's length is the number of distinct n-grams. |
| Split.Similarity | test-data/datatool/src/split.rs:30-42 | Similarity never errors, and it panics exactly when the union size underflows. Otherwise it gives the intersection size and the union size, where the union is the sum of the totals minus the intersection. |
| Split.Intersection | test-data/datatool/src/split.rs:32-37 | The loop over the first index's n-grams, summing the smaller count, computes the size of the multiset intersection. |
| Split.IntersectionSymmetric | test-data/datatool/src/split.rs:30-37 | The intersection size does not depend on the order of the two executables. |
| Split.IntersectionBounded | test-data/datatool/src/split.rs:39 | The intersection never exceeds either total, so the union's subtraction never underflows. |
| Split.SelfSimilarity | test-data/datatool/src/split.rs:30-42 | An executable's intersection with itself is its whole total, and so is its union. |
| Split.SplitBuilder.constructor | test-data/datatool/src/split.rs:70-84 | A new splitter has one empty group per target fraction and a total size of 0. |
| Split.SplitBuilder.PushComponent | test-data/datatool/src/split.rs:86-109 | A component goes into the chosen group, which grows by its size and items. The total grows by the same size. The call panics exactly when there are no groups or the total overflows `u64`. |
| Split.SplitBuilder.Build | test-data/datatool/src/split.rs:111-122 | Each result carries its group's target fraction, size, the overall total and the items. |
| Split.ResultSizesSum | test-data/datatool/src/split.rs:111-122 | The group sizes of the result add up to the total size. |
| IntervalSets.FromStartAndEnd | test-data/fetch/src/model/interval_set.rs:18-21 | The interval `[start, end)` holds exactly the points from `start` up to `end`, and its length is `end - start`. The source asserts `start <= end`. |
| IntervalSets.FromStartAndLen | test-data/fetch/src/model/interval_set.rs:23-29 | The interval starts at `start` and has length `len`. |
| IntervalSets.Len | test-data/fetch/src/model/interval_set.rs:39-41 | The length is the number of points in the interval. |
| IntervalSets.IsEmpty | test-data/fetch/src/model/interval_set.rs:43-45 | An interval is empty exactly when it holds no point. |
| IntervalSets.Intersection | test-data/fetch/src/model/interval_set.rs:47-55 | The intersection holds exactly the points of both intervals. Disjoint inputs give the empty interval at 0. |
| IntervalSets.ContainsIsCoveredBelow | test-data/fetch/src/model/interval_set.rs:276-281 | `contains(v)` looks at the last key strictly below `v`. So it holds exactly when `v - 1` is covered, that is, when some stored `[s, e)` has `s < v <= e`. `push` and `remove` rely on exactly this reading. |
| IntervalSets.PushSteps | test-data/fetch/src/model/interval_set.rs:155-206 | Setting the start boundary, then the end boundary, of a pushed interval gives the splice form: the keys below, the boundary marks, then the keys above. |
| IntervalSets.RemoveSteps | test-data/fetch/src/model/interval_set.rs:220-271 | The same holds for removal, with the boundary markers swapped. |
| IntervalSets.SpliceCovered | test-data/fetch/src/model/interval_set.rs:149-274 | After a splice, a point inside `[a, b)` is covered exactly when the splice pushes. Every other point keeps its coverage. |
| IntervalSets.SpliceWellFormed | test-data/fetch/src/model/interval_set.rs:76-84 | A splice keeps the map well formed: keys ascending, markers alternating from a start, and an even count. This is what `check_iter` checks. |
| IntervalSets.PushPoints | test-data/fetch/src/model/interval_set.rs:148-209 | After a push, the points covered are exactly the old ones plus the pushed interval, and the map stays well formed. |
| IntervalSets.RemovePoints | test-data/fetch/src/model/interval_set.rs:211-274 | After a removal, the points covered are exactly the old ones minus the removed interval, and the map stays well formed. |
| IntervalSets.PushAllCovered | test-data/fetch/src/model/interval_set.rs:291-296 | After pushing a list of intervals, a point is covered exactly when it was covered before or lies in one of them. |
| IntervalSets.FlattenIntervalsOf | test-data/fetch/src/model/interval_set.rs:315-333 | The iterator pairs consecutive start and end markers into separated intervals, and flattening them back gives the map. |
| IntervalSets.SerdeRoundTrip | test-data/fetch/src/model/interval_set.rs:86-139 | Pushing the serialized intervals into an empty set rebuilds the same map. |
| IntervalSets.Canonical | test-data/fetch/src/model/interval_set.rs:76-84 | Two well-formed maps that cover the same points are equal. |
| IntervalSets.CoveredIffInInterval | test-data/fetch/src/model/interval_set.rs:315-333 | A point is covered exactly when it lies in one of the iterated intervals. |
| IntervalSets.TotalLengthCountsMembers | test-data/datatool/src/model/mod.rs:64-72 | Summing the lengths of separated intervals counts each covered point once. |
| IntervalSets.ShiftFitsCovered | test-data/fetch/src/model/interval_set.rs:283-289 | The shift avoids overflow exactly when every covered point plus one, plus the offset, still fits a `u32`. |
| IntervalSets.IntervalSet.constructor | test-data/fetch/src/model/interval_set.rs:142-146 | A new set covers nothing. |
| IntervalSets.IntervalSet.Contains | test-data/fetch/src/model/interval_set.rs:276-281 | `contains(v)` holds exactly when `v - 1` lies in a stored interval. |
| IntervalSets.IntervalSet.Iter | test-data/fetch/src/model/interval_set.rs:298-333 | The iterated intervals are separated, ascending and non-empty, and they cover exactly the set's points. |
| IntervalSets.IntervalSet.Push | test-data/fetch/src/model/interval_set.rs:148-209 | The set now covers its old points plus the pushed interval, and it stays well formed. |
| IntervalSets.IntervalSet.Remove | test-data/fetch/src/model/interval_set.rs:211-274 | The set now covers its old points minus the removed interval, and it stays well formed. |
| IntervalSets.IntervalSet.Shift | test-data/fetch/src/model/interval_set.rs:283-289 | Every key moves up by the offset with its marker kept, so the set covers `v` exactly when it covered `v - offset`. |
| IntervalSets.IntervalSet.Extend | test-data/fetch/src/model/interval_set.rs:291-296 | Extending pushes each interval in turn. |
| IntervalSets.IntervalSet.Serialize | test-data/fetch/src/model/interval_set.rs:86-99 | Serialization gives one `(start, end)` pair per stored interval, each with `start < end`. |
| IntervalSets.PairsAsIntervals | test-data/fetch/src/model/interval_set.rs:58-62 | The pairs convert to intervals exactly when each has `start <= end`. Any other pair fails the assertion. |
| IntervalSets.Deserialize | test-data/fetch/src/model/interval_set.rs:114-125 | Deserialization panics exactly when some pair has `start > end`. Otherwise the new set is the pairs pushed in order. |
| IntervalSets.SerializeDeserialize | test-data/fetch/src/model/interval_set.rs:86-139 | Deserializing a serialized set gives back its intervals, and pushing them rebuilds the same set. |
| Classes.Clip | test-data/datatool/src/model/mod.rs:44-62 | Clipping keeps at most the given intervals, and each kept one is non-empty. |
| Classes.ClipCovers | test-data/datatool/src/model/mod.rs:44-62 | A point lies in the clipped intervals exactly when it lies in the original intervals and in the range. |
| Classes.ClipSeparated | test-data/datatool/src/model/mod.rs:44-62 | Clipping separated intervals leaves them separated. |
| Classes.RebuildSeparated | test-data/datatool/src/model/mod.rs:44-62 | Pushing separated intervals into a new set and iterating gives them back unchanged. |
| Classes.Filtered | test-data/datatool/src/model/mod.rs:44-62 | The rebuilt set iterates exactly the clipped intervals of the old set, and it covers the old points inside the range. |
| Classes.SumLengths | test-data/datatool/src/model/mod.rs:64-72 | The `u32` sum of the lengths panics exactly when the total length does not fit. Otherwise it is that total. |
| Classes.InsertEntry | test-data/datatool/src/model/mod.rs:81 | Inserting into sorted `(interval, kind)` entries keeps them sorted and adds exactly that entry. |
| Classes.SortEntries | test-data/datatool/src/model/mod.rs:75-81 | `data.sort()` orders the entries by interval, then kind, and keeps the same multiset. |
| Classes.DumpFrom | test-data/datatool/src/model/mod.rs:83-112 | The dump panics exactly when some interval starts before the previous one ends, because `interval.start() - prev` underflows. It never errors. |
| Classes.DumpListsEntries | test-data/datatool/src/model/mod.rs:85-112 | The non-gap lines of the dump are the sorted entries, in order. |
| Classes.DumpTiles | test-data/datatool/src/model/mod.rs:85-112 | Gap lines and entry lines tile the address range: each line starts where the previous one ends, a gap is written only when it is positive, and the last line is an entry. |
| Classes.DisjointDumpChained | test-data/datatool/src/model/mod.rs:74-89 | When code and data share no address, the sorted entries are chained, so the dump succeeds. |
| Classes.SharedDumpBroken | test-data/datatool/src/model/mod.rs:88-89 | When an address is both code and data, the sorted entries are not chained, so the dump panics. |
| Classes.DumpSucceedsIff | test-data/datatool/src/model/mod.rs:74-115 | The dump succeeds exactly when no address is both code and data. |
| Classes.RenderIsOneLine | test-data/datatool/src/model/mod.rs:91-110 | Each formatted line holds no line break and does not end in a carriage return. |
| Classes.DumpTextLines | test-data/datatool/src/model/mod.rs:83-115 | Splitting the dump text into lines gives back the formatted lines. |
| Classes.WriteDump | test-data/datatool/src/model/mod.rs:83-114 | The `writeln!` loop produces exactly the formatted lines of the dump, each ended by a newline, or panics where the dump does. |
| Classes.AddressClasses.constructor | test-data/datatool/src/model/mod.rs:33-38 | New classes have empty instruction and data sets. |
| Classes.AddressClasses.Relocate | test-data/datatool/src/model/mod.rs:39-42 | Both sets are shifted, so each covers `v` exactly when it covered `v - offset`. |
| Classes.AddressClasses.FilterTo | test-data/datatool/src/model/mod.rs:44-62 | Both sets are replaced by fresh sets that iterate the clipped intervals. |
| Classes.AddressClasses.Coverage | test-data/datatool/src/model/mod.rs:64-72 | Coverage panics exactly when the number of covered instruction and data addresses overflows `u32`. Otherwise it is that number. |
| Classes.AddressClasses.Dump | test-data/datatool/src/model/mod.rs:74-115 | The dump succeeds exactly when code and data are disjoint, and then gives the formatted lines of the sorted entries. |
| Samples.ExecutableRegions | test-data/fetch/src/model/mod.rs:134-138 | The executable regions are exactly the memory regions with the execute flag. |
| Samples.OnlyRegionExecutable | test-data/fetch/src/model/mod.rs:134-145 | A single executable region is the one that `exactly_one` keeps. |
| Samples.TextInterval | test-data/fetch/src/model/mod.rs:186-189 | The `.text` interval panics exactly when the address plus the size does not fit `u32`. Otherwise it spans `[address, address + size)`. |
| Samples.ExecutableSample.constructor | test-data/fetch/src/model/mod.rs:121-126 | The sample holds the given memory, classes and source. |
| Samples.ExecutableSample.Coverage | test-data/fetch/src/model/mod.rs:228-238 | Coverage panics exactly when the covered addresses or the memory's byte count overflow `u32`. Otherwise it gives both. |
| Samples.ExecutableSample.FromHelper | test-data/fetch/src/model/mod.rs:129-152 | The call errors exactly when not exactly one region is executable. Otherwise only that region is kept, the classes are cut down to its addresses, and the source is recorded. |
| Samples.ExecutableSample.FromDebianText | test-data/fetch/src/model/mod.rs:154-192 | The `.text` data must be present and its range must fit `u32`, or the call panics. The sample is then that one region, with the classes cut down to the region and to `.text`. |
| Loader.ElfProtection | test-data/fetch/src/loader/mod.rs:18-38 | ELF flags masked to `rwx` map to the protection with exactly those bits. A mask of 0 panics. |
| Loader.CoffProtection | test-data/fetch/src/loader/mod.rs:42-63 | COFF characteristics masked to read, write and execute map to the protection with exactly those bits. A mask of 0 panics. |
| Loader.FlagsToProtection | test-data/fetch/src/loader/mod.rs:13-68 | Segment flags map to a protection exactly when they are ELF or COFF flags with some access bit set. The execute bit is kept. Every other kind of flags panics. |
| Loader.PadWithZeros | test-data/fetch/src/loader/mod.rs:82-84 | The data is padded with zero bytes up to the segment size and is never cut. |
| Loader.LoadExecutable | test-data/fetch/src/loader/mod.rs:70-92 | Loading panics exactly when some segment's data cannot be read or its flags do not map. Otherwise there is one region per segment, in order, at the address truncated to 32 bits, with the mapped protection and the padded data. |
| Loader.LoadElf | test-data/fetch/src/loader.rs:7-55 | The same, with only ELF flags accepted and every region of an `ET_DYN` image placed `0x40000` higher. The `u32` addition panics on overflow. |
| Pdb.RangesOfMembers | test-data/fetch/src/loader/pdb.rs:23-32 | The collected instruction ranges are exactly the `(rva, len)` of the procedures and the `(rva, size)` of the trampolines that have an address. |
| Pdb.LocationsMembers | test-data/fetch/src/loader/pdb.rs:18-22 | The data locations are exactly the addresses of the data symbols that have one, kept as an ordered set. |
| Pdb.AddLocations | test-data/fetch/src/loader/pdb.rs:18-22 | Inserting the data symbols' addresses keeps the locations strictly ascending. |
| OrderedSets.Insert | test-data/fetch/src/loader/pdb.rs:20 | `BTreeSet::insert` keeps the elements strictly ascending and adds exactly the new one. |
| Pdb.Ranges.constructor | test-data/fetch/src/loader/pdb.rs:57-60 | The ranges start with no instruction ranges and no data locations. |
| Pdb.Ranges.ExtractSymbol | test-data/fetch/src/loader/pdb.rs:12-39 | A symbol that fails to parse is an error. Otherwise a procedure or trampoline adds its range, a data symbol adds its location, and other symbols change nothing. |
| Pdb.Ranges.WalkSymbols | test-data/fetch/src/loader/pdb.rs:41-51 | Walking the symbols adds all their ranges, in order, and all their data locations. |
| Pdb.StartsOf | test-data/fetch/src/loader/pdb.rs:75-79 | The instruction starts are strictly ascending. |
| Pdb.StartsMembers | test-data/fetch/src/loader/pdb.rs:75-79 | The instruction starts are exactly the start addresses of the ranges. |
| Pdb.CollectStarts | test-data/fetch/src/loader/pdb.rs:75-79 | Collecting the starts into a `BTreeSet` gives the ordered set of range starts. |
| Pdb.NextStartLeast | test-data/fetch/src/loader/pdb.rs:83-92 | The peeked start is the least instruction start at or above the location, and there is none exactly when every start lies below it. |
| Pdb.SkipBelow | test-data/fetch/src/loader/pdb.rs:85-90 | The skipping loop stops at the least start at or above the location, and it never moves backwards. |
| Pdb.DataIntervalCovers | test-data/fetch/src/loader/pdb.rs:92-98 | The data interval of a location covers exactly the bytes from the location up to the next instruction start. |
| Pdb.SweepCovers | test-data/fetch/src/loader/pdb.rs:83-99 | The data set covers exactly the bytes from some data location up to the next instruction start after it. |
| Pdb.LocationAtStart | test-data/fetch/src/loader/pdb.rs:92-97 | A data location that is also an instruction start gets an empty interval, so it covers nothing. |
| Pdb.SweepInto | test-data/fetch/src/loader/pdb.rs:83-99 | The sweep over the ascending locations pushes exactly the data intervals. |
| Pdb.RangeIntervalsCover | test-data/fetch/src/loader/pdb.rs:101-105 | The instruction set covers exactly the bytes of some `[rva, rva + len)`. |
| Pdb.PushRanges | test-data/fetch/src/loader/pdb.rs:101-105 | Pushing the ranges succeeds exactly when every `rva + len` fits `u32`, and then pushes exactly their intervals. |
| Pdb.RelocationFitsShift | test-data/fetch/src/loader/pdb.rs:107 | Relocating by the base address avoids overflow exactly when every data and instruction end plus the base still fits. |
| Pdb.DumpPdb | test-data/fetch/src/loader/pdb.rs:53-110 | The dump panics exactly when an instruction range or the relocation overflows `u32`. Otherwise the fresh classes hold the data intervals and the instruction intervals, shifted by the base address. |
| ElfSymbols.SymbolType | test-data/fetch/src/loader/elf_symbols.rs:27 | The symbol type is the low nibble of `st_info`. |
| ElfSymbols.SymbolInterval | test-data/fetch/src/loader/elf_symbols.rs:38-43 | A symbol's interval holds exactly the bytes `[value, value + size)`. |
| ElfSymbols.OwnIntervalCovers | test-data/fetch/src/loader/elf_symbols.rs:37-45 | The interval that one symbol contributes to the data set, or to the instruction set, covers exactly the bytes it spans as an object or common symbol, or as a function. |
| ElfSymbols.SelectedCovers | test-data/fetch/src/loader/elf_symbols.rs:18-46 | The data set covers exactly the bytes of the defined object and common symbols, and the instruction set exactly those of the defined functions. |
| ElfSymbols.DumpElfSymbols | test-data/fetch/src/loader/elf_symbols.rs:7-49 | The dump panics exactly when a defined symbol of interest has an unknown type or an end beyond `u32`. Otherwise the fresh classes hold the data and function intervals. |
| ElfSymbols.AddSymbol | test-data/fetch/src/loader/elf_symbols.rs:19-45 | One loop step either skips the symbol, pushes its interval to the right set, or reports the panic. |
| Containers.CheckThenDelete | test-data/datatool/src/disassembly/tool/deepdi.rs:92-102 | When the status is checked before the container is deleted, the run goes on exactly when the status is 0 and the delete succeeds. A failed run leaves the container in place. |
| Containers.DeleteThenCheck | test-data/datatool/src/runners/deepdi.rs:86-96 | When the container is deleted first, it is deleted whenever the delete succeeds, and the run goes on under the same condition. |
| Containers.OrdersAgree | test-data/datatool/src/runners/deepdi.rs:86-96 | The two orders agree on whether the run goes on. They differ on deletion exactly when the tool failed and the delete would succeed. |
| IdaListing.RecordedMeaning | test-data/datatool/src/disassembly/tool/ida.rs:50-73 | An address is recorded exactly when some listing line lists an instruction at it, that line is not a data directive or UTF-16 string, and the address differs from the last processed one. |
| IdaListing.ParseLst | test-data/datatool/src/disassembly/tool/ida.rs:45-76 | Parsing panics exactly when a matched address does not fit `u32`. Otherwise the result is exactly the recorded addresses. |
| IdaListing.LastProcessedFrom | test-data/datatool/src/disassembly/tool/ida.rs:57-66 | The last processed address is 0 or the address of some matched line. |
| IdaListing.ZeroNeverRecorded | test-data/datatool/src/disassembly/tool/ida.rs:48-55 | In a listing in address order, address 0 is never recorded, because it equals the initial last processed address. |
| IdaListing.RepeatSkipped | test-data/datatool/src/disassembly/tool/ida.rs:53-55 | A line repeating the address of the previous instruction line records nothing. |
| LineScan.ScanFails | test-data/datatool/src/disassembly/tool/deepdi.rs:108-116 | The reading loop fails exactly when some line is bad. |
| LineScan.ScanYields | test-data/datatool/src/disassembly/tool/deepdi.rs:108-116 | A successful read gives exactly the values of the lines. |
| DeepDi.ParseOutput | test-data/datatool/src/runners/deepdi.rs:100-112 | Parsing the output fails exactly when a line starting with `0x` does not hold a hexadecimal `u32`. Otherwise it gives exactly the listed addresses. |
| DeepDi.ReadLine | test-data/datatool/src/disassembly/tool/deepdi.rs:109-115 | A trimmed line is skipped when empty or not starting with `0x`. Otherwise its remaining digits are an address or a parse error. |
| DeepDi.RunDeepDiTool | test-data/datatool/src/disassembly/tool/deepdi.rs:92-120 | The disassembly tool fails when the container fails, is not deleted, or its output is not UTF-8. Otherwise it gives the parsed addresses. The container is deleted only after a successful run. |
| DeepDi.RunDeepDiRunner | test-data/datatool/src/runners/deepdi.rs:86-113 | The runner deletes the container before it checks the status. Otherwise it behaves like the disassembly tool. |
| DeepDi.HexLineFacts | test-data/datatool/src/disassembly/tool/deepdi.rs:109-114 | A line `0x<hex>` reads as its address. |
| DeepDi.ReadBack | test-data/datatool/src/disassembly/tool/deepdi.rs:106-116 | Output made of one `0x<hex>` line per address reads back as exactly those addresses. |
| IdentifyX86Output.ParseNodes | test-data/datatool/src/disassembly/tool/identify_x86.rs:122-132 | Parsing fails exactly when a non-empty trimmed line is not a decimal `u32`. Otherwise the node set is ascending and holds exactly the listed indices. |
| IdentifyX86Output.Absorb | test-data/datatool/src/disassembly/tool/identify_x86.rs:131 | Inserting a node into the ascending node list keeps it ascending and adds exactly that node. |
| IdentifyX86Output.ReadLine | test-data/datatool/src/disassembly/tool/identify_x86.rs:125-130 | An empty trimmed line is skipped. Any other line is a node index or a parse error. |
| IdentifyX86Output.NodeAddresses | test-data/datatool/src/disassembly/tool/identify_x86.rs:134-137 | Mapping the nodes to superset addresses panics exactly when an index is past the end of the superset. Otherwise it gives the addresses of the predicted nodes. |
| IdentifyX86Output.RunIdentifyX86 | test-data/datatool/src/disassembly/tool/identify_x86.rs:107-140 | The run fails when the container fails or its output is unreadable. Otherwise it gives the addresses of the parsed nodes, or panics on an index out of range. |
| IdentifyX86Output.ReadBackNodes | test-data/datatool/src/disassembly/tool/identify_x86.rs:124-132 | Output made of one decimal index per line reads back as exactly those indices. |
| SplitFile.SplitOnce | ml/identify_x86_graph.py:46 | Splitting at the first space and reversing gives a 1-tuple holding the whole line exactly when the line has no space. Otherwise it gives `[name, group]`, where `group + " " + name` is the line and the group has no space. |
| SplitFile.Kind | ml/identify_x86_graph.py:44-46 | A line yields a 1-tuple exactly when it is not blank and has no space. |
| SplitFile.LoadSplitFails | ml/identify_x86_graph.py:40-47 | Loading fails exactly when some line is malformed: not blank and without a space. It never fails in any other way. |
| SplitFile.LoadSplitName | ml/identify_x86_graph.py:40-47 | A name is a key of the loaded map exactly when some line names it. Its group is the one on the last line naming it. |
| SplitFile.WriteLineSplits | test-data/datatool/src/cli/similarity.rs:188 | A written `group name` line, for a group without whitespace, is not blank and splits back into that name and group. |
| SplitFile.ReadBack | test-data/datatool/src/cli/similarity.rs:176-190 | Reading back the written lines gives the map the entries describe, a later entry overriding an earlier one. |
| SplitFile.DescribedOnlyGroup | test-data/datatool/src/cli/similarity.rs:176-190 | A name written only under one group maps to that group. |
| SplitFile.DescribedNames | test-data/datatool/src/cli/similarity.rs:176-190 | The described map's keys are exactly the names written. |
| SplitFile.SplitterLayout | test-data/datatool/src/cli/similarity.rs:176-190 | The splitter writes the training samples under `train`, then the test samples under `test`, in order. |
| SplitFile.TrainOnly | test-data/datatool/src/cli/similarity.rs:176-190 | When the two groups share no sample, a training sample is written only under `train`. |
| SplitFile.TestOnly | test-data/datatool/src/cli/similarity.rs:176-190 | When the two groups share no sample, a test sample is written only under `test`. |
| SplitFile.SplitterReadBack | test-data/datatool/src/cli/similarity.rs:176-190 | When the groups share no sample, reading the split file back gives every training sample `train` and every test sample `test`, and the map holds no other names. |
| ByteWeight.Collect | test-data/datatool/src/fetch/byteweight.rs:46-58 | Collecting the parsed lines succeeds exactly when every line parses, giving the values in line order. Otherwise it gives the failure of the first line that does not parse. |
| ByteWeight.CollectOk | test-data/datatool/src/fetch/byteweight.rs:57 | When each line parses to the matching value, collecting gives exactly those values. |
| ByteWeight.ParseFunctionLine | test-data/datatool/src/fetch/byteweight.rs:48-55 | A function line parses exactly when it has two space-separated parts, each a base-16 `u32`, and it then gives those two numbers. Any other part count gives the `invalid line` error. It never panics. |
| ByteWeight.ParseThunkLine | test-data/datatool/src/fetch/byteweight.rs:65 | A thunk line parses exactly when it is a base-16 `u32`, giving that number. It never panics. |
| ByteWeight.FunctionLineRoundTrip | test-data/datatool/src/fetch/byteweight.rs:48-55 | A `start end` line of hexadecimal digits parses back to its range. |
| ByteWeight.FunctionLines | test-data/datatool/src/fetch/byteweight.rs:46-47 | The function file holds one `start end` line per range. |
| ByteWeight.FunctionsRoundTrip | test-data/datatool/src/fetch/byteweight.rs:44-58 | A function file written one range per line parses back to exactly those ranges. |
| ByteWeight.ThunksRoundTrip | test-data/datatool/src/fetch/byteweight.rs:61-66 | A thunk file written one hexadecimal address per line parses back to exactly those addresses. |
| ByteWeight.FunctionIntervals | test-data/datatool/src/fetch/byteweight.rs:71-75 | Each function range becomes the interval from its start to its end. |
| ByteWeight.ThunkIntervals | test-data/datatool/src/fetch/byteweight.rs:76-88 | Each thunk becomes the interval of one instruction at its address. |
| ByteWeight.PushFunctions | test-data/datatool/src/fetch/byteweight.rs:71-75 | Pushing the function ranges succeeds exactly when every range has start <= end. The instruction set then holds exactly the union of their intervals. |
| ByteWeight.PushThunks | test-data/datatool/src/fetch/byteweight.rs:76-88 | Pushing the thunks succeeds exactly when every thunk's end fits in `u32`. The instruction set then adds exactly their intervals. |
| ByteWeight.PeClasses | test-data/datatool/src/fetch/byteweight.rs:68-90 | Building the classes panics exactly when a range is reversed or a thunk overflows `u32`, and never returns an error. On success the data set is empty and the instruction set is exactly the union of the function and thunk intervals. |
| ByteWeight.ReadPeX86 | test-data/datatool/src/fetch/byteweight.rs:34-91 | Reading a PE sample fails exactly when the function or the thunk file does not parse. It succeeds exactly when both parse and the classes can be built, and then holds their intervals as instructions. |
| ByteWeight.PlatformName | test-data/datatool/src/fetch/byteweight.rs:20-27 | A platform name is at least six characters long and holds no `/`. |
| ByteWeight.SamplePathInjective | test-data/datatool/src/fetch/byteweight.rs:141 | Two samples get the same `platform/executable` name only when both the platform and the executable are the same. |
| ByteWeight.Eligible | test-data/datatool/src/fetch/byteweight.rs:132-136 | The walk over a platform visits exactly the executables of that platform whose names do not start with `icc_`. |
| ByteWeight.WalkPlatform | test-data/datatool/src/fetch/byteweight.rs:132-144 | The walk over one platform visits its eligible executables in order and stops at the first failure. It completes exactly when every visit succeeds. |
| ByteWeight.EligiblePrefix | test-data/datatool/src/fetch/byteweight.rs:132-136 | The eligible executables of a prefix of the directory are a prefix of all the eligible ones. |
| ByteWeight.Walk | test-data/fetch/src/byteweight.rs:100-137 | The walk visits the `pe-x86` executables, then the `elf-x86` ones, and stops at the first failure. Every visit but a failed last one succeeds, and the walk completes exactly when all of them succeed. |
| FetchSync.SourceNameInjective | test-data/datatool/src/fetch/mod.rs:47-48 | Samples of sources in different subdirectories never share a name, given that no subdirectory name holds a `/`. |
| FetchSync.FetchSource | test-data/datatool/src/fetch/mod.rs:35-49 | A source's stream names each sample `subdirectory/name` and passes errors through unchanged. |
| FetchSync.NamesBeforeError | test-data/datatool/src/fetch/mod.rs:66-80 | The samples written are the items before the first error, in order. Fewer than all are written exactly when some item is an error. |
| FetchSync.NamesComplete | test-data/datatool/src/fetch/mod.rs:66-80 | A stream without errors has all its samples written. |
| FetchSync.NamesSnoc | test-data/datatool/src/fetch/mod.rs:66-80 | Each further sample of an error-free prefix is appended to the written samples. |
| FetchSync.NamesStopAt | test-data/datatool/src/fetch/mod.rs:66-68 | Nothing after the first error is written. |
| FetchSync.ReadStamp | test-data/datatool/src/fetch/mod.rs:85-96 | Reading a stamp never panics. A missing stamp reads as nothing, and a parsed stamp reads as its configuration. Anything else is an error. |
| FetchSync.OutdatedMembers | test-data/datatool/src/fetch/mod.rs:126-138 | A source is on the outdated list exactly when it is configured and its stamp is missing or differs from its configuration. |
| FetchSync.StampedNothingOutdated | test-data/datatool/src/fetch/mod.rs:126-138 | When every source carries its own stamp, every stamp is readable and nothing is outdated. |
| FetchSync.FindDuplicate | test-data/datatool/src/fetch/mod.rs:113-124 | The duplicate check finds nothing exactly when the subdirectories are distinct. Otherwise it names a subdirectory used by two sources. |
| FetchSync.FindOutdated | test-data/datatool/src/fetch/mod.rs:126-138 | Finding the outdated sources succeeds exactly when every stamp is readable. It then gives the outdated sources in configuration order. |
| FetchSync.FetchAndStamp | test-data/datatool/src/fetch/mod.rs:51-105 | Fetching a source records the fetch. A failed clear is an error that leaves the stamps and samples unchanged. Otherwise the subdirectory holds the samples before the first error. The fetch succeeds exactly when the clear works, the stream has no error, holds at least one sample and the stamp can be written. A stream without samples fails, because only writing a sample re-creates the removed subdirectory that the stamp is written into. On success the stamp is the source's configuration. Otherwise the stamp is gone. |
| FetchSync.Subdirectories | test-data/datatool/src/fetch/mod.rs:142-148 | These are the sources' subdirectories, in order. |
| FetchSync.SyncSources | test-data/datatool/src/fetch/mod.rs:107-152 | A duplicate subdirectory or an unreadable stamp is an error that leaves the directory unchanged. The sync succeeds exactly when the subdirectories are distinct, every stamp reads and every outdated source's fetch succeeds. A successful sync fetches exactly the outdated sources in order and leaves every source stamped with its configuration. A failed fetch ends the sync: the fetched list stops at the first outdated source whose fetch fails. A source stamped by the sync had a stream without errors. |
| FetchSync.SyncStep | test-data/datatool/src/fetch/mod.rs:142-149 | One fetch of the sync loop extends the fetched list and the stamped prefix, and leaves every other stamp unchanged. |
| FetchSync.OutdatedDistinct | test-data/datatool/src/fetch/mod.rs:126-138 | The outdated sources of distinct sources are distinct. |
| FetchSync.SyncDone | test-data/datatool/src/fetch/mod.rs:142-151 | Once the outdated sources are all stamped and no other stamp has changed, every source is stamped with its configuration. |
| Text.TrimStart | test-data/datatool/src/disassembly/tool/identify_x86.rs:125 | Trimming the start removes exactly the leading whitespace. |
| Text.TrimEnd | test-data/datatool/src/disassembly/tool/identify_x86.rs:125 | Trimming the end removes exactly the trailing whitespace. |
| Text.Split | test-data/datatool/src/fetch/byteweight.rs:49 | `str::split` on one character gives at least one part. No part holds the separator, and joining the parts with it gives the text back. |
| Text.SplitJoin | test-data/datatool/src/fetch/byteweight.rs:49 | Splitting parts joined by a separator they do not hold gives those parts back. |
| Text.Lines | test-data/datatool/src/fetch/byteweight.rs:46-47 | `str::lines` gives no lines for empty text and never a line holding a line feed. |
| Text.LinesUnlines | test-data/datatool/src/fetch/byteweight.rs:46-47 | Lines written with a line feed after each one, none of them holding a line feed or ending in a carriage return, read back as exactly those lines. |
| Text.ParseU32 | test-data/datatool/src/fetch/byteweight.rs:53-54 | `u32::from_str_radix` rejects the empty string. It accepts a string exactly when the string is an optional `+` followed by at least one digit of the radix whose value fits `u32`, and the result is that value. |
| Text.ParseFormat | test-data/datatool/src/fetch/byteweight.rs:53-54 | A number printed in base 10 or 16 parses back to itself. |
| Text.FormatValue | test-data/datatool/src/fetch/byteweight.rs:53-54 | The printed digits of a number have that number as their value. |

The older reader in `test-data/fetch/src/byteweight.rs` (lines 11-76) parses the same files in
the same way. The `ByteWeight` members above model both readers.

## Left out

- IntervalSets.FromStartAndLen: requires that `start + len` fits `u32`, where the source's addition would panic in a debug build. Every caller in the model checks the sum first and reports the panic itself (`ByteWeight.PushThunks`, `Pdb.DumpPdb`, `ElfSymbols.DumpElfSymbols`, `Samples.TextInterval`).
- IntervalSets.IntervalSet.Shift: requires that the largest key plus the offset fits `u32`, rather than modelling the overflow panic of the addition. `Pdb.DumpPdb` checks this before it relocates and models the panic there.
- Classes.AddressClasses.Relocate: requires the same of both sets, for the same reason as `Shift`.
- Split.SplitBuilder.PushComponent: on an overflow panic the model leaves the builder unchanged. The source may already have grown the group (split.rs line 105) before the total overflows (line 106). Nothing observes the builder after a panic.
- Split.Similarity: does not model a `usize` overflow of `total_a + total_b`, and returns the intersection and union sizes instead of their `f64` quotient.
- Samples.ExecutableSample.FromDebianText: covers only the `.text` part of `from_debian`. The build-id lookup and the reading of the ELF file are not composed with it.
- Floating point: precision, recall and F1, the Jaccard quotient, the `f64` scores that choose a split group (passed in as `choice`), the actual fractions and the 0.75 coverage threshold.
- The GNN classifier, its training and inference (torch, torch_geometric, the RGCN layers, softmax thresholding), together with tqdm progress bars, `gc` calls and prints.
- x86 decoding with iced_x86: the superset is an input sequence of decoded entries, and a thunk's instruction length is a parameter (`thunkLen`).
- File system, process and network I/O: file reads and writes, `read_dir` and its errors, Docker containers and subprocesses, and async streams. A tool's output is an `Option<string>`, absent when it is not UTF-8. A container run is its exit status plus whether deleting it succeeds. A fetch is a `FetchRun` value.
- DeepDi.RunDeepDiTool, DeepDi.RunDeepDiRunner: the container's output stream is not modelled, so two of its panics are not modelled either. The first is the `unwrap` of `std::str::from_utf8` on a stderr chunk that is not UTF-8 (disassembly/tool/deepdi.rs line 80, runners/deepdi.rs line 74). The second is the `unreachable!` on a `StdIn` chunk (disassembly/tool/deepdi.rs line 82, runners/deepdi.rs line 76). Both results promise `!r.Panic?` under this assumption.
- The IDA listing regular expression: a listing line arrives already matched, as a `ListingLine`.
- Python's `splitlines`: the split file arrives as its lines.
- Debian package fetching and the archive plumbing, DWARF loading (gimli, with its `todo!()`), the PDB GUID checks in `from_pe`, and the `pdb` crate's symbol parsing. PDB symbols arrive as `PdbSymbol` values.
- Serialisation: npz, parquet, zstd, bincode and serde_json. A stamp file is a `StampFile` value. Vocabulary deserialisation is modelled, but the table of `Code` Debug names it looks names up in is a parameter (`names`).
- The `memory_image` crate is not part of this model; its behaviour is assumed in three points. A region's `end()` is its address plus its length and panics when that overflows `u32` (`Memory.RegionEnd`; the panics of `Samples.ExecutableSample.FromHelper`, `Samples.ExecutableSample.FromDebianText` and `Samples.ExecutableSample.Coverage` rest on it). `from_code_region` gives a region `READ_EXECUTE`. An image is its regions in the order they were added.
- Hash-map iteration order, where it only decides the order of an output that is a set.
- SingleVec.PtrFromRepr: checks a single value against the corrected bound `MaxValue(USIZE_BITS)`, not the `MAX_VALUE` that single_vec.rs line 108 compares with. `usize` is 64 bits in this model. At that width every `u32` is below both bounds (`SingleVec.EveryItemFits`), so the assert never fails either way. The two bounds differ only on a 32-bit target (see Findings).
- DummySingleVec: the two `SingleVec` modules are modelled independently, and no lemma relates them. Each operation's contract gives the same item sequence in both: `inner` in the reference vector and `Items()` in the tagged one. Nothing is proved about the two run side by side.
- `SingleVec`: the allocator. The address a boxed vector gets is a parameter (`alloc`), and `Drop` is not modelled.
- Mach-O and absent segment flags: the loader's `todo!()` and `panic!` on them are modelled as `Panic`.

## Findings

| source | as written | input that shows it | evidently intended | confidence | as-written member | corrected member |
|---|---|---|---|---|---|---|
| ml/learn.py:167 | `next_addr = addr + x.size`, where `x` is the row Series from `iterrows`, so `x.size` is the number of fields in the row, not the instruction length | three one-byte instructions at 0, 1 and 2 (`LearnGraph.ThreeRows`): the instruction at 0 gets an overlap edge to 1 and no next edge | `x['size']`, the instruction length column | not executed | LearnGraph.RowLengthMisreadsSize | LearnGraph.SizeColumnNext |
| test-data/datatool/src/model/graph/single_vec.rs:7 | `1 << (usize::BITS - 1) - 1` parses as `1 << (usize::BITS - 2)`, which is `0x4000_0000` on a 32-bit target | on a 32-bit target, `Single(0x4000_0001)` fails the assert at line 108, although tagging and untagging it gives it back | `(1 << (usize::BITS - 1)) - 1` | not executed | SingleVec.AsWrittenRejectsFittingValue | SingleVec.MaxValue, SingleVec.SingleRoundTrip |
