# Graph optimizer, interned IR and execution layer: a Dafny model

The system modelled here is a small query compiler. A frontend records operations into an append-only,
hash-consed graph (`src/store.rs`). An optimizer reduces that graph for a set of outputs by dead-code
elimination, canonicalization by an equality-saturation engine, hash-consing and stage fusion
(`src/optimizer/mod.rs`), either in one shot or incrementally while the graph is being recorded
(`src/optimizer/incremental.rs`). The reduced graph is rebuilt into a fresh interned store and written by a
binary codec (`src/serialize.rs`). A Python layer splits datasets into partitions and runs plans over them
(`python/graphed_core/execution.py`, `python/graphed_core/plan.py`).

Passes that work in place are methods and classes with loops and invariants, each proved against a
specification function; what the system promises is proved about those functions as lemmas. Token printing
and parsing is pure, as in the source.

## How the model is built

- `Terms` is the foundation: terms, derivations from congruence, commutativity and identity, a normal form
  with multisets for commuting pairs, and the proof that the normal form decides the theory. `Cells` unfolds
  graph positions to terms, and defines quotients by classes of positions.
- `Text`, `Sorting`, `Param`, `Node` are the printers and parsers of values, parameter maps and operator
  tokens, and say when tokens are injective.
- `Engine`, `Cse`, `Dce`, `UnionFind`, `Fusion`, `Stages`, `StageFusion`, `FusedMeaning`, `Reduce` are the passes of
  the reduction; `SingleUses`, `Slots` and `Report` say from the input lists alone what the default mode fuses, what a stage takes in
  and what the report counts. `Operators` names the operators that the rules are about; `Semantics` is the reference interpreter over any
  value type; `Meaning` is the end-to-end theorem.
- `LocalCanon`, `Interning`, `Incremental`, `Reducer` are the incremental reducer, `CanonicalIds` the ids it gives and `Finishing` what it means; `OneShot`, `Listings`, `Agreement`,
  `Reordering`, `FusionOrder`, `FusedAlike` and `SameReduction` compare it with one-shot reduction.
- `Collisions` says exactly when reduction keeps meaning; `Limits`, `Interleaving` and `GirLimits` hold the inputs that show
  where promises end.
- `Store`, `Concurrency`, `Locking` are the interning store, alone and under threads.
- `Bytes`, `Utf8`, `Parsing`, `Gir`, `GirRoundTrip`, `GirArbitrary`, `Exactness`, `GirExact`, `GirIdentity`, `Codec`,
  `ReducedBytes` are the GIR1 codec; `Formats` spells out tokens and bytes on given inputs.
- `Partitions`, `Resources`, `Runner` are the execution layer.

The rewrite engine is a contract: it names a class for every node. A *sound* engine joins only provably equal
nodes; a *saturated* one joins all of them (`Engine.SaturatedEngineExists` shows that the contract can be met).
Only the comparison with the incremental reducer and `Collisions.CollidingOutputs` assume saturation. Operators are uninterpreted: meaning is
preserved for every value type and every assignment of functions to operators under which the eight operators `add`, `mul`, `and`,
`or`, `eq`, `ne`, `maximum` and `minimum` commute and adding 0.0 and multiplying by 1.0 return their argument
(`Operators.OperatorLaws`). Floats are 64-bit patterns.

## What the theorems assume, and why

- **Tokens that tell operators apart.** The passes see an operator by its token only. A reduction keeps every lawful meaning
  if and only if no two different operators among the needed nodes share a token: for every output list, both modes and every
  sound engine (`Collisions.MeaningIff`; `Meaning.MeaningPreserved` is the sufficient half, for every value type, and
  `Collisions.CollidingCalls` a concrete recording that fails). Of two needed operators under one token one is nowhere in the
  reduced graph. A stage's token is only its member count (`Node.StageTokenIsCount`), so needed stages of one size must be one operator
  for the sufficient half; the equivalence is for outputs that use no stage.
- **Clean descriptors.** The fields of an external payload are joined without escaping. Tokens tell operators apart
  whenever no field contains `|` and no preprocessing reference is `-` (`Meaning.RecordableTell`). As a condition on
  the text of one descriptor among all descriptors this cannot be relaxed (`Node.CleanIffUnambiguous`); an arena may do without it.
- **Lengths.** The writer cuts lengths to 32 bits. The round trip asks that they fit, and decoded stores always do.

## Where the code and its documentation disagree

- `src/optimizer/incremental.rs:15-18` says one local pass reaches the fixpoint of equality saturation. That holds
  if and only if every identity operator was recorded with one input (`Incremental.ReducerDecides`); over two inputs
  the pass joins nodes that are not equal (`Limits.TwoInputIdentityFails`), and over none it panics.
- The same lines say that `finalize` therefore produces the same reduced graph as `reduce`. A node that the outputs do not
  need can decide the orientation of a commuting operator or the order of nodes (`Limits.DeadTwinFlips`). In either mode the
  two ways give the same nodes and outputs if and only if the unneeded nodes are hidden
  (`SameReduction.SameReductionIffHidden`). The graph that is handed to fusion is the same under a stronger
  condition (`Agreement.SameGraphIffHarmless`), which is not necessary for the reduced graph (`Interleaving.HiddenInstance`). Whether
  or not the graphs are the same, finishing keeps every lawful meaning if and only if the needed identities were recorded with one
  input and no two different operators among the needed nodes share a token, whatever else was recorded
  (`Finishing.FinalizeMeaningIff`).
- `src/param.rs:145-148` and `src/node.rs:183` call the token encoding injective. Parameter maps and names are; external
  descriptors are not (`Node.TokenCollides`).
- `src/serialize.rs:269-271` says a re-serialization is byte-identical to the input. That holds of written bytes. The decoder
  also accepts trailing bytes, repeated nodes, repeated outputs, map entries out of key order, and booleans and preprocessing
  flags other than 0 and 1, and there is an input for each (`GirLimits`). The bytes come back if and only if a check that
  refuses exactly these accepts them (`GirIdentity.ByteIdenticalIffStrict`); what is stable for all accepted input is the
  store (`GirArbitrary.AcceptedReserializes`).
- `python/graphed_core/execution.py:171-173` says a started task is then reported as exactly one of finished and errored. A task
  whose partial result `combine` raises on is reported as neither; every started task is reported as promised if and only if
  there is no task whose partial result cannot be combined with the fold of those before it (`Runner.AllTerminalIff`; a concrete plan is
  `Runner.SecondCombineRaises`). Handles are released all the same.
- `python/graphed_core/execution.py:233-236` bounds the number of open handles. A bound of zero hands back a handle that
  is already closed, and a negative one makes the eviction loop pop from an empty cache; a use returns an open handle exactly when the
  bound is at least one (`Resources.ReturnedIsOpen`).
- `python/graphed_core/plan.py:243-244` rejects a chunk size that is not positive, but `partition_datasets` never looks at the
  size when there is no dataset.

## Model

| member | source | states |
|---|---|---|
| Terms.NormalFormDecides | src/optimizer/incremental.rs:15-18 | two terms are provably equal from congruence, commutativity and identity exactly when their normal forms are equal |
| Terms.NormalFormInvariant | src/optimizer/engine.rs:65-81 | soundness half: every derivation keeps the normal form |
| Terms.EqualFormsProvable | src/optimizer/engine.rs:65-81 | completeness half: equal normal forms have a derivation |
| Terms.ProofSound | src/optimizer/engine.rs:67-70 | provably equal terms have equal values in every algebra with the commutativity and identity laws |
| Cells.HashConsedTerms | src/optimizer/mod.rs:133-153 | in a hash-consed graph a term occurs at one position only |
| Cells.QuotientTopological | src/optimizer/engine.rs:107-109 | keeping the earliest member of each class, whatever the classes are, never meets an input that is not emitted yet |
| Cells.QuotientForms | src/optimizer/engine.rs:107-135 | a quotient by classes of equal terms keeps every position's normal form |
| Text.EscapeRoundTrip | src/param.rs:70-85 | unescaping undoes escaping on every string, under sequential whole-string replacement |
| Text.EscapeClean | src/param.rs:70-77 | escaped text contains no separator |
| Formats.EscapeByChar | src/param.rs:70-77 | the four whole-string replacements write each character's own code: %25, %3B, %3D, %7C, and any other character as it is |
| Text.PrintIntRoundTrip | src/param.rs:44-55 | signed decimal printing is undone by range-checked parsing |
| Text.PrintHex64RoundTrip | src/param.rs:45-58 | sixteen-digit hexadecimal of every 64-bit pattern parses back |
| Formats.HexDigit | src/param.rs:45-46 | hexadecimal appends lower-case digits, most significant first |
| Formats.DecimalDigit | src/param.rs:45 | decimal appends digits without leading zeros |
| Text.SplitNSplit | src/node.rs:199-208 | splitting with a limit is splitting, when there are no more parts than the limit |
| Sorting.SortSorts | src/param.rs:131-134 | the stable sort gives an ordered permutation |
| Sorting.SortOrdered | src/param.rs:131-134 | ordered input comes back unchanged, equal keys included |
| Sorting.SortStable | src/param.rs:131-134 | sorting keeps the elements of each key in their listed order |
| Sorting.SortSameIff | src/param.rs:131-134 | two lists sort to one exactly when they list the same elements under each key in the same order |
| Sorting.PermutationSorts | src/param.rs:131-134 | with distinct keys, permuted lists sort to one list |
| Sorting.StrictUnique | python/graphed_core/execution.py:282 | there is one strictly ordered arrangement of given elements |
| Param.SortEntriesSorts | src/param.rs:131-134 | a parameter map is the key-ordered permutation of its entries |
| Param.KeyLeIff | src/param.rs:131-134 | the order of keys: a key is a prefix of the other, or has the smaller character at the first position where they differ |
| Formats.KeyOrderIsByteOrder | src/param.rs:131-134 | keys are in order exactly when their UTF-8 bytes are in lexicographic order |
| Param.SameMapIff | src/param.rs:131-134 | two entry lists give one map exactly when they list the same values under each key in the same order |
| Param.InsertionOrderIrrelevant | src/param.rs:131-134 | with distinct keys any insertion order gives one map, hence one token and one id |
| Param.MapInOrder | src/param.rs:131-134 | a map holds the given entries, keys ascending, each key's in their given order |
| Param.FloatKeysAgree | src/param.rs:3-4 | two floats are one value exactly when their patterns are equal or both lie in the two bit ranges of NaN; the zeros stay apart |
| Param.ValueTokenRoundTrip | src/param.rs:39-67 | every value token decodes to its value with NaNs collapsed, and holds no separator |
| Param.ParamsTokenRoundTrip | src/param.rs:145-169 | a map's token decodes to the map with NaNs collapsed |
| Param.ParamsTokenInjective | src/param.rs:145-155 | two maps share a token exactly when they are equal up to NaN payloads |
| Formats.ValueTokens | src/param.rs:39-51 | the tokens of an integer, two booleans and an escaped string, character by character |
| Formats.FloatTokens | src/param.rs:30-46 | the tokens of both zeros, and one text for every NaN |
| Node.CanonIsHeadAndInputs | src/node.rs:40-68 | interning equality is equality of operator and of inputs |
| Node.TokenSplits | src/node.rs:90-114 | splitting a token at its separators recovers the parts it was joined from |
| Node.TokenInjective | src/node.rs:87-114 | among recordable nodes tokens are equal exactly when operators are |
| Node.HeadDeterminesToken | src/node.rs:87-114 | the operator alone fixes the token |
| Formats.BareTokens | src/node.rs:90-112 | the tokens src, op, red and stage of nodes without parameters, character by character |
| Formats.PayloadToken | src/node.rs:98-111 | the six fields of a payload in order, a missing reference as a dash |
| Formats.ParamTokens | src/param.rs:145-155 | the token of an op with two parameters, inserted out of order, character by character |
| Node.CleanIffUnambiguous | src/node.rs:98-111 | a descriptor meets the cleanness condition if and only if no other descriptor has its text, save the one that spells a missing reference as a dash; this is about the descriptor's part of the token |
| Node.UncleanCollides | src/node.rs:98-111 | every descriptor the condition rules out shares its text with a different one |
| Node.TokenCollides | src/node.rs:98-111 | two concrete payloads share a token |
| Node.SeparatorMoves | src/node.rs:98-111 | for all field texts, moving a separator from one field into the next gives a different payload with the same token |
| Node.StageTokenIsCount | src/node.rs:112 | two stages share a token exactly when they have equally many members |
| Node.ParseOpTokenRoundTrip | src/node.rs:192-210 | the parser recovers kind, name and parameters of every op and reduction |
| Node.ParseOpTokenRejects | src/node.rs:192-210 | sources, externals and stages never parse as operators |
| Node.BoundaryByToken | src/optimizer/engine.rs:54-56 | the token prefix tells boundaries from ops, for every node |
| Node.SourceByToken | src/optimizer/mod.rs:276-284 | a recorded node with a source's token is a source |
| Engine.SaturatedEngineExists | src/optimizer/engine.rs:48-52 | an engine that joins exactly the provably equal nodes exists |
| Engine.ExtractWellFormed | src/optimizer/engine.rs:107-141 | extraction under any class assignment is topological and no larger than its input |
| Engine.ExtractSound | src/optimizer/engine.rs:107-141 | under sound classes every node and output keeps its term up to provable equality |
| Engine.EarliestMembers | src/optimizer/engine.rs:113-116 | the loop maps every class to its first index |
| Engine.Canonicalize | src/optimizer/engine.rs:107-141 | the extraction loops yield the earliest node of every class, in order, over renumbered inputs and outputs |
| UnionFind.CompressKeepsRoots | src/optimizer/mod.rs:170-175 | path compression changes no root |
| UnionFind.MergeRoots | src/optimizer/mod.rs:178-184 | pointing one root at a smaller one merges those two trees and no others |
| UnionFind.UnionRepresents | src/optimizer/mod.rs:178-184 | after a union the forest answers connectivity with one more edge |
| UnionFind.RootIsLeast | src/optimizer/mod.rs:180-183 | the root is linked to its node and least among all linked ones, whatever the order of unions |
| UnionFind.Dsu.constructor | src/optimizer/mod.rs:160-164 | a fresh forest represents no edges |
| UnionFind.Dsu.Find | src/optimizer/mod.rs:165-177 | returns the root, compresses in place, and changes no root; both loops terminate |
| UnionFind.Dsu.Union | src/optimizer/mod.rs:178-184 | the forest represents connectivity of one more edge |
| Fusion.ConsumersAreUsers | src/optimizer/mod.rs:197-203 | the consumers of a node are exactly the nodes that take it as input |
| Fusion.CollectConsumers | src/optimizer/mod.rs:198-203 | one pass collects every consumer list, one entry a use, in order |
| Fusion.MarkOutputs | src/optimizer/mod.rs:204-207 | a flag is set exactly for outputs |
| Fusion.EdgesLeaveFromLast | src/optimizer/mod.rs:264-266 | in a valid partition every edge that leaves a class starts at its last member |
| Fusion.OutputsAreLast | src/optimizer/mod.rs:327-331 | outputs are last members of their classes |
| Fusion.MaximalComps | src/optimizer/mod.rs:235-255 | the descending pass computes the recursively defined maximal partition |
| Fusion.MaximalValid | src/optimizer/mod.rs:235-255 | the maximal partition is valid: boundaries alone, every member but the last enclosed in its class |
| Fusion.MaximalCoarsest | src/optimizer/mod.rs:235-255 | every valid partition refines the maximal one |
| Fusion.MaximalFewestStages | src/optimizer/mod.rs:23-27 | no valid partition needs fewer stages |
| Fusion.LinkedIffSameSink | src/optimizer/mod.rs:187-190 | ops are linked by single-use edges exactly when their chains of single uses end in one op |
| Fusion.SingleUseValid | src/optimizer/mod.rs:210-234 | the single-use partition is valid too |
| Fusion.RootIsRep | src/optimizer/mod.rs:210-234 | the union-find root is the least member of the class |
| Fusion.UniteSingleUses | src/optimizer/mod.rs:211-223 | exactly the single-use edges between ops are united, in order |
| Fusion.SingleUseComps | src/optimizer/mod.rs:210-234 | the union-find pass computes the single-use partition, compressing finds included |
| SingleUses.SingleUseMeans | src/optimizer/mod.rs:211-223 | the edges that are united are exactly those from an op that is no output and occurs once among all inputs of all nodes, at an op |
| SingleUses.SingleUseJoins | src/optimizer/mod.rs:211-223 | two such ops are in one class |
| SingleUses.SingleUseFinest | src/optimizer/mod.rs:187-190 | the single-use partition refines every partition that joins them: it fuses nothing else |
| Fusion.PartitionValid | src/optimizer/mod.rs:209-256 | both modes give valid partitions named by members |
| SingleUses.ModesMean | src/optimizer/mod.rs:209-256 | of the two modes the default one is the finest partition that joins the single uses, the maximal one the coarsest valid partition |
| Fusion.Components | src/optimizer/mod.rs:209-256 | the component of every node in the chosen mode |
| Stages.MembersExact | src/optimizer/mod.rs:258-262 | the member list of a class holds exactly its positions |
| Stages.BuildToMeans | src/optimizer/mod.rs:288-317 | every reference of a built stage means the input it was made for, and every slot is the class of some input from outside |
| Slots.BuiltInOrder | src/optimizer/mod.rs:303-312 | a class gets one slot; slots are numbered in the order of their first references, member by member and argument by argument |
| Slots.SlotsAreOutside | src/optimizer/mod.rs:303-312 | the slots are exactly the classes of inputs from outside the stage |
| Slots.StageInputsExact | src/optimizer/mod.rs:303-317 | the inputs of a stage are exactly the places of the classes its ops take inputs from, each once, and every reference to one comes after references to all earlier ones |
| Slots.ReducedStageInputs | src/optimizer/mod.rs:303-317 | this holds of every stage of the reduced graph |
| StageFusion.CollectMembers | src/optimizer/mod.rs:258-262 | grouping lists the members of every class in ascending order |
| StageFusion.AscendingUnique | src/optimizer/mod.rs:264-266 | one set of classes has one arrangement by last member |
| StageFusion.OrderComps | src/optimizer/mod.rs:264-266 | sorting by largest member gives that arrangement, whatever order the hash map yields its keys in |
| StageFusion.BuildStage | src/optimizer/mod.rs:288-316 | the loop over a stage's ops builds the specified members and input slots |
| StageFusion.EmitStage | src/optimizer/mod.rs:286-322 | a stage is emitted over the reduced nodes of its slots, all emitted before it |
| StageFusion.EmitNext | src/optimizer/mod.rs:273-325 | the next class in order is emitted at the next place |
| StageFusion.EmitAll | src/optimizer/mod.rs:268-325 | one node for every class, in the order of last members; the two counters end at the number of op classes and of boundary classes |
| StageFusion.FuseStages | src/optimizer/mod.rs:191-345 | the whole pass yields the specified nodes, outputs and report |
| FusedMeaning.FusedRunnable | src/optimizer/mod.rs:268-331 | the fused list is topological, its stages refer only to their inputs and earlier members, outputs are in range |
| FusedMeaning.FusedTerm | src/optimizer/mod.rs:286-323 | a fused class evaluates to the term of its last member |
| FusedMeaning.FusedOutputTerm | src/optimizer/mod.rs:327-331 | output by output, fusion keeps the term |
| FusedMeaning.FusedValue | src/optimizer/mod.rs:286-323 | over every value type, and over boundaries that are themselves stages, a fused class evaluates to the value of its last member |
| FusedMeaning.FusedOutputValue | src/optimizer/mod.rs:327-331 | output by output, fusion keeps the value |
| FusedMeaning.FusedDistinct | src/optimizer/mod.rs:268-325 | on a hash-consed graph no two emitted nodes are equal |
| FusedMeaning.WorkConserved | src/optimizer/mod.rs:286-323 | every op is a member of exactly one stage, exactly once |
| FusedMeaning.StagesAreClasses | src/optimizer/mod.rs:268-325 | there is one stage for every class of ops |
| Semantics.TermAtUnfolds | src/optimizer/mod.rs:385-416 | on stage-free arenas the interpreter's term is the unfolding of the token graph |
| Semantics.EvalIsValue | src/optimizer/mod.rs:385-416 | evaluating a graph, stages included, is taking the value of its term |
| Semantics.EvalIsTokenValue | src/optimizer/mod.rs:385-416 | if every node, stages included, applies what an algebra says of its token, evaluating an arena is taking the value of the unfolded tokens |
| Dce.ReachableIffPath | src/optimizer/mod.rs:86-87 | a node is needed exactly when a chain of uses leads to it from an output |
| Dce.Mark | src/optimizer/mod.rs:89-99 | the worklist terminates and marks exactly the needed nodes |
| Dce.Compact | src/optimizer/mod.rs:100-114 | compaction keeps the marked nodes in order over renumbered inputs |
| Dce.DeadCodeElimination | src/optimizer/mod.rs:86-116 | the pass keeps exactly the needed nodes and renumbers the outputs |
| Dce.KeptTopological | src/optimizer/mod.rs:86-116 | what is kept is topological with outputs in range |
| Dce.KeptTerms | src/optimizer/mod.rs:86-116 | needed nodes keep their terms |
| Dce.KeptAllReachable | src/optimizer/mod.rs:86-116 | everything kept is needed |
| Dce.DceIdempotent | src/optimizer/mod.rs:86-116 | the pass is idempotent in nodes and outputs |
| Dce.DceHistoryIndependent | src/store.rs:207-209 | nodes appended later change nothing kept for the same outputs |
| Cse.SameTerm | src/optimizer/mod.rs:133-153 | two nodes have one term exactly when they agree in token and renumbered inputs |
| Cse.DedupCorrect | src/optimizer/mod.rs:133-153 | the result is hash-consed and every node keeps its term |
| Cse.DedupFixpoint | src/optimizer/mod.rs:133-153 | hash-consed graphs are left alone |
| Cse.HashCons | src/optimizer/mod.rs:138-149 | one step finds an earlier equal node or emits a new one |
| Cse.CommonSubexpressions | src/optimizer/mod.rs:133-153 | the loop keeps the first node of every term |
| Reduce.CollectTemplates | src/optimizer/mod.rs:65-69 | the table holds the first key with each token |
| Reduce.TemplatesServe | src/optimizer/mod.rs:276-284 | every boundary that reaches fusion has a template with its token, a source template only for nodes without inputs, and a stage only if the outputs use one |
| Reduce.ReduceWithMode | src/optimizer/mod.rs:56-84 | on every arena, stages included, the pipeline as it runs equals its specification, report included |
| Reduce.ReduceProvable | src/optimizer/mod.rs:53-84 | for every sound engine and either mode each output's term is provably equal to the recorded one |
| Reduce.ReduceDistinct | src/store.rs:172-182 | no two reduced nodes are equal under interning |
| Reduce.ReportBounds | src/optimizer/mod.rs:35-44 | the counts of op classes and of boundary classes add up to the reduced nodes, each pass only shrinks the graph, and without recorded stages the first is the number of stages in the result |
| Report.ReportCounts | src/optimizer/mod.rs:80-82 | the report counts recorded nodes, needed nodes, behind a saturated engine the classes of provably equal needed nodes, reduced nodes, and among these stages and boundaries |
| Reduce.ReduceHistoryIndependent | src/store.rs:207-225 | nodes recorded later, whatever they are, change neither nodes, outputs nor report, except the count of input nodes |
| Meaning.DecodeMemberOfOp | src/node.rs:192-210 | the token of an op decodes to the op's operator |
| Operators.RulesAreLaws | src/optimizer/engine.rs:19-31 | the rules match exactly the tokens of eight named operators without parameters and of four units given by name and parameters, and the incremental reducer treats the same operators so |
| Operators.UnitOfToken | src/optimizer/engine.rs:24-31 | every identity token is the token of adding 0.0 or multiplying by 1.0 on a side |
| Operators.CommutingOfToken | src/optimizer/engine.rs:22 | every token a commute rule matches is that of one of the eight operators |
| Meaning.TokenAlgebraLawful | src/optimizer/engine.rs:67-70 | operators that meet the laws, spelled out operator by operator, give a lawful algebra of tokens |
| Meaning.ReducedMembersDecode | src/node.rs:192-196 | every member of every reduced stage decodes to an operator |
| Meaning.MeaningPreserved | src/optimizer/mod.rs:53-84 | for every arena whose needed operators can be told by their tokens, needed stages included, every output list, mode, sound engine and lawful operators, evaluating the reduced graph gives the recorded values output by output, whatever else was recorded as long as stages in it are self-contained |
| Meaning.RecordableMeaning | src/optimizer/mod.rs:53-84 | in particular for arenas of recordable nodes |
| Meaning.RecordableTell | src/node.rs:87-114 | recordable nodes are told apart by their tokens |
| Collisions.CollidingOutputs | src/optimizer/mod.rs:133-153 | outputs on nodes with one token over the same inputs come out as one node, stages included |
| Collisions.CollisionLosesMeaning | src/optimizer/mod.rs:65-69 | whatever the outputs, the mode and the sound engine, two different needed operators with one token have a lawful meaning that the reduced graph does not have |
| Collisions.MeaningIff | src/optimizer/mod.rs:53-84 | for every output list, both modes and every sound engine, the reduction keeps every lawful meaning if and only if no two different operators among the needed nodes share a token |
| Collisions.CollidingCalls | src/node.rs:98-111 | a concrete recording of two calls over one source that collide |
| LocalCanon.PlacesStep | src/optimizer/incremental.rs:78-109 | one placement keeps the canonical arena identity-free with one position for each normal form, and lands a cell on its own form |
| LocalCanon.PlacedDecides | src/optimizer/incremental.rs:15-18 | one local pass decides the theory if and only if every identity operator is unary |
| LocalCanon.NonUnaryBreaks | src/optimizer/incremental.rs:86-88 | every identity operator that is not unary is joined to its first input wrongly |
| LocalCanon.EdgeCarried | src/optimizer/incremental.rs:78-109 | a recorded edge is a canonical edge or disappears with its identity |
| LocalCanon.RenamedForms | src/optimizer/engine.rs:65-81 | one-to-one renaming of symbols, rules included, joins the same positions |
| Interning.InternFacts | src/store.rs:73-88 | interning keeps table and arena exact inverses, changes no node and adds one only for a new key |
| Interning.BadInputIsFirst | src/store.rs:73-79 | the id that an error names is the first one out of range |
| Interning.IdsAreTerms | src/store.rs:73-88 | two ids are equal exactly when their unfolded terms are |
| Interning.TableUnique | src/store.rs:38-42 | an arena has one exact table |
| Interning.TableHashConsed | src/store.rs:73-88 | an exactly tabled arena is hash-consed |
| Incremental.ConsumeAllSplit | src/optimizer/incremental.rs:65-76 | how deltas are cut does not matter, failures included |
| Incremental.CanonicalizePlaces | src/optimizer/incremental.rs:78-109 | the table lookups, both orientations included, are placements of cells |
| Incremental.RunInduction | src/optimizer/incremental.rs:65-76 | a property kept by every consumed node holds after every run |
| Incremental.RunKeepsInv | src/optimizer/incremental.rs:32-37 | every run keeps table and arena exact inverses and the arena canonical |
| Incremental.ReducerDecides | src/optimizer/incremental.rs:15-18 | after any successful steps canonical ids are equal exactly when terms are provably equal, for all pairs, if and only if identity operators were recorded with one input |
| CanonicalIds.IdsDecided | src/optimizer/incremental.rs:84-109 | two recorded nodes that are no units share a canonical id exactly when they are one operator over inputs with the same ids, in the same order or, for the eight commuting operators without parameters alone, in the other |
| CanonicalIds.UnitIds | src/optimizer/incremental.rs:86-89 | a node has the id of its first input exactly when its operator is one of the four units |
| CanonicalIds.TwoOrders | src/optimizer/incremental.rs:94-102 | an operator recorded over a, b and over b, a has one id exactly when it is one of the eight, or a and b have one id |
| CanonicalIds.SubtractionApart | src/optimizer/engine.rs:20-22 | for instance subtraction keeps both orders apart and multiplication joins them |
| OneShot.RunFirstUses | src/optimizer/incremental.rs:10-13 | canonical ids come in order of first use and each canonical node is its first recorded member renumbered |
| OneShot.ExtractIsCanon | src/optimizer/incremental.rs:90-91 | extraction by a saturated engine from the whole arena is the canonical arena |
| OneShot.DistinctExtracted | src/optimizer/engine.rs:107-141 | extraction under sound classes leaves graphs with distinct forms alone |
| OneShot.DistinctDeduped | src/optimizer/mod.rs:133-153 | hash-consing leaves graphs with distinct forms alone |
| OneShot.CanonKept | src/optimizer/incremental.rs:111-113 | with everything needed, dead-code elimination leaves the canonical arena alone |
| OneShot.IncrementalIsOneShot | src/optimizer/incremental.rs:15-20 | with every recorded node needed and a saturated engine, finishing and one-shot reduction give identical nodes and outputs in both modes |
| OneShot.RecordingSucceeds | src/optimizer/incremental.rs:63-76 | recording a topological arena with unary identities never fails |
| OneShot.OneShotIsIncrementalOfReachable | src/optimizer/incremental.rs:111-130 | one-shot reduction is what a reducer that was fed the needed nodes finishes with, whatever else was recorded |
| Listings.ListingsEqual | src/optimizer/engine.rs:107-109 | two choices of class members list one graph exactly when they agree in order and in operands |
| Listings.ListedMoved | src/optimizer/engine.rs:107-109 | two listings of the same classes hold the same operators over the same places, up to the order of commuting operands |
| Listings.ListedOperands | src/optimizer/incremental.rs:89-99 | the operands of a listed class are in one order in both listings exactly when the kept members agree |
| Agreement.LiveIsReachable | src/optimizer/incremental.rs:111-130 | the canonical nodes the outputs need are exactly the classes of needed nodes |
| Agreement.SameGraphIffHarmless | src/optimizer/incremental.rs:15-20 | behind a saturated engine finishing and one-shot reduction fuse the same graph if and only if needed classes come in one order by first recorded and by first needed member and those members have the same canonical inputs |
| Agreement.LaterIsHarmless | src/optimizer/incremental.rs:10-12 | the condition holds whenever the first recorded member of every needed class is needed |
| Reordering.PartitionMoved | src/optimizer/mod.rs:209-256 | in both modes listing a graph in another order, commuting operands included, moves the partition along |
| FusionOrder.StageMoved | src/optimizer/mod.rs:286-322 | a stage is built alike when the order that shows and the operands are the same |
| FusedAlike.FusedSameIff | src/optimizer/mod.rs:257-331 | one graph listed in two orders fuses to the same nodes if and only if no operands are swapped and the order inside stages and among last members is kept; then the outputs agree |
| SameReduction.SameReductionIffHidden | src/optimizer/incremental.rs:15-20 | in either mode, finishing and one-shot reduction give the same nodes and outputs if and only if kept members of needed classes have the same operands and every order that shows after fusion is the same by first recorded and by first needed member |
| SameReduction.HarmlessIsHidden | src/optimizer/incremental.rs:15-20 | the condition for the same graph before fusion implies it |
| Interleaving.HiddenNotHarmless | src/optimizer/incremental.rs:15-20 | a family of recordings on which the graphs handed to fusion differ and the reduced nodes and outputs agree in both modes |
| Interleaving.HiddenInstance | src/optimizer/incremental.rs:15-20 | one concrete recording of that family |
| Reducer.IncrementalReducer.constructor | src/optimizer/incremental.rs:43-46 | a fresh reducer has consumed nothing |
| Reducer.IncrementalReducer.Translate | src/optimizer/incremental.rs:67-70 | ids are translated in order, or the first unknown one is named |
| Reducer.IncrementalReducer.Canonicalize | src/optimizer/incremental.rs:78-109 | arena, table and returned id are those of the specification; nothing changes when an identity operator has no input |
| Reducer.IncrementalReducer.Record | src/optimizer/incremental.rs:66-73 | one node is consumed, or the state stays as it was |
| Reducer.IncrementalReducer.Step | src/optimizer/incremental.rs:63-76 | a delta is consumed up to its first failing node; the work counter moves by the whole delta or not at all |
| Reducer.IncrementalReducer.Finalize | src/optimizer/incremental.rs:111-130 | translates the outputs and runs the pipeline on the canonical arena, whatever was consumed, or names the first unknown output |
| Finishing.FinalizeMeaning | src/optimizer/incremental.rs:111-130 | whatever else was recorded, finishing gives the recorded values output by output if the needed identities are unary and the needed operators can be told by their tokens |
| Finishing.CanonicalValue | src/optimizer/incremental.rs:32-36 | a needed recorded node and its canonical node have one value, whatever else was recorded, if the needed identities are unary |
| Finishing.Lands | src/optimizer/incremental.rs:78-109 | in every run a recorded node lands on a canonical node of its operator over the places of its inputs, two of a commuting operator possibly swapped, and an identity on the place of its first input |
| Finishing.NeededOrigin | src/optimizer/incremental.rs:111-130 | every canonical node that the outputs need stands for a needed recorded one that is no identity |
| Finishing.NonUnaryLosesMeaning | src/optimizer/incremental.rs:86-88 | a needed identity recorded with more than one input loses a lawful meaning, in either mode and behind every sound engine |
| Finishing.JoinedInstance | src/optimizer/incremental.rs:86-88 | a concrete recording that loses one: the addition of zero over two sources as the one output |
| Finishing.FinalizeMeaningIff | src/optimizer/incremental.rs:15-20 | finishing keeps every lawful meaning if and only if the needed identities were recorded with one input and no two different operators among the needed nodes share a token |
| Limits.TwoInputIdentityFails | src/optimizer/incremental.rs:86-88 | the addition of zero recorded over two sources gets the id of the first, and the two are not provably equal |
| Limits.DeadTwinFlips | src/optimizer/incremental.rs:89-99 | with an unneeded twin recorded first, finishing and one-shot reduction differ in both modes and behind every saturated engine |
| Limits.TwinAdditions | src/optimizer/incremental.rs:89-99 | the concrete recording: an addition over two sources and its unneeded twin |
| Store.FirstOccurrencesFacts | src/store.rs:135-144 | marking leaves the duplicate-free list of first occurrences |
| Store.RebuiltTerms | src/store.rs:173-182 | rebuilding keeps every node's term even where keys collapse |
| Store.RebuiltValue | src/store.rs:173-182 | rebuilding keeps every node's value under every interpretation, stages included |
| Store.GraphStore.constructor | src/store.rs:55-63 | a fresh store is empty and valid |
| Store.GraphStore.AddKey | src/store.rs:73-88 | interns a key, or names the first input id out of range and changes nothing |
| Store.GraphStore.AddSource | src/store.rs:90-94 | interning a source cannot fail |
| Store.GraphStore.AddOp | src/store.rs:96-107 | interns an op or rejects it |
| Store.GraphStore.AddReduction | src/store.rs:109-120 | interns a reduction or rejects it |
| Store.GraphStore.AddExternal | src/store.rs:122-133 | interns an external call or rejects it |
| Store.GraphStore.MarkOutput | src/store.rs:135-144 | marks an id once, or rejects one out of range |
| Store.GraphStore.SnapshotFrom | src/store.rs:161-165 | the nodes from an id on, none if the id is too large |
| Store.GraphStore.AddAll | src/store.rs:176-182 | distinct keys are rebuilt under their own positions |
| Store.GraphStore.FromReduced | src/store.rs:172-189 | the rebuilt store holds the images of the nodes and the first occurrences of the outputs |
| Store.GraphStore.ReduceWithOutputs | src/store.rs:207-225 | reduces for requested outputs into a fresh store that holds every reduced node over the new ids of its inputs, and exactly the reduced nodes when the outputs use no stage; leaves this store unchanged, or names the first id out of range |
| Store.GraphStore.ReduceWith | src/store.rs:197-205 | the same for the marked outputs |
| Store.ReducedRebuilds | src/store.rs:172-189 | a reduced graph meets what rebuilding needs, and holds no key twice when the outputs use no stage |
| Store.RebuiltMeaning | src/store.rs:172-189 | every requested output is a marked output of the rebuilt store, with the recorded value, if the needed operators can be told by their tokens, needed stages included and whichever keys collapse |
| Concurrency.RunConsistent | src/store.rs:73-88 | in every schedule inputs precede nodes, table and arena are exact inverses and each node was asked for |
| Concurrency.IdsNeverChange | src/store.rs:73-88 | later steps of any thread change no node and no returned id |
| Concurrency.SameIdSameTerm | src/store.rs:73-88 | two requests of any threads get one id exactly when they ask for one term |
| Concurrency.SameTermEverywhere | src/store.rs:73-88 | the term a request gets does not depend on the schedule |
| Concurrency.StoredByComplete | src/store.rs:73-88 | a completed schedule stores whatever any schedule stored |
| Concurrency.FinalStoreScheduleIndependent | src/store.rs:73-88 | completed schedules store the same terms and count the same nodes |
| Locking.LockedIsAtomic | src/store.rs:65-88 | every interleaving of lock, lookup, push, insert and unlock is a run of atomic requests in the order of the unlocks |
| Locking.MutualExclusion | src/store.rs:65-74 | no two threads are inside the critical section |
| Locking.HolderProceeds | src/store.rs:73-88 | the lock holder's next step is always possible |
| Locking.FreeIsAtomic | src/store.rs:65-88 | whenever the lock is free the store is one that atomic requests produce |
| Locking.LockedStoreScheduleIndependent | src/store.rs:65-88 | completed interleavings of the locked steps store the same terms |
| Bytes.LeRoundTrip | src/serialize.rs:60-65 | reading written bytes gives the number modulo the width: wider lengths are cut |
| Bytes.LeValueBytes | src/serialize.rs:221-230 | every run of bytes is the encoding of its value |
| Bytes.TwosComplement | src/serialize.rs:77-80 | the cast to unsigned and back is the identity on signed words |
| Formats.LongWord | src/serialize.rs:60-65 | the least significant byte comes first |
| Formats.ScalarBytes | src/serialize.rs:66-69 | the bytes at the ends of each length of a UTF-8 sequence |
| Formats.ValuesWritten | src/serialize.rs:74-94 | the bytes of one value of each kind |
| Formats.EntryWritten | src/serialize.rs:71-74 | the bytes of a map of one entry |
| Formats.NamedWritten | src/serialize.rs:120-147 | the bytes of a source, an op and a reduction: tags 0, 1 and 2 |
| Formats.DescriptorWritten | src/serialize.rs:148-165 | the bytes of a descriptor with and without preprocessing |
| Formats.ExternalWritten | src/serialize.rs:148-168 | the bytes of an external call: tag 3 |
| Formats.StageWritten | src/serialize.rs:169-189 | the bytes of a stage: tag 4 |
| Formats.GraphWritten | src/serialize.rs:115-195 | the bytes of a graph of one node and one output, from the letters GIR1 on |
| Formats.MagicRequired | src/serialize.rs:272-276 | input without the four letters is truncated or has a bad magic |
| Formats.TagsRefused | src/serialize.rs:242-251 | tags of no node, no value and no reference are named in the error |
| Utf8.DecodeEncode | src/serialize.rs:66-69 | every string's bytes decode to the string |
| Utf8.EncodeDecode | src/serialize.rs:231-237 | accepted bytes are the encoding of what they decode to |
| Parsing.RepeatReadsBack | src/serialize.rs:238-266 | pieces that each read back read back in a counted row |
| Parsing.BindStable | src/serialize.rs:209-217 | sequencing keeps the property that cut input gives the same result or truncation |
| GirRoundTrip.KeyReadsBack | src/serialize.rs:120-189 | every node kind reads back, raw float bits included |
| GirRoundTrip.NodesReadBack | src/serialize.rs:269-271 | node k is read back under id k |
| GirRoundTrip.RoundTrip | src/serialize.rs:115-196 | within the length limits decoding the written bytes gives the same nodes, table and outputs, even with bytes after them |
| GirArbitrary.CutIsTruncated | src/serialize.rs:209-217 | cutting accepted input before the end of what was used is reported as truncation |
| GirArbitrary.PrefixIsTruncated | src/serialize.rs:209-217 | every proper prefix of written bytes is truncated |
| GirArbitrary.AcceptedReserializes | src/serialize.rs:272-376 | whatever is accepted decodes to a well-formed store that is written and decoded back identically |
| Exactness.ListExact | src/serialize.rs:238-266 | counted rows come back byte for byte exactly when their pieces do |
| GirExact.ParamsExact | src/serialize.rs:238-254 | a map comes back byte for byte exactly when its booleans are 0 or 1 and its entries are in key order |
| GirExact.KeyExact | src/serialize.rs:280-363 | a node comes back byte for byte exactly when its maps do and its preprocessing flag is 0 or 1 |
| GirIdentity.NodesExact | src/serialize.rs:279-367 | the nodes come back byte for byte exactly when each does and none is repeated |
| GirIdentity.OutputsExact | src/serialize.rs:368-374 | the outputs come back byte for byte exactly when none is repeated |
| GirIdentity.ByteIdenticalIffStrict | src/serialize.rs:269-271 | for all accepted bytes, writing what they decode to gives those bytes if and only if they pass the strict check |
| GirLimits.NotReproducedNotStrict | src/serialize.rs:269-271 | the strict check refuses every such input |
| GirLimits.TrailingByte | src/serialize.rs:272-376 | a trailing byte is accepted and not written back |
| GirLimits.UnsortedInstance | src/serialize.rs:238-254 | concrete entries out of key order are accepted and written in order |
| GirLimits.OtherBool | src/serialize.rs:238-254 | every boolean byte above 1 is accepted and written as 1 |
| GirLimits.OtherFlag | src/serialize.rs:311-315 | every preprocessing flag above 1 is accepted and written as 1 |
| GirLimits.RepeatedNode | src/serialize.rs:364-367 | a repeated node is accepted and written once |
| GirLimits.RepeatedOutput | src/serialize.rs:368-374 | a repeated output is accepted and written once |
| Codec.Writer.PutStr | src/serialize.rs:66-69 | appends length and bytes of a string |
| Codec.Writer.PutParams | src/serialize.rs:71-97 | appends the tagged entries of a map |
| Codec.Writer.PutInputs | src/serialize.rs:99-104 | appends a counted list of ids |
| Codec.Writer.PutKey | src/serialize.rs:120-189 | appends a tagged node |
| Codec.Writer.PutGraph | src/serialize.rs:116-195 | appends the whole graph |
| Codec.SerializeWith | src/serialize.rs:112-196 | the written bytes are those of the format, for an explicit output set |
| Codec.Serialize | src/serialize.rs:106-110 | the same for the marked outputs |
| Codec.Reader.TakeBytes | src/serialize.rs:209-217 | advances by the bytes asked for, or reports truncation |
| Codec.Reader.ReadText | src/serialize.rs:231-237 | reads a counted UTF-8 string as the format says |
| Codec.Reader.ReadParams | src/serialize.rs:238-254 | reads a map as the format says, sorting its entries |
| Codec.Reader.ReadInputs | src/serialize.rs:255-266 | reads ids below a bound, or names the first that is not |
| Codec.Reader.ReadRef | src/serialize.rs:341-353 | reads a stage reference; members refer backwards only |
| Codec.Reader.ReadKey | src/serialize.rs:280-363 | reads any node as the format says |
| Codec.ReadNodes | src/serialize.rs:279-367 | the loop fills the store as the format says, each node interned as it is read |
| Codec.ReadOutputs | src/serialize.rs:368-374 | the loop marks outputs as the format says |
| Codec.Deserialize | src/serialize.rs:272-376 | succeeds with a fresh valid store, or fails with the error, exactly as the format says |
| ReducedBytes.ReducedStoreRoundTrip | src/store.rs:172-189 | the store rebuilt from a reduction, stages included, survives writing and decoding, however many outputs were requested |
| Partitions.BlindStepsTile | python/graphed_core/execution.py:58-65 | blind steps are contiguous, cover the file exactly and have the rounded-down or rounded-up size |
| Partitions.EveryEntryOnce | python/graphed_core/execution.py:59-60 | every entry is read by exactly one step |
| Partitions.PartitionDataset | python/graphed_core/plan.py:241-251 | terminates with the rounded-up number of contiguous chunks, or rejects a size that is not positive |
| Partitions.ChunksTile | python/graphed_core/plan.py:241-251 | every event is in exactly one chunk and no chunk is empty or too long |
| Partitions.PartitionDatasets | python/graphed_core/plan.py:254-259 | concatenates the chunks; rejects a bad size only if there is a dataset |
| Partitions.EventsConserved | python/graphed_core/plan.py:254-259 | the chunks of all datasets hold exactly as many entries as there are events |
| Resources.CachedAreRecent | python/graphed_core/execution.py:244-254 | the cached uris are the k last of the recently used ones, in that order |
| Resources.CachedIffRecent | python/graphed_core/execution.py:231-237 | a uri is cached exactly when it was used since the last close and fewer than k others were used after it |
| Resources.LargerBoundOpensLess | python/graphed_core/execution.py:231-237 | a larger bound never performs more opens |
| Resources.AfterAccounted | python/graphed_core/execution.py:231-259 | after any trace every handle ever opened is cached or closed, once, and at most k are cached |
| Resources.OpenIffCached | python/graphed_core/execution.py:231-259 | a handle is open exactly when it is cached, and is closed at most once |
| Resources.ReturnedIsOpen | python/graphed_core/execution.py:244-254 | a use returns a handle opened for its uri, which is still open exactly when the bound is at least one |
| Resources.LocalResources.constructor | python/graphed_core/execution.py:239-242 | a fresh cache holds nothing |
| Resources.LocalResources.CloseOldest | python/graphed_core/execution.py:251-253 | closes the least recently used handles until the bound holds; fails exactly when the bound is negative |
| Resources.LocalResources.Evict | python/graphed_core/execution.py:251-253 | what is left is the most recently used part within the bound, everything else closed |
| Resources.LocalResources.OpenOnce | python/graphed_core/execution.py:244-254 | reuses a cached handle as most recent or opens and evicts; an opener that raises changes nothing |
| Resources.LocalResources.Close | python/graphed_core/execution.py:256-259 | closes every cached handle and empties the cache |
| Runner.SequentialRunner.Process | python/graphed_core/execution.py:287-288 | a process runs over the handles at hand, each of its requests answered by a handle or by an opener that raised, and its outcome is handed back |
| Runner.SequentialRunner.Submit | python/graphed_core/execution.py:283-284 | every task is submitted in key order |
| Runner.SequentialRunner.RunTasks | python/graphed_core/execution.py:285-296 | folds and reports up to the first process or combination that raises |
| Runner.SequentialRunner.RunOver | python/graphed_core/execution.py:279-297 | a plan without a start value reports nothing; otherwise all tasks are submitted before any starts |
| Runner.SequentialRunner.Run | python/graphed_core/execution.py:276-299 | result, events and handle trace of a run over the tasks with their keys ascending, tasks of one key in their listed order, whether the start value, an opener, a process or a combination raises; a result counts every task and one combination less; handles are released on every way out |
| Runner.KeysAscend | python/graphed_core/execution.py:282 | the order in which tasks are submitted and folded holds every task once, keys ascending, tasks of one key in their listed order |
| Runner.KeyOrderUnique | python/graphed_core/execution.py:282 | there is no other such order |
| Runner.AnyBracketing | python/graphed_core/execution.py:262-268 | with associative combine and identity, which may raise, every reduction tree has the value of the sequential fold, or both raise |
| Runner.RunIsAnyBracketing | python/graphed_core/execution.py:276-297 | while no process raises, a run has the value of every bracketing of the partial results with the task keys ascending, and is stopped by a combination exactly when every bracketing raises |
| Runner.FinishedHasPartials | python/graphed_core/execution.py:285-297 | a run that got through its first tasks has a partial result for each of them |
| Runner.TaskOrderIrrelevant | python/graphed_core/execution.py:282 | with distinct keys, permuting the plan's tasks changes nothing about the run |
| Runner.TaskPhases | python/graphed_core/execution.py:283-296 | without a start value nothing is reported; otherwise each task is submitted once, finished ones are started and finished, one whose process raises is started and errored, one whose combination raises is only started, and nothing starts after either |
| Runner.AllTerminalIff | python/graphed_core/execution.py:171-173 | every started task is reported finished or errored if and only if there is no task whose partial result cannot be combined with the left fold of the earlier ones from the start value |
| Runner.SecondCombineRaises | python/graphed_core/execution.py:285-297 | a concrete plan whose second combination raises and whose second task is reported as submitted and started |
| Runner.CombineRaisesIff | python/graphed_core/execution.py:294 | the run is stopped by a combination exactly when the processes' partial results have such a task |
| Runner.HandlesReleased | python/graphed_core/execution.py:298-299 | after a run, whatever raised, every handle it opened has been closed exactly once |
| Runner.FewOpen | python/graphed_core/execution.py:239-253 | at no time during a run are more than 128 handles open |

## Left out

- SameReduction.SameReductionIffHidden: nodes are compared under interning's equality, since a needed and an unneeded node may carry different NaN payloads; the engine is saturated and identities are unary.
- Collisions.MeaningIff: is for outputs that use no stage; two stages of one size may be written differently and mean the same, so sharing a token does not lose meaning there.
- Finishing.FinalizeMeaningIff: the same; the sufficient half covers needed stages.
- Runner.SequentialRunner.Run: worker labels, timestamps and monitors that raise are not modelled.
- Locking.HolderProceeds: progress is that the holder is never stuck; fairness between waiting threads is not modelled.
- The engine's internals (egg's e-graph, its scheduler and its iteration and node budget): the engine is a contract, and that egg reaches saturation within its budget is not claimed.
- Mutex poisoning and the loom harness.
- Node ids are unbounded naturals in memory; only the codec bounds them to 64 bits, and lengths to 32.
- Memory reserved by the decoder from lengths it has not checked yet.
- IEEE arithmetic: the identity laws are laws of the algebra, not facts about floats.
- Hash iteration order is modelled as any order; hashing and its cost are not.
- Graphviz rendering, labels, `Display` text and the Python bindings in `src/lib.rs`.
- Plan serialization, `OpSpec`, `DurablePlan`, SHA-256, base64, JSON and cloudpickle.
- `StopCondition`, `next_tasks` and worker profiling, which the sequential runner never consults.
