# pyHermiT native core: a verified model

pyHermiT's native extension receives an OWL 2 ontology as flat byte columns or as a compiled clause
program and reasons over it with a tableau. This project models the parts of that extension whose
correctness is hard to see from the code, and proves what they promise.

**The encoded structural columns** (`native/src/encoded.rs`). Eleven byte columns describe a shared
acyclic graph of OWL constructor nodes. The validator accepts or refuses them without building a tree
and without writing any node's canonical bytes. The model gives those bytes a meaning of their own
(`Structure`: the unique solution `Ser` of the serialization equations, and the tree `Den` a node
denotes, in which a set field is a mathematical set), and everything the validator does is proved
against it. Varints and UTF-8 are exact (`Varint`, `Utf8`). The layout passes accept exactly the
conforming rows (`Rows`, `Validate`). The explicit-stack search proves acyclicity and reachability,
names real defects, and measures every node (`Lengths`, `Traversal`). The comparison task stack agrees
with the lexicographic order of the canonical bytes, terminates, and charges no more work than the
bytes of both sides (`Comparator`). The validator therefore accepts acceptable columns whenever the
limits suffice, and accepted columns are a canonical form. Equal meaning implies equal bytes in all
eleven columns, and comparing IDs decides order by canonical bytes (`Uniqueness`). Canonical bytes can be
read back, so only true duplicates are refused as duplicates (`Pieces`, `Faithful`). And every set of
root trees that meets the ledger, and that the columns have room for, is the meaning of acceptable
columns (`Trees`, `Listings`, `Layout`, `Writing`, `Existence`). `Categories` says what the roles of the
ledger admit, tree by tree and without the role table. `OwlLedger` is the ledger itself, and `OwlSyntax` the
structural syntax of OWL 2 as data types. With them `OwlOntology` (over `OwlParts`, `OwlTerms`, `OwlRanges`,
`OwlClasses`, `OwlItems` and `OwlAxioms`) proves what the columns are for: acceptable columns and finite sets
of ontology annotations, axioms and rules correspond one to one.

**Clause programs.** `Programs` holds decoded programs and their first-order meaning: objects, data
values, concepts and object roles by symbol, negated predicates as complements, and every other kind of
predicate with an extension of its own. `MergeList`, `Merge` and `Combination` merge a query overlay
into the permanent program (`native/src/native_tableau.rs`): the result has exactly the models of both
inputs, and merging again changes nothing. `Formation` holds the decoder's rules for a whole program, and
proves that merging two programs that meet them gives one that does, in which no clause, fact or disjunction
has gained or lost a source; `QueryFormation` proves the same of the query that is built. `Counterexample`, `FreeReading` and `FastPath`
(`native/src/classification_bridge.rs`) prove the subsumption query sound and complete, also when the
negated parent is only tied to the parent by the clash clause, and the told-inclusion short cut exact.
`BuiltinLaws` shows which built-in clauses the short cut may ignore: those the compiler emits. `Taxonomy`
and `TaxonomyUnique` validate a classified hierarchy (`native/src/services/classification.rs`): acyclic,
transitively reduced, and determined by the subsumptions it states. `TaxonomyExists` is the other half: every
finite preorder of classes has such a hierarchy. `Opposites` pairs logical opposites
(`native/src/program_bridge.rs`).
`Components` splits datatype constraints into connected components without changing satisfiability
(`native/src/datatype_tableau.rs`).

**Boundary code.** `Document` and `Pools` decode input documents (`native/src/input_wire.rs`);
`DocumentWriter` and `PoolWriter` are the Python code that writes them
(`src/pyhermit/backends/native_input.py`), and what is written is what is read. `ResultWire` validates and
encodes results (`native/src/result_wire.rs`); `ResultReader` and `RealizationReader` are the strict Python
decoder (`src/pyhermit/backends/native_wire.py`), which accepts exactly the documents the encoder writes.
`Session` is the busy/closed
protocol as a state machine over atomic steps, `Transaction` is one reasoning operation with its
checkpoint, query and finish (`native/src/native_tableau.rs`, `native/src/session.rs`), and `Decimal` the
float reformatter (`native/src/lib.rs`).

Conventions. `usize` and `u64` have 64 bits, `u32` has 32; limits appear as explicit refusals. Shifts,
masks and the union of disjoint bits are division, remainder and addition. Fixed-width readers are pure
functions on the columns; the branches in which the source reports a truncated read or a broken
internal invariant are proved dead and appear as preconditions or assertions. Except in the modules named
`Owl`, the constructor ledger is an arbitrary map from tag to field roles, and the theorems hold for all
ledgers. Digests are opaque
values. `Bytes`, `Outcome` and `Sorting` hold shared definitions. A local `hide` keeps the definitions a
proof does not use away from the solver.

One ordering detail of the source is visible in `Session`: `close` releases the busy flag before the
mutex, because the guard is dropped explicitly inside the scope of the lock.

Three promises of the source do not hold as stated, and the model says exactly when they do. The told
relation of a program is called complete whatever its built-in clauses say
(`native/src/classification_bridge.rs:209-264`); `BuiltinLaws.ProvenanceIsNotEnough` gives an accepted
program whose told inclusions miss a subsumption, and `BuiltinLaws.FastPathOnCompiled` proves the short
cut exact when the built-in clauses are of the compiled kinds. Checkpoint creation is documented as
atomic on error (`native/src/session.rs:231`); when the poll that closes it fails, the rule engine's
snapshot stays registered. `Transaction.CheckpointAtomicIff` states when that happens, and
`Transaction.CompletesIff` what it costs: an operation nothing else hinders completes exactly when fewer
checkpoints were lost than the engine may hold. A program's negated facts are to be kept apart from its
positive ones (`native/src/input_wire.rs:894`); the query built in process keeps its negated fact among the
positive ones, and `QueryFormation.QueryMergedPartitioned` proves that the merged program keeps the two apart
exactly when the ontology does and the parent is bottom.

## Model

| member | source | states |
|---|---|---|
| Varint.LebDenotes | native/src/encoded.rs:1682-1695 | the 7-bit groups of a code sum to the value, and only the last byte lacks the continuation bit |
| Varint.LebPrefixFree | native/src/encoded.rs:1682-1695 | no code is a prefix of the code of another number |
| Varint.VarintWidthIsLength | native/src/encoded.rs:1682-1685 | the width formula is the length of the unsigned LEB128 code |
| Varint.VarintByteIsLeb | native/src/encoded.rs:1687-1695 | each byte computed by shifting is that byte of the code |
| Varint.CompareVarints | native/src/encoded.rs:1668-1680 | comparing computed bytes is the byte order of the two codes |
| Varint.MinimalUnique | native/src/encoded.rs:925-935 | minimal little-endian payloads are unique for their value |
| Varint.IntegerWidthIsLength | native/src/encoded.rs:1613-1638 | the width computed from the bit length of a minimal payload of any size is the length of its code |
| Varint.IntegerByteIsLeb | native/src/encoded.rs:1640-1666 | the byte assembled from two neighbouring payload bytes is that byte of the LEB128 code, for every size |
| Varint.CompareIntegers | native/src/encoded.rs:1578-1611 | comparing two integer payloads is the byte order of their codes |
| Utf8.NextTextByte | native/src/encoded.rs:1765-1772 | reads the next byte exactly when one is left |
| Utf8.RequireContinuation | native/src/encoded.rs:1774-1783 | accepts exactly a continuation byte |
| Utf8.RequireSecond | native/src/encoded.rs:1716-1754 | accepts exactly the second bytes that exclude overlong forms, surrogates and values past U+10FFFF |
| Utf8.ValidateUtf8 | native/src/encoded.rs:1708-1759 | accepts a range iff it is the encoding of some sequence of Unicode scalar values (section 4 of RFC 3629) |
| Utf8.EncodeInjective | native/src/encoded.rs:1708-1759 | no two texts of Unicode scalar values have the same encoding |
| Structure.SerializationExistsUniquely | native/src/encoded.rs:1092-1216 | on an acyclic graph the serialization equations have exactly one solution |
| Structure.LengthsAreExact | native/src/encoded.rs:1092-1216 | lengths that satisfy the length equations are the lengths of the canonical bytes |
| Structure.BytesMeasure | native/src/encoded.rs:1092-1216 | the lengths of the canonical bytes satisfy the length equations |
| Structure.CyclicNotAcyclic | native/src/encoded.rs:1062-1066 | a graph with a cycle has no topological rank |
| Rows.ReadInjective | native/src/encoded.rs:1797-1873 | columns of the right shape are determined by the rows the readers see |
| Rows.ConformsLaid | native/src/encoded.rs:449-591 | conforming rows cover the field, item and scalar arenas exactly and in order, so every later read is in range |
| Outcome.ClaimsAddUp | native/src/encoded.rs:1885-1896 | a sequence of charges is refused exactly when their sum leaves 64 bits or the limit, and otherwise charges the sum |
| Outcome.LengthsAddUp | native/src/encoded.rs:1218-1223 | adding lengths one by one is refused exactly when their sum leaves 64 bits, and otherwise gives the sum |
| Lengths.NodeComponentLength | native/src/encoded.rs:1165-1184 | size of a framed child; the zero-length check never fires because the child is measured before |
| Lengths.LeafLength | native/src/encoded.rs:1156-1216 | the size of a component that is not a collection; refusal only for a length past 64 bits |
| Lengths.ItemsInto | native/src/encoded.rs:1120-1145 | adds exactly the sizes of the items, framed bare in a set and marked in a sequence |
| Lengths.FieldInto | native/src/encoded.rs:1104-1151 | adds exactly the size of one field, charging one unit for it and for each item |
| Lengths.CanonicalNodeLength | native/src/encoded.rs:1092-1154 | computes the node's length from the children's, with exact work; refusal only when work or length is really exceeded |
| Traversal.InvAdvance | native/src/encoded.rs:1013-1055 | moving the top frame on keeps the search invariant |
| Traversal.InvEnterRoot | native/src/encoded.rs:1000-1012 | entering a root keeps the search invariant |
| Traversal.InvEnterChild | native/src/encoded.rs:1056-1061 | entering an unseen child keeps the search invariant |
| Traversal.InvLeave | native/src/encoded.rs:1046-1051 | finishing a node keeps the invariant: finished nodes have only finished children, ranked below them, and exact lengths |
| Traversal.BackEdgeCloses | native/src/encoded.rs:1062-1066 | an edge to an active node closes a real cycle through the stack |
| Traversal.AllFinished | native/src/encoded.rs:1076-1081 | when every node is finished the finishing order is a topological rank, the lengths are solved and every node is reachable |
| Traversal.LeftOver | native/src/encoded.rs:1076-1080 | a node left over is one that no root reaches |
| Traversal.SearchWork | native/src/encoded.rs:974-1082 | a finished search spent one visit and one measurement of every node, field and item |
| Traversal.RoomOnTop | native/src/encoded.rs:974-1082 | at no point can a search spend more than that |
| Traversal.FinishedExact | native/src/encoded.rs:1046-1051 | what the search has measured so far agrees with every complete measurement |
| Traversal.OverlongNode | native/src/encoded.rs:1218-1223 | a length overflow happens only when some node's canonical bytes really exceed 64 bits |
| Traversal.Iterate | native/src/encoded.rs:1013-1074 | one iteration keeps the invariant, or reports a real cycle or a real lack of resources |
| Traversal.Visit | native/src/encoded.rs:1000-1075 | everything reachable from one root is finished, or a real defect is reported |
| Traversal.ValidateGraphAndLengths | native/src/encoded.rs:974-1082 | success: acyclic, all reachable, exact lengths, exact linear work; a cycle error implies a cycle, an unreachable error a node no root reaches, a resource error that the work or a length is exceeded |
| Comparator.CompareScalarRanges | native/src/encoded.rs:1537-1576 | byte order of two ranges of one length, charging at most that length |
| Comparator.CompareIntegerComponents | native/src/encoded.rs:1578-1611 | byte order of the two integers' codes |
| Comparator.ScheduleNodes | native/src/encoded.rs:1429-1453 | decides by the framed lengths or leaves the nodes pending, without changing what is compared |
| Comparator.ScheduleCollections | native/src/encoded.rs:1491-1512 | decides by the counts or leaves the items pending |
| Comparator.ScheduleContents | native/src/encoded.rs:1454-1474 | decides by the lengths, then by the contents |
| Comparator.ScheduleIntegers | native/src/encoded.rs:1475-1490 | decides by the self-delimiting integer codes |
| Comparator.ScheduleComponents | native/src/encoded.rs:1412-1517 | compares two components up to what must stay pending; settled bytes pay for the work |
| Comparator.StepNodes | native/src/encoded.rs:1288-1317 | two nodes are decided by their tags, or their fields stay pending |
| Comparator.StepRows | native/src/encoded.rs:1318-1406 | one pair of field rows or item rows is decided or left pending |
| Comparator.Pop | native/src/encoded.rs:1285-1407 | one pop preserves the ordering the stack stands for, shrinks it, and is paid for by the potential it removes |
| Comparator.CompareCanonicalNodes | native/src/encoded.rs:1275-1410 | any ordering returned is the lexicographic ordering of the two nodes' canonical bytes; the loop terminates within the bytes of both sides plus one |
| Comparator.ValidateDenseNodeOrder | native/src/encoded.rs:1256-1273 | accepts exactly rows whose canonical bytes ascend strictly, within the stated work |
| Validate.ValidateOffsets | native/src/encoded.rs:451-481 | accepts exactly offsets that cover the field arena with the arity the ledger gives each tag |
| Validate.ValidateContent | native/src/encoded.rs:923-957 | accepts exactly the content rule of each scalar kind |
| Validate.ValidateLeaf | native/src/encoded.rs:870-972 | accepts exactly a well-placed component and moves the scalar cursor by its length |
| Validate.ValidateItems | native/src/encoded.rs:532-566 | accepts exactly node items of the right role, strictly ascending in a set |
| Validate.ValidateCollection | native/src/encoded.rs:507-568 | accepts exactly a collection whose items start at the item cursor |
| Validate.ValidateField | native/src/encoded.rs:496-579 | accepts exactly a field of its role, with exact cursors and work |
| Validate.ValidateFields | native/src/encoded.rs:483-591 | accepts exactly when all fields fit and the item and scalar arenas are used up |
| Validate.ValidateRoots | native/src/encoded.rs:596-614 | accepts exactly known roots of a fitting constructor, strictly ascending by kind and ID |
| Validate.ValidateStructure | native/src/encoded.rs:449-617 | on success the work is exactly 1 + 3 nodes + 3 fields + 3 items + roots + bytes of text and enum scalars; a resource refusal of conforming rows means that this work or a length is exceeded |
| Validate.ValidateColumns | native/src/encoded.rs:402-628 | accepts only acceptable columns; a refusal that is not for resources means unacceptable columns; acceptable columns are accepted whenever the limits suffice |
| Uniqueness.SameTreeSameBytes | native/src/encoded.rs:546-558 | nodes that denote the same tree have the same canonical bytes, also across two column sets |
| Uniqueness.SameGraph | native/src/encoded.rs:1256-1273 | canonical graphs that denote the same trees are the same graph with the same numbering |
| Uniqueness.SameRows | native/src/encoded.rs:449-591 | conforming rows are determined by the graph and the roots they describe |
| Uniqueness.SameMeaningSameRows | native/src/encoded.rs:402-628 | accepted rows with the same set of root kinds and trees are equal |
| Uniqueness.CanonicalForm | native/src/encoded.rs:402-628 | two accepted column sets that denote the same set of (root kind, tree) pairs are equal in all eleven columns, whatever the ledgers |
| Uniqueness.RanksAreOrder | native/src/encoded.rs:1256-1273 | node IDs are ranks by canonical bytes, and distinct IDs denote distinct trees |
| Uniqueness.RootsAscend | native/src/encoded.rs:593-614 | once canonical bytes ascend, two roots are in order by kind and ID exactly when they are by kind and canonical bytes |
| Uniqueness.SetItemsAscend | native/src/encoded.rs:546-558 | once canonical bytes ascend, the items of a set ascend by ID exactly when they ascend by canonical bytes |
| Uniqueness.AcceptedByBytes | native/src/encoded.rs:593-617 | acceptance is acceptance with every comparison of IDs replaced by one of canonical bytes |
| Pieces.PieceCut | native/src/encoded.rs:1092-1216 | a serialized component can be cut off the front of any byte string: equal fronts are written by equal components |
| Pieces.NodeCut | native/src/encoded.rs:1092-1154 | a tag and the components its arity allows are recovered from the canonical bytes |
| Faithful.SameBytesSameTree | native/src/encoded.rs:1256-1273 | where a tag fixes the arity, nodes with equal canonical bytes denote equal trees |
| Faithful.BytesDecideTrees | native/src/encoded.rs:1256-1273 | in accepted rows of one ledger two nodes have equal canonical bytes exactly when they denote equal trees, so only true duplicates are refused |
| Trees.BytesInjective | native/src/encoded.rs:1092-1216 | the canonical bytes of a tree, defined without rows, differ for different trees |
| Listings.GraphSolved | native/src/encoded.rs:1256-1273 | the trees of a closed set listed by their bytes form a canonical graph that denotes them |
| Layout.LayView | native/src/encoded.rs:449-591 | rows laid out for a graph are conforming in layout and read back as the graph |
| Writing.ColumnsRead | native/src/encoded.rs:1797-1873 | rows whose numbers fit the column widths can be written as columns and are read back |
| Existence.RowsSettled | native/src/encoded.rs:402-628 | the rows laid out for root trees that meet the ledger are accepted and mean exactly those roots |
| Existence.EverySetHasColumns | native/src/encoded.rs:402-628 | every finite set of root kinds and trees that meets the ledger, and that the columns have room for, is the meaning of acceptable columns |
| Existence.ColumnsConform | native/src/encoded.rs:402-628 | and every meaning of acceptable columns is such a set |
| Categories.RolesExact | native/src/encoded.rs:677-813 | a tree meets exactly the roles of its syntactic category: an entity spelled "class" stands as entity, class and class expression and nothing else, and so on for every kind of entity and every constructor |
| Categories.KindSpelt | native/src/encoded.rs:815-836 | each entity kind is stored as its spelling |
| Categories.PartsDisjoint | native/src/encoded.rs:725-775 | no tree is of two among class expression, data range, object property expression, individual and literal |
| Categories.RolesNest | native/src/encoded.rs:677-783 | named things do for expressions, individuals and literals for arguments and annotation values |
| Categories.RootsExact | native/src/encoded.rs:1785-1797 | a root kind admits exactly the annotations, the 37 axiom constructors or the rule constructor |
| Categories.CategorizedExact | native/src/encoded.rs:402-628 | a set of roots meets the ledger exactly when every part stands where its category may |
| Categories.AcceptedStand | native/src/encoded.rs:402-628 | in what acceptable columns mean, every part stands where its category may |
| Categories.StandingAccepted | native/src/encoded.rs:402-628 | every such set of roots that there is room for is the meaning of acceptable columns |
| OwlLedger.SoundIff | native/src/encoded.rs:207-284 | a tree meets the constructor ledger from the root down exactly when each of its subtrees does |
| OwlTerms.EntityRepresents | native/src/encoded.rs:209 | entities of the six kinds and the trees of the entity role correspond one to one |
| OwlTerms.IndividualRepresents | native/src/encoded.rs:209-210 | named and anonymous individuals and the trees of the individual role correspond one to one |
| OwlTerms.LiteralRepresents | native/src/encoded.rs:211 | literals with Unicode text, datatype and optional language and the trees of the literal role correspond one to one |
| OwlRanges.AnnotationRepresents | native/src/encoded.rs:212 | annotations, themselves annotated by sets of annotations, and the trees of the annotation role correspond one to one |
| OwlRanges.SubPropertyRepresents | native/src/encoded.rs:213-214 | object property expressions and chains of them and the trees of the role correspond one to one |
| OwlRanges.RangeRepresents | native/src/encoded.rs:215-220 | data ranges and the trees of the data range role correspond one to one |
| OwlClasses.ClassRepresents | native/src/encoded.rs:221-237 | the eighteen forms of class expression and the trees of the class expression role correspond one to one |
| OwlOntology.AtomRepresents | native/src/encoded.rs:276-282 | the seven forms of rule atom and the trees of the atom role correspond one to one |
| OwlOntology.AxiomFaithful | native/src/encoded.rs:238-274 | for each of the 37 axiom constructors, annotated axioms and trees of its tag correspond one to one |
| OwlOntology.ItemRooted | native/src/encoded.rs:207-284 | every ontology annotation, axiom and rule has a root the validator takes |
| OwlOntology.ItemParts | native/src/encoded.rs:207-284 | different items have different roots |
| OwlOntology.ItemFrom | native/src/encoded.rs:207-284 | every root the validator takes stands for an item |
| OwlOntology.ColumnsAreOntologies | native/src/encoded.rs:402-628 | acceptable columns encode exactly one OWL 2 ontology |
| OwlOntology.OntologiesAreColumns | native/src/encoded.rs:402-628 | every OWL 2 ontology that the columns have room for is encoded by exactly one set of columns |
| Components.Project | native/src/datatype_tableau.rs:211-338 | refuses exactly an opaque first payload on a constrained node; otherwise the adjacency and constraint lists hold exactly the constraints given, linking both ends of every inequality and taking the first payload of each literal |
| Components.Seed | native/src/datatype_tableau.rs:436-445 | picks an unseen node of least rank |
| Components.Gather | native/src/datatype_tableau.rs:446-456 | collects exactly the nodes connected to the seed |
| Components.RangesInIff | native/src/datatype_tableau.rs:463-467 | a component holds exactly the range constraints of its members |
| Components.FixedInIff | native/src/datatype_tableau.rs:468-472 | a component holds exactly the fixed values of its members |
| Components.InequalitiesInIff | native/src/datatype_tableau.rs:473-477 | a component holds exactly the inequalities of its members |
| Components.ParticipantsInIff | native/src/datatype_tableau.rs:478-488 | the participants of a component are exactly the rows of its ranges and inequalities |
| Components.Extract | native/src/datatype_tableau.rs:457-501 | one component with sorted variables and participants |
| Components.BuildComponents | native/src/datatype_tableau.rs:425-504 | the components partition the constrained nodes into connected groups, each with exactly its constraints |
| Components.InequalityInside | native/src/datatype_tableau.rs:425-504 | both ends of an inequality lie in one group |
| Components.RestrictSolution | native/src/datatype_tableau.rs:425-504 | a global solution restricts to each component |
| Components.JoinSolutions | native/src/datatype_tableau.rs:425-504 | solutions of the components join to a global one |
| Components.SplitPreservesSatisfiability | native/src/datatype_tableau.rs:425-504 | a global satisfying assignment exists iff every component has one, node ranks being injective |
| Components.FactsSplit | native/src/datatype_tableau.rs:211-504 | the fact rows and literals have values that meet them all exactly when every component has a solution |
| Programs.ProgramAgrees | native/src/input_wire.rs:1076-1122 | a program means the same under a longer predicate table and after naming further individuals |
| Sorting.UnionKeeps | native/src/native_tableau.rs:655-659 | merging provenance lists gives the sorted union |
| Sorting.UnionAbsorbs | native/src/native_tableau.rs:655-659 | merging what is already there changes nothing |
| MergeList.MergeAllIsMerge | native/src/native_tableau.rs:661-783 | the merged list has each identity once, in first-seen order, with the sorted union of its provenance |
| MergeList.MergeTwice | native/src/native_tableau.rs:661-783 | merging the same entries a second time changes nothing |
| MergeList.Merger.constructor | native/src/native_tableau.rs:666-667 | an empty list with an empty index |
| MergeList.Merger.Add | native/src/native_tableau.rs:679-783 | adds or absorbs one entry and keeps the index exact; refuses exactly when a new identity finds no 32-bit number |
| Merge.MergeProvenance | native/src/native_tableau.rs:563-606 | accepts exactly when permanent identities and overlay numbers are distinct and the table stays within 32 bits; returns the extended table and the map of numbers |
| Merge.ExtendedTable | native/src/native_tableau.rs:563-606 | permanent entries stay first and unchanged, then one entry for each new identity, numbered by position |
| Merge.ExtendedDense | native/src/native_tableau.rs:563-606 | dense numbering stays dense |
| Merge.MappingOf | native/src/native_tableau.rs:583-605 | every overlay number maps to the entry of the same identity |
| Merge.ExtendedTwice | native/src/native_tableau.rs:563-606 | offering the same overlay again adds no entry |
| Combination.RemapIds | native/src/native_tableau.rs:608-618 | renumbers every identifier, and refuses exactly a dangling one |
| Combination.RemapAll | native/src/native_tableau.rs:620-632 | renumbers every entry, and refuses exactly when one dangles |
| Combination.MergeEntries | native/src/native_tableau.rs:661-747 | one merged list, refused exactly for a dangling identifier or for want of 32-bit numbers |
| Combination.EntriesRoundTrip | native/src/native_tableau.rs:634-659 | clauses, facts and disjunctions are recovered from their identity and provenance |
| Combination.CollectNamed | native/src/native_tableau.rs:533-554 | named individuals are the permanent ones and those named by a positive fact, sorted |
| Combination.CombineQueryOntology | native/src/native_tableau.rs:490-561 | refuses exactly a missing overlay, changed roles, an unmergeable provenance table, a dangling provenance number or too many entries; returns the combined ontology, whose meaning, references, symbols and sources the rows on `Combination` and `Formation` state |
| Formation.CombinedHave | native/src/native_tableau.rs:490-561 | whatever is said of each clause, fact and disjunction holds of the merged program exactly if it holds of both inputs |
| Formation.CombinedFormed | native/src/native_tableau.rs:490-561 | merging is closed: if both inputs meet the decoder's rules and the overlay extends the ontology, the merged program meets them and extends both |
| Formation.FormedWithin | native/src/input_wire.rs:3144-3181 | a program that meets the decoder's rules refers to nothing outside its predicates and individuals, as the reduction asks |
| Formation.CombinedWithin | native/src/native_tableau.rs:490-561 | references of the merged program stay within its own predicates and individuals, and the permanent symbols of every kind come first among its symbols |
| Formation.CombinedNamed | native/src/native_tableau.rs:533-554 | the named individuals are sorted and each is an individual of the merged program |
| Formation.ProvenanceConserved | native/src/native_tableau.rs:563-618 | every clause, fact and disjunction cites exactly the sources the two inputs cite for it, each read by its own provenance table |
| Combination.CombinedLists | native/src/native_tableau.rs:490-561 | each list of the result is the merge of both inputs' lists, and clause and disjunction numbers are positions |
| Combination.CombinedModels | native/src/native_tableau.rs:490-561 | the combined program has exactly the models of the permanent program and of the overlay |
| Combination.CombinedModelsOwnTables | native/src/native_tableau.rs:490-561 | the same with each program read under its own predicate table |
| Combination.CombinedTwice | native/src/native_tableau.rs:490-561 | merging the same overlay a second time is accepted and changes nothing |
| Counterexample.SymbolByDisplay | native/src/classification_bridge.rs:315-327 | finds the one symbol shown so; none or several is a refusal |
| Counterexample.AppendQuerySymbol | native/src/classification_bridge.rs:659-684 | adds one symbol to the end of its domain, numbered by the old size, query-local and not generated, and changes nothing else |
| Counterexample.FindPredicate | native/src/classification_bridge.rs:693-714 | finds the one predicate of an identity; two of them is a refusal |
| Counterexample.EnsurePredicate | native/src/classification_bridge.rs:686-729 | finds the predicate or adds it at the end, with the given sorts and no field set but its own; refuses exactly a repeated identity or a full table |
| Counterexample.DomainBounds | native/src/classification_bridge.rs:616-637 | returns top and bottom exactly when both are determined |
| Counterexample.AppendWitness | native/src/classification_bridge.rs:424-441 | one fresh query-local individual for classes, two for object properties, behind the permanent ones, when there is room |
| Counterexample.NumberPredicates | native/src/classification_bridge.rs:508-538 | the numbers used name the child, the parent and the negated parent, and the table gains nothing else |
| Counterexample.SymbolBoundaries | native/src/classification_bridge.rs:639-657 | returns the size of every symbol domain exactly when each kind has one domain, of 32-bit size |
| Counterexample.BuildCounterexampleQuery | native/src/classification_bridge.rs:402-614 | given room for three more predicates, builds the overlay exactly when the program offers what it needs: one symbol domain of each kind, room for the witness, both bounds and no repeated predicate; what is built is the described query |
| QueryFormation.QuerySymbols | native/src/classification_bridge.rs:659-684 | the permanent symbols of every kind are a prefix of the query's; those after them are query-local and not generated |
| QueryFormation.QueryWellSorted | native/src/classification_bridge.rs:465-569 | every atom of the query has as many arguments as its predicate has sorts, each of its sort, if the ontology's predicates have the sorts of their kinds |
| QueryFormation.QueryFormed | native/src/classification_bridge.rs:402-614 | the query built for a program that meets the decoder's rules meets them exactly when the symbols it names are there |
| QueryFormation.QueryMergedWithin | native/src/native_tableau.rs:490-561 | no reference of the ontology merged with the query dangles: the witness has its symbol and every atom its predicate |
| QueryFormation.QueryMergedFormed | native/src/native_tableau.rs:490-561 | the ontology a query is answered against meets the decoder's rules |
| QueryFormation.QueryPartitioned | native/src/classification_bridge.rs:523-545 | the query keeps negated facts apart from positive ones exactly when the parent is bottom |
| QueryFormation.QueryMergedPartitioned | native/src/native_tableau.rs:490-561 | the merged program does exactly when the ontology does and the parent is bottom |
| Counterexample.QueryMeans | native/src/classification_bridge.rs:508-579 | the overlay is satisfied exactly when the witness is in the child and outside the parent |
| Counterexample.CounterexampleReduction | native/src/classification_bridge.rs:402-614 | the ontology merged with the query has a model iff the ontology has a model with an element or pair in the child and outside the parent, for classes and object properties and over any domain |
| Counterexample.QueryCombines | native/src/classification_bridge.rs:581-605 | the merge never refuses a built query while numbers are left |
| FreeReading.ClashMeans | native/src/classification_bridge.rs:556-579 | with the negated parent free, the clash clause says that it stays outside the parent and nothing more |
| FreeReading.FreeReduction | native/src/classification_bridge.rs:402-614 | the reduction also holds when a new negated parent is a free predicate that only the clash clause ties to the parent |
| FastPath.ToldPairs | native/src/classification_bridge.rs:107-126 | collects exactly the inclusions between listed classes that single clauses state |
| FastPath.BuiltinProvenanceIds | native/src/classification_bridge.rs:228-239 | exactly the numbers of generated entries with the one built-in digest |
| FastPath.ToldRelationIsComplete | native/src/classification_bridge.rs:209-264 | decides exactly whether every clause is built in or a class inclusion and there are no facts or disjunctions |
| FastPath.ClassProblem | native/src/classification_bridge.rs:94-136 | returns the class problem exactly when there is one |
| FastPath.TellsIff | native/src/classification_bridge.rs:107-126 | an inclusion is told by exactly the rules that state it of one object variable |
| FastPath.InclusionIff | native/src/classification_bridge.rs:249-303 | the inclusions the fast path admits are the told ones on variable 0 between listed classes |
| FastPath.PublicIff | native/src/classification_bridge.rs:94-102 | a class is listed exactly when its symbol is shown as a class and neither the compiler nor a query made it |
| FastPath.SourcesAreNotBuiltin | native/src/classification_bridge.rs:228-247 | a rule with any source of its own is not taken as built in |
| FastPath.ToldClause | native/src/classification_bridge.rs:357-374 | a told clause is true exactly when its inclusion holds |
| FastPath.ChainSound | native/src/classification_bridge.rs:107-126 | a derived inclusion is true in every model |
| FastPath.CanonicalModel | native/src/classification_bridge.rs:209-264 | in a setting where the built-in clauses hold whatever the classes are, the interpretation that puts everything into the classes derived from one class is a model |
| FastPath.FastPathExact | native/src/classification_bridge.rs:94-136 | on an accepted program whose built-in clauses are laws of the setting, the inclusions true in every model are exactly the reflexive-transitive closure of the told pairs with bottom and top |
| FastPath.FastPathAgrees | native/src/classification_bridge.rs:376-400 | there the short cut and the counterexample query give the same answer |
| BuiltinLaws.CompiledTrue | native/src/encoded/role_clauses.rs:674-805 | with the standard meaning of roles, data ranges, equality and nominals, every built-in clause the compiler emits is true whatever the classes are |
| BuiltinLaws.CompiledAreLaws | src/pyhermit/clauses/compiler.py:2838-2997 | so compiled built-in clauses are laws of every standard setting |
| BuiltinLaws.FastPathOnCompiled | native/src/classification_bridge.rs:94-136 | on every accepted program with compiled built-in clauses the short cut is exact, for the standard meaning and for any laws it obeys |
| BuiltinLaws.ProvenanceIsNotEnough | native/src/classification_bridge.rs:209-264 | an accepted program whose clause with built-in provenance makes a class empty, which the told inclusions do not derive |
| Taxonomy.ValidatePartition | native/src/services/classification.rs:68-90 | accepts exactly nonempty rising groups without a common member, in order of their least members |
| Taxonomy.BuildDegrees | native/src/services/classification.rs:104-121 | successor lists and in-degrees are those of the edges, refused exactly for an edge out of range or a loop; degrees fit 32 bits |
| Taxonomy.RemovesAll | native/src/services/classification.rs:123-144 | removing nodes without pending children removes all exactly when the edges are acyclic; no degree falls below zero |
| Taxonomy.SearchUpwards | native/src/services/classification.rs:153-170 | finds the target exactly when one of the starts reaches it |
| Taxonomy.EdgesReduced | native/src/services/classification.rs:146-172 | accepts exactly edges none of which another parent of the same child makes redundant |
| Taxonomy.RedundantMeans | native/src/services/classification.rs:146-147 | on acyclic edges an edge is redundant exactly when dropping it loses no reachability |
| Taxonomy.ValidateHierarchy | native/src/services/classification.rs:65-174 | accepts exactly hierarchies whose nodes partition their members in canonical order and whose edges are canonical, acyclic and transitively reduced |
| TaxonomyUnique.HierarchyDetermined | native/src/services/classification.rs:65-174 | valid hierarchies that state the same subsumptions have the same nodes and the same edges |
| TaxonomyExists.HasseReaches | native/src/services/classification.rs:146-172 | the covering pairs of a finite partial order reach exactly what is above |
| TaxonomyExists.HierarchyExists | native/src/services/classification.rs:65-174 | every finite preorder of classes, with fewer groups of equivalent classes than 32 bits count, has a valid hierarchy that states it, and its nodes and edges are unique |
| Opposites.IndexByKey | native/src/program_bridge.rs:469-493 | indexes both polarities, and refuses exactly an ambiguous table |
| Opposites.OppositePredicateIds | native/src/program_bridge.rs:469-502 | pairs exactly the predicates that differ in polarity alone |
| Opposites.OppositeInvolution | native/src/program_bridge.rs:494-502 | the opposite of the opposite is the predicate again, and is never itself |
| Opposites.OppositesComplement | native/src/program_bridge.rs:504-526 | opposite concepts and object roles are complements in every interpretation |
| Opposites.OppositeIff | native/src/program_bridge.rs:504-526 | opposites are exactly two predicates of a kind and its negation with the same sorts, symbol, role and annotation |
| Opposites.StandardOpposites | native/src/program_bridge.rs:504-526 | in the standard setting opposite nominals, data roles, data ranges and equalities are complements too |
| Document.CheckCoverage | native/src/input_wire.rs:399-414 | the sorted scan accepts exactly the sections that tile the rest of the buffer with zero padding between them |
| Document.ChainTiles | native/src/input_wire.rs:400-414 | on sorted sections the cursor scan holds iff they do not overlap, gaps are zero and the last one ends the buffer |
| Document.DisjointSort | native/src/input_wire.rs:399 | sorting does not change whether sections overlap |
| Document.ReadDirectory | native/src/input_wire.rs:302-398 | accepts exactly sound records without a repeated known kind, and lists each known kind with its section |
| Document.Parse | native/src/input_wire.rs:238-419 | accepts exactly a sound header and directory whose sections tile the buffer; `DocumentWriter.WriterReader` gives the fields their meaning |
| Document.AcceptedPartition | native/src/input_wire.rs:399-414 | in an accepted document every byte behind the directory is in exactly one section, or is zero padding |
| Document.AcceptedOrder | native/src/input_wire.rs:354-361 | sections lie behind header and directory and inside the buffer |
| DocumentWriter.WidthsAgree | src/pyhermit/backends/native_input.py:129-150 | the record sizes the reader expects are those of the writer's formats |
| DocumentWriter.WriteDocument | src/pyhermit/backends/native_input.py:997-1047 | writes header, directory, padding and contents of the sections in order of kind, and refuses exactly repeated kinds, a bad alignment, a count past 32 bits, too many sections or too many bytes |
| DocumentWriter.ReaderAccepts | native/src/input_wire.rs:238-419 | the reader accepts a written document exactly when its kind, section kinds, record sizes and counts are ones it knows and allows |
| DocumentWriter.RoundTrip | native/src/input_wire.rs:302-398 | each kind is then listed with the slice that is its content and with the count that was written |
| DocumentWriter.WriterReader | native/src/input_wire.rs:238-419 | what the writer writes the reader accepts, exactly for known kinds within the limits, and its table carries every section |
| Pools.SortedJoinCheck | native/src/input_wire.rs:2049-2065 | the sort-based join-order check accepts exactly the permutations of the body positions |
| Pools.PairwiseJoinCheck | native/src/input_wire.rs:861-876 | the pairwise join-order check accepts exactly the permutations of the body positions |
| Pools.PermutesIffDistinct | native/src/input_wire.rs:861-876 | distinct positions below the length are exactly a permutation |
| Pools.DecodeClauses | native/src/input_wire.rs:2001-2083 | accepts exactly records that lay clauses out over the whole pool; concatenating bodies and heads gives the pool back |
| Pools.LayoutUnique | native/src/input_wire.rs:2001-2083 | records and pool determine the clauses |
| Pools.DecodeDisjunctions | native/src/input_wire.rs:2085-2140 | accepts exactly disjunction records that use up the ground atoms from the given one on; their disjuncts are those atoms again |
| Pools.DecodeFacts | native/src/input_wire.rs:1637-1673 | positive facts, negative facts and disjuncts together are the ground-atom pool again |
| PoolWriter.WriteClauses | src/pyhermit/backends/native_input.py:446-468 | writes each clause as ranges of one pool of atoms, its body before its head |
| PoolWriter.ClausesRead | native/src/input_wire.rs:2001-2083 | from what was written the decoder reads these clauses and no others, exactly when each has its place as number, is not empty, has sources in order and a join order that is a permutation |
| PoolWriter.WriteFacts | src/pyhermit/backends/native_input.py:236-247 | writes positive facts, negative facts and then the disjuncts of every disjunction |
| PoolWriter.FactsRead | native/src/input_wire.rs:1637-1673 | from what was written the decoder reads these facts and disjunctions and no others, exactly when every disjunction is one it takes |
| ResultWire.BytesRoundTrip | native/src/result_wire.rs:498-503 | little-endian words can be read back |
| ResultWire.WriteOffsetsAndValues | native/src/result_wire.rs:430-446 | appends the offsets and then the values; fails exactly when the values outnumber 32 bits |
| ResultWire.WriteRows | native/src/result_wire.rs:400-428 | appends key, offset and count of every row and then the values; fails exactly when the values outnumber 32 bits |
| ResultWire.NestedRoundTrip | native/src/result_wire.rs:430-446 | nested rows are recovered from offsets and values |
| ResultWire.RowsRoundTrip | native/src/result_wire.rs:400-428 | keyed rows are recovered from their heads and values |
| ResultWire.HierarchyLength | native/src/result_wire.rs:116-134 | the checked and saturating length formula is exact for 32-bit counts |
| ResultWire.HierarchyPayload | native/src/result_wire.rs:109-167 | writes the hierarchy layout, succeeds exactly for 32-bit counts, and the length computed beforehand is the length written |
| ResultWire.FinishDocument | native/src/result_wire.rs:448-471 | succeeds exactly within 512 MiB; the document states its kind, length, item count and digest, and every other header byte is zero |
| ResultWire.EncodeHierarchy | native/src/result_wire.rs:107-168 | returns a document of the hierarchy layout exactly for valid hierarchies within the output cap |
| ResultWire.HierarchyBytesRoundTrip | native/src/result_wire.rs:107-168 | the hierarchy is read back from its bytes, so the layout is injective |
| ResultWire.RealizationLengthExact | native/src/result_wire.rs:374-398 | the length computed from the counts is the length of the layout |
| ResultWire.ValidateRealization | native/src/result_wire.rs:277-360 | accepts exactly realizations whose groups partition the individuals and whose tables are sorted, in range and without repetition |
| ResultWire.RealizationPayload | native/src/result_wire.rs:205-268 | writes the realization layout, succeeds exactly for 32-bit counts, and the length computed beforehand is the length written |
| ResultWire.EncodeRealization | native/src/result_wire.rs:191-269 | returns a document of the realization layout exactly for valid realizations within the output cap |
| ResultWire.RealizationBytesRoundTrip | native/src/result_wire.rs:191-269 | every table is read back from the bytes, so the layout is injective |
| ResultReader.OpensIff | src/pyhermit/backends/native_wire.py:186-209 | the reader takes a header exactly when it is the one the writer puts in front of that payload |
| ResultReader.ReadHierarchy | src/pyhermit/backends/native_wire.py:59-98 | accepts exactly the documents the writer makes of a hierarchy, and returns that hierarchy |
| ResultReader.HierarchyReadIsWritten | src/pyhermit/backends/native_wire.py:59-98 | an accepted document is, byte for byte, the one the writer makes of what was read |
| ResultReader.HierarchyWrittenIsRead | native/src/result_wire.rs:107-168 | what the writer makes of a hierarchy is accepted and read as that hierarchy |
| RealizationReader.ReadRows | src/pyhermit/backends/native_wire.py:244-294 | accepts exactly row heads whose values follow one another and leave nothing over, with valid rows, and returns the rows |
| RealizationReader.ReadRealization | src/pyhermit/backends/native_wire.py:101-172 | accepts exactly the documents the writer makes of a realization, and returns that realization |
| RealizationReader.RealizationReadIsWritten | src/pyhermit/backends/native_wire.py:101-172 | an accepted document is, byte for byte, the one the writer makes of what was read |
| RealizationReader.RealizationWrittenIsRead | native/src/result_wire.rs:191-269 | what the writer makes of a realization is accepted and read as that realization |
| Session.NextInv | native/src/lib.rs:206-283 | every atomic step of every thread keeps the invariant |
| Session.Exclusive | native/src/lib.rs:206-277 | at every point of every history at most one thread holds the busy guard, and a body runs only on the present state, unclosed, under the lock |
| Session.AbsentOnlyWhenClosed | native/src/lib.rs:509-550 | the state is absent only if closed is set or a close holds the guard and sets it next |
| Session.NoBodyAfterTake | native/src/lib.rs:244-277 | after a close has taken the owned state no operation body ever runs |
| Session.RefusedAfterClose | native/src/lib.rs:206-283 | once closed, an operation or a close that starts later returns without taking the guard |
| Session.NoBodyAfterPoison | native/src/lib.rs:206-277 | after a panicking operation has stored the poison flag, no call that starts later runs a body |
| Session.PoisonedByPanic | native/src/lib.rs:206-277 | the flag is only ever set by an operation that panicked while it held the guard |
| Session.Progress | native/src/lib.rs:206-283 | whenever a thread is inside a call, some such thread can take a step |
| Transaction.Tableau.Checkpoint | native/src/native_tableau.rs:122-145 | takes both snapshots, or fails with the first failure in the order entry poll, capacity, capture, number and closing poll, and leaves the permanent state alone; only a failed closing poll leaves the engine snapshot registered |
| Transaction.Tableau.Install | native/src/native_tableau.rs:147-176 | puts a loaded state in front of the permanent one, or changes nothing |
| Transaction.Tableau.Drive | native/src/native_tableau.rs:73-79 | the search changes the query if there is one, else the permanent state |
| Transaction.Tableau.Finish | native/src/native_tableau.rs:178-206 | the query is gone in every case; a query offered for promotion is refused with nothing restored; otherwise the permanent state is restored or promoted, and the whole new state is given |
| Transaction.Tableau.Transact | native/src/session.rs:1184-1274 | poisons exactly when a poisoning failure comes first, or a rollback, a finish or a settled check fails; succeeds exactly when it does not poison and its checkpoint, query and search do; the new state is given in every case |
| Transaction.RefusalsDoNotPoison | native/src/session.rs:1184-1274 | a refusal with a restorable snapshot and a sound settled state never poisons |
| Transaction.UnhinderedSucceeds | native/src/session.rs:1184-1274 | an operation that nothing hinders, and whose finish succeeds, succeeds |
| Transaction.CheckpointAtomicIff | native/src/session.rs:231 | the engine's registry is as before exactly when the checkpoint was not lost by its closing poll |
| Transaction.CheckpointsAreLost | native/src/session.rs:231 | a script of replies under which checkpoint creation fails and leaves a snapshot registered |
| Transaction.BetweenOperations | native/src/native_tableau.rs:122-206 | after any number of operations there is no query, the permanent state is the one promoted last, and one snapshot is held for every checkpoint lost |
| Transaction.QueriesLeaveNoTrace | native/src/session.rs:868-910 | any number of query checks leaves the permanent state as it was |
| Transaction.CompletesIff | native/src/rules/engine.rs:281-307 | an operation nothing else hinders completes exactly when fewer checkpoints were lost than the engine may hold |
| Transaction.Exhausted | native/src/rules/engine.rs:281-307 | once that many are lost no operation completes and nothing changes |
| Decimal.Normalizes | native/src/lib.rs:5573-5589 | a numeral equals its significant digits at the computed decimal exponent |
| Decimal.MagnitudeDecides | native/src/lib.rs:5595 | the value alone decides whether the exponent is below -4 or at least 16 |
| Decimal.ExponentFormMeans | native/src/lib.rs:5595-5608 | the exponent form denotes the same value, without redundant digits |
| Decimal.PositionalFormMeans | native/src/lib.rs:5610-5631 | the positional form denotes the same value, without redundant zeros |
| Decimal.PythonFloatToken | native/src/lib.rs:5555-5633 | same value; exponent form iff the value is below 10^-4 or at least 10^16; no redundant zeros; for numerals shorter than 2^31, refusal exactly for zero or a decimal exponent past 32 bits |

## Left out

- Comparator.ValidateDenseNodeOrder: states an upper bound of the ordering pass's work, not its exact value, which depends on where neighbours first differ.
- Components.SplitPreservesSatisfiability: assumes that node ranks are injective, which the datatype solver's caller provides.
- BuiltinLaws.FastPathOnCompiled: the compiler is not part of this model; the kinds of built-in clauses it emits are described by `BuiltinLaws.Compiled`, and clauses of another kind with built-in provenance are outside the theorem.
- Existence.EverySetHasColumns: that the columns have room is stated of the layout, whose counts must fit the column widths; the ledger is arbitrary, and `Existence.ColumnsConform` asks that entities have a kind field.
- OwlOntology.OntologiesAreColumns: that the columns have room is stated of the layout; the rules of OWL 2 beyond the ledger, such as minimal sizes of operand sets, are not asked by the validator and not modelled.
- Formation.CombinedFormed: the decoder's order of the provenance table is not among its rules here, since merging appends the overlay's entries; checks against the role automata, the data property count, the datatype model and the expressivity flags are not modelled.
- Counterexample.BuildCounterexampleQuery: the order in which the canonical encoding sorts the two atoms of the clash clause is a parameter, and the table of symbol boundaries is checked but not kept beside the overlay.
- Combination.CollectNamed: the binary search over the ascending numbers of the naming predicates is membership among them.
- The data-property counterexample query: its meaning depends on datatype domains that are not part of this model.
- Merge: metadata, declared entities, the datatype model and the expressivity flags are copied unchanged by the source and not modelled; three copies of the merge code for clauses, facts and disjunctions are modelled once, over entries of identity and provenance.
- Document.Parse: error kinds and messages are one refusal, and the content hash is an arbitrary function.
- Pools.DecodeDisjunctions: as for clauses, the fields of a record are given.
- Pools.DecodeClauses: the fields of a record are given; reading them at fixed offsets is not modelled, and the predicate and sort checks of each atom are in `Formation`.
- ResultWire.EncodeHierarchy and ResultWire.EncodeRealization: the digest is an arbitrary function with 32-byte values, and check and delta results are not modelled.
- Taxonomy: building the hierarchy from subsumption answers is not modelled, only what it must be and that it exists.
- Transaction: polls, memory limits, loading and the search are replies and states given from outside; a poisoned session ends the history.
- Session: a call that read the poison flag before it was stored may still run a body after it, since the flag is loaded before the busy flag is claimed. Memory orderings are sequentially consistent.
- Decimal.PythonFloatToken: takes the numeral; printing a float as its shortest numeral and the sign, which positive values never have, are not modelled.
- Allocation failure, cancellation and time limits, error messages, and the Python boundary.
- The kernel, the rule engine beyond its checkpoints, blocking, the datatype solver, role automata and the classifier.
- The symbol-domain, predicate, role-model and datatype sections of the input decoder.
