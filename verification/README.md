# Verified model of the duckdb_api planner and connector contracts

The system turns a declarative connector package into relational scans: the connector compiles packages into an
immutable catalog, the planner decides which remote operation serves a scan and how much of the query's filter may be
pushed into the remote request, and DuckDB filters what comes back. This project models the parts whose correctness is
not visible from any single function, and proves what they promise.

- **Pushdown** (`Predicates`, `PredicateClassifier`, `Pushdown`, `MatchMeaning`). Requested predicates are
  AND/OR/NOT/comparison trees under three-valued logic; `Unsupported` leaves take any truth value. A remote response
  is any bag of rows the chosen mapping's occurrence law allows. `Pushdown.PlanAnswersQuery` is the end-to-end
  theorem: the plan's residual applied to any allowed response gives exactly the bag DuckDB's filter would give on the
  whole base domain. `MatchMeaning.MatchIff` says that a mapping serves exactly the comparisons that mean what it
  declares.
- **Catalog rules and selection** (`CatalogValidation`, `PlanStability`, `ExactPlans`, `ConjunctOrder`,
  `OperationSelection`, `SelectionMeaning`, `SelectorNormalization`, `TextOrder`). The pairwise rules on mappings are
  what makes an eligible operation executable: `OperationSelection.SelectedInputIsPlanned` goes from a chosen
  operation to the input carried by its plan; `SelectionMeaning.ChoiceIff` says which operation is chosen, in numbers
  of inputs.
- **GraphQL documents** (`GraphqlValidity`, `GraphqlText`, `GraphqlParser`, `GraphqlConnector`, `GraphqlPlanner`,
  `GraphqlBuilder`, `GraphqlDocument`, `GraphqlKnownDocument`, `GraphqlRules`, `GraphqlDeterminism`). Two generators,
  one by concatenation and one through a bounded buffer, are proved to produce the same bytes, and on every recipe a
  package can build the planner succeeds exactly when the connector accepts the recipe and its document fits; a parser
  of GraphQL documents reads every document back as the query its recipe asks for, a query that keeps the
  schema-independent rules of the specification; a document determines its recipe.
- **Text codecs** (`Utf8`, `Decimal`, `DoubleText`, `DoubleReading`, `FormCodec`, `Alphabet`). Three UTF-8 recognisers
  written in three ways accept what RFC 3629 defines, and the connector's request bytes are compared with those the
  planner expects. The text of a double reads back as the nearest number of seventeen digits.
- **Package reload** (`PackageVersion`, `TransportValidation`, `PackageReload`). The exact condition of each
  outcome of a reload, and facts over whole runs of reloads.
- **Envelopes and digests** (`Envelope`, `Sha256`, `Sha256Constants`, `Sha256KnownAnswer`). 64-bit checks that never
  overflow and agree across the two sides; the in-place SHA-256 against FIPS 180-4.
- **Public SQL inventory** (`SurfaceInventory`). Step-wise compatibility composes over a history.

Strings of the C++ code are Dafny strings whose characters stand for bytes. Exceptions become `Err`, `None` or `Fail`.
Integers are unbounded except where the code's width matters, which is then written out (`Envelope.UInt64`,
`Sha256Constants.Word`, the 32-bit component limit of `PackageVersion`, the 64-bit literals of `GraphqlValidity`).
Code that loops over accumulators is a method proved against a function; `BoundedDocument` is a class; SHA-256 keeps
its arrays.

Four properties one might expect are false of the code, and the model says exactly how far they hold:

- Exact implies equivalence (`Pushdown.ExactMeansEquivalent`), but not the other way round: a comparison repeated
  beside and below a nested conjunction is equivalent to the one mapped equality and planned as a Superset
  (`ExactPlans.NestedRepeatIsSuperset`, and `ExactPlans.ControlledNestedIsSuperset` on a concrete relation).
  `ExactPlans.ExactIff` says, for every accepted relation, which trees are planned Exact.
- A conflict of bindings is not the only way to an Ambiguous plan: two native mappings may bind two inputs of one
  operation (`PlanStability.NativePlanCanBeAmbiguous`). `PlanStability.AmbiguousIff` gives the exact condition, and
  that package relations never meet its second half.
- "Compared the same" on reload is not equality: two relations that differ in the continuation path of a pagination,
  or in the name of a credential header, compare the same (`PackageReload.SameRelationIsNotEquality`), and a release
  that changes only these counts as a change of provenance (`PackageReload.MovedContinuationIsProvenance`).
  `PackageReload.SameRelationIff` says exactly what is compared. Its condition on NaNs never fails for a compiled
  package, whose text cannot spell one.
- The connector's encoding of a value is not always the one the planner binds: a DOUBLE that rounds to 10^17 or more
  in magnitude is printed with a `+`, such as the predicate literal 1e20, and that `+` is escaped by the one and not
  by the other (`FormCodec.LargePowerDiffers`). `FormCodec.ConnectorBytesAcceptedIff` says that nothing else differs.
  The planner binds its own encoding of a predicate's literal, so such a scan is planned; only the declared bytes
  differ.

## Model

| member | source | states |
|---|---|---|
| PredicateClassifier.CollectLeafMatches | src/semantics/predicate_classifier.cpp:322-332 | One comparison contributes its matches in declaration order, or raises the unmapped flag |
| PredicateClassifier.CollectConjunctiveMatches | src/semantics/predicate_classifier.cpp:316-345 | The tree walk appends exactly the matches of the comparisons reachable through conjunctions alone and flags all other structure |
| PredicateClassifier.CollectFromChildren | src/semantics/predicate_classifier.cpp:333-337 | The walk over the children of a conjunction, left to right, appends their matches |
| PredicateClassifier.InsertByName | src/semantics/predicate_classifier.cpp:473-475 | Insertion keeps the bindings sorted by name and the bag of bindings |
| PredicateClassifier.SortBindings | src/semantics/predicate_classifier.cpp:473-475 | Sorting yields a name-ordered permutation |
| PredicateClassifier.BindMatches | src/semantics/predicate_classifier.cpp:460-476 | The bindings hold each matched input once, sorted; conflict is reported exactly when one input is asked for two values |
| PredicateClassifier.ResolveCandidateInputBindings | src/semantics/predicate_classifier.cpp:444-477 | Bindings are those of the candidate matches, none without both capabilities; it fails exactly on a broken contract or inconsistent mapping facts |
| PredicateClassifier.ConjunctiveMatchesAreMatches | src/semantics/predicate_classifier.cpp:316-345 | Every collected pair is a declared mapping of the relation that matches its candidate |
| PredicateClassifier.CollectedFactsHold | src/semantics/predicate_classifier.cpp:146-198 | The facts checked for the whole operation cover every collected match, so the walk cannot fail after them |
| PredicateClassifier.Classify | src/semantics/predicate_classifier.cpp:479-541 | The staged decision of the code, with its walk and early exits, is the decision function about which the theorems below speak |
| Pushdown.MatchMeansEquality | src/semantics/predicate_classifier.cpp:251-277 | A matched comparison has on every row the three-valued truth of the mapping's column equality, NULLs included |
| Pushdown.RestrictionKeepsTrueRows | README.md:157-160 | Whatever the decision, a row on which the requested predicate is TRUE satisfies the remote restriction |
| Pushdown.PushdownPreservesMeaning | src/semantics/predicate_classifier.cpp:479-541 | For every tree, relation, base bag and allowed response, a filter that implies the requested predicate keeps the same multiset from the response as from the base |
| Pushdown.ExactMeansEquivalent | src/semantics/predicate_classifier.cpp:509-530 | An Exact decision: the whole requested tree has the truth value of the one mapped equality on every row |
| Pushdown.ExactResponseIsTheAnswer | src/semantics/predicate_classifier.cpp:509-530 | Under an Exact decision the only allowed response is the requested selection of the base, with multiplicities |
| Pushdown.ResidualIsFilter | src/semantics/predicate_classifier.cpp:347-383 | The residual in the plan has, row by row and in three values, the truth of the filter DuckDB retains for the request's scope |
| Pushdown.PlanAnswersQuery | src/semantics/scan_planner_validation.cpp:480-486 | Remote restriction and residual together: residual on any allowed response equals DuckDB's filter on the base, as bags, for every scope that agrees with the predicate |
| Pushdown.PartialRequestIsNotExact | src/semantics/scan_planner_validation.cpp:487-497 | An admitted request that is only a part of DuckDB's filter is never planned Exact and keeps the complete filter as residual |
| CatalogValidation.ValidatePredicateMappings | src/connector/predicate_declaration.cpp:369-441 | The nested loops accept exactly the mapping lists in which every mapping meets its column, request and proof-profile rules and every pair its own |
| CatalogValidation.PackageAcceptedIff | src/connector/predicate_declaration.cpp:369-441 | Package mappings are accepted exactly if each has its scalar column and a REST operation that sends its input under a free name, and those of one operation share the input under distinct values and texts |
| CatalogValidation.AcceptedIsCatalogRelation | src/connector/catalog_model.cpp:559-588 | An accepted relation has distinct columns and only the one native equality |
| CatalogValidation.AcceptedFactsHold | src/connector/predicate_declaration.cpp:186-244 | Every fact the classifier re-checks holds of an accepted relation, so classification never fails on them |
| PlanStability.MatchDeterminedByBinding | src/connector/predicate_declaration.cpp:420-438 | In an accepted relation equal bindings come from one mapping, and package mappings of one operation share their input |
| PlanStability.SameMappingSameMatch | src/semantics/predicate_classifier.cpp:404-425 | In an accepted relation two matches of one mapping compare as the same mapping and binding |
| PlanStability.EquivalentIffOneBinding | src/semantics/predicate_classifier.cpp:427-440 | Matches count as equivalent exactly when they ask for one input with one value |
| PlanStability.AmbiguousIff | src/semantics/predicate_classifier.cpp:509-520 | With both capabilities and a comparison or conjunction: Ambiguous exactly when bindings conflict or name two inputs, the latter never in a package relation |
| PlanStability.NativePlanCanBeAmbiguous | src/connector/predicate_proof_profile.cpp:105-135 | A concrete accepted native relation whose bindings do not conflict and whose plan is Ambiguous |
| PlanStability.BoundInputIsPlanned | src/semantics/predicate_classifier.cpp:509-541 | An input bound without conflict is carried by an Exact or Superset plan |
| PlanStability.OneBinding | src/connector/compiled_package_generation.cpp:543-553 | A package operation never has more than one binding |
| ExactPlans.PackageServesAlone | src/connector/predicate_declaration.cpp:420-438 | In an accepted package relation a mapping that serves a comparison is the only one that does |
| ExactPlans.AloneHasOneMatch | src/semantics/predicate_classifier.cpp:322-332 | A comparison that one mapping serves alone has that one match |
| ExactPlans.RepeatsCollects | src/semantics/predicate_classifier.cpp:316-345 | A tree of comparisons that one mapping serves alone yields one match per comparison, all of that mapping, and no unmapped structure |
| ExactPlans.CollectedRepeats | src/semantics/predicate_classifier.cpp:316-345 | Conversely, matches of one mapping and no unmapped structure come only from such a tree |
| ExactPlans.ExactIff | src/semantics/predicate_classifier.cpp:522-530 | With both capabilities, the plan of any accepted relation, package or native, is Exact if and only if one Exact mapping alone serves the whole tree: a comparison, or a conjunction with as many comparisons as children |
| ExactPlans.NestedIsBuildable | src/semantics/relational_predicate.cpp:219-241 | The counterexample tree meets every structural rule of the query's own tree constructors |
| ExactPlans.NestedRepeatIsSuperset | src/semantics/predicate_classifier.cpp:436-440 | A buildable tree that repeats one comparison, served alone by an Exact mapping, has the truth of the mapped equality on every row and yet is planned as a Superset |
| ExactPlans.ControlledNestedIsSuperset | src/connector/predicate_proof_profile.cpp:105-135 | The concrete accepted relation of the exactness fixtures shows it |
| MatchMeaning.MatchIff | src/semantics/predicate_classifier.cpp:251-277 | In an accepted relation a declared mapping serves a comparison if and only if the comparison has, on every row, the truth of the mapped equality |
| MatchMeaning.MappedComparisonIsPlanned | src/semantics/predicate_classifier.cpp:479-541 | A request that means one package mapping is planned with that mapping's accuracy, input, column and value |
| MatchMeaning.ServedIsCollected | src/semantics/predicate_classifier.cpp:316-345 | Matches are collected exactly if some comparison reachable through conjunctions is served |
| MatchMeaning.UnsupportedIff | src/semantics/predicate_classifier.cpp:479-507 | Unsupported exactly if a capability is missing or nothing is served; the remote restriction is TRUE and no input is bound exactly for Unsupported and Ambiguous |
| MatchMeaning.ReasonIff | src/semantics/predicate_classifier.cpp:385-398 | Each of the nine reasons has its exact condition on the request, the capabilities and the category |
| MatchMeaning.ResidualIff | src/semantics/predicate_classifier.cpp:347-383 | Which of the residuals DuckDB keeps, exactly, for package relations |
| MatchMeaning.AllowedIff | README.md:157-160 | The answers a plan allows, row by row: matching rows in full, and of the others none under an exact declaration |
| MatchMeaning.BindingsHoldIff | src/semantics/predicate_classifier.cpp:279-303 | A request is well bound exactly if every comparison in it names a scalar column of its type |
| MatchMeaning.FailsIff | src/semantics/predicate_classifier.cpp:305-314 | Planning against an accepted relation fails exactly if the request is too deep, too large or ill bound |
| MatchMeaning.PackageFactsIff | src/semantics/predicate_classifier.cpp:146-198 | For a built package mapping the re-checked facts ask no more than the operation's name |
| MatchMeaning.LimitsAreExact | src/semantics/relational_predicate.cpp:219-241 | The limits of a request are exactly 64 nodes and 16 levels |
| ConjunctOrder.ReorderingKeepsMatches | src/semantics/predicate_classifier.cpp:316-345 | Permuting conjuncts at any depth permutes the collected matches |
| ConjunctOrder.ReorderingKeepsUnmapped | src/semantics/predicate_classifier.cpp:316-345 | Permuting conjuncts keeps the unmapped flag |
| ConjunctOrder.ReorderingKeepsSizes | src/semantics/predicate_classifier.cpp:305-314 | Permuting conjuncts keeps depth and node count, so the contract check too |
| ConjunctOrder.EquivalenceIgnoresOrder | src/semantics/predicate_classifier.cpp:427-440 | Comparing all matches with the first does not depend on which is first, nor does the plan taken from it |
| ConjunctOrder.ConflictIgnoresOrder | src/semantics/predicate_classifier.cpp:460-472 | The conflict flag does not depend on the order of matches |
| ConjunctOrder.BindingsIgnoreOrder | src/semantics/predicate_classifier.cpp:444-477 | The sorted bindings do not depend on the order of matches |
| ConjunctOrder.PlanIgnoresConjunctOrder | src/semantics/predicate_classifier.cpp:444-541 | Permuting the children of conjunctions at any depth changes neither the decision with its payload nor the bindings and conflict flag |
| OperationSelection.HasConditionalBinding | src/semantics/operation_selection.cpp:14-18 | The scan finds a binding exactly when some match binds the input |
| OperationSelection.EvaluateV1 | src/semantics/operation_selection.cpp:32-44 | A v1 operation is eligible exactly when every required input is resolved or bound without conflict; its rank counts them |
| OperationSelection.EvaluateLegacy | src/semantics/operation_selection.cpp:46-71 | The running maximum is the largest satisfied alternative; forbidden and required inputs decide eligibility |
| OperationSelection.Evaluate | src/semantics/operation_selection.cpp:73-80 | The rank of an operation, failing exactly where resolving its bindings fails |
| OperationSelection.SelectOperation | src/semantics/operation_selection.cpp:108-145 | Returns the unique highest-ranked eligible non-fallback operation, the fallback only when none is eligible, and fails exactly when there is no such choice (tie at the top, no fallback, broken contract) |
| OperationSelection.TiedHasNoChoice | src/semantics/operation_selection.cpp:113-136 | A tie at the top rank leaves no operation to choose |
| SelectionMeaning.RankIff | src/semantics/operation_selection.cpp:32-71 | The rank of a ready operation is its priority and the largest number of inputs that make it ready |
| SelectionMeaning.WinnerIff | src/semantics/operation_selection.cpp:82-89 | The winner is ready and uses more inputs than every other ready operation, or as many at a higher priority |
| SelectionMeaning.ChoiceIff | src/semantics/operation_selection.cpp:93-145 | Selection returns an operation exactly if it wins in these numbers, or is the ready fallback and no other operation is ready |
| SelectionMeaning.ChosenRequiresMost | src/semantics/operation_selection.cpp:82-145 | A chosen v1 operation has more references than every other ready v1 operation |
| OperationSelection.ChoiceUnique | src/semantics/operation_selection.cpp:82-89 | There is at most one choice |
| OperationSelection.ChoiceIgnoresOrder | src/semantics/operation_selection.cpp:108-145 | The choice is independent of the declaration order of operations |
| OperationSelection.SelectedInputIsPlanned | src/semantics/operation_selection.cpp:93-145 | In an accepted package relation each conditional input a chosen v1 operation requires is the one its Exact or Superset plan carries |
| SelectorNormalization.SelectLeast | src/connector/operation_selector.cpp:50-56 | One pass of the selection sort finds a least reference not yet emitted |
| SelectorNormalization.NormalizeRequiredReferences | src/connector/operation_selector.cpp:41-65 | Yields the strictly sorted permutation of its input and fails exactly on a duplicate or more than 128 references |
| SelectorNormalization.SortedIff | src/connector/operation_selector.cpp:34-39 | The order puts relation inputs before conditional inputs, each group by rising id |
| TextOrder.LessIff | src/connector/operation_selector.cpp:34-39 | Ids compare at the first byte in which they differ |
| SelectorNormalization.SelectorsCompareAsSets | src/connector/operation_selector.cpp:230-245 | Two normalised v1 selectors compare the same exactly when their reference sets are equal |
| Utf8.DecodableIff | src/connector/graphql_query_recipe.cpp:61-100 | Step-wise decoding succeeds exactly on concatenated encodings of Unicode scalar values, with or without the control-character ban |
| Utf8.DecodeInvertsEncode | src/semantics/planned_protocol_operation.cpp:15-54 | Decoding the encoding of a scalar value, followed by anything, gives it back |
| Utf8.EncodeInvertsDecode | src/semantics/planned_protocol_operation.cpp:15-54 | Whatever decodes is the shortest-form encoding of the scalar value returned |
| Utf8.IsValidUtf8 | src/connector/graphql_query_recipe.cpp:61-100 | The recipe validator accepts exactly UTF-8 (section 3 of RFC 3629) |
| Utf8.TableAgrees | src/connector/protocol_operation_declaration.cpp:92-131 | The table of lead and second-byte ranges decodes like the definition |
| Utf8.IsValidUtf8Text | src/connector/protocol_operation_declaration.cpp:86-138 | The range-table validator accepts exactly UTF-8 without code points 0-0x1F and 0x7F-0x9F |
| Utf8.DecodeUtf8CodePoint | src/semantics/planned_protocol_operation.cpp:15-54 | The planner's decoder reads one scalar value at the offset or fails, as the definition does |
| Utf8.ValidateVarchar | src/semantics/planned_protocol_operation.cpp:56-64 | The planner's check accepts exactly the same texts as the connector's |
| Utf8.PlainIff | src/connector/protocol_operation_declaration.cpp:86-138 | Text without control code points, said of its bytes: none up to 1F, no 7F, no C2 with a byte up to 9F behind it |
| Utf8.KnownEncodings | src/semantics/planned_protocol_operation.cpp:15-54 | The code points of the examples in section 7 of RFC 3629 have the bytes printed there |
| Decimal.ValueOfNumeral | src/connector/protocol_operation_declaration.cpp:663-665 | The numeral of a number is canonical and reads back |
| Decimal.NumeralOfValue | src/connector/package_semver.cpp:15-33 | A canonical numeral is the numeral of its value |
| FormCodec.FormUrlEncode | src/connector/protocol_operation_declaration.cpp:140-156 | The loop produces the byte-by-byte form encoding |
| FormCodec.DecodeInvertsEncode | src/connector/protocol_operation_declaration.cpp:140-156 | A decoder that reads only unreserved characters (section 2.3 of RFC 3986), `+` and percent triplets inverts the encoding on every byte string |
| FormCodec.UnreservedIsIdentity | src/semantics/planned_protocol_operation.cpp:66-86 | Unreserved text encodes to itself |
| FormCodec.UnreservedIff | src/semantics/planned_protocol_operation.cpp:66-86 | The unreserved characters, written out |
| FormCodec.KnownForm | src/connector/protocol_operation_declaration.cpp:140-156 | A space becomes a plus, the plus and the percent sign their upper-case triplets |
| DoubleText.PrintsPlusIff | src/connector/protocol_operation_declaration.cpp:643-650 | What `%.17g` prints for a double holds a `+` exactly when the value is finite and its magnitude is at least 10^17 - 1/2, so rounds to 10^17 |
| DoubleText.WholePrintsPlusIff | src/connector/protocol_operation_declaration.cpp:643-650 | For whole numbers the bound is 10^17 |
| DoubleText.PowerOfTenPrints | src/semantics/planned_protocol_operation.cpp:93-100 | 10^k prints as `1e+k` for every k of 17 or more |
| DoubleText.PrintedFits | src/semantics/planned_protocol_operation.cpp:93-100 | Every double of binary64 prints to at least one and fewer than 64 characters, so the buffer check never fails |
| DoubleReading.RoundsToNearest | src/connector/protocol_operation_declaration.cpp:643-650 | A double is rounded to the nearest number of seventeen digits, halfway to an even last digit |
| DoubleReading.TextRead | src/connector/protocol_operation_declaration.cpp:643-650 | A reader of decimal text takes the text of seventeen digits and an exponent back to their number, in both styles and with zeros cut off |
| DoubleReading.PrintedReads | src/semantics/planned_protocol_operation.cpp:93-100 | The printed text of any finite double reads as that nearest number, with the sign of the double |
| DoubleReading.StyleIff | src/semantics/planned_protocol_operation.cpp:93-100 | An exponent is printed exactly for rounded values below 10^-4 and from 10^17 on |
| FormCodec.EncodeCompiledQueryScalar | src/connector/protocol_operation_declaration.cpp:643-683 | The connector's bytes for every scalar: the form encoding of the text it stands for; NULL and invalid text have none |
| FormCodec.SentReadsBack | src/connector/protocol_operation_declaration.cpp:643-683 | What is sent for a BOOLEAN, BIGINT or VARCHAR reads back as the value |
| FormCodec.CheckQueryBinding | src/semantics/planned_protocol_operation.cpp:104-180 | The planner accepts exactly the bindings with agreeing source, payload kind and expected bytes |
| FormCodec.AcceptedIff | src/semantics/planned_protocol_operation.cpp:104-180 | Acceptance said of the binding: a name, an input id exactly for inputs, and one value alone with its bytes |
| FormCodec.PlannerAcceptsConnectorBytes | src/semantics/planned_protocol_operation.cpp:160-179 | For every BOOLEAN, BIGINT and VARCHAR, and every DOUBLE that does not round to 10^17 or more in magnitude, the planner accepts exactly the bytes the connector makes |
| FormCodec.ConnectorBytesAcceptedIff | src/connector/protocol_operation_declaration.cpp:672-680 | The planner accepts the connector's bytes of a value if and only if the value is no finite double that rounds to 10^17 or more in magnitude |
| FormCodec.LargePowerDiffers | src/connector/package/package_predicate_compiler.cpp:77-85 | For the predicate literal 10^k, k at least 17, the connector declares `1e%2Bk` and the planner must bind `1e+k` |
| FormCodec.DoubleHasBytes | src/connector/protocol_operation_declaration.cpp:643-650 | Every double of binary64 has connector bytes |
| GraphqlValidity.MagnitudeWithin | src/semantics/graphql_generator_recipe_planner.cpp:43-66 | The accumulating check accepts exactly the digit strings up to the maximum and stops before it could overflow |
| GraphqlValidity.IsSigned64Integer | src/semantics/graphql_generator_recipe_planner.cpp:43-66 | Accepts exactly the canonical spellings of signed 64-bit integers |
| GraphqlValidity.ValidateLiteral | src/connector/graphql_query_recipe.cpp:102-161 | The recursive check with its node counter accepts exactly sound literals within the depth and node limits |
| GraphqlValidity.ValidateItems | src/connector/graphql_query_recipe.cpp:135-144 | The same for the items of a list, threading the counter |
| GraphqlValidity.ValidateFields | src/connector/graphql_query_recipe.cpp:145-157 | The same for the fields of an object, whose names are valid and distinct |
| GraphqlValidity.PathKeysDiffer | src/connector/graphql_query_recipe.cpp:431-452 | A key joined by a line break tells its path, because names hold none |
| GraphqlValidity.ValidateSelections | src/connector/graphql_query_recipe.cpp:431-452 | The three-set overlap loop accepts exactly when columns are distinct and no two selections share a first field (section 5.3.2 of the GraphQL specification) |
| GraphqlValidity.ValidateRecipe | src/connector/graphql_query_recipe.cpp:390-453 | Accepts exactly the valid recipes, in either integer rule |
| GraphqlDocument.NameIff | src/connector/graphql_query_recipe.cpp:15-31 | A valid name is exactly one name token of the grammar, of at most 255 characters, that does not start with two underscores |
| GraphqlParser.LiteralParses | src/connector/graphql_query_recipe.cpp:204-231 | A recursive-descent parser of section 2.9 of the GraphQL specification reads a rendered literal back, whatever delimiting text follows |
| GraphqlParser.StringParses | src/connector/graphql_query_recipe.cpp:163-202 | Quoted and escaped strings parse back to the bytes they came from |
| GraphqlParser.RenderedLiteralParsesBack | src/connector/graphql_query_recipe.cpp:102-231 | The whole rendered text of every sound literal parses back to it, nested lists and objects and the enum versus true/false/null split included |
| GraphqlText.EscapeLength | src/connector/graphql_query_recipe.cpp:163-202 | Which characters a string shows as they are, which as two characters and which as six |
| GraphqlDocument.DocumentIsItsQuery | src/connector/graphql_query_recipe.cpp:455-489 | A recursive-descent parser of section 2 of the GraphQL specification reads the document of every valid recipe as one query: its name, `Int!` and `String` variables, nested root path, bound and constant arguments, node selections and page facts |
| GraphqlDocument.PathRead | src/semantics/graphql_generator_recipe_planner.cpp:426-493 | From any position of the root path on, the rest of a document reads as the nested fields up to the connection, and every block is closed |
| GraphqlDocument.ConnectionRead | src/connector/graphql_query_recipe.cpp:472-485 | The connection reads as its nodes with their selections and its page facts |
| GraphqlDocument.BlockRead | src/connector/graphql_query_recipe.cpp:463-471 | Its arguments read as the page size and cursor variables followed by the constants |
| GraphqlKnownDocument.CanonicalDocument | src/connector/graphql_operation_declaration.cpp:22-89 | The repository metrics recipe has exactly the document the connector writes out, indentation included |
| GraphqlRules.QueryKeepsRules | src/connector/graphql_query_recipe.cpp:390-453 | The query of every valid recipe keeps the rules of section 5 of the GraphQL specification that need no schema: unique variables, all defined and all used, unique arguments and input fields, no response keys to merge |
| GraphqlConnector.RenderString | src/connector/graphql_query_recipe.cpp:163-202 | The loop produces the escaped string token |
| GraphqlConnector.RenderLiteral | src/connector/graphql_query_recipe.cpp:204-231 | Concatenation produces the text the parser inverts |
| GraphqlConnector.RenderCompiledGraphqlQueryRecipe | src/connector/graphql_query_recipe.cpp:455-489 | Renders exactly the valid recipes, each to its document |
| GraphqlPlanner.BoundedDocument.constructor | src/semantics/graphql_generator_recipe_planner.cpp:312-314 | An empty document within its maximum |
| GraphqlPlanner.BoundedDocument.Append | src/semantics/graphql_generator_recipe_planner.cpp:316-325 | Appends exactly when the part fits, else changes nothing; the size never exceeds the maximum, so the remaining room never underflows |
| GraphqlPlanner.BoundedDocument.Push | src/semantics/graphql_generator_recipe_planner.cpp:327-332 | The same for one character |
| GraphqlPlanner.RenderString | src/semantics/graphql_generator_recipe_planner.cpp:343-381 | Emits the connector's string token or fails exactly when it does not fit |
| GraphqlPlanner.RenderLiteral | src/semantics/graphql_generator_recipe_planner.cpp:383-420 | Emits the connector's literal text or fails exactly when it does not fit |
| GraphqlPlanner.RenderRecipe | src/semantics/graphql_generator_recipe_planner.cpp:426-493 | Through the bounded buffer: the connector's document if it fits the budget, nothing otherwise |
| GraphqlPlanner.CopyLiteral | src/semantics/graphql_generator_recipe_planner.cpp:497-539 | The deep copy is the literal itself and succeeds exactly on literals valid under the 64-bit rule |
| GraphqlPlanner.StrictLiteral | src/semantics/graphql_generator_recipe_planner.cpp:186-245 | The planner's literal rule is the connector's plus 64-bit integers |
| GraphqlBuilder.BuiltIntegersFit | src/connector/graphql_query_recipe.cpp:491-523 | Every literal the builders can make, nested ones included, holds only integers of signed 64 bits |
| GraphqlBuilder.BuiltRecipePlans | src/semantics/graphql_generator_recipe_planner.cpp:541-572 | For every built package recipe and every budget in 1..65536 the planner succeeds if and only if the connector accepts the recipe and its document fits |
| GraphqlBuilder.IsCanonicalSigned | src/connector/package/package_schema_helpers.cpp:68-94 | Accepts exactly plain canonical spellings of signed 64-bit integers and returns their value; no step overflows |
| GraphqlBuilder.CompiledIsBuilt | src/connector/package/package_graphql_renderer.cpp:115-168 | Whatever a package declares, the compiled literal is one the builders make |
| GraphqlBuilder.CompiledMirrors | src/connector/package/package_graphql_renderer.cpp:115-166 | A declaration compiles exactly if its integers are plain canonical 64-bit ones, and then says the same at every depth |
| GraphqlBuilder.CompiledIntegerKeepsValue | src/connector/package/package_graphql_renderer.cpp:123-130 | The compiled spelling of a declared integer reads as the declared number |
| GraphqlPlanner.StrictRecipe | src/semantics/graphql_generator_recipe_planner.cpp:247-308 | The planner's recipe rule is the connector's plus 64-bit integers |
| GraphqlPlanner.Plan | src/semantics/graphql_generator_recipe_planner.cpp:541-572 | Succeeds exactly on package recipes with 64-bit integers and a budget in 1..65536 that the connector renders within the budget; the result is the recipe and the connector's document byte for byte |
| GraphqlDeterminism.RootsDetermine | src/connector/graphql_query_recipe.cpp:462-466 | Equal texts of the root path come from equal paths |
| GraphqlDeterminism.ArgumentsDetermine | src/connector/graphql_query_recipe.cpp:467-471 | Equal argument blocks come from equal arguments |
| GraphqlDeterminism.SelectionsDetermine | src/connector/graphql_query_recipe.cpp:474-480 | Equal selection blocks come from equal field paths |
| GraphqlDeterminism.DocumentDeterminesRecipe | src/connector/graphql_query_recipe.cpp:390-489 | Two valid recipes with equal documents are equal except for identity tag and column names |
| PackageVersion.ParseComponent | src/connector/package_semver.cpp:15-33 | Accepts exactly canonical numerals up to 2^32-1 and returns their value; the overflow guard is exact |
| PackageVersion.ParseIff | src/connector/package_semver.cpp:35-47 | A text parses to a version exactly when it is that version's one spelling and the version is in range |
| PackageVersion.SpellingParses | src/connector/package_semver.cpp:15-68 | Three numerals with dots parse exactly if each has 32 bits, and to those numbers |
| PackageVersion.CompareIff | src/connector/package_semver.cpp:70-81 | Versions compare as their places in one numbering: major before minor before patch |
| PackageReload.SamePaginationIff | src/connector/package_compatibility.cpp:70-83 | Exactly which part of a pagination is compared |
| PackageReload.SameOperationIff | src/connector/package_compatibility.cpp:249-262 | Operations compare the same if and only if their compared parts are equal and hold no NaN |
| PackageReload.SameRelationIff | src/connector/package_compatibility.cpp:320-350 | Relations compare the same if and only if they are equal but for type texts, generation identities, the placement name and continuation paths, and hold no NaN |
| PackageReload.ContinuedRelationIsAccepted | src/connector/pagination_declaration.cpp:233-314 | A relation that follows a continuation URL and sends a named header passes the mapping, selector, pagination and credential checks for every path that starts with `$` and names no collection and every non-empty header name |
| PackageReload.SameRelationIsNotEquality | src/connector/package_compatibility.cpp:293-307 | Two such accepted relations compare the same and differ whenever path or header name do |
| PackageReload.MovedContinuationIsProvenance | src/connector/package_compatibility.cpp:465-505 | A later patch that changes only these is classified as a compatible change of provenance |
| PackageReload.SameDescriptorReflexiveIff | src/connector/package_compatibility.cpp:370-381 | A descriptor compares the same as itself exactly when it holds no NaN |
| PackageReload.ReloadOfActiveIff | src/connector/package_compatibility.cpp:465-505 | Reloading the active generation is an exact no-op if and only if its version parses and its descriptor holds no NaN |
| PackageReload.NoOpIff | src/connector/package_compatibility.cpp:478-487 | A reload is an exact no-op if and only if the identities are equal, digest included, the version parses and the descriptors compare the same |
| PackageReload.ClassificationIff | src/connector/package_compatibility.cpp:465-505 | The exact condition of each other outcome for one package, on the version numbers and the descriptors |
| PackageReload.OtherPackageIff | src/connector/package_compatibility.cpp:465-477 | Another specification or connector is incompatible whatever the rest; no outcome exactly if one package has a version that does not parse |
| PackageReload.AddsIff | src/connector/package_compatibility.cpp:383-395 | Appending only: cut back to as many relations, the candidate compares the same |
| PackageReload.SameLiteralIsEquality | src/connector/package_compatibility.cpp:139-157 | The recursive comparison of literals is equality |
| PackageReload.SameGraphqlIsEquality | src/connector/package_compatibility.cpp:159-212 | GraphQL operations are compared in full |
| PackageReload.SameOperationTransitive | src/connector/package_compatibility.cpp:249-262 | The comparison of operations composes |
| PackageReload.SameRelationTransitive | src/connector/package_compatibility.cpp:320-350 | The comparison of relations composes |
| PackageReload.PrefixTransitive | src/connector/package_compatibility.cpp:383-395 | So does standing at the front of a relation list |
| PackageReload.ChangedIff | src/connector/package_compatibility.cpp:427-431 | A reload changes the active generation exactly when the candidate is a later release of the same package, major version and network policy that only adds, and adds only in a later minor |
| PackageReload.ExtendsTransitive | src/connector/package_compatibility.cpp:465-505 | Later releases that only add compose |
| PackageReload.RunOnlyExtends | src/connector/package_compatibility.cpp:465-505 | Over any run, a later state is the earlier one or extends it: specification, connector, major version and network policy fixed, versions strictly growing, earlier relations a prefix, one minor version one descriptor |
| PackageReload.RunVersionsDistinct | src/connector/package_semver.cpp:70-81 | Two states of a run with one version are one generation |
| Envelope.FitsBigintPageSequence | src/connector/pagination_declaration.cpp:14-22 | Holds exactly when all three counts are positive and the last page number is a BIGINT; no step overflows |
| Envelope.PageSequenceFits | src/connector/pagination_declaration.cpp:14-22 | Then every page number of the scan is a positive BIGINT and no page is asked for twice |
| Envelope.ValidateResourceCeilings | src/connector/catalog_model.cpp:149-178 | The checked products never overflow; a paginated envelope is accepted exactly when page fits scan and scan fits pages in 64 bits, an unpaginated one exactly when page and scan ceilings are equal and positive |
| Envelope.ValidateBodyScope | src/connector/protocol_operation_declaration.cpp:911-927 | Accepted exactly when the scan's bodies fit body times pages times attempts, within 64 bits |
| Envelope.Attempts | src/connector/protocol_operation_declaration.cpp:913-917 | The attempts are the largest of one, the retry recommendation and, if the policy waits, its attempts, so no division by zero |
| Envelope.FitsPageSequence | src/semantics/graphql_operation_planner.cpp:216-219 | The planner's check is the same bound |
| Envelope.PlannerAcceptsBody | src/semantics/graphql_operation_planner.cpp:426-448 | The planner's body check is the same bound with pages times attempts |
| Envelope.EnvelopesAgree | src/semantics/graphql_operation_planner.cpp:426-459 | Planner and connector give one verdict, up to the network response limit only the planner sees |
| Sha256.PaddingIsLeast | src/connector/content_digest.cpp:32-39 | Counted in bits, the padding adds the fewest zero bits section 5.1.1 of FIPS 180-4 allows |
| Sha256.PaddingInjective | src/connector/content_digest.cpp:31-39 | Different messages, of whatever lengths, are padded differently |
| Sha256.PadMessage | src/connector/content_digest.cpp:31-39 | The loops build the padded message, the length wrapped at 64 bits |
| Sha256Constants.RoundConstantsAreCubeRoots | src/connector/content_digest.cpp:20-28 | Each of the sixty-four round constants is the first 32 bits of the fractional part of the cube root of the prime in its place (section 4.2.2) |
| Sha256Constants.PrimesAreThoseBelow313 | src/connector/content_digest.cpp:20-28 | The sixty-four ascending numbers of that table are exactly the primes below 313, so the first sixty-four |
| Sha256.InitialWords | src/connector/content_digest.cpp:29-30 | The initial words are the fractional square roots of the first eight primes (section 5.3.3) |
| Sha256.WordBefore | src/connector/content_digest.cpp:51-55 | A scheduled word, though summed in another order, is the standard's |
| Sha256.ExpandBlock | src/connector/content_digest.cpp:42-56 | The filled array is the message schedule of section 6.2.2 |
| Sha256.RunRounds | src/connector/content_digest.cpp:57-74 | The eight working variables after the loop are the sixty-four rounds of section 6.2.2 |
| Sha256.CompressBlock | src/connector/content_digest.cpp:57-82 | In place, the state becomes the next hash value |
| Sha256.HexOfWordsInjective | src/connector/content_digest.cpp:85-90 | The hexadecimal text determines the words |
| Sha256.ComputeSha256Hex | src/connector/content_digest.cpp:19-91 | The in-place computation returns the standard's digest, 64 lower-case hexadecimal characters |
| Sha256KnownAnswer.DigestOfAbc | src/connector/content_digest.cpp:19-91 | The digest of `abc` is the one FIPS 180-4's examples publish |
| SurfaceInventory.CompatibleIffServesMore | scripts/public_surface/inventory.py:65-73 | A shape change is compatible exactly when the later shape serves the earlier and takes some argument more |
| SurfaceInventory.ServesIffCallsKeep | scripts/public_surface/inventory.py:65-73 | For kept arguments, "every added argument is optional" is exactly "no call stops being accepted" |
| SurfaceInventory.ByNameIff | scripts/public_surface/inventory.py:68-69 | A name stands for the last argument that carries it |
| SurfaceInventory.AcceptedLabels | scripts/public_surface/inventory.py:76-97 | What each of the six labels of an accepted history means, exactly, in releases, states and shapes |
| SurfaceInventory.AtMostIff | scripts/public_surface/inventory.py:153-155 | Releases compare as numbers to any base that is large enough |
| SurfaceInventory.CheckOrder | scripts/public_surface/inventory.py:153-155 | Accepts exactly strictly increasing releases |
| SurfaceInventory.VerifyRevisions | scripts/public_surface/inventory.py:153-178 | The revision loop passes exactly the accepted histories and collects the shapes their live revisions name |
| SurfaceInventory.StepServes | scripts/public_surface/inventory.py:76-97 | An accepted step that is no removal or incompatible change starts active and ends in a live shape that serves the earlier one |
| SurfaceInventory.CompatibilityComposes | scripts/public_surface/inventory.py:65-97 | Over any such stretch results and behaviours stay equal, arguments unchanged, additions optional, and only the last revision can be deprecated |
| SurfaceInventory.SelectRevision | scripts/public_surface/inventory.py:105-108 | The loop selects the last listed revision released by the target |
| SurfaceInventory.LastByIff | scripts/public_surface/inventory.py:105-108 | In an ordered history that is the one revision whose release is the latest by the target |
| SurfaceInventory.Materialize | scripts/public_surface/inventory.py:100-115 | Active and removed ids by each entry's selected revision; disjoint when ids are distinct |
| SurfaceInventory.UpgradeKeepsCalls | scripts/public_surface/inventory.py:100-178 | Between two releases without removal or incompatible change, every accepted call stays accepted with equal results and behaviours |

## Left out

- EncodeCompiledQueryScalar: a double is the real number it stands for; the two zeros and the signs of a NaN are one value each, and that 17 digits tell doubles apart is not part of the model.
- SortBindings: the library sort is modelled as an insertion sort; names are distinct, so the result is the same.
- ComputeSha256Hex: the one C++ function is split into methods for its loops, and the stream's hexadecimal formatting is written as a function.
- PlanAnswersQuery: the base domain and the occurrence law are assumptions about the remote service, as in the declarations; the HTTP exchange itself is not modelled.
- ValidatePredicateMappings: the digests from which package proof and domain identities are derived are not modelled, only that the identities are not empty; that an encoded value holds no URL delimiter is left to the constructors.
- RenderedLiteralParsesBack: the parser demands escapes for controls other than tab, as editions of the GraphQL specification before September 2025 do; it covers the literal kinds the connector builds, and reads floating-point literals, block strings and variables as failures.
- DocumentIsItsQuery: the parser reads one named query with variables, fields and arguments; aliases, directives, fragments, list types and default values, which no document here uses, are read as failures.
- ContinuedRelationIsAccepted: acceptance means the modelled mapping, selector, pagination and credential checks; query-field, header and retry validation are not part of it.
- RunOnlyExtends: stated with the structural comparisons, not equality, because they pass over some fields; loading and registering candidates is a function of the run's list.
- VerifyRevisions: releases are version triples, not texts, and the case-folded uniqueness checks, shape digests and release views around the loop are not modelled.
- CompileLiteral: a declaration's children are always present; the null children C++ refuses do not exist in the model.
- ValidateLiteral: null list items, which C++ admits as empty pointers and rejects, do not exist in the model.
- Enumerations with one value in the source have no field in the catalog; comparing them would always succeed.
- Bit masks and shifts on the bytes of UTF-8 text are written as division and remainder.
- Input resolution (`src/semantics/input_resolution.cpp`) is not modelled; selection takes any list of resolved inputs.
- Validation of query fields, headers, retry and rate-limit policies would add only single-function checks.
- Snapshots, explanations, error texts, the runtime, HTTP, secrets and the DuckDB extension are outside the model.
