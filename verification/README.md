# A verified model of the RDF layer over FalkorDB

The repository stores RDF in a property graph: it turns triples into Cypher MERGE statements, deletes
by pattern, answers SPARQL by translating it to Cypher, and keeps an IRI dictionary, caches, indexes,
a prefix registry and N-Triples/N-Quads writers beside the graph. This project models those parts in
Dafny and proves what each of them is for.

Generated Cypher is not kept as text. It is an abstract syntax with an evaluator over a small property
graph (`PropertyGraph`, `CypherQuery`): a node is identified by its base label and its `uri`, an edge by
its ends, type and predicate; MERGE and SET have their usual effect; MATCH finds every homomorphism, as
rows in the order the engine lists the edges, and every theorem holds for every such order. Strings
inside statements go through the escape and are read back the way Cypher reads a quoted literal.

## The main results

- **Queries** (`Translator*`). One MATCH with all conditions hoisted behind it returns the bag of SPARQL
  solutions for every tree of BGP, Join and FILTER; for UNION trees with and without DISTINCT; for
  well-designed OPTIONAL chains; and for MINUS exactly when the two sides share a variable or one is
  empty. Where the translation loses something (a made-up name that is also a variable, a condition inside
  OPTIONAL or MINUS or in front of an OPTIONAL, a filter that leaves its group, a literal), `TranslatorNames`,
  `TranslatorDropped`, `TranslatorLimits`, `TranslatorConstants`, `TranslatorScope`, `TranslatorSequel`,
  `TranslatorComparisons` and `TranslatorHidden` say exactly when the answer is right all the same, and give data on which it is not.
- **Loading** (`CypherGenerator`, `RdfLists`, `BatchInsert`, `BatchEquivalence`, `BatchTheorems`). Grouping
  triples by subject in hash order and cutting them into batches builds the same graph as inserting them
  one by one; rdf:first/rdf:rest lists come back as arrays and nothing else is taken (`RdfListReferences`: with
  several references to a list, exactly when these agree). Read back from the graph as Cypher reads them, literals, list
  items and labels are those of the triples (`LiteralValues`, `StoredLiterals`).
- **Deleting** (`Patterns`, `Delete`). What is left after a deletion is exactly what the pattern does not
  match; with graph scopes, exactly under a stated condition.
- **The dictionary** (`Dictionary`, `DictionaryProtocol`). Every interleaving of any number of threads
  keeps the two maps inverse and dense, gives one id per IRI, and cannot deadlock.
- **Caches** (`LruCache`, `QueryPlanCache`). LRU inclusion across capacities over every run; the plan cache
  against a plain map for every hash function; and from the calls alone, which key goes and how old a hit can be.
- **Writers** (`LineText`, `NTriples`, `NQuads`, `LineReader`, `LineRoundTrip`). A reader written from the
  grammar undoes the writer, exactly on stated labels and tags.
- **Join ordering** (`Optimizer`, `OptimizerMeaning`, `OptimizerEstimates`), **bulk load and resume** (`BulkLoad`), **prefixes**
  (`Namespaces`), **indexes** (`Indexes`, and under many threads `TypeIndexProtocol`, `PredicateIndexProtocol`), and **all of it together** (`EndToEnd`).

`dafny verify dfyconfig.toml` checks the whole project.

## What the proofs found

Properties that fail are kept as lemmas with the failing input and, where there is one, the exact
condition under which they hold.

- Constants on the right side of OPTIONAL and MINUS, filters of MINUS parts and filters of groups nested in an OPTIONAL
  are dropped (a filter standing directly in the OPTIONAL is kept), and conditions in front of a last OPTIONAL attach
  to the OPTIONAL MATCH (`TranslatorDropped.OptionalExact`, `MinusConditionsExact`; in terms of the data
  `TranslatorLimits`, `TranslatorConstants`).
- A filter on what its group does not bind is checked outside the group (`TranslatorScope.FilterScopeExact`).
- A variable left null by an OPTIONAL matches nothing in a later pattern (`TranslatorSequel.SequelExact`).
- A variable compared with an IRI is never equal to it (`TranslatorComparisons.IriComparisonExact`).
- Literals and classes are invisible to a query (`TranslatorHidden.HiddenBgpExact`), a predicate variable is never bound
  (`PredicateVariableExact`), and a blank node in a pattern is asked for by its label (`BlankEndExact`).
- A literal spelled `inf`, `infinity` or `nan`, in any case and with any sign, is written bare because it parses as a
  number, but Cypher reads it as a name (`LiteralValues.ValueReads`).
- A variable spelled like a made-up name is conflated with it (`TranslatorNames.NamesExact`).
- A conjunct without Cypher that is left out under a negation loses solutions (`TranslatorMinus.NegationLosesSolutions`).
- ASK over an empty pattern is wrong on an empty graph, SELECT on any graph without exactly one node
  (`TranslatorResults.AskExact`, `EmptyPatternExact`).
- MINUS between sides without a common variable removes rows it should keep (`TranslatorMinus.MinusExact`).
- `rdf:type` with a blank object becomes an edge alone and nothing in a batch (`BatchTheorems.TypeObjectsExact`).
- Of several references to a list only the last counts: the others are dropped with the same subject, and dangle
  with another (`RdfListReferences.ReferenceFates`).
- `QuadPattern::from_quad` of a default-graph quad matches every graph, against its doc comment, which says it
  matches that quad exactly (`Patterns.FromQuadExact`); deletion cannot tell graphs apart at all, since no
  statement writes the graph on an edge (`Delete.ScopeExact`).
- Deleting a literal triple deletes nothing (`Delete.LiteralPatternDeletesNothing`).
- Query normalization collapses white space inside string literals, so different queries share a plan
  (`QueryPlanCache.SpacesInLiteralsConflated`).
- A batch that the database refuses is answered Ok, so a resumed load loses it; resuming is exact only if every call
  up to the last that was answered Ok went in and that one did not end inside a line (`BulkLoad.ResumeExact`), and a load with no such call repeats the
  lines before SKIP (`BulkLoad.RestartExact`).
- An IRI spelled like a blank node deletes that node's edges (`Delete.BlankSpelledExact`).
- An addition that overlaps a removal, or a clear, of the same type assertion can leave the two maps of the type index
  disagreeing (`TypeIndexProtocol.TwoCallsExact`); a removal that overtakes an addition leaves the predicate counts
  too high (`PredicateIndexProtocol.InterleavingExact`).
- The predicate counts drift by one for every re-added triple (`Indexes.CountsDriftByReAdding`).
- The doc comment of `escape_cypher_string` (mapper/src/graph/schema.rs:195-204) says that 0x00-0x1F and 0x7F are
  removed; the code removes every character for which `char::is_control` holds, which includes 0x80-0x9F. The
  model follows the code.

## Reading the model

- Blank nodes in a query pattern are constants in the translation (`b_0.uri = '_:label'`), while SPARQL treats
  them as variables; the query theorems are about patterns whose ends are variables or IRIs.
- IRIs and labels in the query, batch and delete theorems are free of removed control characters, and IRIs are not
  spelled like blank nodes (`PlainTerm`); `Iri::new` rejects control characters, and `Delete.BlankSpelledExact`
  says what the other spelling does. Literal properties named `uri` or `isBlank` are excluded from the batch
  theorems, because they would overwrite what identifies a node.
- A node, a relationship or null is not equal to a text: a comparison of different types is false, and null with
  anything is null.
- A value without quotes is a number or a boolean to Cypher, and otherwise a name, which is no value. A database that accepts
  literal nodes is not assumed: no insert statement makes one.
- Hash maps are walked in an arbitrary order: methods take any remaining key, and theorems quantify over every
  listing. The clock of the caches is a parameter that strictly increases; costs are real numbers; ids do not
  wrap around. File lines, the line parser, the answers of the database, the statistics and the hash functions are
  parameters.
- The reader follows the N-Triples and N-Quads grammars except that a blank node label is any run without white
  space and a language tag any run of letters, digits and hyphens, which is what the library lets through.
- `LruCache.Cache.Valid`, `QueryPlanCache.PlanCache.Valid` and `Dictionary.IriDictionary.Tight` are the invariants
  the methods keep; the class methods are proved against functions on values, and the lemmas are about those.

## Model

| member | source | states |
|---|---|---|
| Translator.SparqlToCypher.NextVar | mapper/src/query/translator.rs:916-920 | hands out `prefix_n` for the counter value n and advances the counter by one |
| Translator.SparqlToCypher.TranslateTerm | mapper/src/query/translator.rs:510-537 | variable, IRI, blank node and literal ends: the name used, its condition and the counter afterwards |
| Translator.SparqlToCypher.TranslateTriplePattern | mapper/src/query/translator.rs:475-507 | one path, the conditions of its constant ends, the variables it binds; predicate variables are bound by name only |
| Translator.SparqlToCypher.ProcessBgp | mapper/src/query/translator.rs:277-284 | every triple pattern appended to the caller's lists in order |
| Translator.SparqlToCypher.ProcessPattern | mapper/src/query/translator.rs:277-324 | for BGP, Join, LeftJoin, FILTER, Minus and UNION: appends to the three lists exactly what the compilation of the tree prescribes, or fails on a nested UNION |
| Translator.SparqlToCypher.BuildMatchClause | mapper/src/query/translator.rs:236-264 | of path and OPTIONAL parts: runs of paths become MATCH, optional parts OPTIONAL MATCH, nothing becomes MATCH (n) |
| Translator.SparqlToCypher.FlattenUnion | mapper/src/query/translator.rs:181-192 | the leaves of any UNION tree, left to right |
| Translator.SparqlToCypher.TranslateSelect | mapper/src/query/translator.rs:92-142 | succeeds exactly on patterns without nested UNION and then yields the specified branches, and, where no end is a blank node, the columns the query asks for and its DISTINCT |
| Translator.ColumnsExact | mapper/src/query/translator.rs:60-116 | the columns returned are those the query names, or with SELECT * all variables of the pattern, over all branches |
| TranslatorTheorem.CompileCorrect | mapper/src/query/translator.rs:267-314 | for every tree of BGP, Join and FILTER and any row to start from, the single MATCH with hoisted WHERE yields the algebra's solutions, row by row |
| TranslatorResults.InsertedServes | mapper/src/graph/cypher.rs:60-128 | the graph built triple by triple has the edges the query theorems speak about |
| TranslatorResults.BranchCorrect | mapper/src/query/translator.rs:50-68 | over any listing of the graph built from a set of edge triples, a BGP/Join/FILTER query returns the bag of SPARQL solutions, unless a name made up for it is one of its variables |
| TranslatorResults.AskExact | mapper/src/query/translator.rs:195-209 | ASK agrees with the pattern having a solution if and only if the pattern has a triple or the graph a node |
| TranslatorResults.EmptyPatternExact | mapper/src/query/translator.rs:236-239 | MATCH (n) for an empty pattern is right if and only if the graph has exactly one node |
| TranslatorResults.UnionAllCorrect | mapper/src/query/translator.rs:92-142 | UNION ALL over the flattened branches is the bag sum of the branches |
| TranslatorResults.UnionDistinctMembers | mapper/src/query/translator.rs:118-142 | with DISTINCT the branches together hold exactly the distinct solutions |
| TranslatorResults.SelectCorrect | mapper/src/query/translator.rs:92-142 | a SELECT with any UNION tree: the bag of the solutions cut down to the columns that the query names, or with SELECT * to the variables of its pattern; with DISTINCT each of these exactly once |
| TranslatorOptional.OptionalCorrect | mapper/src/query/translator.rs:288-308 | a well-designed left-deep OPTIONAL chain of any length, filter on the last OPTIONAL, equals the nested LeftJoin |
| Sparql.LeftJoinIsFilteredJoinAndDiff | mapper/src/query/translator.rs:288-308 | the row-wise LeftJoin used above is the definition of section 18.5 of SPARQL 1.1: filtered Join plus Diff |
| TranslatorMinus.ExistsIsCompatible | mapper/src/query/translator.rs:458-468 | the NOT EXISTS subquery is empty exactly when no right solution is compatible |
| TranslatorMinus.MinusExact | mapper/src/query/translator.rs:458-468 | NOT EXISTS is Minus if and only if the sides share a variable or one of them has no solution |
| TranslatorMinus.FilterExact | mapper/src/query/translator.rs:590-607 | a filter of BOUND, equality and sameTerm of variables under AND, OR and NOT keeps its three-valued value, error read as null |
| TranslatorMinus.FilterKeepsSolutions | mapper/src/query/translator.rs:640-661 | with untranslatable conjuncts left out, but none under an odd number of negations, no accepted solution is lost |
| TranslatorMinus.NegationLosesSolutions | mapper/src/query/translator.rs:640-661 | NOT (e1 AND f) with f left out accepts nothing wrongly, and keeps an accepted row if and only if f is false there only where e1 is |
| TranslatorNames.NamesExact | mapper/src/query/translator.rs:916-920 | a basic graph pattern is answered rightly over all data if and only if no name made up for it is one of its variables, or it asks for a label and has no solution anyway |
| TranslatorNames.GeneratedNameClash | mapper/src/query/translator.rs:916-920 | a variable spelled n_0 is answered wrongly when the counter starts at 0 and rightly on all data when it starts at 1 |
| TranslatorDropped.OptionalExact | mapper/src/query/translator.rs:288-308 | OPTIONAL between any two join trees, constants and filters on both sides: right if and only if every match of the left paths meets the left conditions and is offered only what meets the right ones |
| TranslatorDropped.LeftConditionsExact | mapper/src/query/translator.rs:288-308 | with variables only on the right, each match that fails the left conditions stays as exactly one row, so the answer is right if and only if the left side has as many solutions as its paths have matches |
| TranslatorDropped.MinusConditionsExact | mapper/src/query/translator.rs:458-468 | MINUS between any two join trees: right if and only if every left row has no match on the right, or shares a variable and has a match that meets the right conditions |
| TranslatorLimits.OptionalLosesConstant | mapper/src/query/translator.rs:288-301 | <x> p ?v OPTIONAL {..} is right if and only if x is the only subject of p in the data |
| TranslatorLimits.OptionalFilterExact | mapper/src/query/translator.rs:297-301 | the filter of a group nested in an OPTIONAL is dropped, which does no harm if and only if the right side binds nothing new or the filter accepts every right row that extends a left row |
| TranslatorLimits.MinusFilterExact | mapper/src/query/translator.rs:462-467 | the filter of a MINUS part is dropped, which does no harm if and only if every left row with a compatible right row shares a variable and has a compatible row the filter accepts |
| TranslatorConstants.OptionalConstantExact | mapper/src/query/translator.rs:297-301 | OPTIONAL { ?v q <k> } is right if and only if for every left solution the reached triples all end at k, or there is one at most and v is bound |
| TranslatorConstants.MinusConstantExact | mapper/src/query/translator.rs:462-467 | MINUS { ?v q <k> } is right if and only if every solution whose v has a triple with q has one that ends at k |
| TranslatorConstants.OptionalFilterWrong | mapper/src/query/translator.rs:297-307 | on one triple, a filter directly in an OPTIONAL is answered rightly, and the same filter in a group nested in it wrongly |
| TranslatorConstants.MinusConstantWrong | mapper/src/query/translator.rs:462-467 | on one triple, a constant inside a MINUS leads to a wrong answer |
| TranslatorScope.FilterScopeExact | mapper/src/query/translator.rs:309-314 | { a FILTER(e) } b is answered rightly if and only if on every row of the join e accepts the row exactly when it accepts what a binds of it |
| TranslatorScope.FilterScopeIsLost | mapper/src/query/translator.rs:309-314 | with BOUND of a variable that only b binds there is no solution, and the answer is right if and only if the join is empty |
| TranslatorScope.FilterScopeWrong | mapper/src/query/translator.rs:309-314 | on one triple that filter leads to a wrong answer |
| TranslatorSequel.SequelExact | mapper/src/query/translator.rs:285-308 | a pattern joined after an OPTIONAL is answered rightly if and only if no solution that leaves one of its variables unbound has a compatible one; constants in front of the OPTIONAL restrict again |
| TranslatorSequel.SequelWrong | mapper/src/query/translator.rs:285-308 | on one triple the null left by an OPTIONAL loses the solution of the later pattern |
| TranslatorComparisons.IriComparisonExact | mapper/src/query/translator.rs:591-598 | ?x = <iri> finds nothing and ?x != <iri> everything, so each is right if and only if no solution has the IRI at x |
| TranslatorComparisons.ComparisonText | mapper/src/query/translator.rs:591-598 | the text a variable is compared with reads as the IRI |
| TranslatorHidden.InsertedStores | mapper/src/graph/cypher.rs:60-128 | the graph built of any triples has the edges that these theorems speak about |
| TranslatorHidden.HiddenExact | mapper/src/query/translator.rs:267-314 | over any triples, literals and classes among them, a query finds the solutions over the edges alone, so it is right if and only if there are no more |
| TranslatorHidden.HiddenBgpExact | mapper/src/query/translator.rs:277-284 | a basic graph pattern is answered rightly if and only if none of its solutions uses a literal or a class |
| TranslatorHidden.LiteralEndExact | mapper/src/query/translator.rs:528-532 | where no node has a property called value, a pattern with a literal end finds nothing, so it is right if and only if there is no solution |
| TranslatorHidden.LiteralConditionReads | mapper/src/query/translator.rs:528-532 | a literal end takes a node whose value is written as a string exactly if that is the text of the literal |
| TranslatorHidden.PredicateVariableExact | mapper/src/query/translator.rs:539-558 | a query that returns a predicate variable is right if and only if it finds nothing and there is nothing to find |
| TranslatorHidden.OpenPatternExact | mapper/src/query/translator.rs:539-558 | ?s ?v ?o finds every edge but not its predicate, so it is right if and only if the query does not return the predicate, or there is no triple |
| TranslatorHidden.BlankEndExact | mapper/src/query/translator.rs:523-527 | _:b p ?o asks for the node of that label, so it is right if and only if that node is the only subject of p |
| BgpSolutions.BgpCounts | mapper/src/query/translator.rs:277-284 | evaluating a BGP by joins gives each mapping that satisfies all its patterns exactly once and nothing else (section 18.3 of SPARQL 1.1) |
| Sparql.EvalPermutation | mapper/src/query/translator.rs:267-314 | the bag of solutions does not depend on the order in which the triples are listed |
| Schema.EscapeCypher | mapper/src/graph/schema.rs:212-229 | the character loop produces the specified escape |
| Schema.ReadUndoesEscape | mapper/src/graph/schema.rs:212-229 | reading an escaped string as Cypher does gives the string without its removed control characters |
| Schema.EscapeRoundTripExact | mapper/src/graph/schema.rs:212-229 | the round trip is exact if and only if the string has none of the removed characters |
| Schema.Sanitize | mapper/src/graph/schema.rs:251-275 | the loop produces the specified identifier |
| Schema.SanitizeMakesIdentifiers | mapper/src/graph/schema.rs:251-275 | every string becomes a plain identifier, and exactly the plain identifiers are left alone |
| Schema.SanitizeExact | mapper/src/graph/schema.rs:251-275 | letters, digits and underscores stay and any other character becomes an underscore, behind one more if the first is not fit to start |
| Rdf.LocalNameExact | parser/src/rdf/iri.rs:123-131 | the local name is what follows the last hash, or without one the last slash |
| CypherGenerator.InsertedEdges | mapper/src/graph/cypher.rs:60-128 | inserting triples adds exactly the edges of the non-type, non-literal triples |
| CypherGenerator.EdgeOfInjective | mapper/src/graph/cypher.rs:153-213 | different plain triples become different edges |
| CypherGenerator.PropertyNameExact | mapper/src/graph/cypher.rs:63-128 | properties, edge types and labels are named by the local part of the IRI, made an identifier |
| LiteralValues.FloatExact | parser/src/rdf/literal.rs:215-223 | the number check accepts exactly the texts of the number grammar and the names of infinity and not-a-number |
| LiteralValues.DateExact | parser/src/rdf/literal.rs:233-282 | the date check accepts exactly the days of the Gregorian calendar, years 1 to 9999 |
| LiteralValues.ValueReads | mapper/src/graph/cypher.rs:225-251 | the text written for a literal reads back as its value: a date exactly for a valid xsd:date, bare exactly for a number or a boolean of another type, a string otherwise; only the names of infinity and not-a-number read as no value |
| LiteralValues.ItemReads | mapper/src/graph/cypher.rs:332-346 | the text of a list item reads back as its literal, with no dates, or as its IRI |
| StoredLiterals.LiteralsReadBack | mapper/src/graph/cypher.rs:60-251 | after inserting any triples one by one, a property reads back as the last literal written to it |
| StoredLiterals.OthersStay | mapper/src/graph/cypher.rs:60-251 | a property that no triple writes is as it was |
| StoredLiterals.LabelsReadBack | mapper/src/graph/cypher.rs:60-84 | every node gets the names of its classes as labels and no other |
| PropertyGraph.SameEffectSameGraph | mapper/src/graph/cypher.rs:549-628 | statement lists with the same effect summary build the same graph from any graph |
| RdfLists.FindLinks | mapper/src/graph/cypher.rs:282-309 | first pass: the last rdf:first, rdf:rest and referencing triple of each blank node |
| RdfLists.WalkList | mapper/src/graph/cypher.rs:316-381 | the walk from a head succeeds exactly when a closed chain of simple values starts there, and returns its nodes and values |
| RdfLists.TerminationExact | mapper/src/graph/cypher.rs:324-381 | the walk stops on a head if and only if its walks never meet a node twice |
| RdfLists.ChainUnique | mapper/src/graph/cypher.rs:324-381 | there is at most one chain from a head |
| RdfLists.BuildCollections | mapper/src/graph/cypher.rs:311-390 | second pass: one array per list head whatever the map order, and exactly the chain nodes marked used |
| RdfLists.DetectAndExtract | mapper/src/graph/cypher.rs:270-426 | all three passes: every array is the values of a real chain from a referenced head, and what remains is an order-preserving filter of the input |
| RdfListRoundTrip.EncodingEnds | mapper/src/graph/cypher.rs:324-381 | extraction ends on every encoding of lists, whatever the other rdf:rest links do |
| RdfListRoundTrip.ListRoundTrip | mapper/src/graph/cypher.rs:270-426 | for any number of lists in any triple order among other triples: exactly their arrays come out, and exactly the other triples stay, in order |
| RdfListRoundTrip.ExtractLists | mapper/src/graph/cypher.rs:270-426 | the same, for the method |
| RdfLists.AcyclicEnds | mapper/src/graph/cypher.rs:324-381 | acyclic rdf:rest links are enough for the second pass to stop |
| RdfListReferences.LastReferenceCounts | mapper/src/graph/cypher.rs:296-308 | of several references to a blank node the last is recorded |
| RdfListReferences.ReferenceFates | mapper/src/graph/cypher.rs:394-421 | a reference to a list becomes its array exactly if its head was recorded, is dropped silently exactly if the same subject by another property was, and stays without its list exactly if another subject was |
| RdfListReferences.SharedExact | mapper/src/graph/cypher.rs:270-426 | lists with any number of references come back whole if and only if all references to each list have one subject and one property name |
| RdfListReferences.SharedHeadLost | mapper/src/graph/cypher.rs:394-421 | a list of one item with two differing references does not come back |
| BatchInsert.GenerateSubjectQuery | mapper/src/graph/cypher.rs:549-628 | MERGE, labels, flag, properties, arrays and relationships of one subject |
| BatchInsert.CollectSubjects | mapper/src/graph/cypher.rs:440-535 | the grouping of items by subject |
| BatchInsert.GenerateBatch | mapper/src/graph/cypher.rs:432-546 | one statement per subject in some subject order, over what the list extraction leaves and finds in some head order |
| GraphEffects.Swap | mapper/src/graph/cypher.rs:549-628 | effects that write no common property differently can change places |
| BatchEquivalence.GroupingIsIrrelevant | mapper/src/graph/cypher.rs:440-546 | grouping by subject in any order of subjects has the effect of the items in their own order |
| BatchEquivalence.BatchIsItems | mapper/src/graph/cypher.rs:432-628 | executing the statements of a batch, in any subject order, acts as its items one at a time |
| BatchTheorems.BatchWithArrays | mapper/src/graph/cypher.rs:432-628 | a batch inserts its remaining triples as generate_triple would and then sets its arrays |
| BatchTheorems.BatchesEqualOneByOne | mapper/src/graph/cypher.rs:60-628 | any cut of list-free triples into consecutive batches, any subject order in each, builds the graph of one-by-one insertion |
| BatchTheorems.TypeObjectsExact | mapper/src/graph/cypher.rs:460-467 | with rdf:type objects that are IRIs or blank nodes, batch and one-by-one agree if and only if all of them are IRIs |
| BatchTheorems.EncodedBatch | mapper/src/graph/cypher.rs:270-628 | a batch holding encoded lists: the other triples inserted, then arrays that are exactly the lists |
| BatchTheorems.ListsAreStored | mapper/src/graph/cypher.rs:510-595 | every encoded list ends up as one array property of its subject, in list order |
| StoredLiterals.LiteralsReadBackFromBatches | mapper/src/graph/cypher.rs:432-628 | after loading in any batches, with any subject order in each, every property reads back as the last literal written to it |
| StoredLiterals.LiteralsReadBackBesideLists | mapper/src/graph/cypher.rs:270-628 | the same beside the lists of a batch, unless a list hangs from that subject by that property |
| StoredLiterals.ItemsReadBack | mapper/src/graph/cypher.rs:270-628 | every encoded list is stored as an array that reads back item by item |
| EndToEnd.QueryAfterBatches | mapper/src/query/translator.rs:42-178 | load in batches, then query: the SPARQL solutions over the loaded triples |
| EndToEnd.QueryAfterDelete | mapper/src/graph/delete.rs:98-122 | delete a pattern, then query: the solutions over the triples it does not match |
| EndToEnd.QueryAfterReordering | mapper/src/query/optimizer.rs:124-170 | translating the optimizer's order returns the same bag of rows as the order written |
| Patterns.FromQuadExact | parser/src/rdf/triple.rs:503-508 | a pattern made from a quad matches only that quad if and only if the quad is in a named graph |
| Delete.DeleteGenerator.BuildMatchClause | mapper/src/graph/delete.rs:147-228 | the clause finds the edges of exactly the triples the pattern matches, and none in a named scope |
| Delete.DeleteGenerator.GenerateDeletePattern | mapper/src/graph/delete.rs:98-122 | the deletion and the enabled cleanups, in order |
| Delete.DeleteGenerator.GenerateBatchDelete | mapper/src/graph/delete.rs:254-271 | the deduplicated batch has the effect of all its statements |
| Delete.DedupKeepsEffect | mapper/src/graph/delete.rs:265-268 | dropping equal neighbours changes nothing, because every statement is idempotent |
| Delete.DeletionAgreesWithMatching | mapper/src/graph/delete.rs:147-239 | the edges left are exactly those of the triples TriplePattern::matches rejects; nodes stay |
| Delete.InsertThenDelete | mapper/src/graph/delete.rs:98-239 | the same after inserting any edge triples, with any cleanups |
| Delete.DeleteOneTriple | parser/src/rdf/triple.rs:357-363 | the pattern made from a triple deletes its edge and no other |
| Delete.BatchDeletion | mapper/src/graph/delete.rs:254-271 | deleting several patterns, with any cleanups and with or without detach, leaves exactly the edges of triples that match none, with their ends |
| Delete.OrphansGone | mapper/src/graph/delete.rs:98-122 | with the cleanup of blank nodes, a blank node is left if and only if a triple that is left mentions it; every other node stays |
| Delete.DetachAll | mapper/src/graph/delete.rs:230-239 | the all-wildcard DETACH DELETE removes every edge and exactly the nodes that had one |
| Delete.ScopeExact | mapper/src/graph/delete.rs:196-215 | over quads, deletion by scope agrees with QuadPattern::matches if and only if ignoring the graph does no harm |
| Delete.ScopeSelects | mapper/src/graph/delete.rs:196-215 | were the graph recorded on edges, the conditions of a scope would select exactly its quads |
| Delete.LiteralPatternDeletesNothing | mapper/src/graph/delete.rs:187-191 | a pattern with a literal object deletes nothing that insertion has stored |
| Delete.LiteralMatchReads | mapper/src/graph/delete.rs:187-191 | on a graph with Literal nodes, a literal object would match exactly those with its text |
| Delete.BlankSpelledExact | mapper/src/graph/delete.rs:154-190 | for any clean pattern without a literal object, what is left agrees with matching if and only if no rejected triple is matched once IRIs spelled like blank nodes are read as these |
| Delete.BlankSpelledIri | mapper/src/graph/delete.rs:154-166 | so an IRI spelled like a blank node of the data deletes too much |
| Dictionary.IriDictionary.GetOrInsert | storage/src/dictionary.rs:53-81 | a known IRI keeps its id, a new one gets the next; both maps and the counter afterwards |
| Dictionary.IriDictionary.Import | storage/src/dictionary.rs:146-166 | the maps and the counter after overwriting imports |
| Dictionary.ImportExact | storage/src/dictionary.rs:146-166 | a one-to-one import keeps the maps inverse if and only if no known pair is overwritten on one side only |
| Dictionary.NextAboveAll | storage/src/dictionary.rs:146-166 | the counter ends above every imported id and no higher than needed |
| Dictionary.ExportImport | storage/src/dictionary.rs:134-166 | an export in any order, imported into a new dictionary, rebuilds maps and counter |
| Dictionary.Copy | storage/src/dictionary.rs:134-166 | the same through the methods |
| DictionaryProtocol.StepInvariant | storage/src/dictionary.rs:53-93 | every step of every thread keeps locks, maps, local knowledge and history consistent |
| DictionaryProtocol.QuietStatesAreDense | storage/src/dictionary.rs:53-81 | in every interleaving, with no writer inside, the maps are exact inverses with ids 1 .. next-1 |
| DictionaryProtocol.OneIdPerIri | storage/src/dictionary.rs:53-81 | all calls that return for one IRI return one id, and different IRIs different ids |
| DictionaryProtocol.ReturnedIdsStay | storage/src/dictionary.rs:90-93 | a returned id maps to its IRI in every later state, and every later lookup answers it |
| DictionaryProtocol.AnswersAreRight | storage/src/dictionary.rs:90-93 | an answered lookup agrees with the ids handed out, whenever either happened |
| DictionaryProtocol.NoDeadlock | storage/src/dictionary.rs:65-69 | while a call is in progress some thread can move |
| LruCache.Cache.Get | storage/src/cache.rs:52-69 | the value if present and not expired, and the refreshed or shrunken entries |
| LruCache.Cache.Insert | storage/src/cache.rs:72-89 | the entries after eviction of the least recently used key when full |
| LruCache.Cache.EvictLru | storage/src/cache.rs:133-147 | the victim is the key with the oldest access, in whatever order the scan meets the keys |
| LruCache.Cache.EvictExpired | storage/src/cache.rs:126-131 | exactly the unexpired entries stay |
| LruCache.AfterSize | storage/src/cache.rs:72-89 | no operation outgrows max(1, capacity) |
| LruCache.SameVictim | storage/src/cache.rs:133-147 | if a larger cache evicts a key that the smaller one holds, the smaller one evicts it too |
| LruCache.Inclusion | storage/src/cache.rs:52-147 | over every run, the entries of a smaller cache are entries of a larger one, values and times included |
| LruCache.HitsAreKept | storage/src/cache.rs:52-147 | so every hit of the smaller is the same hit of the larger, and the size bound holds |
| LruCache.CacheWithinPlain | storage/src/cache.rs:52-147 | whatever is cached is what a plain map would hold |
| LruCache.RoomyCacheIsPlain | storage/src/cache.rs:72-89 | with room for all keys and no time to live, exactly the keys of the plain map are cached |
| LruCache.HitIsFresh | storage/src/cache.rs:52-69 | for every run and capacity, a hit is the value of the last insertion of its key, made no longer ago than the time to live |
| LruCache.RoomyHitExact | storage/src/cache.rs:52-131 | with room for all keys, a get hits if and only if its key was last inserted no longer ago than the time to live, and not removed or cleared since |
| LruCache.EvictExpiredExact | storage/src/cache.rs:126-131 | evicting takes exactly the entries inserted longer ago than the time to live |
| LruCache.LeastRecentlyUsedGoes | storage/src/cache.rs:52-147 | over every run, a new key in a full cache takes the place of the key whose last get or insertion is the longest ago |
| QueryPlanCache.NormalizeIdempotent | storage/src/cache.rs:327-329 | normalizing twice is normalizing once, and two queries share a text exactly when they have the same words |
| QueryPlanCache.SpacesInLiteralsConflated | storage/src/cache.rs:327-329 | queries that differ in the number of spaces inside a literal share one cache slot |
| QueryPlanCache.PlanIsLatest | storage/src/cache.rs:278-310 | for every run, hash function, collision, eviction and expiry: a returned plan is the latest one for the same normalized text |
| QueryPlanCache.ExactWhenRoomy | storage/src/cache.rs:278-310 | without collisions, with room and no time to live, get answers exactly as the plain map |
| QueryPlanCache.ExactWithin | storage/src/cache.rs:278-318 | without collisions and with room, get returns the plan last inserted for the text if it is no older than the time to live, and nothing otherwise |
| QueryPlanCache.PlanCache.Get | storage/src/cache.rs:278-284 | the plan under the hash if its text is the same, and it is the latest |
| NTriples.WriteTriple | parser/src/export/ntriples.rs:120-129 | appends exactly the line of the triple |
| NTriples.NTriplesStreamWriter.Write | parser/src/export/ntriples.rs:162-166 | appends one line and counts it |
| NTriples.WriteStreaming | parser/src/export/ntriples.rs:181-191 | appends all lines and returns their number |
| NQuads.WriteQuadDirect | parser/src/export/nquads.rs:101-158 | appends exactly the line of the quad, graph included |
| NQuads.WriteQuadsDirect | parser/src/export/nquads.rs:183-192 | appends the lines of all quads in order |
| NQuads.NQuadsStreamWriter.WriteTriple | parser/src/export/nquads.rs:232-234 | appends what the N-Triples writer would |
| NQuads.WriteStreaming | parser/src/export/nquads.rs:249-259 | appends all lines and returns their number |
| LineText.EscapesAreShort | parser/src/export/ntriples.rs:32-96 | escapes are the two-character ones where there are any, otherwise as short as the character allows and in upper case; every other character stays |
| LineText.EscapedStringPrints | parser/src/export/nquads.rs:161-180 | an escaped string holds no control character, and one with nothing to escape is written as it is |
| LineText.EscapedIriPrints | parser/src/export/nquads.rs:44-62 | an IRI with nothing to escape is written as it is |
| LineRoundTrip.UnicodeReads | parser/src/export/nquads.rs:161-180 | the reader undoes the four- and eight-digit escapes of every character |
| LineRoundTrip.WriteRead | parser/src/export/nquads.rs:101-192 | reading the written text with the N-Quads grammar gives the same quads back, xsd:string being the default datatype |
| LineRoundTrip.RoundTripExact | parser/src/export/nquads.rs:29-63 | the round trip holds if and only if labels have no white space and tags only letters, digits and hyphens |
| LineRoundTrip.DefaultGraphLines | parser/src/export/ntriples.rs:120-129 | on default-graph quads both writers write the same lines |
| LineRoundTrip.WriteThenRead | parser/src/export/nquads.rs:183-192 | the exact round trip through the writer method |
| LineRoundTrip.WriteTriplesBothWays | parser/src/export/ntriples.rs:181-191 | the two streaming writers leave the same text for the same triples |
| Optimizer.JoinOrderOptimizer.FindBestNextPattern | mapper/src/query/optimizer.rs:346-378 | the lowest score, the earliest on ties: selectivity first, then cost weighted by shared variables |
| Optimizer.JoinOrderOptimizer.CalculatePlanCost | mapper/src/query/optimizer.rs:380-391 | the nested-loop total, as a running total and as nested loops |
| Optimizer.JoinOrderOptimizer.OptimizeWithStatistics | mapper/src/query/optimizer.rs:124-170 | the greedy order, the variables bound at every step, and its total cost |
| Optimizer.JoinOrderOptimizer.OptimizeHeuristic | mapper/src/query/optimizer.rs:173-205 | the stable selectivity order, the variables bound at every step, and its total cost |
| Optimizer.BoundAfterIsUnion | mapper/src/query/optimizer.rs:150-156 | the variables bound after i patterns are exactly the union of theirs |
| Optimizer.TotalAtLeastSum | mapper/src/query/optimizer.rs:380-391 | the total is at least the sum of the pattern costs |
| Optimizer.TotalIsNested | mapper/src/query/optimizer.rs:380-391 | the running total is the cost of nested loops, each pattern once for every row of those before it |
| OptimizerMeaning.GreedyPermutes | mapper/src/query/optimizer.rs:146-159 | the greedy order is a permutation of the patterns |
| Optimizer.BestIndex | mapper/src/query/optimizer.rs:346-378 | a candidate of least score, and the earliest of them |
| OptimizerMeaning.GreedySuffix | mapper/src/query/optimizer.rs:146-159 | after every step, what follows is the greedy order of the patterns still waiting |
| OptimizerMeaning.GreedyStepsAreMinimal | mapper/src/query/optimizer.rs:346-378 | at every step no pattern still waiting scores lower |
| OptimizerMeaning.SortIsStable | mapper/src/query/optimizer.rs:187-188 | the heuristic order ascends in selectivity and keeps ties in order |
| OptimizerMeaning.GreedyKeepsSolutions | mapper/src/query/optimizer.rs:124-170 | joining in greedy order gives the same bag of solutions as the order written |
| OptimizerMeaning.HeuristicKeepsSolutions | mapper/src/query/optimizer.rs:173-205 | so does joining in heuristic order |
| OptimizerMeaning.GreedyTotalAtLeastSum | mapper/src/query/optimizer.rs:380-391 | the cost bound holds for every greedy plan over non-negative statistics |
| OptimizerMeaning.MoreBoundGoesFirst | mapper/src/query/optimizer.rs:267-292 | in the heuristic plan a pattern that fixes strictly more goes first |
| OptimizerMeaning.ConnectedFirst | mapper/src/query/optimizer.rs:362-374 | nowhere in a greedy plan does a disconnected pattern go before a connected one that costs less than ten times as much |
| OptimizerEstimates.OpenFitsAll | mapper/src/query/optimizer.rs:322-344 | a pattern of variables is estimated to fit every triple |
| OptimizerEstimates.FixingTheSubject | mapper/src/query/optimizer.rs:322-344 | above the floor, fixing the subject divides the selectivity by the number of different subjects |
| OptimizerEstimates.FixingTheObject | mapper/src/query/optimizer.rs:322-344 | fixing the object divides it by the number of different objects |
| OptimizerEstimates.FixingThePredicate | mapper/src/query/optimizer.rs:322-344 | fixing the predicate multiplies it by the frequency of the predicate |
| OptimizerEstimates.RefinedExact | mapper/src/query/optimizer.rs:322-344 | a pattern that fixes more is never less selective, and above the floor more selective exactly if an end it fixes has several values |
| OptimizerEstimates.CostExact | mapper/src/query/optimizer.rs:207-320 | the rows reckoned with, and what reading them costs by type index, predicate index and full scan |
| OptimizerEstimates.PlanBinds | mapper/src/query/optimizer.rs:146-159 | the variables bound after i patterns of a greedy plan are exactly those of its first i patterns |
| OptimizerEstimates.HeuristicExact | mapper/src/query/optimizer.rs:267-320 | without statistics each fixed position makes a pattern ten times more selective, rdf:type twenty times; rows, variables and hints |
| OptimizerEstimates.NarrowerGoesFirst | mapper/src/query/optimizer.rs:124-170 | nowhere in a greedy plan does a pattern go before a narrower one with the same access path that is as well connected, unless its own selectivity is at the floor or reading it costs nothing |
| BulkLoad.StreamNTriples | module/src/commands/rdf_bulk_insert.rs:245-339 | fails exactly on an unreadable line after SKIP, with its error and after submitting only what came before; otherwise the batches are, in order, what the parser makes of every line that is neither blank nor a comment, the failed lines are those whose text it rejects, all batches but the last are full, their start lines follow from SKIP and each other, and the statistics are the tally of the calls |
| BulkLoad.LineExact | module/src/commands/rdf_bulk_insert.rs:267-279 | a blank line and a comment contribute nothing and fail nothing, any other line exactly what the parser makes of its text without the white space around it |
| Common.WhitespaceExact | module/src/commands/rdf_bulk_insert.rs:267 | the white space that is trimmed, by code points |
| BulkLoad.TallyExact | module/src/commands/rdf_bulk_insert.rs:285-339 | batches, executed statements, errors and the last line, from the answers alone |
| BulkLoad.FinishedLoad | module/src/commands/rdf_bulk_insert.rs:245-339 | the same of the loader as a function, and with one triple a line every batch ends with its line |
| BulkLoad.BatchIsItsLines | module/src/commands/rdf_bulk_insert.rs:257-298 | with one triple a line, each batch is what lies between the end of the batch before and its own line; its start line is the first of these, for the first batch one less |
| BulkLoad.ResumeExact | module/src/commands/rdf_bulk_insert.rs:285-336 | whatever the lines hold, the batches that went in and a rerun from the last successful line hold every triple exactly once if and only if every call up to the last that was answered Ok went in and that one took all of its line; otherwise triples are lost |
| BulkLoad.RefusedBatchLost | module/src/commands/rdf_bulk_insert.rs:360-375 | a batch that the database refused is answered Ok with errors, and its triples are lost |
| BulkLoad.RestartExact | module/src/commands/rdf_bulk_insert.rs:257-265 | with no call answered Ok, the rerun from line 0 is right if and only if the skipped lines hold no triple |
| BulkLoad.LoadAndResume | module/src/commands/rdf_bulk_insert.rs:245-339 | both conditions through the method, run twice |
| Namespaces.ParseThenDisplay | parser/src/rdf/namespace.rs:51-66 | parsing succeeds exactly on texts with a colon, and printing gives the text back |
| Namespaces.DisplayThenParse | parser/src/rdf/namespace.rs:51-66 | printing then parsing is the identity if and only if the prefix has no colon |
| Namespaces.RunBacked | parser/src/rdf/namespace.rs:112-134 | in every registry reached by add, remove and merge, each namespace entry is backed by its prefix entry |
| Namespaces.ContractExpand | parser/src/rdf/namespace.rs:158-187 | in every reachable registry, whatever order the namespaces are met in, a contraction of a valid IRI expands to it, and survives printing exactly without a colon in its prefix |
| Namespaces.ContractionExact | parser/src/rdf/namespace.rs:173-187 | an IRI is contracted if and only if it is a registered namespace and a text without a slash or a hash |
| Namespaces.ExpandExact | parser/src/rdf/namespace.rs:158-163 | a name expands exactly if its prefix is registered and the text put together is a valid IRI |
| Namespaces.MergeOverrides | parser/src/rdf/namespace.rs:211-215 | merging in any order overrides the prefix map |
| Namespaces.RemoveCompleteExact | parser/src/rdf/namespace.rs:126-134 | removing a prefix loses a registered namespace if and only if another prefix shares it |
| Namespaces.AddCompleteExact | parser/src/rdf/namespace.rs:112-123 | moving a prefix loses one under the same condition |
| Namespaces.NamespaceRegistry.AddPrefix | parser/src/rdf/namespace.rs:112-123 | both maps afterwards |
| Namespaces.NamespaceRegistry.MergeRegistry | parser/src/rdf/namespace.rs:211-215 | the additions of the other registry's entries in some order |
| Namespaces.NamespaceRegistry.Contract | parser/src/rdf/namespace.rs:173-187 | some fitting namespace with a valid local part, or none if there is none; it expands back |
| Indexes.TypeIndex.AddType | storage/src/index.rs:172-181 | exactly the new assertion is added and the maps stay transposes |
| Indexes.TypeIndex.RemoveType | storage/src/index.rs:224-243 | exactly that assertion goes, and no empty set is left |
| Indexes.TypeIndex.RemoveSubject | storage/src/index.rs:246-263 | exactly the subject's assertions go from both maps |
| Indexes.TypeIndex.Len | storage/src/index.rs:272-275 | the number of assertions, the same from either side |
| Indexes.SameSizeFromEitherSide | storage/src/index.rs:272-275 | transposed maps count the same pairs |
| Indexes.TypesOverRuns | storage/src/index.rs:172-269 | over every run of additions, removals, removals of a subject and clears, the two maps agree and hold exactly the assertions that hold |
| Indexes.OrdersExact | storage/src/index.rs:172-243 | when additions, removals of one assertion and clears reach the two locked maps in different orders, the maps agree if and only if the orders tell of every assertion the same |
| Indexes.HalvesMustNotInterleave | storage/src/index.rs:172-243 | two single changes whose halves run in opposite orders leave the maps agreeing if and only if one does not undo the other |
| TypeIndexProtocol.SchedulesExact | storage/src/index.rs:172-269 | for any calls in any interleaving of their halves, removals of a subject going by what they found, the maps agree if and only if every assertion followed alone comes out alike in both |
| TypeIndexProtocol.SerialAgrees | storage/src/index.rs:172-269 | calls that do not overlap keep the maps in agreement |
| TypeIndexProtocol.TwoCallsExact | storage/src/index.rs:172-269 | two calls of any kind at the same time leave the maps agreeing if and only if they do not meet the maps in opposite orders or neither adds an assertion that the other takes away |
| TypeIndexProtocol.AddDuringRemoval | storage/src/index.rs:172-263 | adding a type while its subject is being removed does no harm exactly if the subject did not have it |
| PredicateIndexProtocol.QuietCounts | storage/src/index.rs:302-421 | however additions and removals interleave between the three locks, each count ends too high by its re-additions and by the decrements that came before their increments |
| PredicateIndexProtocol.InterleavingExact | storage/src/index.rs:302-421 | the index ends as if the calls had run in turn if and only if no decrement found nothing to lower |
| PredicateIndexProtocol.RemovalOvertakes | storage/src/index.rs:392-421 | a removal that overtakes its addition leaves a count of one with no edge |
| Indexes.PredicateIndex.AddTriple | storage/src/index.rs:302-318 | edges, count and total afterwards |
| Indexes.PredicateIndex.RemoveTriple | storage/src/index.rs:392-421 | edges, count and total afterwards |
| Indexes.RemoveBalanced | storage/src/index.rs:392-421 | removal keeps total and counts balanced and never saturates |
| Indexes.RunBalanced | storage/src/index.rs:302-428 | over every run the total is the sum of the counts and each count is at least the stored edges |
| Indexes.CountsDriftByReAdding | storage/src/index.rs:302-421 | the index holds exactly the present edges, and each count exceeds them by exactly the number of re-additions |
| Indexes.SelectivitiesSumToOne | storage/src/index.rs:358-365 | in a non-empty index the selectivities sum to one |
| Indexes.SelectivityIsShare | storage/src/index.rs:358-365 | a predicate's selectivity is its share of the triples, and one in an empty index |

## Left out

- TranslatorTheorem.CompileCorrect: trees with predicate variables, literal or blank ends are outside it; what becomes of these is `TranslatorHidden.PredicateVariableExact`, `LiteralEndExact` and `BlankEndExact`, the last for one triple pattern.
- TranslatorHidden.LiteralEndExact: graphs on which a node has a property called value are outside it.
- TranslatorSequel.SequelExact: conditions of the OPTIONAL itself are outside it.
- TranslatorOptional.OptionalCorrect: chains of several OPTIONALs with constants, or with a filter before the last one, are outside it; one OPTIONAL with any constants and filters is `TranslatorDropped.OptionalExact`.
- TranslatorMinus.MinusExact: the left side has no OPTIONAL; conditions on the right are `TranslatorDropped.MinusConditionsExact`.
- TranslatorMinus.FilterExact: order comparisons, literals, arithmetic, calls, IN and EXISTS that do translate are not modelled; comparison with an IRI is `TranslatorComparisons.IriComparisonExact`.
- Translator.SparqlToCypher.ProcessPattern: BIND, VALUES, property paths, GRAPH, GROUP BY and the modifiers of a sub-SELECT are not modelled.
- Translator.SparqlToCypher.BuildMatchClause: WITH and UNWIND parts, which only BIND and VALUES produce, are not modelled.
- Translator.SparqlToCypher.TranslateSelect: ORDER BY, LIMIT and OFFSET are not modelled.
- TranslatorResults.SelectCorrect: ORDER BY, LIMIT and OFFSET are not modelled.
- RdfListReferences.SharedExact: references to inner nodes of a list are outside it.
- BatchTheorems.TypeObjectsExact: literal objects of `rdf:type` are outside the equivalence; on its own such a triple becomes a property, in a batch nothing, and another triple may write the same property.
- BatchTheorems.ListsAreStored: two lists on one subject by properties of one sanitized name are outside it, because the later one overwrites the earlier.
- Dictionary.ImportExact: imports that repeat an id or an IRI are outside it; exports never do.
- BIND, VALUES, property paths, GROUP BY, ORDER BY, LIMIT, EXISTS, CONSTRUCT, DESCRIBE, SERVICE and GRAPH: rejected or deliberately simplified by the translator; of the filter expressions, comparisons, arithmetic and function calls that do translate are not modelled, and those that do not are one leaf with an arbitrary meaning.
- The text of generated Cypher (spacing, clause keywords, the sorted order of labels), and the CREATE mode of the generator.
- Named graphs on insertion: `generate_quad` only adds a comment line.
- Quotation of generated identifiers with backticks, the resource and literal node builders, and `GraphBuilder`.
- Concurrency of the caches and indexes: each call of the cache is one locked section; reads between the locks of an index, and a clear of the predicate index that overlaps other calls, are not modelled.
- `NamespaceIndex`, `LocalNameIndex`, `Statistics`, `NamespaceCache`, and getters that return one field.
- `QuadWriter::write_quad` and its helper writer: superseded by the direct writer.
- Error message texts, progress logs and I/O errors of the writers.
- Counter overflow, floating-point rounding, equal clock readings.
- The Turtle, TriG and JSON-LD paths, and the parsing of command arguments.
