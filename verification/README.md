# DynaGo in Dafny

A model of the parts of DynaGo in which the difficulty lies, with proofs of what
they are for: the in-memory DynamoDB (`memdb`), the expression language with its
printer, its two parsers and its three tokenizers, optimistic locking, the
client's loops over pages, the update compiler, key conditions, batches, and the
codec. `dafny verify dfyconfig.toml` checks everything.

Code that computes by recursion is modelled by functions. Code that changes things
step by step is modelled by methods with loops and by classes (`ExprParser`,
`CondParser`, `UpdateParser`, `Translator`, `CondBuilder`, `TableData`,
`MemoryBackend`, `HeapTable`), and each method is proved to do what a function on
values says; the theorems are then about those functions.

| files | what |
|---|---|
| Base, Values, Ast | strings, numerals, attribute values, float64 rounding of integers, trees |
| Lexer, Parser, ExprParser, Evaluation, EvalLaws | memdb's expression language |
| Translate, RoundTrip, DottedPaths | printing trees, and parsing them back |
| Phrases, EvalMeaning, ConditionMeaning | conditions as they are written, and what they say |
| Locality, Condition, Merging | appending to a parsed input; joining conditions |
| Builder, FrontEnds | the other parser of `?` expressions, and that the two agree |
| Paths, UpdateExpr, UpdatePanic, UpdateCut, UpdateEval | nested paths; update expressions |
| UpdateLaws, UpdatePhrases | what update clauses do, and how they are written |
| UpdateRequest, UpdateCompile, UpdateMeaning, UpdateCondition | compiling update options |
| Store, Requests, RequestLaws, Backend | tables with indexes; requests and transactions; the objects |
| Tasks, Serial | transactions cut into steps, interleaved under locks |
| Optimistic | ReadModifyWrite by many clients |
| Projection | projections of items |
| Sorting, Paging, Views, QueryScan, Client, EndToEnd | Query, Scan and the loops over their pages |
| KeyCondition, KeyRoundTrip, SortKeys | key conditions as strings, and what they select |
| Codec, CodecForms, CodecLoops | Marshal and Unmarshal |
| Heap, HeapRead, HeapPaths, HeapUpdate, ExprUpdate | maps, slices and buffers as shared objects |
| Isolation, ClientRuns | a table made of such objects, and any client of it |
| Batch | chunks, retries, progress |

## Where the code is not what one might expect

Each of these is proved, mostly as an if-and-only-if. (The repository's README also shows
`dynamodbav` struct tags where the code reads `dynamo`.)

- Two conditions given to one call, or a condition added to an update, both number
  their values from `:v0`, so the later value replaces the earlier one. Merging is
  conjunction exactly when no used value is replaced (`MergeIsConjunctionIff`,
  `ConditionalUpdateIff`, `SecondValueWinsTwice`).
- An index entry is keyed by its index key alone: an index agrees with its table in
  every state exactly when no two items ever share an index key
  (`RunAgreementIff`, `CollisionIsRemembered`).
- An error out of a write transaction may leave writes behind. Unless an update follows a
  write to its own item, that happens exactly when all conditions hold and some request
  cannot be applied to the state before (`BreaksIff`, `BrokenIff`, `ErrorAfterAWrite`).
- Following LastEvaluatedKey of an index query starts over for ever unless the
  index's range attribute is a key attribute of the table
  (`IndexQueryPagesRebuildTheWhole`, `OtherIndexesStartOver`).
- Versions are compared as float64 values (`VersionCheckIff`, `LostUpdateAt53`), and
  an item without the version attribute can never be updated
  (`UnversionedItemsConflict`).
- An update expression that stops behind the bracket of an `if_not_exists` of a SET clause,
  and could be completed from there, makes the parser read past its tokens; nothing else
  does, and no REMOVE, ADD or DELETE clause does (`PanicsThere`, `PanicsIff`,
  `RemoveNeverPanics`, `AddDeleteNeverPanics`).
- memdb's path setter ignores a value in the way where that of `internal/expr`
  reports an error (`SetPathIff`).
- The documentation of QueryLimit and ScanLimit promises a bound on the items across
  all pages; the iterators use the limit as a page size only and yield everything
  (`Iterate`).
- Results are sorted by key string, so a number key 10 comes before 9. Two integers are
  in the order of their values exactly when the one with fewer digits, padded with
  zeros, is still on its side (`NumberKeysOutOfOrder`, `NumberKeysIff`). Sort-key
  conditions on numbers do go by their values (`NumberKeys`).
- A sort key of another type than the bound passes `<=` and `>=` (`OtherKeys`).
- The update evaluators of `memdb` and of `internal/expr` differ on binary sets, on DELETE
  from what is no set, and where a value is in the way (`EvaluatorsAgreeIff`).
- A tree with a dotted path does not survive printing and parsing (`PrintThenParseIff`).
- An item filter that cannot be evaluated hides, from iterators and collections, the items
  of its own page that come before it (`GoodPagesIff`, `Iterate`, `FetchCollection`).
- An attribute whose name has a comma in it or a blank at its end cannot be projected
  (`ProjectionIff`).
- The numbered aliases of `aliasName` are never used (`Translator.AliasName`).

## Model

| member | source | states |
|---|---|---|
| Lexer.TokenizeMem | memdb/expression.go:45-122 | the tokenizer loop yields exactly the tokens of the recursive specification, on every input string |
| Lexer.TokenizeBuilder | internal/expr/builder.go:127-182 | the builder's tokenizer loop yields exactly the tokens of its recursive specification, on every input string |
| Lexer.TokenizeCondition | condition.go:146-198 | the tokenizer of conditions gives the same tokens as the builder's, on every string |
| Lexer.MemTokensConcat | memdb/expression.go:45-122 | tokens of a concatenation are the tokens of the parts, when the second part starts with a blank, a bracket or a comma |
| Lexer.MemTokensPlaceholder | memdb/expression.go:82-95 | `#name` and `:name` are one token |
| Lexer.MemTokensIdentifier | memdb/expression.go:97-105 | an identifier is one token |
| ExprParsing.ParseExpressionToAST | memdb/expression.go:30-43 | the parser object, with its moving position, returns what the recursive grammar says for every string, without reading past its tokens |
| ExprParsing.ExprParser.ParseOr | memdb/expression.go:165-180 | the OR loop builds the left-associated tree and stops where the grammar stops |
| ExprParsing.ExprParser.ParseAnd | memdb/expression.go:182-197 | the AND loop builds the left-associated tree and stops where the grammar stops |
| ExprParsing.ExprParser.ParseNot | memdb/expression.go:199-210 | NOT binds to one further NOT or comparison |
| ExprParsing.ExprParser.ParseComparison | memdb/expression.go:212-305 | comparisons, BETWEEN and IN, with every error branch |
| ExprParsing.ExprParser.ParseBetween | memdb/expression.go:229-250 | BETWEEN becomes the conjunction of two comparisons |
| ExprParsing.ExprParser.ParseInList | memdb/expression.go:252-289 | IN becomes a left-associated disjunction of equalities, or a comparison that is never true for an empty list |
| ExprParsing.ExprParser.ParsePrimary | memdb/expression.go:307-354 | placeholders, aliases, identifiers, calls and brackets |
| ExprParsing.ExprParser.ParseFuncCall | memdb/expression.go:356-378 | the argument list of a call |
| Translate.Translator.AliasName | internal/expr/translate.go:33-50 | an attribute always gets the alias `#name`: the numbered alternative is never reached |
| Translate.Translator.AliasValue | internal/expr/translate.go:53-58 | the n-th value gets the placeholder `:vn` |
| Translate.Translator.TranslateNode | internal/expr/translate.go:61-99 | the stateful translation prints the tree, and its maps hold exactly the aliases and the values in printing order |
| Translate.Translator.TranslatePath | internal/expr/translate.go:102-108 | a path is its aliases joined by dots |
| Translate.ToDynamo | internal/expr/translate.go:160-164 | expression, names and values of a whole tree |
| Translate.PlaceholderInjective | internal/expr/translate.go:53-58 | different counters give different placeholders |
| RoundTrip.PrintThenParse | internal/expr/translate.go:61-108 | for every condition tree with single-identifier paths, known functions and primary operands, memdb parses the printed string back to exactly that tree, in any environment that binds its aliases and values |
| RoundTrip.ToDynamoThenParse | memdb/expression.go:28-43 | ToDynamo followed by memdb's tokenizer and parser returns the tree |
| DottedPaths.PrintThenParseIff | internal/expr/translate.go:102-108 | over all trees of conditions with paths of any length, memdb parses the printed string back to the tree exactly when every path is a single segment |
| Phrases.TextMeans | memdb/expression.go:165-378 | conditions written with brackets only where NOT, AND and OR need them, with comparisons, BETWEEN, IN and calls of the six functions in any letter case, are parsed to the trees that they mean; an error exactly when an alias or placeholder is unknown |
| ConditionMeaning.BetweenIsTwoComparisons | memdb/expression.go:229-250 | `a BETWEEN x AND y` is parsed to the tree of `a >= x AND a <= y`, for all operands |
| ConditionMeaning.InIsEqualities | memdb/expression.go:252-289 | `a IN (x1, .., xn)` is parsed to the tree of `a = x1 OR .. OR a = xn`, for every n > 0 |
| ConditionMeaning.InEmptyList | memdb/expression.go:282-288 | `a IN ()` is false of every item |
| ConditionMeaning.NumberConditions | internal/expr/eval.go:88-152 | the texts with each of the six operators compare integers as integers |
| ConditionMeaning.StringConditions | internal/expr/eval.go:88-152 | the texts with each of the six operators compare strings, and bytes, by prefix or first differing byte |
| ConditionMeaning.BetweenNumbers | memdb/expression.go:229-250 | BETWEEN on integers is lo <= i <= hi |
| ConditionMeaning.InNumbers | memdb/expression.go:252-289 | IN on integers is membership |
| ConditionMeaning.FunctionConditions | internal/expr/eval.go:185-293 | the texts of begins_with and contains, in any letter case, say what they are called |
| ConditionMeaning.ExistsConditions | internal/expr/eval.go:185-293 | the texts of attribute_exists and attribute_not_exists ask whether a chain of maps leads along the path |
| ConditionMeaning.AliasHas | memdb/expression.go:326-339 | an alias of a top-level attribute that is there stands for its value |
| ConditionMeaning.PlaceholderHas | memdb/expression.go:313-323 | a placeholder stands for its value |
| ConditionMeaning.ConnectivesMean | memdb/expression.go:165-210 | the texts of AND, OR and NOT are the connectives of what their parts say |
| ConditionMeaning.ConnectiveTexts | memdb/expression.go:165-225 | those texts, with brackets around an operand only where it binds less |
| ConditionMeaning.KeywordsInAnyCase | memdb/expression.go:171-202 | keywords are recognised in any letter case |
| Locality.ParseIsLocal | memdb/expression.go:165-378 | appending `)` and any further tokens to a fully consumed input, in a wider environment, leaves its parse unchanged |
| Locality.ParseIsFilledShape | memdb/expression.go:165-378 | which tree is built depends on the values only through the placeholders that end up in it |
| Locality.FillAgrees | memdb/expression.go:165-378 | two value maps give the same tree exactly when they agree on its placeholders |
| Condition.BuildCondition | condition.go:20-36 | the translated string, names and values of a `?` expression; an error exactly when the number of values is not the number of `?` |
| Condition.CondBuilder.TranslateTokens | condition.go:78-135 | the translation loop prints each token as specified and collects aliases and values |
| Condition.MergeConditions | condition.go:49-68 | the merged string and the merged maps, the second condition winning |
| Merging.MergedMeaning | condition.go:49-68 | the merged string parses to AND of the two shapes, both read with the merged values |
| Merging.MergeIsConjunctionIff | condition.go:49-68 | merging gives AND of the two meanings exactly when no value that the first condition uses is overwritten by the second |
| Merging.MergedEvaluation | put.go:18-43 | with disjoint placeholders the merged condition evaluates to the conjunction of the two, on every item, errors included |
| Merging.IfNotExistsMeans | put.go:18-28 | IfNotExists holds exactly when the stored item lacks the attribute, and with any other condition, in either order, it is one more conjunct |
| Merging.SecondValueWinsTwice | condition.go:110 | two comparisons given to one call both use `:v0`: the second value is compared with in both places |
| Merging.ComparisonIsBuilt | condition.go:78-135 | what buildCondition makes of `attr op ?` |
| Merging.ComparisonMeaning | condition.go:78-135 | memdb reads that as the comparison of the attribute with the value |
| Builder.ParseConditionText | internal/expr/builder.go:12-28 | the builder's parser object returns what its grammar says, for every string and argument list |
| Builder.CondParser.ParseOr | internal/expr/builder.go:226-241 | the OR loop builds the left-associated tree and moves position and argument counter as the grammar does |
| Builder.CondParser.ParseComparison | internal/expr/builder.go:273-306 | comparisons: two operands of any primary kind, with the argument counter |
| Builder.CondParser.ParsePrimary | internal/expr/builder.go:308-340 | placeholders, names, calls and brackets |
| FrontEnds.FrontEndsAgree | condition.go:78-198 | whenever ParseCondition accepts an expression over plain names and known functions, buildCondition succeeds and memdb parses its result to the same tree with the same values in the same places |
| Paths.SetThenResolve | memdb/expression.go:873-894 | after a set the path resolves to the value exactly when its proper prefixes are maps or missing; a blocked set changes nothing |
| Paths.RemoveThenResolve | memdb/expression.go:896-911 | after a remove the path does not resolve |
| Paths.SetWhatIsThere | memdb/expression.go:873-894 | setting what is there changes nothing |
| Paths.SetTwice | memdb/expression.go:873-894 | the later of two sets of one path wins |
| Paths.RemoveTwice | memdb/expression.go:896-911 | removing twice is removing once |
| Paths.SetElsewhere | memdb/expression.go:873-894 | every path that is not comparable resolves as before a set |
| Paths.RemoveElsewhere | memdb/expression.go:896-911 | every path that is not comparable resolves as before a remove |
| Paths.SetsCommute | memdb/expression.go:873-894 | sets of incomparable paths commute, at any depth |
| HeapPaths.SetNestedPath | memdb/expression.go:873-894 | the setter on shared maps: only the given map is written, maps on the way down are copied, and the given map then stands for the item with the path set |
| HeapPaths.RemoveNestedPath | memdb/expression.go:896-911 | the remover on shared maps (internal/expr has the same): only the given map is written, and it then stands for the item without the path |
| HeapPaths.ResolvePathValue | memdb/expression.go:853-871 | what is found on shared maps stands for what the path resolves to |
| UpdateExpr.ParseUpdateExpression | memdb/expression.go:509-525 | the update parser object returns what its grammar says, for every string: clauses, an error, or the panic |
| UpdateExpr.UpdateParser.Parse | memdb/expression.go:539-577 | the loop over the sections collects the clauses in order, or stops at an error |
| UpdateExpr.UpdateParser.ParseSetClauses | memdb/expression.go:611-637 | the SET loop with its optional commas reads what the grammar reads |
| UpdateExpr.UpdateParser.ParseAddDeleteClauses | memdb/expression.go:744-770 | the ADD and DELETE loop reads what the grammar reads |
| UpdateExpr.UpdateParser.ParseRemoveClauses | memdb/expression.go:772-786 | the REMOVE loop reads what the grammar reads |
| UpdateExpr.UpdateParser.ParseValue | memdb/expression.go:639-656 | one operand, or two with + or - |
| UpdateExpr.UpdateParser.ParseIfNotExists | memdb/expression.go:701-718 | if_not_exists, which advances past its path without looking whether there is one |
| UpdateExpr.UpdateParser.ParseListAppend | memdb/expression.go:720-738 | list_append reads its two operands, a comma and the bracket |
| UpdateCut.PanicsIff | memdb/expression.go:701-703 | the parser reads past its tokens exactly on those that end in the bracket of an if_not_exists and that a path, a comma, a value and the open brackets complete to a parseable expression ending in a SET clause |
| UpdateCut.RemoveNeverPanics | memdb/expression.go:772-786 | REMOVE clauses never read past the tokens |
| UpdateCut.AddDeleteNeverPanics | memdb/expression.go:744-770 | ADD and DELETE clauses never read past the tokens |
| UpdateEval.SetUnionIsUnion | memdb/expression.go:954-968 | addToStringSet is union, keeps the old elements in front and never duplicates |
| UpdateEval.SetDifferenceIsDifference | memdb/expression.go:970-982 | removeFromStringSet is difference |
| UpdateEval.AddThenDelete | memdb/expression.go:954-982 | adding elements and deleting them leaves the old set without them |
| UpdateEval.AddToStringSet | memdb/expression.go:954-968 | the loops compute the union |
| UpdateEval.RemoveFromStringSet | memdb/expression.go:970-982 | the loop computes the difference |
| UpdateEval.EvalUpdateNodes | memdb/expression.go:790-849 | the loop applies the clauses in order and stops at the first error |
| UpdateEval.EvalUpdateNode | memdb/expression.go:790-849 | one clause: SET, ADD on numbers and sets, REMOVE, DELETE |
| UpdateEval.SectionsValid | memdb/expression.go:539-577 | parsed clauses always have a path, and REMOVE never has a value |
| UpdateLaws.AddAdds | memdb/expression.go:802-815 | for integers within 2^53, after ADD the path resolves to the sum and every path apart from it to what it did before |
| UpdateLaws.SetCalculates | memdb/expression.go:436-465 | SET path = v + w and SET path = v - w, for any operands that resolve to integers |
| UpdateLaws.CounterMoves | memdb/expression.go:915-936 | so SET path = path + b and SET path = path - b |
| UpdateLaws.OnlyNumbersCalculate | memdb/expression.go:436-465 | arithmetic on anything but numbers is an error |
| UpdateLaws.SetStores | memdb/expression.go:795-800 | SET stores what its right-hand side resolves to where nothing is in the way, and is an error when it does not resolve |
| UpdateLaws.SetsOnce | memdb/expression.go:469-480 | SET path = if_not_exists(path, default) writes only where nothing is |
| UpdateLaws.ListsJoin | memdb/expression.go:483-507 | list_append is the first list and then the second |
| UpdateLaws.OnlyListsJoin | memdb/expression.go:483-507 | list_append of anything else is an error |
| UpdateLaws.AddStores | memdb/expression.go:807-809 | ADD where nothing is stores the operand |
| UpdateLaws.SetsChange | memdb/expression.go:816-843 | ADD on string and number sets is union, DELETE is difference, and other paths stay |
| UpdateLaws.OthersDoNotChange | memdb/expression.go:822-844 | ADD of another type is an error; DELETE of another type, or where nothing is, changes nothing |
| UpdateLaws.RemoveRemoves | memdb/expression.go:826-827 | REMOVE removes the path and nothing else |
| UpdateLaws.ClauseByClause | memdb/expression.go:790-849 | each clause works on what those to its left have made |
| UpdateLaws.EvaluatorsAgreeIff | internal/expr/eval_update.go:105-217 | this evaluator agrees with memdb's on a clause exactly when nothing is in the way, the values are no binary sets, and DELETE is from a set of its kind |
| UpdateLaws.BinaryUnion | internal/expr/eval_update.go:155-196 | ADD on binary sets has the elements of both, the old ones in front |
| UpdatePhrases.TextMeans | memdb/expression.go:539-786 | update expressions as written, with sections in any order and letter case, arithmetic and nested calls, are read as the clauses that they say; an error exactly when a placeholder, or an alias where a value is read, is unknown |
| UpdatePhrases.CounterTexts | memdb/memdb.go:496-510 | the texts `SET p = p + v`, `SET p = p - v` and `ADD p v` move a counter by v |
| HeapUpdate.EvalUpdateNodes | memdb/expression.go:790-849 | on shared objects: the result stands for the updated item, and neither the item given, nor the request's values, nor any other object that existed is changed |
| HeapUpdate.ResolveOnHeap | memdb/expression.go:412-507 | right-hand sides: values and parts of the item are shared, sums and joined lists are new |
| HeapUpdate.SectionsFill | memdb/expression.go:539-577 | the clauses that are read depend on the values only by having them at their placeholders |
| UpdateRequest.BuildUpdateRequest | update.go:186-251 | the request's string groups the clauses by action in first-seen order and numbers the values from `:v0` |
| UpdateCompile.CompileThenParse | update.go:186-251 | memdb parses that string to the clauses, stably grouped by action in first-seen order |
| UpdateMeaning.GroupingPreservesMeaning | update.go:186-251 | for clauses on distinct attributes the grouped clauses give the same item, or an error in both cases, as the clauses in the order given |
| UpdateMeaning.CompiledUpdateMeaning | memdb/expression.go:790-849 | so memdb's answer to the compiled update is that of the clauses in the order given |
| UpdateCondition.RequestMeaning | update.go:253-255 | with a condition added, memdb reads each clause with the value that the merged map has under its placeholder |
| UpdateCondition.ConditionalUpdateIff | update.go:253-255 | adding a condition leaves the update's meaning alone exactly when the condition's values do not replace the update's |
| ExprUpdate.EvalUpdate | internal/expr/eval_update.go:12-41 | on shared objects, for value nodes of every kind: the result stands for the updated item, and no map or slice that existed before the call is changed |
| ExprUpdate.SetOnHeap | internal/expr/eval_update.go:62-88 | copy on write: only the given map is written, and it then stands for the item with the path set |
| ExprUpdate.ApplyOnHeap | internal/expr/eval_update.go:105-217 | SET, ADD, REMOVE and DELETE on the working copy, with a value node of any kind or none |
| ExprUpdate.SumOnHeap | internal/expr/eval_update.go:134-173 | ADD on numbers, up to the digits printed above 2^53, and on string, number and binary sets, in new slices |
| ExprUpdate.DifferenceOnHeap | internal/expr/eval_update.go:198-216 | DELETE on the three kinds of sets |
| ExprUpdate.SetPathIff | internal/expr/eval_update.go:62-88 | this setter is memdb's where nothing is in the way, and an error exactly where memdb's leaves the item alone |
| Heap.DeepCopyAV | memdb/memdb.go:198-240 | a deep copy stands for the same value, and everything reachable from it is new |
| Heap.DeepCopyItem | memdb/memdb.go:186-196 | a deep copy of an item stands for the same item, and everything reachable from it is new |
| Heap.DenotesUnique | memdb/memdb.go:198-240 | a value on the heap stands for one value |
| Heap.DenotesWithin | memdb/memdb.go:198-240 | a value that stands for anything does so within every closed set that it refers to |
| HeapRead.TryRead | memdb/memdb.go:198-240 | reads off the value of a structure, unless it is nested too deep or stands for nothing |
| HeapRead.ProjectOnHeap | memdb/memdb.go:302-315 | a new map with the projected values of the copy |
| Isolation.HeapTable.PutItem | memdb/memdb.go:387-420 | for an item made of any objects that clients can reach: the table is the one that the request leaves, stored in new objects that no client can reach |
| Isolation.HeapTable.DeleteItem | memdb/memdb.go:422-457 | the table is the one that the request leaves, and no client can reach a stored object |
| Isolation.HeapTable.GetItem | memdb/memdb.go:364-385 | the response is the projected item, a copy all made of new objects |
| Isolation.HeapTable.Responses | memdb/memdb.go:636-654 | each item of a query or scan is a projection of a copy all made of new objects |
| Isolation.HeapTable.UpdateItem | memdb/memdb.go:459-525 | condition, update and attributes as the request says, with values of the request taken into the working copy; what is stored and what is returned are separate new objects |
| Isolation.HeapTable.Evaluate | memdb/memdb.go:484-510 | the update of a copy of the stored item or of the key, and a copy of the old item |
| Isolation.HeapTable.WriteThrough | memdb/memdb.go:243-299 | the table and every index get their own copies, and stand for the table after the write |
| Isolation.HeapTable.UpdateGSIs | memdb/memdb.go:276-299 | the loop over the indexes on copies |
| Isolation.StoredCopiesAreApart | memdb/memdb.go:295 | two stored copies share no object, not even the table's and an index's copy of one item |
| ClientRuns.Step | memdb/memdb.go:186-240 | whatever one action does to objects that the client has, only a write request changes the table, by the values that its maps have at that moment |
| ClientRuns.Run | memdb/memdb.go:186-525 | over any sequence of requests and of changes to anything passed in or given out: no stored object is ever within the client's reach, and the table is what its write requests have made of it one by one |
| Store.WriteFinds | memdb/memdb.go:243-272 | a write changes what is found at its key and nothing else |
| SortKeys.SameKeyIff | memdb/memdb.go:108-183 | two items have one place exactly when their key attributes are equal |
| SortKeys.HasKeyIff | memdb/memdb.go:108-183 | an item has a place exactly when each key attribute is a string, a number or bytes |
| Store.ReindexFinds | memdb/memdb.go:276-299 | after updateGSIs the new item is found at its index key, nothing at the old one, everything else as before |
| Store.WriteKeepsSound | memdb/memdb.go:276-299 | every write keeps: each index entry sits under its own index key and is a current item, and no inner map is empty |
| Store.WriteKeepsComplete | memdb/memdb.go:276-299 | without collisions before and after, every write keeps every item with an index key in the index |
| Store.IndexIsBaseRekeyed | memdb/memdb.go:276-299 | a sound and complete index is exactly the base table re-keyed |
| Store.RunKeepsSound | memdb/memdb.go:243-299 | soundness in every state of every run |
| Store.RunKeepsAgreement | memdb/memdb.go:243-299 | agreement in every state of every run without collisions |
| Store.RunAgreementIff | memdb/memdb.go:291-295 | over a run whose items stay at their own keys, all indexes agree in every state exactly when no state has two items under one index key |
| Store.CompleteNeedsNoCollision | memdb/memdb.go:291-295 | an index cannot hold two items under one key |
| Store.CollisionIsRemembered | memdb/memdb.go:281-289 | after a collision, deleting one of the two items leaves the other out of the index |
| Store.WriteKeepsAtHomeIff | memdb/memdb.go:243-248 | items stay at their own keys exactly when the stored item belongs at its key |
| Backend.TableData.UpdateGSIs | memdb/memdb.go:276-299 | the loop over the indexes, in any order, reindexes each one |
| Backend.TableData.StoreItem | memdb/memdb.go:243-248 | the nested maps after a store |
| Backend.TableData.DeleteItem | memdb/memdb.go:261-272 | the nested maps after a delete, without empty inner maps |
| Backend.TableData.GetItem | memdb/memdb.go:251-258 | the stored item |
| Backend.TableData.Update | memdb/memdb.go:459-525 | UpdateItem under the lock, with ALL_NEW and ALL_OLD |
| Backend.MemoryBackend.CreateTable | memdb/memdb.go:73-92 | a new empty table; nothing happens when the name is taken |
| Backend.MemoryBackend.GetItem | memdb/memdb.go:364-385 | the projected item at the key, nothing, or an error |
| Backend.MemoryBackend.PutItem | memdb/memdb.go:387-420 | one table changes by one write, or nothing does and the reply says why |
| Backend.MemoryBackend.DeleteItem | memdb/memdb.go:422-457 | one table loses one item, or nothing changes and the reply says why |
| Backend.MemoryBackend.UpdateItem | memdb/memdb.go:459-525 | one table changes by the update of one item, or nothing does and the reply says why; the attributes are those after or before |
| Backend.MemoryBackend.BatchWriteItem | memdb/memdb.go:1146-1190 | writes table by table up to the first error; over 25 writes nothing happens |
| Backend.MemoryBackend.TransactWriteItems | memdb/memdb.go:1236-1384 | the two loops do what the specification of transactions says in all four outcomes |
| Backend.MemoryBackend.CheckAll | memdb/memdb.go:1263-1322 | the first pass: every condition in the state before any write, an error as soon as one cannot be evaluated |
| Backend.MemoryBackend.ApplyRequests | memdb/memdb.go:1328-1381 | the second pass, which stops at the first error and keeps what it has written |
| Backend.MemoryBackend.TransactGetItems | memdb/memdb.go:1192-1234 | all items, each with its own projection, or an error |
| Requests.CancelledIff | memdb/memdb.go:1263-1326 | cancelled exactly when all conditions can be evaluated in the state before and one is false there; reason i is a failed check exactly when condition i is false; nothing has changed |
| Requests.CommittedIff | memdb/memdb.go:1328-1383 | committed exactly when all conditions are true in the state before and each write can be applied after the ones to its left; the end is the last state of that chain |
| Requests.BrokenIff | memdb/memdb.go:1331-1371 | the only way a failed transaction leaves writes behind: all conditions true, and some write n failing after the first n |
| Requests.BreaksIff | memdb/memdb.go:1331-1371 | a transaction whose conditions hold, with no update after a write to its own item, breaks exactly when some request cannot be applied to the state before, and commits otherwise |
| Requests.UpdateFreeBreaksIff | memdb/memdb.go:1331-1351 | so a transaction without updates whose conditions hold breaks exactly when a put or delete lacks a key attribute |
| Requests.ErrorAfterAWrite | memdb/memdb.go:1331-1351 | a put followed by a delete without its key returns an error and keeps the put |
| Requests.WriteOneIsATransaction | memdb/memdb.go:387-525 | a single write is a transaction of one |
| RequestLaws.ConditionsGuard | memdb/memdb.go:1263-1326 | every condition of a transaction, those of condition checks among them, guards as it guards a delete by itself: refused exactly when one cannot be evaluated, cancelled exactly when one fails, for just those reasons |
| RequestLaws.CheckGuards | memdb/memdb.go:1289-1318 | a condition check in front of a transaction cancels it when the condition fails by itself, and otherwise only adds a reason that is false |
| RequestLaws.CommittedReads | memdb/memdb.go:1328-1383 | what a committed transaction leaves at any key: its last put there, nothing after a delete, what was there where it does not write |
| RequestLaws.TransactGetReads | memdb/memdb.go:1192-1234 | a read transaction gives what each read by itself gives, or an error exactly when one of them is or there are more than 100 |
| RequestLaws.TooManyAreRefused | memdb/memdb.go:1236-1250 | more than 100 requests, or an unknown table, are refused |
| RequestLaws.BatchRuns | memdb/memdb.go:1146-1190 | a batch of puts and deletes with whole keys goes through exactly when it has at most 25, and then does what they do one after the other |
| RequestLaws.LastWriteStays | memdb/memdb.go:1146-1190 | of writes that are all applied, the last put or delete at a key decides what is there |
| RequestLaws.PutIsRead | memdb/memdb.go:387-420 | what has been put is read under its key, and every other read is as before |
| RequestLaws.DeleteIsRead | memdb/memdb.go:422-457 | what has been deleted is not read, and every other read is as before |
| RequestLaws.UpdateIsRead | memdb/memdb.go:459-525 | after an update the item read before, or else the key attributes, are read as updated |
| RequestLaws.ConditionIsRead | memdb/memdb.go:387-525 | a condition is about the item that is read at the key, or about an empty one |
| RequestLaws.Unconditional | memdb/memdb.go:387-525 | without a condition a put or delete goes through exactly when its key is whole, and an empty update expression changes nothing |
| RequestLaws.PutIfAbsent | memdb/memdb.go:399-413 | a put with attribute_not_exists of the hash attribute goes through exactly when nothing is read under its key |
| RequestLaws.AttributesAreRead | memdb/memdb.go:514-522 | ALL_NEW is what is read after the update, ALL_OLD what is read before |
| Requests.EveryHistoryAgrees | memdb/memdb.go:387-1384 | after any puts, deletes, updates, batches and transactions on fresh tables every index is sound, and complete if no state passed through had a collision |
| Requests.PassedAllIsPath | memdb/memdb.go:387-1384 | the states passed through while calls are handled differ by one write at a time and end in the result |
| Requests.UpdateKeepsAtHomeIff | memdb/memdb.go:505-512 | an update leaves items at their own keys exactly when the updated item still has the key it is stored under |
| Requests.PutAndDeleteKeepAtHome | memdb/memdb.go:387-457 | puts and deletes always leave items at their own keys |
| Tasks.DedupTables | memdb/memdb.go:1403-1413 | the distinct tables in the order of their first occurrences |
| Tasks.DedupKeepsTheElements | memdb/memdb.go:1403-1413 | every table once |
| Tasks.BeginIsTheWhole | memdb/memdb.go:1192-1384 | the steps of a transaction, taken without interruption, are the transaction |
| Tasks.StepKeepsTheEnd | memdb/memdb.go:1263-1381 | a step changes nothing about how the transaction ends |
| Tasks.CompleteIsLocal | memdb/memdb.go:1252-1381 | what is left of a transaction sees and changes only the tables that it locks |
| Serial.ActKeepsInv | memdb/memdb.go:1252-1384 | every lock, check, write, read and unlock of any client keeps the invariant |
| Serial.EveryInterleavingIsSerial | memdb/memdb.go:392-1384 | every completed interleaving ends in the tables, and gives every client the answer, of the same tasks in some serial order; a TransactGetItems reads one state of it |
| Serial.EveryMomentIsSerial | memdb/memdb.go:392-1384 | at any moment the tables nobody is writing to are those of the serial run so far |
| Serial.OrderIsRealTime | memdb/memdb.go:392-1384 | the order respects real time |
| Serial.NobodyWaitsForItself | memdb/memdb.go:1403-1413 | because of dedup a client never waits for a lock it holds |
| Optimistic.NoLostUpdates | rmw.go:43-81 | at every moment of every interleaving the item is the fold of the successful clients' functions in commit order, its version the initial one plus their number; nil is returned for exactly one put each; fn is called at most maxRetries + 1 times |
| Optimistic.EnoughRetriesSucceed | rmw.go:72-78 | a client that may retry as often as there are other clients never returns a failed condition |
| Optimistic.VersionCheckIff | internal/expr/eval.go:121-137 | the version check passes exactly when the two versions round to one float64, and never on an item without the attribute |
| Optimistic.VersionConditionIsBuilt | rmw.go:64 | what PutCondition makes of the text that ReadModifyWrite gives it |
| Optimistic.PutOutcome | rmw.go:71-81 | a conditional put goes through exactly when the stored version is the expected one |
| Optimistic.LostUpdateAt53 | internal/expr/eval.go:125-137 | at version 2^53 a stale put goes through and an update is lost |
| Optimistic.UnversionedItemsConflict | rmw.go:57-70 | an item without the version attribute can never be updated |
| Optimistic.ReadModifyWrite | rmw.go:37-84 | the loop of one client alone: result, table and number of calls of fn |
| Projection.ProjectionIff | get.go:33-42 | memdb reads the client's projection as the attributes asked for exactly when none has a comma in it or a blank at its end, and then a projected item has just those of its attributes |
| Projection.BuildProjection | get.go:33-42 | the aliases behind commas, and the names they stand for |
| Projection.ProjectItem | memdb/memdb.go:302-315 | the item restricted to the attributes read out of the projection |
| Projection.ParseProjectionAttrs | memdb/memdb.go:318-336 | the loop over the parts with its aliases and blanks |
| Sorting.SortedKeysOf | memdb/memdb.go:570-574 | the sorted keys of a map, each once |
| Sorting.SortedIsUnique | memdb/memdb.go:570-574 | there is only one strictly sorted sequence of given elements |
| Paging.PageThenRest | memdb/memdb.go:593-663 | a page and what its LastEvaluatedKey leads to are everything; a page scans at most its limit and gets further |
| Paging.PagesRebuildTheWhole | memdb/memdb.go:593-663 | following LastEvaluatedKey with any positive limits adds up to the unlimited request |
| Views.QueryIsExact | memdb/memdb.go:564-655 | the unlimited query is exactly the partition's items that match the sort-key condition and the filter, each once, strictly ordered by key string; it is an error exactly when the filter cannot be evaluated on one that matches |
| Views.ScanIsExact | memdb/memdb.go:1006-1090 | the unlimited scan is exactly the items that pass the filter, each once, strictly ordered by hash and range key string; it is an error exactly when the filter cannot be evaluated on some item |
| Views.QueryPagesRebuildTheWhole | memdb/memdb.go:527-680 | on a base table whose items sit at their own keys, following LastEvaluatedKey with any positive limits, up or down, adds up to the unlimited query |
| Views.ScanPagesRebuildTheWhole | memdb/memdb.go:975-1100 | for a table or any index in a sound state, following LastEvaluatedKey with any positive limits adds up to the unlimited scan |
| Views.IndexQueryPagesRebuildTheWhole | memdb/memdb.go:593-662 | following LastEvaluatedKey of an index query adds up to the unlimited query when the index's range attribute is one of the table's key attributes or there is none |
| Views.OtherIndexesStartOver | memdb/memdb.go:593-662 | on any other index every LastEvaluatedKey leads to the first page again |
| QueryScan.Query | memdb/memdb.go:527-666 | the loops of Query compute the specified page, projected |
| QueryScan.Scan | memdb/memdb.go:975-1100 | the loops of Scan compute the specified page, projected |
| EndToEnd.ClientReadIsExact | query.go:213-258 | a client's Query or Scan with limit n, in terms of the table: of the items that the request goes through, in key order, the first n that pass the filter, projected and decoded; an error exactly when one that cannot be filtered or decoded comes before enough have passed |
| EndToEnd.FetchItems | query.go:213-258 | the loop with the shrinking limit, calling the backend for each page, computes that |
| EndToEnd.Ask | query.go:248-254 | the requests of one call are pages of one view, whatever their start key and limit |
| EndToEnd.ViewResumes | memdb/memdb.go:593-663 | in a sound state with items at their own keys, those pages lead on |
| Client.HitsErrIff | scan.go:114-141 | the error of the loop comes out exactly when an entry is in trouble before enough have passed |
| Client.HitsTake | query.go:238-240 | with a limit of n the hits are the first n of all |
| Client.AllHits | scan.go:117-128 | all hits are the decoded items of the whole filtered sequence |
| Client.FetchCollection | collection.go:36-67 | the first n recognised items, although the page size never shrinks; an error exactly when a page cannot be filtered and the pages before it do not have n |
| Client.Iterate | iter.go:13-48 | page after page of any size, the consumer gets every item before the first page or item that is an error, and then the error, unless it stops before |
| Client.GoodPagesIff | memdb/memdb.go:636-654 | the pages before the error are whole pages, and the first entry that cannot be filtered is on the next one |
| KeyCondition.BuildQueryText | query.go:154-208 | key condition, filter and the merged placeholder maps of a query request |
| KeyCondition.SplitOnANDInPlace | memdb/memdb.go:768-788 | the loop finds the first AND outside brackets with no BETWEEN to its left |
| KeyCondition.ParseKeyConditionText | memdb/memdb.go:692-761 | the loop over the parts finds the partition value and the sort condition, or the error, that the specification finds |
| KeyRoundTrip.KeyConditionRoundTrip | memdb/memdb.go:692-884 | for every partition condition with any sort method over identifiers, parsing the built string gives back the value, the operator and the bounds; a comparison on another attribute than the sort key is an error |
| KeyRoundTrip.RequestBindsKey | query.go:154-208 | the placeholders of filters and projections never get in the way of the key condition's |
| SortKeys.TextKeys | memdb/memdb.go:913-945 | for a string or bytes bound and keys of that type, each operator goes by the order of the stored key strings, and begins_with by their prefix |
| SortKeys.TextBetween | memdb/memdb.go:942-943 | BETWEEN includes both bounds |
| SortKeys.NumberKeys | memdb/memdb.go:913-975 | for a number bound and number keys within 2^53, each operator goes by the integers |
| SortKeys.NumberBetween | memdb/memdb.go:942-943 | BETWEEN on number keys is lo <= i <= hi |
| SortKeys.OtherKeys | memdb/memdb.go:949-953 | a key of another type than the bound passes <= and >= and nothing else |
| SortKeys.NothingDiffers | memdb/memdb.go:944-945 | no entry passes <> |
| SortKeys.WholePartition | memdb/memdb.go:620-628 | without a sort-key condition a query goes through the whole partition |
| SortKeys.SortTexts | query.go:25-104 | the texts of the sort methods |
| SortKeys.ClientQueryGoes | memdb/memdb.go:527-628 | a query with the client's key condition goes through the entries that those lemmas describe, with the method's operator and bounds |
| EvalLaws.CompareValuesFlips | internal/expr/eval.go:117-152 | comparing the other way round flips the sign |
| EvalLaws.CompareValuesTransitive | internal/expr/eval.go:117-152 | less-or-equal is transitive; with CompareValuesFlips a total preorder on the values of one type |
| EvalMeaning.LessIff | internal/expr/eval.go:117-152 | byte-wise order is: a proper prefix, or smaller at the first difference |
| EvalMeaning.NumbersCompare | internal/expr/eval.go:88-152 | each operator on integers within 2^53, whatever the operands are |
| EvalMeaning.StringsCompare | internal/expr/eval.go:88-152 | each operator on strings and on bytes |
| EvalMeaning.BoolsCompare | internal/expr/eval.go:88-152 | each operator on bools, false before true |
| EvalMeaning.OthersDoNotCompare | internal/expr/eval.go:72-100 | with something missing or of another type every comparison is false; lists, maps, sets and nulls are an error |
| EvalMeaning.LogicMeans | internal/expr/eval.go:154-183 | truth tables, short circuits and errors of AND, OR and NOT |
| EvalMeaning.ResolveIff | memdb/expression.go:853-871 | a path resolves to a value exactly when a chain of maps leads there |
| EvalMeaning.BeginsWithMeans | internal/expr/eval.go:185-293 | begins_with is true exactly of strings that are the prefix and a rest |
| EvalMeaning.ContainsMeans | internal/expr/eval.go:185-293 | contains on strings, string sets and number sets |
| EvalMeaning.ListContains | internal/expr/eval.go:185-293 | contains on lists: some element is the operand, numbers by value |
| EvalMeaning.SizeMeans | internal/expr/eval.go:280-325 | size as an operand and as a condition |
| EvalLaws.OppositeIff | internal/expr/eval.go:72-113 | an operator is the negation of its opposite exactly on operands that are there and have one type, or on errors |
| EvalLaws.SwapOperands | internal/expr/eval.go:72-113 | swapping the operands turns the operator round |
| EvalLaws.DeMorgan | internal/expr/eval.go:154-183 | De Morgan's laws, errors and short circuits included |
| EvalLaws.AndIsAssociative | internal/expr/eval.go:154-183 | AND and OR are associative, errors included |
| EvalLaws.ContainsIff | internal/expr/eval.go:185-293 | contains on strings is occurring somewhere |
| EvalLaws.StringKeysInOrder | memdb/memdb.go:108-119 | for string and binary keys the order of the results is the order of the values |
| EvalLaws.NumberKeysIff | memdb/memdb.go:570-574 | for all integers i < j, the key of i comes before that of j exactly when InKeyOrder holds of their digits; at one length and sign that is the order of the values for positive numbers and its reverse for negative ones |
| Codec.ComesBackIff | marshal.go:76-303 | Marshal then Unmarshal into a zero value is the identity exactly on the values described by RoundTrips, for every type with unique attribute names |
| Codec.MarshalThenUnmarshal | unmarshal.go:23-50 | a struct comes back exactly when every field survives |
| Codec.FieldIff | marshal.go:42-71 | what omitempty and pointers do to a field |
| Codec.SetElemsComeBack | unmarshal.go:214-271 | sets of strings, byte slices and integers come back |
| Codec.NullMeansNil | marshal.go:122-126 | nil slices, maps and pointers, and pointers to them, become NULL, and nothing else does |
| CodecForms.MarshalShows | marshal.go:76-246 | what Marshal returns shows the value: strings, bools, numerals of the numbers, bytes, lists and sets element by element, maps key by key, NULL for nil |
| CodecForms.StructsShow | marshal.go:249-277 | a struct has an attribute exactly for each field that is not omitted, under its tag's name, showing its content |
| CodecForms.ScalarsAreRead | unmarshal.go:54-150 | strings, bools, bytes and integers are read from attributes of their type only, integers only in the range of theirs |
| CodecForms.ReadShows | unmarshal.go:54-150 | what is read into a scalar, or a pointer to one, is what the attribute shows; NULL is nil |
| CodecForms.ZerosAre | marshal.go:279-303 | what omitempty takes for zero |
| CodecForms.WrapKeepsLowBits | unmarshal.go:229-257 | an element of a number set that is too large keeps its low bits |
| CodecLoops.MarshalStruct | marshal.go:24-71 | the loop over the fields gives the specified item, or the error |
| CodecLoops.MarshalElements | marshal.go:163-173 | the loop over a slice gives the specified list, or the error |
| CodecLoops.MarshalEntries | marshal.go:224-246 | the loop over a map, in any order, gives the specified map, or the error |
| CodecLoops.UnmarshalStruct | unmarshal.go:23-50 | the loop over the fields, writing into zero values, gives the specified struct, or the error |
| CodecLoops.UnmarshalElements | unmarshal.go:204-211 | the loop over a list gives the specified slice, or the error |
| CodecLoops.UnmarshalNumbers | unmarshal.go:229-257 | the loop over a number set gives the specified slice, or the error |
| CodecLoops.UnmarshalEntries | unmarshal.go:273-295 | the loop over a map, in any order, gives the specified map, or the error |
| Batch.ChunkWriteRequests | batch.go:170-180 | the chunking loop yields the specified chunks |
| Batch.ChunksPartition | batch.go:170-180 | chunks are not empty, at most the given size, full but for the last, and concatenate to the input |
| Batch.SendBatchWrite | batch.go:136-168 | the retry loop ends as specified: success, an error or the sixth call, with what was processed on the way |
| Batch.SendConserves | batch.go:136-168 | for every backend that returns exactly what it did not process: success means every request was processed once, failure that none was processed too often, after at most 6 calls |
| Batch.SendGoesOn | batch.go:136-168 | the calls go on, each with what the one before has left, until nothing is left, a call fails, or six have been made |
| Batch.ChunksFit | batch.go:170-180 | no chunk has more than 25 writes or 100 keys |
| Batch.BatchWriteConserves | batch.go:103-134 | over all chunks: success means every request was processed once, failure that none was processed too often, with at most 6 calls per chunk |
| Batch.SendBatchGet | batch.go:253-297 | the retry loop of reads returns the items of all calls together, or an error |
| Batch.ReadIsComplete | batch.go:253-297 | a read that succeeds returns each key's item once |
| Batch.BatchGet | batch.go:203-251 | chunks of 100 keys: success exactly when every chunk is read and every item decodes, with the decoded items in order |
| Batch.BatchReadIsComplete | batch.go:203-251 | a BatchGet that succeeds returns each key's item, once |
| Batch.ProgressIsDistinct | batch.go:117-129 | under any interleaving of the chunks the progress values are distinct, and when all succeed the greatest is the total |
| Batch.BatchProgress | batch.go:103-129 | so for the chunks of any batch, and the greatest is the number of its requests |
| Batch.ExecuteBatchWrite | batch.go:103-134 | with a concurrency of one: success, and increasing progress up to the total |
| Base.IntRoundTrip | marshal.go:101-105 | a printed integer is parsed back |

## Left out

- Floating point beyond integers: numbers are integer numerals, read into a float64 by
  rounding to nearest even; fractions, exponents, infinities and the `%g` format of
  results of 2^63 and more are not modelled.
- Characters outside ASCII: strings are sequences of one-byte characters, and letter
  case is that of ASCII.
- Error texts and kinds: an error is an error; only failed conditions, cancelled
  transactions and the panic of the update parser are told apart, and a request in which
  the update parser panics is one that fails.
- Consumed capacity and counts other than ScannedCount.
- BatchGetItem of memdb: GetItem repeated, without a consistent snapshot.
- Contexts, time-outs and backoff delays; a failed chunk's cancelling of the others.
- KeyDef.Type, which memdb never looks at.
- Serial.EveryInterleavingIsSerial: batches are not among the tasks, since
  BatchWriteItem locks one table at a time and is not one atomic step; absence of
  deadlock is not claimed, since transactions lock in the order of their requests.
- Optimistic.NoLostUpdates: fn is a function of the item, the version field is an int64,
  and the struct's fields are the item's attributes; writers of the same item outside
  the loop are not considered.
- ExprUpdate.SumOnHeap: above 2^53 FormatFloat prints the shortest digits that read back as
  the sum, the model all digits of it; both read back as the same number.
- Batch.ExecuteBatchWrite: with a concurrency of one; the order in which several workers
  finish is the subject of ProgressIsDistinct and BatchProgress.
- EndToEnd.ViewResumes: for an index query whose range attribute is no key attribute of the
  table nothing is promised, since there the loop never ends (OtherIndexesStartOver).
- ClientRuns.Run: batches and transactions are not among the actions, and a query or scan
  is one that chooses any stored items; which it chooses is the subject of QueryScan.
  Requests whose maps contain themselves, on which deepCopyItem does not end, are not made.
- Codec: custom Marshaler and Unmarshaler types, time.Time, floats, unexported and
  embedded fields, struct-tag parsing and the codec cache; nil and empty byte slices
  are identified; destinations are zero values.
- FrontEnds.FrontEndsAgree: attribute values that only one of the two conversions from
  Go values accepts, such as `[]int`, are outside the model, which takes attribute values.
- translateUpdate and projections of internal/expr/translate.go, and the Build helpers of
  internal/expr/builder.go, which nothing else in the model needs.
- Isolation: the nesting of the maps by hash and range key, which Backend has; conditions
  are evaluated on the value read off the stored objects, which they do not change.
- Backends for AWS, telemetry, logging, middleware, registries, polymorphic items (an
  unrecognised item is one on which a given function returns nothing), split keys, the
  reserved-word table and the test helpers.
