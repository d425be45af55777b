# GraphQueryBuilder in Dafny

A model of `GraphQueryBuilder` from `queryBuilder.js`, with proofs about it.
The builder is a fluent object that assembles a Cypher-style `MATCH … RETURN`
query one call at a time. It keeps three pieces of state:

- the query text;
- an insertion-ordered set of node variables (`label1`, `label2`, …);
- an insertion-ordered set of relationship variables (`relation1`, …).

`match` appends a node pattern and puts `, ` in front of it when the text is not
empty. `link`, `linkForward` and `linkBackward` first check the relationship
type against `^:\w+((\|:?\w+)+?)?$`, then append an undirected, `->` or `<-`
relationship pattern. `build` appends the RETURN list and an optional LIMIT.
`return` reads the text.

The model is layered the way the source is:

- `text.dfy` (module `Text`): how numbers print (with `DigitsValue` as the
  inverse of the rendering), `Join`, and ASCII upper-casing.
- `relation_pattern.dfy` (module `RelationPattern`): the relationship-type
  regular expression as two mutually recursive predicates. A reference
  definition splits the text on `|` and checks each part, and the two are proved
  to accept the same strings.
- `clauses.dfy` (module `Clauses`): the pure text fragments. These are
  `generateClause` and the property clause, the MATCH fragment, the three link
  fragments, and the `reduce` that renders the RETURN list. Each fold is written
  as the source's `reduce` and proved equal to a plain join.
- `builder_state.dfy` (module `BuilderState`): the builder's state as a value
  and what each operation does to it (`MatchStep`, `LinkStep`, `BuildStep`). It
  also holds the naming invariant `Wf`, which says the variables are exactly
  `label1..labelN` and `relation1..relationM`. Further lemmas cover whole chains
  of calls (`Run`).
- `query_builder.dfy` (module `QueryBuilder`): the class `GraphQueryBuilder`.
  It has the three fields, updated in place. Each method is proved to change
  the fields exactly as the corresponding step says, and to keep `Wf`.
- `example_chains.dfy` (module `ExampleChains`): two example chains. Each is
  worked out to the exact query text on the step functions, then run on a
  builder object.

JavaScript values are modelled as follows:

- An absent or empty `label`, `relations` or `relationLabel` is the empty
  string. JavaScript treats `""` and `undefined` alike here, since both are
  falsy.
- `data` is a sequence of key/value pairs in `Object.keys` order. An absent
  object and an empty object are both the empty sequence.
- `limit` is an `Option<int>`. `Some(0)` adds no LIMIT, because `0` is falsy
  in JavaScript.
- A thrown `Error` is the `Err` value of `LinkStep` or the `Fail` outcome of a
  link method. The state is left unchanged in that case.
- `Run` returns only the error when a call in the chain throws. The builder
  object, by contrast, keeps the effects of the calls before the failing one.
  The class methods model that: each call changes the fields, and a failing
  link leaves them as they were.
- `Set.prototype.add` is `Insert`, which appends only when the name is absent.
  The invariant shows that the name is always absent.

## Model

| member | source | states |
|---|---|---|
| Text.NatToString | queryBuilder.js:24 | the decimal text of a number, as a template literal prints it, is a non-empty string of digits with no leading zero |
| Text.DigitsValueOfNatToString | queryBuilder.js:24 | reading the printed digits back gives the number, so the rendering is invertible |
| Text.NatToStringInjective | queryBuilder.js:24 | different numbers print as different text |
| Text.UpperAt | queryBuilder.js:46 | toUpperCase keeps the length and upper-cases each character in place |
| Text.UpperWithoutLowerCase | queryBuilder.js:46 | toUpperCase leaves text without lower-case letters unchanged |
| Text.UpperHasNoLowerCase | queryBuilder.js:46 | the upper-cased relationship type holds no lower-case letter |
| RelationPattern.MatchesIffByParts | queryBuilder.js:37 | the regular expression accepts a string exactly when it is a colon, a word, then `\|`-separated alternatives each a word with an optional colon, checked on the parts of a split on `\|` (both directions) |
| RelationPattern.WordThenAltsByParts | queryBuilder.js:37 | `\w+` followed by the alternation tail holds exactly when the first split part is a word and every later part is an alternative |
| RelationPattern.AltsByParts | queryBuilder.js:37 | the alternation tail `(\|:?\w+)*` holds exactly when the text is empty, or is a bar followed by parts that are all alternatives |
| RelationPattern.SplitBarsJoin | queryBuilder.js:37 | joining the split parts with `\|` gives back the text |
| RelationPattern.SplitBarsNoBar | queryBuilder.js:37 | no split part contains a bar |
| RelationPattern.WordThenAltsIntro | queryBuilder.js:37 | a word followed by a valid alternation tail matches `\w+` and the tail |
| RelationPattern.AltsIntro | queryBuilder.js:37 | a bar, an optional colon and a word in front of a valid tail give a valid tail |
| RelationPattern.MatchesIntro | queryBuilder.js:37 | a colon, a word and a valid tail match the whole expression |
| RelationPattern.ThreeBareWords | queryBuilder.js:37 | a colon and three words separated by bare bars match |
| RelationPattern.ExampleSingleType | queryBuilder.js:37-38 | `:ACTED_IN` is accepted and `ACTED_IN`, which lacks the colon, is rejected |
| RelationPattern.ExampleColonAlternative | queryBuilder.js:37 | `:ACTED_IN\|:DIRECTED` is accepted |
| RelationPattern.DemoBareAlternatives | queryBuilder.js:118 | `:ACTED_IN\|DIRECTED\|PRODUCED`, the type in the file's own usage example, is accepted |
| Clauses.ClauseFoldJoin | queryBuilder.js:9-14 | the reduce of generateClause from any index appends the remaining entries joined by `, ` and a closing `}` |
| Clauses.PropertyClauseShape | queryBuilder.js:25-28 | the property clause is empty for an empty mapping, and otherwise ` {` with the entries in key order joined by `, ` and a closing `}` |
| Clauses.MatchFragment | queryBuilder.js:29-31 | every node pattern starts with `MATCH (` |
| Clauses.LinkFragmentTemplates | queryBuilder.js:45-81 | the undirected, forward and backward fragments are the three templates of the source: `-[var TYPE]-(node:Label)`, `-[var TYPE]->(node:Label)` and `<-[var TYPE]-(node:Label)`, with the type upper-cased only when given and `:Label` only when given |
| Clauses.RelationshipBodyUpper | queryBuilder.js:45-46 | the relationship part is `[`, the variable, the relationship type with every character upper-cased, and `]` |
| Clauses.LinkFragmentDirectionsDiffer | queryBuilder.js:45-81 | link, linkForward and linkBackward never produce the same fragment |
| Clauses.ReturnFoldJoin | queryBuilder.js:97-101 | the reduce of build from any index appends the remaining variables joined by `, ` after the right lead, then the limit |
| Clauses.ReturnClauseShape | queryBuilder.js:93-101 | build appends ` RETURN`, then, when there is any variable, a space, the variables joined by `, ` and ` LIMIT n` for a truthy limit; with no variables nothing follows ` RETURN` |
| BuilderState.Names | queryBuilder.js:24 | the generated name list `prefix1..prefixN` has N entries |
| BuilderState.NamesAt | queryBuilder.js:24 | the i-th generated name is the prefix followed by i + 1 |
| BuilderState.VariableInjective | queryBuilder.js:39-44 | a variable name determines its number |
| BuilderState.NamesDistinct | queryBuilder.js:24 | the generated names are pairwise distinct |
| BuilderState.FreshVariable | queryBuilder.js:24 | the name built from size + 1 is not among the names generated so far |
| BuilderState.NodeAndRelationNamesDisjoint | queryBuilder.js:39-44 | no node variable is also a relationship variable |
| BuilderState.InsertNext | queryBuilder.js:32 | adding the next name to the generated set appends it at the end |
| BuilderState.MatchStepExtends | queryBuilder.js:29-31 | match only appends to the query text |
| BuilderState.MatchStepSpec | queryBuilder.js:23-33 | match keeps the invariant, adds exactly `label` + (old size + 1), leaves the relationship variables alone, extends the text, puts `, ` in front of the new clause exactly when the old text was non-empty, and ends the text with the new clause |
| BuilderState.LinkStepSpec | queryBuilder.js:36-50 | a link fails with "Invalid Parameter" exactly when the type is given and does not match; otherwise it keeps the invariant, adds exactly `relation` + (old size + 1) and `label` + (old size + 1), and appends its fragment with no separator |
| BuilderState.BuildStepSpec | queryBuilder.js:93-101 | build keeps both variable sets and the invariant, and appends the RETURN clause over the relationship variables followed by the node variables |
| BuilderState.RunFailsOnlyOnRejectedType | queryBuilder.js:37-38 | a chain of calls fails exactly when one of its link calls has a rejected relationship type (both directions) |
| BuilderState.RunKeepsNaming | queryBuilder.js:23-50 | a chain keeps the invariant, adds one node variable per call and one relationship variable per link, and only extends the text |
| BuilderState.RunFromInitial | queryBuilder.js:4-7 | from a new builder, a chain of N calls with M links leaves exactly label1..labelN and relation1..relationM, each list free of duplicates and the two lists disjoint |
| QueryBuilder.GraphQueryBuilder.constructor | queryBuilder.js:4-7 | a new builder has empty text and no variables, and satisfies the invariant |
| QueryBuilder.GraphQueryBuilder.Match | queryBuilder.js:23-33 | the fields change exactly as MatchStep says; the relationship variables are untouched, the old text is a prefix of the new one, and the next node variable is appended |
| QueryBuilder.GraphQueryBuilder.AddLink | queryBuilder.js:36-50 | on a rejected type the outcome is Fail("Invalid Parameter") and no field changes; otherwise the fields change exactly as LinkStep says, the text is extended, and the next relationship and node variables are appended |
| QueryBuilder.GraphQueryBuilder.Link | queryBuilder.js:36-51 | undirected link: fails exactly on a given type that does not match, leaves every field as it was on failure, and otherwise extends the text and appends the next relationship and node variables |
| QueryBuilder.GraphQueryBuilder.LinkForward | queryBuilder.js:53-68 | as Link, with the `->` fragment |
| QueryBuilder.GraphQueryBuilder.LinkBackward | queryBuilder.js:70-85 | as Link, with the `<-` fragment |
| QueryBuilder.GraphQueryBuilder.Build | queryBuilder.js:93-103 | the text gains the RETURN clause as BuildStep says, the variables are kept, and the result is the new text |
| QueryBuilder.GraphQueryBuilder.Return | queryBuilder.js:105-107 | returns the text and changes nothing |
| ExampleChains.PersonActedInMovie | queryBuilder.js:23-103 | match Person, link `:ACTED_IN` to Movie and build on a new builder give `MATCH (label1:Person)-[relation1:ACTED_IN]-(label2:Movie) RETURN relation1, label1, label2` |
| ExampleChains.TomHanksWithLimit | queryBuilder.js:23-103 | match Person with name Tom Hanks and build with limit 5 give `MATCH (label1:Person {name:'Tom Hanks'}) RETURN label1 LIMIT 5` |
| ExampleChains.MatchLinkBuild | queryBuilder.js:23-103 | from a new builder, one match without properties, one accepted link and a build without limit give the MATCH fragment, the link fragment and ` RETURN relation1, label1, label2` |
| ExampleChains.MatchBuild | queryBuilder.js:23-103 | from a new builder, one match and a build give the MATCH fragment over `label1` followed by the RETURN clause over `label1` |
| ExampleChains.PersonActedInMovieSteps | queryBuilder.js:23-103 | the step functions turn the Person / ACTED_IN / Movie chain into its exact query text |
| ExampleChains.TomHanksWithLimitSteps | queryBuilder.js:23-103 | the step functions turn the Tom Hanks chain with limit 5 into its exact query text |
| ExampleChains.TomHanksProperties | queryBuilder.js:9-14 | the mapping {name: "Tom Hanks"} renders as ` {name:'Tom Hanks'}` |
| ExampleChains.LimitAfterLastVariable | queryBuilder.js:97-101 | one variable with limit 5 renders as ` RETURN label1 LIMIT 5` |
| ExampleChains.ActedInMovieLink | queryBuilder.js:45-47 | the undirected fragment for `:ACTED_IN` to Movie is `-[relation1:ACTED_IN]-(label2:Movie)` |
| ExampleChains.PersonMovieReturn | queryBuilder.js:97-101 | the RETURN list over relation1, label1, label2 without limit is ` RETURN relation1, label1, label2` |

## Left out

- The `WeakMap` table of private methods (queryBuilder.js:1, 8-15) is left out. It only hides `generateClause`, which is modelled as a plain function.
- `module.exports` and the commented-out timing and demo code (queryBuilder.js:110-124) are left out. They are packaging and console I/O.
- Method chaining (`return this`) is modelled as successive calls on the same object, or as `Run` over a list of calls.
- `\w` and `toUpperCase` are modelled on ASCII only. Unicode case mapping of other letters is not modelled.
- A general regular-expression engine is not modelled. Only the one pattern at queryBuilder.js:37 is, and the lazy `+?` does not change which strings it accepts.
- Dynamic typing is not modelled. Labels, types and property values are strings, and `limit` is an optional integer. Values of other types, such as objects, or numbers printed as property values, are not modelled. The same holds for a non-integer `limit`, a `NaN` limit, and a string `limit`, whose truthiness differs from a number's.
- Property keys are taken in the order given. That order is the one `Object.keys` reports; the ordering rules for integer-like keys are not modelled.
- LimitSuffix: a limit is printed as exact decimal digits. JavaScript rounds numbers above 2^53 and prints numbers of 10^21 and more in exponent form (`1e+21`), so for such limits the model's text differs from the program's.
- Every operation destructures its argument object (queryBuilder.js:23, 36, 53, 70, 93). A call with no argument object, such as `build()`, throws a TypeError; the model always receives the fields.
- Values are inserted without escaping, as in the source. The model does not state what happens to the query when a value contains `'`.
