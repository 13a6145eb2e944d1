# Boolean retrieval engine in Dafny

This project models the `InformationRetrievalSystem` class of
`boolean_retrieval_model.py`, a small offline document-retrieval engine. The model
covers five pieces:

- **Text preprocessing.** Text is lower-cased and split into letter-only tokens.
  Stop words are dropped, and each kept token becomes a (stem, position) pair.
- **Index building.** The build fills the document map, the inverted index
  (stem → ids of the documents that contain it) and the positional index
  (stem → document → positions).
- **Snapshots.** The modelled part turns the indexes into the `indexes.json`
  document and back.
- **Query evaluation.** This covers the dispatch in `process_query`, the flat
  left-to-right Boolean fold, the rewriting of bracket groups into placeholders,
  and two-term proximity queries.
- **Result formatting.** This is the text `print_results` produces.

The engine object is the class `Engine.RetrievalSystem`. Its fields are the
three index maps. Its methods work the way the Python methods do:

- `BuildIndexes`, `IndexEntry` and `IndexDocument` update the maps in loops.
- `LoadIndexes` rebuilds them from a snapshot.
- `KeepTokens` appends the kept pairs.
- `FoldTokens` folds the query tokens.
- `BracketedQuery` scans with an explicit stack.
- `NearDocs` and `AnyNear` scan the positions in nested loops with early exit.
- `PrintResults` accumulates the file numbers.

Each method is proved against a function of the other modules. Properties are
then proved about those functions. For example:

- After any build, the two term indexes agree.
- A well-formed index survives a save and a load unchanged.
- A Boolean query without brackets folds strictly left to right, with no
  operator precedence.
- A query leaves a bracket unclosed exactly when bracket processing never ends.
- A query ending in one group evaluates that group first.
- Proximity is symmetric in its two terms and monotone in the window.
- The printed result set parses back into the sorted file numbers.

Modules, in dependency order:

| file | module | contents |
|---|---|---|
| wrappers.dfy | Wrappers | `Option` |
| text.dfy | Text | `str.lower`, `str.isspace`, `str.strip`, `str.split`, `str(int)`, `int(str)`, `", ".join`, `str.split(',')` |
| sorting.dfy | Sorting | `sorted` of a set and of a list |
| normalize.dfy | Normalize | `_preprocess_text` |
| indexes.dfy | Indexes | the index maps and the reference meaning of a build |
| snapshots.dfy | Snapshots | `_save_indexes` and the reading side of `_load_indexes` |
| querysyntax.dfy | QuerySyntax | `re.split(r'\s+(AND\|OR\|NOT)\s+', q)` and rendered queries |
| booleans.dfy | BooleanQueries | `_process_boolean_query` and `_process_bracketed_query` |
| proximity.dfy | ProximityQueries | `re.match(r'(.*?)\s+(/\s*(\d+))$', q)` and `_process_proximity_query` |
| formatting.dfy | Formatting | `print_results` |
| queries.dfy | Queries | `process_query` and what queries find after a build |
| engine.dfy | Engine | the `RetrievalSystem` class and its loops |

Five behaviours of the code, which the model follows:

- **Positions.** A position counts every token, stop words included. The
  position comes from `enumerate` at line 44, which runs before the stop-word
  test at line 45. It is not an index among the kept tokens only.
- **Document ids.** A document id is the index of its entry in the whole
  directory listing (line 64). Skipped entries and unreadable files therefore
  leave gaps in the ids.
- **Bracket groups.** The docstring of `_process_bracketed_query`
  (lines 233-234) speaks of nested expressions. Each round, however, resolves
  one group and then folds the rewritten query with that one placeholder. Brackets
  of any other group stay in the text and are looked up as part of a term.
  Queries like `X AND (Y OR Z)` are evaluated as intended; see
  `Queries.GroupQuery`.
- **Leading NOT.** A leading `NOT w` passes the operator test of line 181.
  However, the split at line 197 needs whitespace before the operator, so the
  whole query is looked up as the single term `not w`.
- **Document frequency.** The loader (lines 149-151) reads only `postings`. The saved
  `document_frequency` plays no part in loading, and nothing checks it.

## Model

| member | source | states |
|---|---|---|
| Text.Lower | boolean_retrieval_model.py:42 | `str.lower()`: same length, and every character mapped through `LowerChar`, which only lower-cases the ASCII capitals |
| Text.LowerOfLower | boolean_retrieval_model.py:315 | text with no capital letter is unchanged by `lower()` |
| Text.LowerAppend | boolean_retrieval_model.py:315 | lower-casing distributes over concatenation |
| Text.Strip | boolean_retrieval_model.py:185 | `str.strip()`: the result neither starts nor ends with whitespace (with `StripSpan` this fixes it uniquely) |
| Text.StripSpan | boolean_retrieval_model.py:185 | the result of `strip` is `s[i..j]` where everything before `i` and from `j` on is whitespace |
| Text.StripUnchanged | boolean_retrieval_model.py:185 | text without whitespace at either end is unchanged by `strip` |
| Text.Words | boolean_retrieval_model.py:315 | `str.split()`: every word is non-empty and free of whitespace; which words, in which order, is fixed by `WordsStep`, `WordsSkipSpace` and `WordsWhole` |
| Text.RunsFacts | boolean_retrieval_model.py:42 | every maximal run of `p`-characters is non-empty and made of characters of the text that satisfy `p` |
| Text.RunsStart | boolean_retrieval_model.py:42 | text starting with a `p`-character has a run, and the first run starts with that character |
| Text.RunsSplit | boolean_retrieval_model.py:42 | the maximal runs of `p`-characters of `x + [c] + y`, for `c` failing `p`, are those of `x` followed by those of `y`, in order |
| Text.RunsWhole | boolean_retrieval_model.py:42 | a non-empty text of `p`-characters only is a single run |
| Text.WordsStep | boolean_retrieval_model.py:315 | `str.split()`: a non-empty whitespace-free first word ended by whitespace, then the words of the rest |
| Text.WordsSkipSpace | boolean_retrieval_model.py:315 | `str.split()` skips leading whitespace |
| Text.WordsWhole | boolean_retrieval_model.py:315 | whitespace-free text is one word, or none when empty; with the two lemmas above this fixes `str.split()` on every text |
| Text.WordsOfPair | boolean_retrieval_model.py:315 | two non-empty whitespace-free words joined by one space split into exactly those two words |
| Text.NatToString | boolean_retrieval_model.py:109 | `str(n)` of a natural number is a non-empty run of digits |
| Text.NatToStringRoundTrip | boolean_retrieval_model.py:356 | the value of the digits of `str(n)` is `n` |
| Text.IntToString | boolean_retrieval_model.py:124 | `str(i)` is non-empty, may start with a minus sign, and is digits everywhere else |
| Text.IntToStringRoundTrip | boolean_retrieval_model.py:144 | `int(str(i)) == i` for every integer, negative ones included |
| Text.IntToStringInjective | boolean_retrieval_model.py:109 | distinct ids give distinct keys |
| Text.SplitCharPlain | boolean_retrieval_model.py:361 | text without the separator splits into itself alone |
| Text.SplitCharAt | boolean_retrieval_model.py:361 | splitting at a separator after separator-free text gives that text, then the split of the rest |
| Sorting.SortSet | boolean_retrieval_model.py:229 | `sorted(set)`: strictly increasing, exactly the set's elements, as many as the set has |
| Sorting.SortList | boolean_retrieval_model.py:189 | `sorted(list)`: ascending and a permutation of the list |
| Sorting.IncreasingUnique | boolean_retrieval_model.py:229 | two increasing lists with the same elements are equal, so the sorted result of a set is unique |
| Sorting.SortListOfDistinct | boolean_retrieval_model.py:345 | sorting a duplicate-free list gives the sorted set of its elements |
| Sorting.SortListOfIncreasing | boolean_retrieval_model.py:189 | sorting an already increasing posting list leaves it unchanged |
| Sorting.SortSetOfIncreasing | boolean_retrieval_model.py:229 | the sorted set of an increasing list's elements is that list |
| Normalize.Tokens | boolean_retrieval_model.py:42 | every match of `\b[a-zA-Z]+\b` in the lower-cased text is a non-empty run of lower-case ASCII letters; which matches, in which order, is fixed by the four `Tokens*` lemmas |
| Normalize.LetterRuns | boolean_retrieval_model.py:42 | the runs kept are exactly the word-character runs made of letters only; order and repeats are fixed by `LetterRunsAppend` |
| Normalize.LetterRunsAppend | boolean_retrieval_model.py:42 | the letter-only filter works chunk by chunk, so it keeps the chunks' order and repeats |
| Normalize.LetterRunsSingle | boolean_retrieval_model.py:42 | one chunk is kept exactly when it is letters only |
| Normalize.TokensSplit | boolean_retrieval_model.py:42 | a non-word character separates the tokens before it from those after it, in order |
| Normalize.TokensEmpty | boolean_retrieval_model.py:42 | empty text has no token |
| Normalize.TokensOfWord | boolean_retrieval_model.py:42 | a non-empty letter-only word is one token, its lower-cased form |
| Normalize.TokensOfMixed | boolean_retrieval_model.py:42 | a run of word characters holding a digit or `_` gives no token |
| Normalize.LowerHasNoUpper | boolean_retrieval_model.py:42 | lower-cased text holds no capital letter |
| Normalize.KeptUpToFacts | boolean_retrieval_model.py:44-47 | after `n` tokens the kept pairs have strictly increasing positions below `n`; each pair is the stem of a token at its position that is not a stop word; every such token has a pair |
| Normalize.KeptStep | boolean_retrieval_model.py:45-47 | one more token adds its stem at its position unless it is a stop word |
| Normalize.Preprocess | boolean_retrieval_model.py:41-48 | positions strictly increase and are token indexes among all tokens; no pair comes from a stop word; each pair carries its token's stem; every other token gives a pair |
| Normalize.StemsMembers | boolean_retrieval_model.py:78-80 | `terms_in_doc` holds exactly the stems some pair carries |
| Normalize.PositionsOf | boolean_retrieval_model.py:81 | a stem's position list is non-empty exactly when the stem occurs |
| Normalize.PositionsOfMembers | boolean_retrieval_model.py:81 | a position is listed for a stem exactly when some pair carries that stem there |
| Normalize.PositionsOfIncreasing | boolean_retrieval_model.py:81 | with strictly increasing pair positions, every stem's position list is strictly increasing |
| Indexes.AddAllFresh | boolean_retrieval_model.py:79-81 | appending a new document's pairs adds, under each of its stems, the entry "document → its positions in order" and changes nothing else |
| Indexes.AddOccurrenceFresh | boolean_retrieval_model.py:81 | one more appended pair keeps that description |
| Indexes.AddDocToTerms | boolean_retrieval_model.py:83-84 | the new document id is appended once to the posting list of each of its stems; no other list changes |
| Indexes.AddDocToTermsStep | boolean_retrieval_model.py:83-84 | the stems can be added one at a time in any order, so the set's iteration order does not matter |
| Indexes.AddDocToTermsNone | boolean_retrieval_model.py:83-84 | a document with no stems changes no posting list |
| Indexes.Documents | boolean_retrieval_model.py:64-75 | entry `d` contributes a text exactly when its name ends in `.txt` and it could be read; that text's positions increase |
| Indexes.BuildUpToNext | boolean_retrieval_model.py:64-89 | one more entry is indexed under its listing index when it contributes, and skipped otherwise |
| Indexes.BuildUpToCount | boolean_retrieval_model.py:64-86 | all ids so far are below the entry count, and each indexed entry adds exactly one document |
| Indexes.BuildStepNext | boolean_retrieval_model.py:64-89 | the build after the next entry is that entry's step; the document count grows by one for an indexed entry; only an unreadable `.txt` entry is added to the failed list |
| Indexes.StepWellFormed | boolean_retrieval_model.py:74-84 | indexing a document whose id is above all existing ones keeps the two term indexes in agreement |
| Indexes.StepDescribes | boolean_retrieval_model.py:74-84 | indexing entry `n` keeps the reference description of the build: which ids exist, which stem lists exist, and their contents |
| Indexes.SkipDescribes | boolean_retrieval_model.py:65-66 | a skipped or unreadable entry changes nothing in that description |
| Indexes.BuildUpToStep | boolean_retrieval_model.py:64-89 | one more entry keeps the build well formed and described |
| Indexes.BuildUpToFacts | boolean_retrieval_model.py:64-89 | every prefix of the build is well formed and matches the reference description |
| Indexes.BuiltFacts | boolean_retrieval_model.py:61-89 | after a build, posting lists are non-empty and strictly increasing, a document is in a stem's postings exactly when it has a position list for it, position lists are non-empty and strictly increasing, and every list is what the document's text gives |
| Indexes.BuiltPostings | boolean_retrieval_model.py:83-84 | after a build, a stem's posting list is the increasing list of exactly the documents whose text contains the stem |
| Snapshots.StringKeys | boolean_retrieval_model.py:124-125 | `{str(k): v}`: one key `str(k)` per key `k`, holding its value |
| Snapshots.DocMapping | boolean_retrieval_model.py:108-114 | each document id is saved under `str(id)` with its file name |
| Snapshots.Save | boolean_retrieval_model.py:101-129 | the metadata counts documents and terms; each term is saved with the index's own posting list and `document_frequency` equal to its length; the document mapping is the ids under `str(id)`; each term's position map is saved with `str` of each document id |
| Snapshots.UnkeyedOnStep | boolean_retrieval_model.py:143-146 | reading one more key with `int(key)` extends what the loop has read so far |
| Snapshots.LoadedPostings | boolean_retrieval_model.py:149-151 | loading keeps each term's saved postings and reads nothing else |
| Snapshots.DocIdsRoundTrip | boolean_retrieval_model.py:108-114 | the saved document mapping reads back as the document map, and as nothing else |
| Snapshots.PositionsRoundTrip | boolean_retrieval_model.py:122-128 | the saved position maps, with no term's map empty, read back as the positional index |
| Snapshots.PositionsRoundTripOnly | boolean_retrieval_model.py:154-157 | those position maps read back as nothing else |
| Snapshots.SavedIsLoadable | boolean_retrieval_model.py:138-157 | every key a save writes parses back with `int` |
| Snapshots.SaveLoadRoundTrip | boolean_retrieval_model.py:101-157 | if no term has an empty position map, loading what was saved restores exactly the document map, the postings and the positions |
| Snapshots.WellFormedRoundTrip | boolean_retrieval_model.py:101-157 | every well-formed index, so every built one, survives a save and a load unchanged, and only as itself |
| Snapshots.LoadIgnoresFrequency | boolean_retrieval_model.py:150-151 | two snapshots differing only in `document_frequency` load to exactly the same indexes |
| QuerySyntax.OperatorAtIs | boolean_retrieval_model.py:197 | only one of `AND`, `OR`, `NOT` can be spelled at a place |
| QuerySyntax.MatchAt | boolean_retrieval_model.py:197 | a match of `\s+(AND\|OR\|NOT)\s+` at a place captures an operator and ends after it |
| QuerySyntax.FirstMatch | boolean_retrieval_model.py:197 | the leftmost match of `\s+(AND\|OR\|NOT)\s+` starts at or after the given place and captures an operator |
| QuerySyntax.Split | boolean_retrieval_model.py:197 | `re.split` with the operator captured gives at least one token |
| QuerySyntax.FirstMatchSkip | boolean_retrieval_model.py:197 | places where nothing matches do not change the leftmost match |
| QuerySyntax.SplitUnspaced | boolean_retrieval_model.py:197-202 | a query without whitespace is one token |
| QuerySyntax.SplitTwoWords | boolean_retrieval_model.py:197-202 | two words joined by one space are one token, even when the first is an operator word |
| QuerySyntax.SplitStep | boolean_retrieval_model.py:197 | a term, a spaced operator and text not starting with whitespace split into the term, the operator and the split of the text |
| QuerySyntax.SplitAt | boolean_retrieval_model.py:197 | the split is the text before the first match, its operator, then the split of the rest |
| QuerySyntax.SplitRender | boolean_retrieval_model.py:197 | a query written as terms and operators separated by single spaces splits back into its terms and operators |
| QuerySyntax.SplitRenderTrailing | boolean_retrieval_model.py:197 | a query ending in a dangling spaced operator splits with an empty last token |
| QuerySyntax.RenderChars | boolean_retrieval_model.py:177-197 | a query of words and operators is non-empty, has no whitespace at either end, and holds only letters, digits and spaces, so no `/` and no bracket |
| QuerySyntax.RenderAppend | boolean_retrieval_model.py:256 | appending a clause to a query appends its operator and term |
| BooleanQueries.Apply | boolean_retrieval_model.py:220-225 | `AND` intersects, `OR` unites, `NOT` subtracts, any other token leaves the result alone |
| BooleanQueries.Lookup | boolean_retrieval_model.py:283-288 | the placeholder token stands for the group's documents; every other token is looked up as a stemmed term |
| BooleanQueries.FoldOpsAt | boolean_retrieval_model.py:209-227 | an operator followed by a non-empty term applies the operator to the term's documents and moves on two tokens |
| BooleanQueries.FoldPairs | boolean_retrieval_model.py:209-227 | the token loop over a query's terms and operators computes their strictly left-to-right combination |
| BooleanQueries.CombineAppend | boolean_retrieval_model.py:209-227 | the last clause is applied last |
| BooleanQueries.CombineIgnoresGroup | boolean_retrieval_model.py:284-288 | a group affects the fold only through its placeholder |
| BooleanQueries.FlatRender | boolean_retrieval_model.py:197-229 | a query of at least two terms evaluates to the sorted left-to-right combination, starting from the first term's documents |
| BooleanQueries.FlatTrailing | boolean_retrieval_model.py:212-215 | an operator with nothing after it ends the fold and is ignored |
| BooleanQueries.FlatOr | boolean_retrieval_model.py:222-223 | `a OR b` is the sorted union of the two terms' documents |
| BooleanQueries.FlatOrCommutes | boolean_retrieval_model.py:222-223 | `a OR b` and `b OR a` give the same list |
| BooleanQueries.GroupFromFacts | boolean_retrieval_model.py:242-248 | the stack scan finds a `(` … `)` pair with no bracket between, or else leaves every `(` unclosed |
| BooleanQueries.FindGroup | boolean_retrieval_model.py:239-248 | the group found spans a `(` and the first `)` closing an open `(`, so its inside holds no bracket; no group means no `)` closes any `(` |
| BooleanQueries.Placeholder | boolean_retrieval_model.py:254 | `RESULT_<hash>` holds no bracket, no whitespace and an underscore |
| BooleanQueries.InnerCount | boolean_retrieval_model.py:251 | the stripped inside of the group holds no `(` |
| BooleanQueries.SpliceCount | boolean_retrieval_model.py:256 | replacing the group by the placeholder removes exactly one `(` |
| BooleanQueries.GuardNeverHolds | boolean_retrieval_model.py:261-262 | `str` of a document id never starts with `RESULT_`, so the early return never fires |
| BooleanQueries.DepthAppend | boolean_retrieval_model.py:242-248 | the open-bracket count of a concatenation is that of the second part started from the count of the first |
| BooleanQueries.DepthSplice | boolean_retrieval_model.py:250-258 | replacing a closed group by the placeholder keeps the number of brackets left open |
| BooleanQueries.DepthUnmatched | boolean_retrieval_model.py:239-250 | a query holding a `(` in which no `)` closes an open `(` leaves a bracket open |
| BooleanQueries.BracketedStep | boolean_retrieval_model.py:250-258 | one bracket round fails exactly when the rewritten query fails |
| BooleanQueries.FailsIffUnclosed | boolean_retrieval_model.py:231-301 | bracket processing recurses without end, the `RecursionError`, exactly when the query leaves a bracket open |
| BooleanQueries.FindGroupOf | boolean_retrieval_model.py:239-248 | in bracket-free text followed by one group, that group is the one found |
| BooleanQueries.WordsMissPlaceholder | boolean_retrieval_model.py:268-288 | a query word never equals the placeholder |
| BooleanQueries.RegroupedEnd | boolean_retrieval_model.py:265-299 | the closing fold over a query ending in the placeholder applies the last operator to the group's documents |
| BooleanQueries.SingleGroup | boolean_retrieval_model.py:250-299 | with one group left, the answer is the closing fold where the placeholder stands for the group's flat result |
| BooleanQueries.EndGroupShape | boolean_retrieval_model.py:239-256 | in a query ending in one group, that group is found, its stripped inside is the group text, and the rewritten query ends in the placeholder |
| BooleanQueries.GroupAtEnd | boolean_retrieval_model.py:231-299 | a query ending in one group, such as `computer AND science NOT (Times AND Series)`, combines the left part's fold with the group's flat result by the last operator |
| ProximityQueries.ProxTail | boolean_retrieval_model.py:306 | the rest of the pattern, `\s+(/\s*(\d+))$` after the first group, reports a non-empty digit span after at least one whitespace character |
| ProximityQueries.ProxTailDigits | boolean_retrieval_model.py:306 | the span matched by `(\d+)` holds digits only |
| ProximityQueries.ProxSearchFound | boolean_retrieval_model.py:306 | a match takes the shortest first group: the group contains no newline, the rest of the pattern matches after it, and it matches after no shorter one |
| ProximityQueries.ProxSearchNone | boolean_retrieval_model.py:306-309 | a failed match means the rest of the pattern matches after no first group before the first newline |
| ProximityQueries.ProxSearchFrom | boolean_retrieval_model.py:306 | the lazy group does not end inside text without whitespace except for one space not followed by `/`, so the search can skip that text |
| ProximityQueries.ProxDocs | boolean_retrieval_model.py:324-343 | a document qualifies exactly when it is in both stems' postings and some pair of their positions is at most `k` apart |
| ProximityQueries.ProxDocsSymmetric | boolean_retrieval_model.py:331-343 | swapping the two terms finds the same documents |
| ProximityQueries.ProxDocsMonotone | boolean_retrieval_model.py:338 | a wider window finds every document a narrower one finds |
| ProximityQueries.ProximityQuerySymmetric | boolean_retrieval_model.py:304-345 | `a b /k` and `b a /k` find the same documents |
| ProximityQueries.ProximityQueryMonotone | boolean_retrieval_model.py:304-345 | every document `a b /k` finds is found by `a b /k'` for `k <= k'` |
| ProximityQueries.TailDigits | boolean_retrieval_model.py:306 | ` /` then digits up to the end, or up to a final newline, matches the rest of the pattern |
| ProximityQueries.ProxMatchRender | boolean_retrieval_model.py:306-312 | `a b /k`, with or without a final newline, matches with first group `a b` and window `k` |
| ProximityQueries.ProximityRender | boolean_retrieval_model.py:304-345 | such a query finds the sorted documents where the stems of the two lower-cased words are within `k` positions |
| ProximityQueries.LowerPairWords | boolean_retrieval_model.py:315 | lower-casing two spaced words and splitting gives the two lower-cased words |
| Formatting.DigitSpan | boolean_retrieval_model.py:356 | `re.search(r'\d+')` finds a non-empty run of digits |
| Formatting.DigitSpanNone | boolean_retrieval_model.py:356-359 | no run is found exactly when the file name has no digit |
| Formatting.DigitSpanOf | boolean_retrieval_model.py:356 | the run found is the first maximal one |
| Formatting.FileNumberOf | boolean_retrieval_model.py:356-357 | a name like `doc_12.txt` prints as the number in it |
| Formatting.FileNumberNoDigits | boolean_retrieval_model.py:358-359 | a name without digits prints as the document id |
| Formatting.NumbersOfFacts | boolean_retrieval_model.py:353-359 | the numbers line up with the ids; the lookup fails exactly when an id names no document, and then at the first such id |
| Formatting.MissingPersists | boolean_retrieval_model.py:354 | once an id names no document, the loop stops there |
| Formatting.FormatCases | boolean_retrieval_model.py:347-363 | nothing is printed exactly for an empty list; a `KeyError` happens exactly when some id is unknown, and names the first one |
| Formatting.SplitJoined | boolean_retrieval_model.py:361 | splitting the `", "`-joined text at commas gives back the parts, behind their spaces |
| Formatting.ParseAllDecimals | boolean_retrieval_model.py:361 | the space-led decimals of a list parse back into that list |
| Formatting.JoinedReadBack | boolean_retrieval_model.py:361 | the `", "`-joined decimals of a non-empty list parse back into it |
| Formatting.FormatReadBack | boolean_retrieval_model.py:352-363 | the printed result set parses back, field by field, into the file numbers in ascending order |
| Queries.EvaluateFails | boolean_retrieval_model.py:174-189 | a query fails exactly when it has no `/`, passes the operator test and leaves a bracket open |
| Queries.SimpleQuery | boolean_retrieval_model.py:185-189 | a whitespace-free word without `/` finds the sorted postings of its lower-cased stem |
| Queries.UnknownTerm | boolean_retrieval_model.py:185-189 | a simple query whose stem has no posting list finds nothing |
| Queries.LeadingNot | boolean_retrieval_model.py:181-202 | `NOT w` is looked up as the single term `not w` |
| Queries.BooleanWithoutGroups | boolean_retrieval_model.py:181-197 | a Boolean query without `(` is evaluated flat |
| Queries.OperatorSeen | boolean_retrieval_model.py:181 | a spaced operator passes the operator test |
| Queries.FlatQuery | boolean_retrieval_model.py:181-229 | a query of words and operators evaluates strictly left to right from the first term's documents |
| Queries.NoPrecedence | boolean_retrieval_model.py:209-227 | `a OR b AND c` means `(a OR b) AND c` |
| Queries.GroupQuery | boolean_retrieval_model.py:181-299 | `… op (inner)` evaluates the inside flat and combines it with the left part by `op` |
| Queries.ProximityQuery | boolean_retrieval_model.py:177-178 | `a b /k` is a proximity query finding the documents where the two stems are within `k` positions |
| Queries.BuiltTermDocs | boolean_retrieval_model.py:207 | after a build, a term's documents are those whose text contains its stem |
| Queries.BuiltSimpleQuery | boolean_retrieval_model.py:185-189 | after a build, a simple query lists in increasing order the documents whose text contains its stem |
| Queries.BuiltPairQuery | boolean_retrieval_model.py:205-229 | after a build, `a op b` intersects, unites or subtracts the document sets of the two stems |
| Queries.AndWithinOr | boolean_retrieval_model.py:220-223 | after a build, `a AND b` finds no document that `a OR b` misses |
| Queries.BuiltListed | boolean_retrieval_model.py:81-84 | after a build, a document is in a stem's postings exactly when it has a position list for it |
| Queries.NearPositions | boolean_retrieval_model.py:336-338 | two stems are near in the position lists exactly when two of the text's pairs are |
| Queries.BuiltProximity | boolean_retrieval_model.py:324-345 | after a build, a document qualifies exactly when it was indexed and its text has the two stems within `k` tokens, stop words counted |
| Engine.AppendPositions | boolean_retrieval_model.py:78-81 | the pair loop gives the positional map with every pair appended in order, and the set of stems seen |
| Engine.AppendPostings | boolean_retrieval_model.py:83-84 | the loop over the stems appends the id once to each of their posting lists |
| Engine.ReadDocIds | boolean_retrieval_model.py:143-146 | the loaded document map is the saved one read back with `int` of each key |
| Engine.ReadPostings | boolean_retrieval_model.py:149-151 | each term gets exactly its saved postings |
| Engine.ReadPositions | boolean_retrieval_model.py:154-157 | a term is loaded exactly when some document is saved under it, with its map read back with `int` |
| Engine.ReadTermPositions | boolean_retrieval_model.py:155-157 | one term's inner loop: no entry for an empty map, otherwise the map read back |
| Engine.AnyNear | boolean_retrieval_model.py:336-343 | the nested loops with `break` report exactly whether some pair of positions is at most `k` apart |
| Engine.NearDocs | boolean_retrieval_model.py:324-343 | the documents collected are distinct and exactly the qualifying ones |
| Engine.RetrievalSystem.constructor | boolean_retrieval_model.py:10-23 | with a saved snapshot the indexes are loaded from it; otherwise they are built from the entries and are well formed |
| Engine.RetrievalSystem.PreprocessText | boolean_retrieval_model.py:41-48 | the method yields `Preprocess` of the text |
| Engine.RetrievalSystem.KeepTokens | boolean_retrieval_model.py:44-47 | the loop yields the pairs of all tokens |
| Engine.RetrievalSystem.IndexDocument | boolean_retrieval_model.py:74-84 | the fields become the document added under its id |
| Engine.RetrievalSystem.IndexEntry | boolean_retrieval_model.py:65-89 | one pass indexes a readable `.txt` entry, and reports it as processed, unreadable or skipped |
| Engine.RetrievalSystem.BuildIndexes | boolean_retrieval_model.py:61-99 | the fields become the build of the entries; the processed count equals the number of documents; the failed list names the unreadable `.txt` entries in order; the snapshot written is the save of the result |
| Engine.RetrievalSystem.LoadIndexes | boolean_retrieval_model.py:138-157 | the fields become a possible reading of the snapshot |
| Engine.RetrievalSystem.FoldTokens | boolean_retrieval_model.py:204-229 | the `while` loop computes the left-to-right fold of the tokens |
| Engine.RetrievalSystem.BooleanQuery | boolean_retrieval_model.py:192-229 | the method computes `_process_boolean_query` as a function |
| Engine.RetrievalSystem.BracketedQuery | boolean_retrieval_model.py:231-301 | the stack scan, the inner evaluation, the splice, the recursive call and the closing fold compute `_process_bracketed_query` as a function |
| Engine.RetrievalSystem.ProximityQuery | boolean_retrieval_model.py:304-345 | the method computes the sorted qualifying documents, or `[]` for a malformed query |
| Engine.RetrievalSystem.PrintResults | boolean_retrieval_model.py:347-363 | the loop computes the printed outcome: nothing, a `KeyError`, or the result text |
| Engine.RetrievalSystem.ProcessQuery | boolean_retrieval_model.py:174-189 | the method computes the dispatch of `process_query` |

## Left out

- File and directory I/O become inputs. The directory listing is a sequence of
  entries, each with a name and optional content; unreadable content (the
  encoding fallback of lines 159-171 gave up) is `None`. The stop words of lines
  26-37 are an input set. The snapshot is an input or an output value. The
  `indexes.json` existence check, the fallback after a failed load (lines 53-59),
  and `json.dump`/`json.load` are not modelled.
- `os.path.join` and the `path` field of the saved document mapping are not
  modelled: they are I/O detail that loading never reads.
- The `created_at` timestamp (line 106) is not modelled: it is a clock reading.
- `print` logging is not modelled. `print_results` is modelled by the text it
  prints after `Result-Set: `.
- The Porter stemmer is an arbitrary function `stem: string -> string`, and
  every property holds for any stemmer.
- Python's `hash` of `str(inner_result)` (line 254) is an arbitrary function of
  the result list. The placeholder is the string `RESULT_` followed by
  `str(hash)`, as in the code.
- Python's recursion limit, reached by a query with an unclosed `(`, is the
  answer `RecursionError`; the exception itself is not modelled.
- Sets and dictionaries have no iteration order in the model. The order of
  `set` iteration and of JSON object keys is therefore not modelled. This
  matters in one place: when two saved keys parse to the same integer, such as
  `"1"` and `"01"`, the value loaded is not determined.
- Reading a missing entry in the nested `defaultdict` at lines 332-333 inserts
  an empty list as a side effect. The model does not record that insertion; a
  missing entry reads as the empty list.
- Upper- and lower-case, `\b`, `\d` and `\w` are ASCII only. Whitespace is the
  set `str.isspace()` accepts.
- Text.ParseInt: `int()` is modelled on ASCII decimal text only. Python also
  accepts `_` between digits and non-ASCII decimal digits. A snapshot with
  such keys is outside what `LoadIndexes` and the constructor accept.
- `main()`, the console loop and the NLTK download (lines 365-401) are not
  modelled; `main.py` and `test_queries.py` are not part of this model.
- Snapshots.SaveLoadRoundTrip: holds only when no term has an empty position
  map. A term with an empty map is saved but not read back (line 157), and a
  build never makes one.
- Engine.RetrievalSystem.BuildIndexes: requires empty indexes, as when
  `__init__` calls it; the build after a failed load is not modelled.
- Engine.RetrievalSystem.LoadIndexes: requires every saved key to parse with
  `int`; a `ValueError` during loading is not modelled.
