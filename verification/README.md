# Wikidata question answering: the deterministic core

Six student variants of one question-answering pipeline: s3234045.py,
system2.py, system.py, s3135152.py, s3225143.py and s3254259.py. Each one
annotates an English question with spaCy and picks an entity phrase and a
relation phrase. It then looks both up in Wikidata and returns the first
non-empty answer. The annotator, the pattern matcher, the Wikidata search
API and the SPARQL endpoint are function-typed parameters here. What is
left is list and string logic, and this project models and proves that
logic in Dafny.

Modules:

- `Python` holds the Python semantics the scripts rely on:
  - exceptions as `Result`;
  - negative indexing and clamped slicing;
  - `strip`, `replace`, `split` and `join`.
- `Format` models `str.format` on the query templates. A template is
  kept structured (literal text, `{}` and `{k}` pieces). `FormatRender`
  proves that formatting its source text gives the same string as filling
  the pieces.
- `Tokens` covers annotated tokens:
  - the token record (text, lemma, POS, tag, dependency, head index,
    begin/inside/outside tag);
  - `subtree` and `lefts` over head indices;
  - named-entity spans.
- `Extract` holds the WHEN_WHERE, X_OF_Y and WHO_DID_X extractors shared by
  s3234045.py and system2.py.
- `Normaliser` models `translate_query`, which exists in three copies that
  differ only in their stop words.
- `Resolve` covers search post-processing: the "Property:" prefix, the
  first id, and `None` for an empty search.
- `Bindings` covers SPARQL result rows and their flattening to values.
- `Controller` is the entity-major cross product of entity ids and property
  ids. It queries pairs until the first non-empty result and records the
  trace of executed pairs.
- `Dates` models the strict `%Y-%m-%dT%H:%M:%SZ` to `%m/%d/%Y` reformat.
- `Queries` holds the answer-label query shared by three scripts and the
  printing of its labels.
- One module per script: `S3234045`, `System2`, `System`, `S3135152`,
  `S3225143`, `S3254259`.

## Model

| member | source | states |
|---|---|---|
| Normaliser.RemoveStopWords | s3234045.py:94 | every kept word is a word of the phrase and not a stop word, every word of the phrase that is not a stop word is kept, and no more words are kept than given |
| Normaliser.RemoveStopWordsSingle | s3234045.py:94 | one word is kept exactly when it is not a stop word; with the append lemma this fixes the filter word by word, in order |
| Normaliser.RemoveStopWordsAppend | s3234045.py:94 | filtering a concatenation is the concatenation of the filtered parts |
| Normaliser.RemoveStopWordsIdempotent | s3234045.py:94 | filtering stop words twice removes nothing more |
| Normaliser.TranslateQueryTable | s3234045.py:93-122 | the relation is "has part" when "members" survives filtering, else the canonical entry for the first two remaining words when there is one, else the remaining words joined by single spaces |
| Normaliser.LookupIsTable | s3234045.py:104-122 | the nested who/when/where × verb lookup equals a flat table of twelve entries: director, author, composer, inventor, inception, date of and place of birth/death |
| Normaliser.MembersOverrides | s3234045.py:98-99 | "members" anywhere in the phrase gives exactly "has part", whatever the other words are |
| Normaliser.OnlyFirstTwoWordsLookedUp | s3234045.py:104-114 | once the first two words hit the table, further words (short of "members") do not change the relation |
| Normaliser.PublishReleaseUntranslated | s3234045.py:116-122 | a "publish" or "release" verb is never translated, because that branch compares a word with a list; the words stay joined |
| Normaliser.TranslateAfterRemoval | s3234045.py:94-95 | normalising a phrase already free of stop words gives the same relation |
| Normaliser.CopiesAgree | system2.py:28 | the copy with a lone apostrophe as an extra stop word agrees with the s3234045.py copy on every phrase without a lone apostrophe |
| Normaliser.WhoAgent | s3234045.py:93-106 | "who" followed by "direct", "write", "compose" or "invent" translates to that verb's `trans_dict` entry, for any stop-word set that holds neither word |
| Normaliser.TranslateQuery | s3234045.py:93-122 | `translate_query` itself; its behaviour is stated by TranslateQueryTable, MembersOverrides, OnlyFirstTwoWordsLookedUp, PublishReleaseUntranslated, TranslateAfterRemoval and CopiesAgree |
| Tokens.Subtree | s3234045.py:73 | the subtree of a token lists, in question order, exactly the tokens it dominates through head links, itself included |
| Tokens.Lefts | s3234045.py:80 | the left children of a token are exactly the earlier tokens whose head it is, in question order |
| Tokens.First | s3234045.py:73 | `next(w for w in doc if p(w))`: the first index satisfying the test, with none before it; absent only when no token satisfies it |
| Tokens.EntityTokensAppend | system2.py:202-204 | keeping the begin/inside-tagged tokens distributes over concatenation, so order is preserved |
| Tokens.EntityTokensSingle | system2.py:202-204 | a single token is kept exactly when its tag is B or I |
| Tokens.EntitySpansCover | system2.py:147 | the tokens of the named-entity spans are exactly the begin/inside-tagged tokens, in order |
| Tokens.EntitySpans | system2.py:147 | each named-entity span is a non-empty token range inside the question; EntitySpansCover states which tokens the spans hold |
| Tokens.SpanText | s3254259.py:46 | `span.text`; SpanTextSplit states that it splits back into the token texts |
| Tokens.SpanTextSplit | s3254259.py:46 | a span's text is its token texts joined by single spaces, and splitting it on whitespace gives them back |
| Extract.WhenWhere | s3234045.py:72-76 | raises StopIteration exactly when no token is a subject; otherwise the relation is the first and the last token's lemmas |
| Extract.WhenWhereSubject | s3234045.py:73-76 | with the first subject known, the entity words are that token's subtree texts in question order |
| Extract.XOfY | system2.py:122-128 | raises StopIteration exactly when no token is a prepositional object; otherwise the relation is non-empty |
| Extract.XOfYPobj | system2.py:122-128 | the relation is the left children of the first pobj's grandparent followed by the grandparent's text; the entity is the pobj's subtree |
| Extract.WhoDidX | s3234045.py:83-85 | raises StopIteration exactly without a ROOT token; otherwise the relation is "who" and a lemma, and the entity is the texts from the match end on (empty past the end) |
| Extract.WhoDidXRoot | s3234045.py:83-85 | with `root` the first ROOT token, the relation is exactly "who" and the lemma of `root`, and the entity is the texts of `result[end:]` |
| Resolve.PropertyIdOfTitle | s3234045.py:138 | dropping nine characters from "Property:" followed by an id gives the id |
| Resolve.SearchTitles | s3234045.py:124-140 | `None` exactly when the search finds nothing; otherwise the hits in order, property titles without their prefix and item titles unchanged |
| Resolve.FirstId | s3254259.py:63-71 | the first hit's id; IndexError exactly when the search is empty |
| Resolve.AllIdsAppend | s3135152.py:58-67 | the ids are collected phrase by phrase, in search order within each phrase |
| Resolve.AllIdsEmpty | s3135152.py:58-68 | no ids at all exactly when every phrase's search is empty |
| Bindings.LookupFinds | s3234045.py:53 | `row[name]['value']` succeeds exactly when the row binds the name, with that binding's value; KeyError otherwise |
| Bindings.ValuesAppend | system2.py:252-255 | the values of a row list distribute over concatenation, rows in order and each row in variable order |
| Bindings.ValuesSingle | s3225143.py:24-26 | a single row contributes exactly its own values |
| Controller.FirstAnswer | s3234045.py:149-169 | the executed pairs are a prefix of the pair list; all but the last returned nothing; an answer is the last pair's non-empty rows; exhaustion executes every pair |
| Controller.CrossIndex | s3234045.py:149-150 | entity-major order: pair (i, j) sits at position i·\|props\| + j |
| Controller.ShortCircuit | s3234045.py:149-167 | when (E[i], P[j]) is the first pair with rows, the answer is its rows and exactly the i·\|P\| + j + 1 pairs up to it are executed |
| Controller.ExhaustedIffAllEmpty | s3234045.py:164-169 | the scan is exhausted exactly when every pair returns an empty list |
| Controller.SearchPairs | s3234045.py:149-169 | the two nested loops, stopping at the first non-empty result or exception, compute the same scan as the cross product |
| Dates.ParseTimestamp | s3234045.py:55 | a parsed timestamp is a valid date and time, the text ends in Z, and a failure is ValueError |
| Dates.ParseIso | s3234045.py:55 | parsing the zero-padded timestamp of a valid date and time gives it back |
| Dates.DisplayIso | s3234045.py:55-56 | a timestamp answer prints as month/day/year |
| Dates.DisplayExample | s3234045.py:55-56 | "1958-01-08T00:00:00Z" prints as "01/08/1958" |
| Dates.DisplayNonTimestamp | s3234045.py:57-58 | a value that ends in neither Z nor z prints unchanged (strptime matches the literal Z without regard to case) |
| Dates.Display | s3234045.py:54-58 | a timestamp prints as ten characters MM/DD/YYYY; a value that does not parse prints unchanged |
| Dates.UsDate | s3234045.py:56 | ten characters with slashes at positions 2 and 5; DisplayIso and DisplayExample state the digits |
| Format.FormatRender | s3234045.py:151-158 | formatting a template's source text (with `{{`/`}}` escapes) gives the same result as filling its pieces |
| Format.FormatString | s3234045.py:151-158 | `str.format` on the template text; FormatRender ties it to filling the pieces, and FillTwoAuto, FillTwoManual, FillThreeAuto and FillThreeManual give the results for the query templates |
| Format.FillAutoOk | s3234045.py:151-157 | a template of automatic fields formats without error when there are enough arguments |
| Format.FillManualOk | s3225143.py:21 | a template of numbered fields formats without error when every index names an argument |
| Format.FillTwoAuto | s3234045.py:151-157 | two `{}` fields between literal pieces take the first two arguments in order; further arguments are unused |
| Format.FillTwoManual | s3135152.py:71-75 | fields `{0}` and `{1}` between literal pieces take the first and second argument |
| Format.FillThreeAuto | s3254259.py:88 | three `{}` fields between literal pieces take the three arguments in order |
| Format.FillThreeManual | s3225143.py:21 | fields `{0}`, `{1}`, `{2}` between literal pieces take the three arguments |
| Queries.AnswerLabelFormat | s3234045.py:151-158 | the answer-label query puts the entity id after `wd:` and the property id after `wdt:`, and ignores further arguments |
| Queries.PrintLabels | s3234045.py:52-58 | at most one line per row; what escapes the loop is a KeyError, raised on a row after the printed ones |
| Queries.PrintLabelsEscapes | s3234045.py:52-58 | nothing escapes exactly when every row has an `answerLabel`; otherwise the row right after the printed lines is the first without one |
| Queries.PrintLabelsLines | s3234045.py:52-58 | each printed line is its row's `answerLabel` value, reformatted as a date when it is a timestamp |
| Python.Index | s3225143.py:84 | a negative index counts from the end; IndexError exactly outside −n..n−1 |
| Python.Strip | s3234045.py:51 | the result is the input with a prefix and a suffix of characters from the set cut off, and it neither starts nor ends with such a character |
| Python.StripQuestion | s3234045.py:51 | the stripped question is the question with only whitespace and question marks cut from either end, and it neither starts nor ends with a space or a question mark |
| Python.SplitOnJoin | s3135152.py:83-84 | splitting a newline-join of newline-free lines gives the lines back |
| Python.Split | system2.py:149 | `str.split()`: every piece is non-empty and holds no whitespace; SplitJoinSpace states that it undoes a space-join of such words |
| Python.SplitJoinSpace | system2.py:149 | splitting a space-join of non-empty words without whitespace gives the words back |
| Python.ReplaceRemovesChar | s3254259.py:104 | after replacing a character with text lacking it, the character does not occur |
| Python.Replace | s3254259.py:89-90 | `str.replace`; ReplaceRemovesChar and S3254259.BracesMap state what it does to the characters |
| S3234045.ParseQuestion | s3234045.py:63-91 | NoAnswerError("Question is ill-formed…") exactly when there is no match; otherwise only StopIteration from an extractor can be raised |
| S3234045.FirstMatchUsed | s3234045.py:67-68 | later matches never change the parse |
| S3234045.WhoDidXQuestion | s3234045.py:63-91 | a WHO_DID_X question gives the normalised pair "who" and the first ROOT lemma, and the words after the match without stop words, joined by spaces |
| S3234045.WhoDirectedQuestion | s3234045.py:83-108 | a WHO_DID_X question whose first ROOT lemma is "direct", "write", "compose" or "invent" parses, and its relation is the `trans_dict` entry ("director" for "direct") |
| S3234045.WhenWhereQuestion | s3234045.py:72-89 | a WHEN_WHERE question gives the normalised first and last lemmas and the first subject's subtree without stop words, joined by spaces |
| S3234045.QueryAnswer | s3234045.py:142-169 | NoAnswerError when either search is empty; a returned answer is never empty |
| S3234045.RunPairOk | s3234045.py:151-162 | every pair's query formats and sends the entity id after `wd:` and the property id after `wdt:` |
| S3234045.QueryAnswerFirstPair | s3234045.py:149-167 | the answer is the rows of the first entity-major pair with rows, and exactly the pairs up to it are queried |
| S3234045.QueryAnswerExhausted | s3234045.py:164-169 | when every pair's query is empty, NoAnswerError is raised |
| S3234045.QueryAnswerRaises | s3234045.py:142-169 | querying raises nothing but NoAnswerError |
| S3234045.AnswerQuestion | s3234045.py:49-61 | `answer_question`; AnswerQuestionEscapes states what it prints and what escapes |
| S3234045.AnswerQuestionEscapes | s3234045.py:49-61 | only StopIteration from an extractor and KeyError from a row without `answerLabel` escape; NoAnswerError is printed |
| System2.ParseWhoDidX | system2.py:130-135 | `who_did_x` always raises: StopIteration without a ROOT token, NameError for the unbound `end` otherwise |
| System2.ParseWhatDidX | system2.py:137-149 | IndexError exactly without named entities; UnboundLocalError exactly when there are entities but no noun subject or object; otherwise the entity is the first entity split on whitespace |
| System2.WhatDidXNoun | system2.py:140-149 | the relation is the first noun subject or object's text, split on whitespace |
| System2.Method | system2.py:55 | `getattr` on the matched pattern's lower-cased name never raises AttributeError: X_OF_Y runs `x_of_y`, WHO_DID_X runs `who_did_x` and WHAT_DID_X runs `what_did_x` |
| System2.PatternMethods | system2.py:64-73 | every registered pattern's lower-cased name is a parser method |
| System2.Parse | system2.py:43-59 | `None` exactly when nothing matches; otherwise the question type is the last match's pattern name |
| System2.LastMatchUsed | system2.py:47-49 | only the last match counts |
| System2.WhoDidXFails | system2.py:130-135 | a WHO_DID_X question never parses |
| System2.QueryText | system2.py:158-178 | a query text exists exactly for when_where, x_of_y, what_did_x and "4" |
| System2.RunPair | system2.py:237-244 | a question type without query text raises KeyError |
| System2.RunPairLabelQuery | system2.py:237-244 | for X_OF_Y and WHAT_DID_X, every pair's query is the answer-label query about that pair |
| System2.QueryAnswer | system2.py:224-231 | NoAnswerError when either search is empty |
| System2.QueryAnswerExhausted | system2.py:233-259 | when both searches find titles and every pair's query has no rows, NoAnswerError is raised |
| System2.QueryAnswerFirstPair | system2.py:234-256 | the answer is every value of every row of the first entity-major pair with rows |
| System2.WhoDidXUnanswered | system2.py:180-189 | a question whose last match is WHO_DID_X gets `None` |
| System2.SolveAnswers | system2.py:180-199 | for a question that parses, when (E[i], P[j]) is the first entity-major pair with rows, the answer is every value of those rows; the timestamp loop does not change it |
| System2.SolveQueryRaises | system2.py:180-186 | for a question that parses, any exception from `query_answer` gives `None` |
| System2.Solve | system2.py:180-199 | the solver; its behaviour is stated by SolveAnswers, SolveQueryRaises and WhoDidXUnanswered |
| System.Method | system.py:109-125 | `getattr` on the matched pattern's lower-cased name: WHAT_IS_THE_LAST finds its placeholder, which gives three empty strings; every other pattern raises AttributeError |
| System.Chars | system.py:51-52 | iterating a string gives its characters as one-character strings |
| System.Parse | system.py:39-52 | ValueError unless the matcher returns exactly three matches; a parse's question type is the upper-case pattern name |
| System.ParseMissingMethod | system.py:48 | WHEN_WHERE, X_OF_Y and WHO_DID_X name no parser method and raise AttributeError |
| System.ParseWhatIsTheLast | system.py:121-125 | a WHAT_IS_THE_LAST question parses to its name with empty relation, entity and extra |
| System.QueryText | system.py:134-140 | only `pattern_one` has a query text |
| System.RunPair | system.py:212-219 | a question type without query text raises KeyError |
| System.SameQueryEveryPair | system.py:212-217 | the formatted query is discarded: every pair sends the same raw template |
| System.QueryAnswer | system.py:198-229 | NoAnswerError when either search is empty; a returned answer is never empty |
| System.QueryAnswerExhausted | system.py:207-229 | when both searches find titles and every pair's query has no rows, NoAnswerError is raised |
| System.QueryAnswerMissingText | system.py:204-212 | a question type without query text ends in NoAnswerError or KeyError |
| System.NeverAnswers | system.py:155-173 | the script answers no question: it prints the no-answer message, or an exception escapes before anything is printed |
| S3135152.Catch | s3135152.py:39-46 | `except IndexError: pass` keeps the lists as they were; other exceptions pass through |
| S3135152.OfRule | s3135152.py:15-16 | a subject, then "of", then a pobj append exactly that three-word phrase to the properties; in every other case that does not raise, nothing changes; IndexError is the only failure, and none with two tokens left |
| S3135152.FollowerRule | s3135152.py:17-20 | only the entities grow, at the back; IndexError is the only failure |
| S3135152.SubjectRule | s3135152.py:13-22 | the subject rule only appends or prepends to each list, even when an IndexError cuts it short |
| S3135152.PropertyRule | s3135152.py:23-26 | a subject, attribute or object appends its text to the properties, preceded by "has part" for "member(s)"; any other token changes nothing; the entities never change |
| S3135152.ObjectRule | s3135152.py:27-35 | a pobj after an adjective or amod, after "the" and a nummod, or after "the" puts that phrase (PobjFront) at the front of the entities; any other pobj, acomp, pcomp or ROOT token is appended; other tokens change nothing; the properties never change; `parse[i-2]` wraps to the last token when i is 1 |
| S3135152.CompoundRule | s3135152.py:36-38 | raises exactly when a compound is the last token, with IndexError; a compound before an NN* tag puts the two words at the front of the entities and the back of the properties; otherwise nothing changes |
| S3135152.AmodRule | s3135152.py:39-46 | only the properties grow, at the front; IndexError is the only failure |
| S3135152.TokenStep | s3135152.py:11-47 | one token raises exactly when it is not skipped and is a compound in the last position |
| S3135152.ScanFromRaises | s3135152.py:10-47 | the scan raises exactly when the last token is a compound that is not skipped, and then IndexError |
| S3135152.QuestionmakerRaises | s3135152.py:8-48 | `questionmaker` raises exactly when there are at least two tokens and the last is a compound other than "is"/"are"/"was", and then IndexError |
| S3135152.Questionmaker | s3135152.py:8-48 | `questionmaker`; its behaviour is stated by QuestionmakerRaises, SkippedTokensAddNothing, ScanKeepsRuns, MemberHasPart, OfPhraseKept, PobjFrontKept and CompoundPairKept |
| S3135152.SkippedTokensAddNothing | s3135152.py:9-12 | the first token and the copulas contribute nothing |
| S3135152.ScanKeepsRuns | s3135152.py:10-47 | candidates present before a token stay as a contiguous run of the final lists |
| S3135152.OfPhraseKept | s3135152.py:15-16 | a subject, "of" and a pobj (not the first token) leave the three-word phrase in the final property list |
| S3135152.PobjFrontKept | s3135152.py:27-33 | the adjective, "the"-number or "the" phrase of a pobj (not the first token) is in the final entity list |
| S3135152.CompoundPairKept | s3135152.py:36-38 | a compound before an NN* tag (not the first token) leaves the two-word phrase in both final lists |
| S3135152.MemberHasPart | s3135152.py:23-26 | "has part" stays directly before "member(s)" in the final property list, whatever later rules add |
| S3135152.InsertByLen | s3135152.py:57 | insertion keeps the list sorted longest first, adds exactly the element, and places it after every strictly longer phrase |
| S3135152.SortByLen | s3135152.py:57 | the sort is longest first and a permutation of the phrases |
| S3135152.SortStable | s3135152.py:57 | phrases of each length keep their relative order |
| S3135152.SortUnique | s3135152.py:57 | any list sorted longest first with the same phrases of each length in the same order is the sort |
| S3135152.SelectQueryFormat | s3135152.py:71-75 | the value query puts the entity id after `wd:` and the property id after `wdt:` |
| S3135152.RunPairOk | s3135152.py:71-76 | every pair's query formats |
| S3135152.Kept | s3135152.py:78-83 | every value that does not start with "http://www.wikidata.org" is kept, every kept value is such a value, and no value is kept more often than it occurs |
| S3135152.KeptAppend | s3135152.py:78-83 | filtering a concatenation is the concatenation of the filtered parts, so the kept values stay in row and variable order |
| S3135152.KeptSingle | s3135152.py:78-83 | one value is kept exactly when it is not a Wikidata URI |
| S3135152.AnswerLines | s3135152.py:77-84 | the answer's newline-separated lines are exactly the kept values, when these hold no newline and the first starts with a non-space |
| S3135152.AllUrisEmptyAnswer | s3135152.py:77-84 | when every value is a Wikidata URI, the answer is the empty string |
| S3135152.Trimmed | s3135152.py:89 | each phrase ending in "s" yields itself without that letter; nothing else is yielded; the total length strictly drops |
| S3135152.TrimmedAppend | s3135152.py:89 | trimming a concatenation is the concatenation of the trimmed parts, so the trimmed phrases stay in the order of the sorted list |
| S3135152.TrimmedSingle | s3135152.py:89 | one phrase yields itself without its last letter when it ends in "s", and nothing otherwise |
| S3135152.AnswerFirstPair | s3135152.py:68-84 | the answer is the text of the first entity-major pair with rows, over the first ten property ids of the sorted phrases |
| S3135152.NeverRaises | s3135152.py:50-92 | `create_and_fire_query` raises nothing |
| S3135152.NoPropertyIds | s3135152.py:88-92 | when no property search ever finds anything, the answer is "Answer not found" after any number of retries |
| S3135152.RetryStep | s3135152.py:88-91 | with no property id, the answer is the answer for the trimmed phrases |
| S3135152.RetriesTwice | s3135152.py:88-91 | the fallback repeats: a phrase ending in "ss" is retried with both endings trimmed |
| S3135152.ExhaustedNotFound | s3135152.py:68-92 | with entity and property ids, when no pair over the first ten property ids has rows, the answer is "Answer not found" |
| S3135152.NoEntityIds | s3135152.py:68-92 | property ids without any entity id give "Answer not found" with no retry |
| S3135152.CreateAndFireQuery | s3135152.py:50-92 | `create_and_fire_query`; its behaviour is stated by AnswerFirstPair, ExhaustedNotFound, NoEntityIds, NeverRaises, NoPropertyIds, RetryStep and RetriesTwice |
| S3225143.StripPossessive | s3225143.py:64-65 | a trailing "'s" is removed and anything else is left alone, with `ent[-2:]` on short names |
| S3225143.StripPossessiveOf | s3225143.py:64-65 | removing the possessive from a name followed by "'s" gives the name back |
| S3225143.BetterEntities | s3225143.py:59-66 | one cleaned name per entity, in order |
| S3225143.GetEntities | s3225143.py:58-75 | `None` exactly without entities; otherwise the item search for the first entity without its possessive |
| S3225143.TrimSpan | s3225143.py:82-85 | the start skips a leading "'s", "the" or "'"; the end drops a trailing "of"; IndexError exactly when the first or last token is outside the question |
| S3225143.MatchAttribute | s3225143.py:81-97 | a match fails only with IndexError, or with UnboundLocalError on the first match |
| S3225143.Select | s3225143.py:86-97 | only UnboundLocalError, and only with no earlier attribute |
| S3225143.Attributes | s3225143.py:81-97 | one attribute per match, the first from the first match |
| S3225143.FirstAttributeSearched | s3225143.py:99-108 | only the first attribute is searched; `None` exactly without a match |
| S3225143.GetAttributes | s3225143.py:78-108 | `get_attributes`; its behaviour is stated by FirstAttributeSearched, Attributes and MatchAttribute |
| S3225143.NounAttribute | s3225143.py:86-97 | a span ending in an auxiliary or the root gives the lemma of its first noun subject or object |
| S3225143.FirstMatchUnbound | s3225143.py:86-97 | on the first match, such a span without a noun argument raises UnboundLocalError |
| S3225143.CarriedAttribute | s3225143.py:86-97 | on a later match, such a span reuses the previous attribute |
| S3225143.SpanAttribute | s3225143.py:94-97 | any other span gives the lemma of the whole trimmed span |
| S3225143.DoQueryOk | s3225143.py:10-27 | the property id is substituted after both `p:` and `ps:`, and the answers are every value of every row |
| S3225143.DoQuery | s3225143.py:10-27 | `do_query`; DoQueryOk states the query sent and the answers |
| S3225143.GetAnswerFirstPair | s3225143.py:30-37 | the answer is the values of the first entity-major pair with values, and no later pair is queried |
| S3225143.GetAnswerNone | s3225143.py:30-37 | `None` exactly when every pair's query returns no value |
| S3225143.GetAnswerOk | s3225143.py:30-37 | querying raises nothing |
| S3225143.GetAnswer | s3225143.py:30-37 | `get_answer`; its behaviour is stated by GetAnswerFirstPair, GetAnswerNone and GetAnswerOk |
| S3225143.CreateAndFireQuery | s3225143.py:111-122 | exceptions from the attributes escape; `None` from either lookup gives `None`; with both lists found, the result is `get_answer` on the property ids of the first attribute and the item ids of the first entity; an answer is never empty |
| S3225143.CreateAndFireQueryFirstPair | s3225143.py:111-122 | with both lists found, the answer is the values of the first entity-major pair whose query returns any |
| S3225143.CreateAndFireQueryExhausted | s3225143.py:111-122 | with both lists found and every pair's query empty, the answer is `None` |
| S3254259.PreprocessNoQuestionMark | s3254259.py:103-107 | a cleaned-up line holds no question mark |
| S3254259.PreprocessPlain | s3254259.py:103-107 | a line without any of the patterns is only right-stripped |
| S3254259.Preprocess | s3254259.py:103-107 | the line clean-up; PreprocessNoQuestionMark and PreprocessPlain state its effect |
| S3254259.EntityNameWords | s3254259.py:21-25 | the entity name splits back into the begin/inside-tagged tokens' texts, in order |
| S3254259.SpanTexts | s3254259.py:45-46 | one text per match, the text of the matched token range |
| S3254259.CleanSpanPlain | s3254259.py:48-52 | a span without the entity name, "How" or "Was" is unchanged |
| S3254259.CleanSpan | s3254259.py:48-52 | the span clean-up; CleanSpanPlain states when it changes nothing |
| S3254259.Guard | s3254259.py:53 | the guard `a != 'How'` compares a list with a string, so it is always true |
| S3254259.FirstFoundSpan | s3254259.py:48-59 | the answer is that of the first span whose property search finds something, when the entity search does |
| S3254259.NoEntityNoAnswer | s3254259.py:54-59 | when the entity name finds no item, every span fails and the result is `None` |
| S3254259.NoSpanFound | s3254259.py:48-59 | when no cleaned span's property search finds anything, every span fails and the result is `None`, whatever the entity search gives |
| S3254259.TrySpansNone | s3254259.py:48-59 | the loop gives `None` exactly when the entity search is empty or no remaining span's property search finds anything |
| S3254259.TrySpans | s3254259.py:48-59 | the span loop; FirstFoundSpan, NoEntityNoAnswer, NoSpanFound and TrySpansNone state its result |
| S3254259.CreateAndFireQuery | s3254259.py:16-59 | `create_and_fire_query`; EntityNameWords, SpanTexts, FirstFoundSpan, NoEntityNoAnswer, NoSpanFound and TrySpansNone state its parts and result |
| S3254259.AnswerOk | s3254259.py:84-96 | formatting never fails; the entity id goes after `wd:` and the property id after both `p:` and `ps:` |
| S3254259.BracesMap | s3254259.py:89-90 | every parenthesis, also inside the ids, becomes the matching brace; every other character is kept; no parenthesis remains |
| S3254259.RespondNoEntity | s3254259.py:109-114 | a question whose entity finds no item prints the apology |
| S3254259.RespondNoSpanFound | s3254259.py:102-114 | a question none of whose spans finds a property prints the apology |
| S3254259.RespondFirstFoundSpan | s3254259.py:109-114 | otherwise the printed lines are the answer of the first span whose property is found |
| S3254259.Respond | s3254259.py:102-114 | one line of standard input; RespondNoEntity, RespondNoSpanFound and RespondFirstFoundSpan state what is printed |

## Left out

- The spaCy annotator and `Matcher` are left out, as library code. The token records and the (id, start, end) match list are inputs, and the pattern tables in `init_matcher`/`make_matcher` are not modelled.
- HTTP calls (`requests.get`, SPARQLWrapper) and `unidecode` are left out. They are oracles: `Search` maps a text and a namespace to hits, and `Executor` maps a query to result rows. Transport failures and missing JSON keys are not modelled.
- The command-line front ends are left out, because they are I/O around the modelled calls:
  - example printing and the loops over standard input;
  - s3135152.py's `lower()` and AttributeError handler (s3135152.py:103-109);
  - s3225143.py's printing (s3225143.py:181-195);
  - system.py's log file (system.py:232-253);
  - system2.py's accuracy scoring (system2.py:263-309), which uses float division.
- system.py:142-151 does not parse as Python: it has unterminated string literals and a dictionary entry without a value. Only the `pattern_one` query text is modelled.
- System.Parse: line 42 of system.py unpacks the whole match list. The model raises ValueError unless there are exactly three matches, and takes the vocabulary lookup of the first unpacked value as the parameter `lookup`. What that lookup does with a match tuple depends on spaCy.
- Tokens.EntitySpans: IOB tags are taken as given and assumed well-formed. An I tag after an O opens a span here; spaCy's `Doc.ents` would not accept that sequence.
- Normaliser.Lookup: the "real name" entry of system2.py's table is never reached, because only verb keys are looked up. The publish/release branch never fires.
- Dates.ParseTimestamp: only ASCII digits are read, and the year must have exactly four digits; the other fields take one or two digits, as strptime does. strftime output for years below 1000 is platform-dependent; the model pads the year to four digits.
- Format.FormatString: format specs and conversions (`{:...}`, `{!r}`) are not modelled; the query templates use none.
- S3225143.Attributes: states the length and the first attribute only. The later attributes matter only because their exceptions can escape.
- S3254259.Guard is not consulted in the span loop, because it is always true.
