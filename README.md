# Retrieval API and turn-annotation grouping, modelled in Dafny

This project models two parts of ParlAI.

**Retrievers of the RAG agent (`parlai/agents/rag/retrieve_api.py`).** Module `RetrieveApi` covers:

- the content-dict helper every retriever uses;
- the deterministic `SearchEngineRetrieverMock`;
- the local path of `SearchEngineRetriever`:
  - server-address validation;
  - title clean-up of a fetched page;
  - collection of at most `n` successfully fetched pages per query, skipping failures (the intended behaviour: as written, a failing request aborts the batch, see "## Findings");
  - splitting page text into stripped, non-empty sentences;
  - per-query results in which the skip token yields `None`;
  - batch retrieval.

The network is abstract. A `SearchProvider` gives the candidate URLs for a query. A `Fetcher` gives, per URL, either a failure (`None`) or what the HTML layer extracted: the `<title>` text if any, and the page as plain text.

**Static turn-annotation crowdsourcing blueprints (`parlai/crowdsourcing/tasks/turn_annotations_static/turn_annotations_blueprint.py`).** Module `TurnAnnotationsBlueprint` covers:

- `process_data`: each self-chat is flattened into utterances tagged with agent index 0 or 1, and utterances mentioning `persona` are dropped;
- the plain blueprint's grouping into units of `subtasks_per_unit` conversations;
- the in-flight QA blueprint's regrouping into full units only, each followed by one quality-control conversation chosen round-robin.

The two blueprints are classes whose fields their constructors set as the source does. A static `Create` method models each constructor's exceptions as a `Failure`.

Supporting modules:

- `Strings` models the Python string builtins the core relies on: `str.isspace`, `strip`, `split('\n')`, `replace(c, "")`, substring `in`, and `f'{n}'` for naturals.
- `Sequences` gives the two list-building shapes the loops follow: map over a prefix, and filter-map over a prefix.
- `Wrappers` holds `Option` and `Result`.

## Model

| member | source | states |
|---|---|---|
| RetrieveApi.CreateContentDict | parlai/agents/rag/retrieve_api.py:62-65 | the dict's keys are the keyword names plus "content"; "content" maps to the content; every keyword maps to its own value |
| RetrieveApi.SearchEngineRetrieverMock.constructor | parlai/agents/rag/retrieve_api.py:51-52 | the retriever keeps the skip token it is given |
| RetrieveApi.MockDoc | parlai/agents/rag/retrieve_api.py:83-87 | a mock document has exactly the keys "content", "url" and "title", and its content is the mock content for the index and query; `MockDocsDistinct` adds that different indices give different documents |
| RetrieveApi.SearchEngineRetrieverMock.Retrieve | parlai/agents/rag/retrieve_api.py:73-90 | one entry per query, in order; `None` exactly for the skip token; otherwise exactly `num_ret` documents, document `idx` built from `idx` and the query; `num_ret` defaults to 5 |
| RetrieveApi.MockContentQuotesQuery | parlai/agents/rag/retrieve_api.py:84 | the query can be read back from a mock content string, between its quotes |
| RetrieveApi.MockContentDigits | parlai/agents/rag/retrieve_api.py:84 | the index's digits sit right after "content " and are followed by the first space |
| RetrieveApi.MockContentsDistinct | parlai/agents/rag/retrieve_api.py:84 | documents with different indices have different contents |
| RetrieveApi.MockDocsDistinct | parlai/agents/rag/retrieve_api.py:83-87 | documents with different indices differ in url, title and content |
| Strings.NatToString | parlai/agents/rag/retrieve_api.py:84-86 | `f'{idx}'` is a non-empty string of decimal digits with no leading zero |
| Strings.NatToStringValue | parlai/agents/rag/retrieve_api.py:84-86 | the digits of `f'{idx}'` denote `idx` again, read as a decimal numeral |
| Strings.NatToStringInjective | parlai/agents/rag/retrieve_api.py:84-86 | distinct indices render as distinct strings |
| RetrieveApi.ValidateServer | parlai/agents/rag/retrieve_api.py:185-196 | fails exactly for an absent or empty address; keeps a `local_google`, `http://` or `https://` address as given; otherwise prefixes `http://`; so a validated address always carries one of the three prefixes |
| RetrieveApi.ValidateServerIdempotent | parlai/agents/rag/retrieve_api.py:185-196 | validating an already validated address returns it unchanged |
| RetrieveApi.SearchEngineRetriever.constructor | parlai/agents/rag/retrieve_api.py:101-103 | the skip token and the validated server address are fixed at construction |
| RetrieveApi.SearchEngineRetriever.Create | parlai/agents/rag/retrieve_api.py:101-103 | construction raises exactly when the address is absent or empty; otherwise the address is the validated one and has a known prefix |
| RetrieveApi.CleanTitle | parlai/agents/rag/retrieve_api.py:137-143 | the cleaned title holds no `\n` or `\r` and is no longer than the raw title (or "None"); `CleanTitleSpec` adds which characters it keeps |
| RetrieveApi.CleanTitleSpec | parlai/agents/rag/retrieve_api.py:137-143 | a missing title becomes "None"; the cleaned title has no `\n` or `\r`; every other character is kept with its multiplicity |
| RetrieveApi.CleanTitleKeepsSingleLine | parlai/agents/rag/retrieve_api.py:143 | a title without line breaks is left unchanged |
| Strings.RemoveCharKeepsOthers | parlai/agents/rag/retrieve_api.py:143 | `replace(c, "")` removes every `c` and keeps every other character, with its multiplicity |
| Strings.RemoveCharAppend | parlai/agents/rag/retrieve_api.py:143 | `replace(c, "")` works character by character: on a concatenation it is the concatenation of the two results, so the kept characters stay in order |
| Strings.RemoveAbsentChar | parlai/agents/rag/retrieve_api.py:143 | `replace(c, "")` on a string without `c` returns the string unchanged |
| RetrieveApi.GetAndParse | parlai/agents/rag/retrieve_api.py:121-168 | `None` exactly when the fetch fails; otherwise a page with the cleaned title, the page text and the url it was fetched from |
| RetrieveApi.GetAndParseAsWritten | parlai/agents/rag/retrieve_api.py:123-127 | as written, a failed request raises; a successful one gives the parsed page |
| RetrieveApi.AsWrittenFailureRaises | parlai/agents/rag/retrieve_api.py:123-127 | as written, `None` is never returned: exactly the failures the guarded version reports as `None` raise |
| RetrieveApi.SuccessesOfPrefix | parlai/agents/rag/retrieve_api.py:174-179 | fetching fewer candidate URLs yields a prefix of the pages that fetching more yields |
| RetrieveApi.SuccessesExactly | parlai/agents/rag/retrieve_api.py:174-179 | each collected page comes from a candidate URL and is that URL's page; every fetchable candidate contributes its page |
| RetrieveApi.CollectedIsFirstSuccesses | parlai/agents/rag/retrieve_api.py:174-181 | a collection that stops at the end of the candidates, or on reaching `n` pages, holds exactly the first `n` successful fetches of all the candidates |
| RetrieveApi.Take | parlai/agents/rag/retrieve_api.py:181 | `content[:n]` holds `min(len, n)` items and is a prefix of `content` |
| RetrieveApi.SearchEngineRetriever.QueryLocalSearchServer | parlai/agents/rag/retrieve_api.py:171-183 | returns the first `n` successful fetches, in provider order (so at most `n`); stops after the fetch that reaches `n`, so `n = 0` fetches nothing; if it stopped early it holds exactly `n` pages; the final `[:n]` truncates nothing |
| Strings.StripSpec | parlai/agents/rag/retrieve_api.py:218 | `strip()` gives a trimmed string, which is the input with only leading and trailing whitespace removed, and is empty exactly when the input is all whitespace |
| Strings.SplitPiecesSepFree | parlai/agents/rag/retrieve_api.py:218 | no piece of `split('\n')` contains a newline |
| Strings.JoinSplit | parlai/agents/rag/retrieve_api.py:218 | joining the pieces of a split with the separator gives back the string |
| Strings.SplitJoin | parlai/agents/rag/retrieve_api.py:218 | splitting a join of separator-free parts gives back the parts |
| RetrieveApi.KeepStrippedSentences | parlai/agents/rag/retrieve_api.py:218 | every kept sentence is non-empty and trimmed |
| RetrieveApi.KeepStrippedFrom | parlai/agents/rag/retrieve_api.py:218 | a kept sentence holds no character that was absent from every piece |
| RetrieveApi.KeepStrippedKeepsAll | parlai/agents/rag/retrieve_api.py:218 | the filter loses nothing: every piece that is not blank after stripping is kept, stripped, and every kept sentence is a stripped piece |
| RetrieveApi.Segments | parlai/agents/rag/retrieve_api.py:218 | a page has at most one sentence per line of its text; `SegmentsSpec` and `SegmentsKeepEveryLine` give what the sentences are |
| RetrieveApi.SegmentsKeepEveryLine | parlai/agents/rag/retrieve_api.py:218 | every line of the page text that is not blank becomes one of its sentences, stripped |
| RetrieveApi.SegmentsSpec | parlai/agents/rag/retrieve_api.py:218 | every sentence of a page is non-empty, trimmed, and free of newlines |
| RetrieveApi.StripTrimmed | parlai/agents/rag/retrieve_api.py:218 | stripping a trimmed string changes nothing |
| RetrieveApi.KeepStrippedTrimmed | parlai/agents/rag/retrieve_api.py:218 | the filter keeps a list of non-empty trimmed pieces unchanged |
| RetrieveApi.SegmentsOfJoin | parlai/agents/rag/retrieve_api.py:218 | sentences that are already non-empty, trimmed and newline-free, joined by newlines, split back into themselves |
| RetrieveApi.ToDocumentShape | parlai/agents/rag/retrieve_api.py:215-222 | a page's document has exactly the keys "content", "url" and "title"; they hold the page's sentences, url and title |
| RetrieveApi.SearchEngineRetriever.RetrieveSingle | parlai/agents/rag/retrieve_api.py:198-223 | returns `None` for the skip token, which is never searched; otherwise one document per collected page, in order; an empty search gives an empty list |
| RetrieveApi.SingleResult | parlai/agents/rag/retrieve_api.py:198-223 | `None` exactly for the skip token, otherwise at most `n` documents; `SingleResultShape` gives what the documents are |
| RetrieveApi.SingleResultShape | parlai/agents/rag/retrieve_api.py:198-223 | `None` exactly for the skip token; otherwise at most `n` documents, one per collected page in order, with the page's url and non-empty trimmed sentences; `n = 0` gives an empty list |
| RetrieveApi.EnoughSuccessesFillResult | parlai/agents/rag/retrieve_api.py:171-183 | failed fetches are skipped: with at least `n` fetchable candidates, a query gets exactly `n` documents |
| RetrieveApi.SearchEngineRetriever.Retrieve | parlai/agents/rag/retrieve_api.py:225-229 | `num_ret` defaults to 5; result `i` is the single result of query `i`; the queries sent to the search are the non-skip queries, in batch order |
| RetrieveApi.BatchResultAt | parlai/agents/rag/retrieve_api.py:225-229 | the batch has one result per query; result `j` is the single result of query `j`, and it is `None` exactly when query `j` is the skip token |
| RetrieveApi.UnskippedExactly | parlai/agents/rag/retrieve_api.py:198-200 | the skip token never reaches the search; every other query of the batch does, and nothing else does |
| TurnAnnotationsBlueprint.KeptUtterances | parlai/crowdsourcing/tasks/turn_annotations_static/turn_annotations_blueprint.py:152-155 | a turn pair yields at most two utterances, and two exactly when neither text mentions persona |
| TurnAnnotationsBlueprint.ProcessedDialogueLength | parlai/crowdsourcing/tasks/turn_annotations_static/turn_annotations_blueprint.py:149-155 | at most two utterances per pair, and exactly two per pair when no text mentions persona |
| TurnAnnotationsBlueprint.ProcessedDialogueNoPersona | parlai/crowdsourcing/tasks/turn_annotations_static/turn_annotations_blueprint.py:149-155 | no kept utterance mentions persona, and each has agent index 0 or 1 |
| TurnAnnotationsBlueprint.ProcessedDialogueKeeps | parlai/crowdsourcing/tasks/turn_annotations_static/turn_annotations_blueprint.py:149-155 | every persona-free text is kept: agent 0's with index 0, agent 1's with index 1 |
| TurnAnnotationsBlueprint.ProcessedDialogueFrom | parlai/crowdsourcing/tasks/turn_annotations_static/turn_annotations_blueprint.py:149-155 | every kept utterance is a pair's agent-0 text tagged 0 or its agent-1 text tagged 1 |
| TurnAnnotationsBlueprint.ProcessedData | parlai/crowdsourcing/tasks/turn_annotations_static/turn_annotations_blueprint.py:146-157 | one processed conversation per input conversation; `ProcessedDataAt` says which |
| TurnAnnotationsBlueprint.ProcessedDataAt | parlai/crowdsourcing/tasks/turn_annotations_static/turn_annotations_blueprint.py:146-157 | one processed conversation per input conversation, output `j` rendering input `j` |
| TurnAnnotationsBlueprint.TurnAnnotationsStaticBlueprint.ProcessData | parlai/crowdsourcing/tasks/turn_annotations_static/turn_annotations_blueprint.py:141-157 | the nested loops compute the specified processing of every conversation |
| TurnAnnotationsBlueprint.TurnAnnotationsStaticBlueprint.ChunkData | parlai/crowdsourcing/tasks/turn_annotations_static/turn_annotations_blueprint.py:106-109 | the grouping loop yields the slices of `k` starting at `0, k, 2k, ...` |
| TurnAnnotationsBlueprint.FlattenChunks | parlai/crowdsourcing/tasks/turn_annotations_static/turn_annotations_blueprint.py:204-206 | concatenating the groups gives back the processed list: flattening undoes chunking |
| TurnAnnotationsBlueprint.Chunks | parlai/crowdsourcing/tasks/turn_annotations_static/turn_annotations_blueprint.py:106-108 | there is no group exactly when the list is empty, and the first group is the first `k` items (or all of them); `ChunkAt`, `ChunkSizes`, `ChunkCount` and `FlattenChunks` give the rest |
| TurnAnnotationsBlueprint.ChunkAt | parlai/crowdsourcing/tasks/turn_annotations_static/turn_annotations_blueprint.py:106-108 | group `j` exists exactly when `j*k < len`, and it is the slice from `j*k` to `(j+1)*k`, clamped to the list |
| TurnAnnotationsBlueprint.ChunkSizes | parlai/crowdsourcing/tasks/turn_annotations_static/turn_annotations_blueprint.py:106-110 | every group holds 1 to `k` items; every group but the last holds exactly `k` |
| TurnAnnotationsBlueprint.ChunkCount | parlai/crowdsourcing/tasks/turn_annotations_static/turn_annotations_blueprint.py:106-110 | the number of groups is `ceil(len / k)`: the fewest groups of `k` that cover the list, and none for an empty list |
| TurnAnnotationsBlueprint.ChunkFullCount | parlai/crowdsourcing/tasks/turn_annotations_static/turn_annotations_blueprint.py:209 | `floor(len / k)` groups are full: all of them when `k` divides the length, otherwise all but the last |
| TurnAnnotationsBlueprint.TurnAnnotationsStaticBlueprint.constructor | parlai/crowdsourcing/tasks/turn_annotations_static/turn_annotations_blueprint.py:85-109 | the units are the processed conversations in groups of `subtasks_per_unit` |
| TurnAnnotationsBlueprint.TurnAnnotationsStaticBlueprint.Create | parlai/crowdsourcing/tasks/turn_annotations_static/turn_annotations_blueprint.py:91-94 | construction raises exactly when `subtasks_per_unit <= 0`, and the error carries the value |
| TurnAnnotationsBlueprint.TurnAnnotationsStaticInFlightQABlueprint.FlattenGroups | parlai/crowdsourcing/tasks/turn_annotations_static/turn_annotations_blueprint.py:204-206 | the `extend` loop concatenates the groups in order |
| TurnAnnotationsBlueprint.InFlightGroups | parlai/crowdsourcing/tasks/turn_annotations_static/turn_annotations_blueprint.py:208-215 | there are `floor(len / k)` in-flight units, none exactly when the list is shorter than one unit; `InFlightGroupsShape` gives what they hold |
| TurnAnnotationsBlueprint.InFlightGroupAt | parlai/crowdsourcing/tasks/turn_annotations_static/turn_annotations_blueprint.py:210-215 | in-flight unit `j` is `all[j*k:(j+1)*k]`, which lies inside the list, followed by quality-control conversation `j % len(qc)` |
| TurnAnnotationsBlueprint.InFlightGroupsShape | parlai/crowdsourcing/tasks/turn_annotations_static/turn_annotations_blueprint.py:208-218 | there are `floor(len / k)` units of `k + 1` conversations; unit `j` is plain group `j` plus quality-control conversation `j % len(qc)`; only the last plain group is dropped, and only when it is not full |
| TurnAnnotationsBlueprint.TurnAnnotationsStaticInFlightQABlueprint.Regroup | parlai/crowdsourcing/tasks/turn_annotations_static/turn_annotations_blueprint.py:208-218 | fails with no complete unit exactly when `len < k` (`chunk` is never bound); otherwise fails when there is no quality-control conversation (modulo by zero); otherwise yields the in-flight units, and the new `subtasks_per_unit` is `k + 1` |
| TurnAnnotationsBlueprint.TurnAnnotationsStaticInFlightQABlueprint.constructor | parlai/crowdsourcing/tasks/turn_annotations_static/turn_annotations_blueprint.py:188-218 | the quality-control conversations are processed like the data; the units are the in-flight regrouping of the processed conversations; `subtasks_per_unit` is raised by one |
| TurnAnnotationsBlueprint.TurnAnnotationsStaticInFlightQABlueprint.Create | parlai/crowdsourcing/tasks/turn_annotations_static/turn_annotations_blueprint.py:188-218 | construction raises exactly when `subtasks_per_unit <= 0`, there are fewer conversations than one unit holds, or there is no quality-control conversation, with the error for the first of these that applies |

## Left out

- HTTP fetching and the HTML layer (`requests`, BeautifulSoup, `html2text`) are the `Fetcher` parameter, and the `googlesearch` provider is the `SearchProvider` parameter. The model stands for any network, and for any provider that is a function of the query and the count and never raises, including one that returns more than `n` candidates. So a query that occurs twice in one batch gets the same candidates both times, which a live search need not do. In the source, an error raised while iterating the provider's results propagates out of `_retrieve_single` and the whole `retrieve` batch; that is not modelled.
- The network is a function of the URL, so repeated requests for one URL agree. Fetch timeouts, and a network whose answer changes between the two requests in `_get_and_parse`, are not modelled.
- The remote search-server path (`_query_search_server`) and the `use_local` flag are left out. The flag is set to true on every path before it is read, so only the local path runs.
- Process-wide SSL and `urllib3` settings, logging, `print`, `rich` escaping, and the `LocalSearchTest`/`fire` command line are left out. None of them affects the results.
- A negative `num_ret` is not modelled: counts are naturals. In the source, a negative count stops the collection loop at once, as zero does.
- The abstract `RetrieverAPI` base class is not modelled separately. Its constructor's only effect, storing the skip token, is part of each retriever class.
- `get_frontend_args`, the reading of the JSON and JSON-lines files, Mephisto registration, the argument dataclasses and the `StaticReactBlueprint` superclass are left out. The constructors take the loaded conversations as sequences.
- Malformed input conversations are not modelled: a missing `dialog` or `text` key, or a pair with fewer than two turns, raises in the source. An input pair is always two texts, and extra turns in a pair are ignored, as the source ignores them.
- `math.floor(len(all_data) / subtasks_per_unit)` is modelled as exact integer division. This matches the float computation for lists shorter than 2^53.

- RetrieveApi.SearchEngineRetriever.QueryLocalSearchServer: built on the guarded `GetAndParse` (the corrected member under Findings). As written, a candidate that is fetched before the `n`-th success and fails raises out of the query, so "failed fetches are skipped" holds only for the intended behaviour. Candidates after the `n`-th success are never requested, as in the model.
- RetrieveApi.SearchEngineRetriever.RetrieveSingle: uses the guarded fetch through `QueryLocalSearchServer`. As written, a candidate fetched before the `n`-th success that fails raises instead of yielding a shorter list.
- RetrieveApi.SingleResultShape: describes the result with the guarded fetch. As written, a query raises and gets no result when a candidate fetched before the `n`-th success fails; with `n = 0` nothing is fetched and the result is an empty list.
- RetrieveApi.EnoughSuccessesFillResult: holds for the guarded fetch only. As written, one failing candidate before the `n`-th success aborts the query.
- RetrieveApi.SearchEngineRetriever.Retrieve: uses the guarded fetch. As written, a failing candidate that some query fetches before its `n`-th success aborts the whole batch.

## Findings

| source | as written | input that shows it | evidently intended | confidence | as-written member | corrected member |
|---|---|---|---|---|---|---|
| parlai/agents/rag/retrieve_api.py:123-127 | an unguarded `requests.get(url)` precedes the guarded one, so a failing request raises out of `_get_and_parse`, and with it out of the whole `retrieve` batch; the `except` branch returning `None` is reached only if the second request fails after the first succeeded | any candidate URL whose request raises, e.g. an unreachable host | a failing URL is skipped and the next candidate is tried | medium, not executed | RetrieveApi.GetAndParseAsWritten | RetrieveApi.GetAndParse |
