/**
 * Retrieval of "contents" for "search queries": the retriever interface's
 * content-dict helper, the deterministic mock retriever, and the search-engine
 * retriever's local path (candidate collection, sentence splitting, batching
 * with a skip token, server-address validation and title clean-up).
 *
 * The network, the search provider and the HTML layer are abstract: a
 * `SearchProvider` gives the candidate URLs for a query, and a `Fetcher`
 * gives, per URL, either a failure (`None`) or what the HTML layer extracted
 * from the page.
 */
module RetrieveApi {
  import opened Wrappers
  import opened Strings
  import opened Sequences

  const CONTENT := "content"
  const DEFAULT_NUM_TO_RETRIEVE: nat := 5

  /** A value in a content dict: a single string, or a list of strings. */
  datatype Field = Text(text: string) | Lines(lines: seq<string>)

  /** The dict every retriever returns per document. */
  type ContentDict = map<string, Field>

  /** One entry per query: `None` when no retrieval was asked for, otherwise the documents. */
  type QueryResult = Option<seq<ContentDict>>

  /**
   * `create_content_dict(content, **kwargs)`: a record holding `content`
   * under the key "content" and every keyword attribute as given. Python
   * refuses a keyword argument named `content` (it is the positional
   * parameter), hence the precondition.
   */
  function CreateContentDict(content: Field, kwargs: map<string, Field>): (d: ContentDict)
    requires CONTENT !in kwargs
    ensures forall k :: k in d <==> k in kwargs || k == CONTENT
    ensures d[CONTENT] == content
    ensures forall k :: k in kwargs ==> d[k] == kwargs[k]
  {
    kwargs[CONTENT := content]
  }

  // ======================================================== mock retriever

  /** The content string of mock document `idx` for `query`. */
  function MockContent(query: string, idx: nat): string {
    "content " + NatToString(idx) + " for query \"" + query + "\""
  }

  /** Mock document `idx` for `query`: synthetic content, url and title derived from `idx`. */
  function MockDoc(query: string, idx: nat): (d: ContentDict)
    ensures d.Keys == {CONTENT, "url", "title"}
    ensures d[CONTENT] == Text(MockContent(query, idx))
  {
    CreateContentDict(
      Text(MockContent(query, idx)),
      map["url" := Text("url_" + NatToString(idx)), "title" := Text("title_" + NatToString(idx))])
  }

  /** The query can be read back from a mock document's content, between the quotes. */
  lemma {:induction false} MockContentQuotesQuery(query: string, idx: nat)
    ensures var c := MockContent(query, idx);
      var p := |"content " + NatToString(idx) + " for query \""|;
      p < |c| && c[p..|c| - 1] == query && c[|c| - 1] == '"'
  {
    var pre := "content " + NatToString(idx) + " for query \"";
    var c := MockContent(query, idx);
    assert c == pre + query + "\"";
    assert c[|pre|..|c| - 1] == query;
  }

  /** Different indices give documents with different urls, titles and contents. */
  lemma MockDocsDistinct(query: string, a: nat, b: nat)
    requires a != b
    ensures MockDoc(query, a)["url"] != MockDoc(query, b)["url"]
    ensures MockDoc(query, a)["title"] != MockDoc(query, b)["title"]
    ensures MockDoc(query, a)[CONTENT] != MockDoc(query, b)[CONTENT]
  {
    var sa, sb := NatToString(a), NatToString(b);
    NatToStringInjective(a, b);
    assert ("url_" + sa)[4..] == sa && ("url_" + sb)[4..] == sb;
    assert ("title_" + sa)[6..] == sa && ("title_" + sb)[6..] == sb;
    MockContentsDistinct(query, a, b);
  }

  /** Different indices give different contents: the digits after "content " differ. */
  lemma MockContentsDistinct(query: string, a: nat, b: nat)
    requires a != b
    ensures MockContent(query, a) != MockContent(query, b)
  {
    var sa, sb := NatToString(a), NatToString(b);
    NatToStringInjective(a, b);
    var ca, cb := MockContent(query, a), MockContent(query, b);
    MockContentDigits(query, a);
    MockContentDigits(query, b);
    if |sa| < |sb| {
      assert ca[8 + |sa|] == ' ' && cb[8 + |sa|] != ' ';
    } else if |sb| < |sa| {
      assert cb[8 + |sb|] == ' ' && ca[8 + |sb|] != ' ';
    } else {
      assert ca[8..8 + |sa|] == sa && cb[8..8 + |sb|] == sb;
    }
  }

  /** The index's digits start at offset 8 of the content and end at its first space after that. */
  lemma MockContentDigits(query: string, idx: nat)
    ensures var c := MockContent(query, idx); var d := NatToString(idx);
      8 + |d| < |c| && c[8..8 + |d|] == d && c[8 + |d|] == ' '
      && forall j :: 8 <= j < 8 + |d| ==> c[j] != ' '
  {
    var d := NatToString(idx);
    var c := MockContent(query, idx);
    assert c == "content " + d + " for query \"" + query + "\"";
    assert c[8..8 + |d|] == d;
    assert c[8 + |d|] == ' ';
    forall j | 8 <= j < 8 + |d| ensures c[j] != ' ' {
      assert c[j] == d[j - 8];
    }
  }

  /** `SearchEngineRetrieverMock`: answers without any network access. */
  class SearchEngineRetrieverMock {
    const skipQueryToken: string

    constructor (skipRetrievalToken: string)
      ensures skipQueryToken == skipRetrievalToken
    {
      skipQueryToken := skipRetrievalToken;
    }

    /**
     * One entry per query, in order: `None` for the skip token, otherwise
     * exactly `numRet` synthetic documents, document `idx` being `MockDoc(query, idx)`.
     * The output depends on nothing but the inputs.
     */
    method Retrieve(queries: seq<string>, numRet: nat := DEFAULT_NUM_TO_RETRIEVE)
      returns (allDocs: seq<QueryResult>)
      ensures |allDocs| == |queries|
      ensures forall i :: 0 <= i < |queries| ==> (allDocs[i].None? <==> queries[i] == skipQueryToken)
      ensures forall i :: 0 <= i < |queries| && allDocs[i].Some? ==>
        |allDocs[i].value| == numRet &&
        forall idx :: 0 <= idx < numRet ==> allDocs[i].value[idx] == MockDoc(queries[i], idx)
    {
      allDocs := [];
      for i := 0 to |queries|
        invariant |allDocs| == i
        invariant forall j :: 0 <= j < i ==> (allDocs[j].None? <==> queries[j] == skipQueryToken)
        invariant forall j :: 0 <= j < i && allDocs[j].Some? ==>
          |allDocs[j].value| == numRet &&
          forall idx :: 0 <= idx < numRet ==> allDocs[j].value[idx] == MockDoc(queries[j], idx)
      {
        var query := queries[i];
        var docs: QueryResult;
        if query == skipQueryToken {
          docs := None;
        } else {
          var list: seq<ContentDict> := [];
          for idx := 0 to numRet
            invariant |list| == idx
            invariant forall k :: 0 <= k < idx ==> list[k] == MockDoc(query, k)
          {
            var doc := CreateContentDict(
              Text("content " + NatToString(idx) + " for query \"" + query + "\""),
              map["url" := Text("url_" + NatToString(idx)), "title" := Text("title_" + NatToString(idx))]);
            list := list + [doc];
          }
          docs := Some(list);
        }
        allDocs := allDocs + [docs];
      }
    }
  }

  // ======================================================== server address

  const LOCAL_GOOGLE := "local_google"
  const HTTP := "http://"
  const HTTPS := "https://"

  /** The address names the local search mode or already carries a protocol. */
  predicate HasKnownPrefix(address: string) {
    LOCAL_GOOGLE <= address || HTTP <= address || HTTPS <= address
  }

  /**
   * `_validate_server`: an absent or empty address is an error; a local-mode
   * address or one with an `http(s)://` protocol is kept as it is; any other
   * address gets the `http://` protocol in front.
   */
  function ValidateServer(address: Option<string>): (r: Result<string, string>)
    ensures r.Failure? <==> address.None? || address.value == ""
    ensures r.Success? ==> HasKnownPrefix(r.value)
    ensures r.Success? && HasKnownPrefix(address.value) ==> r.value == address.value
    ensures r.Success? && !HasKnownPrefix(address.value) ==> r.value == HTTP + address.value
  {
    match address
    case None => Failure("Must provide a valid server for search")
    case Some(a) =>
      if a == "" then Failure("Must provide a valid server for search")
      else if LOCAL_GOOGLE <= a then Success(a)
      else if HTTP <= a || HTTPS <= a then Success(a)
      else Success(HTTP + a)
  }

  /** Validating a validated address changes nothing. */
  lemma ValidateServerIdempotent(address: Option<string>)
    requires ValidateServer(address).Success?
    ensures ValidateServer(Some(ValidateServer(address).value)) == ValidateServer(address)
  {
    var v := ValidateServer(address).value;
    assert v != "" by { assert HasKnownPrefix(v); }
  }

  // ======================================================== pages

  /**
   * What the HTML layer extracts from a fetched page: the rendered text of
   * the first `<title>` element if the page has one, and the page as plain text.
   */
  datatype RawPage = RawPage(titleElement: Option<string>, text: string)

  /** The dict `_get_and_parse` returns for one fetched URL. */
  datatype Page = Page(title: string, content: string, url: string)

  /** The HTTP fetch and HTML parsing of one URL; `None` when the request fails. */
  type Fetcher = string -> Option<RawPage>

  /** The external search provider: candidate URLs for a query and a count. */
  type SearchProvider = (string, nat) -> seq<string>

  /** The title a page without a `<title>` element gets. */
  const NO_TITLE := "None"

  /**
   * The title clean-up of `_get_and_parse`: a missing title becomes "None",
   * then every newline and carriage return is removed.
   */
  function CleanTitle(titleElement: Option<string>): (t: string)
    ensures '\n' !in t && '\r' !in t
    ensures |t| <= |titleElement.GetOr(NO_TITLE)|
  {
    var raw := titleElement.GetOr(NO_TITLE);
    RemoveCharKeepsOthers(raw, '\n');
    RemoveCharKeepsOthers(RemoveChar(raw, '\n'), '\r');
    RemoveChar(RemoveChar(raw, '\n'), '\r')
  }

  lemma LineBreaksAbsent(s: string)
    requires '\n' !in s && '\r' !in s
    ensures RemoveChar(RemoveChar(s, '\n'), '\r') == s
  {
    RemoveAbsentChar(s, '\n');
    RemoveAbsentChar(s, '\r');
  }

  /**
   * The cleaned title holds no line break; every other character of the
   * title is kept, as often as it occurred; a page without a title gets "None".
   */
  lemma CleanTitleSpec(titleElement: Option<string>)
    ensures '\n' !in CleanTitle(titleElement) && '\r' !in CleanTitle(titleElement)
    ensures titleElement.None? ==> CleanTitle(titleElement) == NO_TITLE
    ensures titleElement.Some? ==>
      multiset(CleanTitle(titleElement)) == multiset(titleElement.value)['\n' := 0]['\r' := 0]
  {
    var raw := titleElement.GetOr(NO_TITLE);
    RemoveCharKeepsOthers(raw, '\n');
    RemoveCharKeepsOthers(RemoveChar(raw, '\n'), '\r');
    if titleElement.None? {
      LineBreaksAbsent(NO_TITLE);
    }
  }

  /** A title that has no line breaks comes through the clean-up unchanged. */
  lemma CleanTitleKeepsSingleLine(title: string)
    requires '\n' !in title && '\r' !in title
    ensures CleanTitle(Some(title)) == title
  {
    LineBreaksAbsent(title);
  }

  /** `_get_and_parse`: the page record for a URL, or `None` when the fetch failed. */
  function GetAndParse(url: string, fetch: Fetcher): (p: Option<Page>)
    ensures p.Some? <==> fetch(url).Some?
    ensures p.Some? ==> p.value == Page(CleanTitle(fetch(url).value.titleElement), fetch(url).value.text, url)
  {
    match fetch(url)
    case None => None
    case Some(raw) => Some(Page(CleanTitle(raw.titleElement), raw.text, url))
  }

  /**
   * `_get_and_parse` as written: its first request stands outside the
   * `try`, so a request that fails raises out of it instead of giving
   * `None`. The network is a function here, so the guarded second request
   * answers as the first did.
   */
  function GetAndParseAsWritten(url: string, fetch: Fetcher): (r: Result<Option<Page>, string>)
    ensures r.Failure? <==> fetch(url).None?
    ensures r.Success? ==> r.value == GetAndParse(url, fetch)
  {
    match fetch(url)
    case None => Failure("request raised")
    case Some(_) => Success(GetAndParse(url, fetch))
  }

  /**
   * As written, `_get_and_parse` never gives `None`: exactly the failures
   * that the corrected `GetAndParse` reports as `None` raise instead.
   */
  lemma AsWrittenFailureRaises(url: string, fetch: Fetcher)
    ensures GetAndParseAsWritten(url, fetch) != Success(None)
    ensures GetAndParseAsWritten(url, fetch).Failure? <==> GetAndParse(url, fetch) == None
  {
  }

  /** `_get_and_parse` as a function of the URL alone, over a given network. */
  function Parser(fetch: Fetcher): string -> Option<Page> {
    url => GetAndParse(url, fetch)
  }

  /** Every successful fetch among the first `i` of `urls`, in their order. */
  function SuccessesUpTo(urls: seq<string>, i: nat, fetch: Fetcher): seq<Page>
    requires i <= |urls|
  {
    FilterMapUpTo(urls, i, Parser(fetch))
  }

  /** Every successful fetch of `urls`, in their order. */
  function Successes(urls: seq<string>, fetch: Fetcher): seq<Page> {
    SuccessesUpTo(urls, |urls|, fetch)
  }

  /** Fetching fewer URLs gives a prefix of the pages fetching more gives. */
  lemma SuccessesOfPrefix(urls: seq<string>, i: nat, j: nat, fetch: Fetcher)
    requires i <= j <= |urls|
    ensures SuccessesUpTo(urls, i, fetch) <= SuccessesUpTo(urls, j, fetch)
  {
    FilterMapUpToPrefix(urls, i, j, Parser(fetch));
  }

  /**
   * The successes are exactly the parsed pages of the URLs whose fetch
   * succeeds: each one is the page of one of the first `i` URLs, and each
   * of those that can be fetched contributes its page.
   */
  lemma SuccessesExactly(urls: seq<string>, i: nat, fetch: Fetcher)
    requires i <= |urls|
    ensures forall p :: p in SuccessesUpTo(urls, i, fetch) ==>
      p.url in urls[..i] && GetAndParse(p.url, fetch) == Some(p)
    ensures forall k :: 0 <= k < i && fetch(urls[k]).Some? ==>
      GetAndParse(urls[k], fetch).value in SuccessesUpTo(urls, i, fetch)
  {
    FilterMapUpToExactly(urls, i, Parser(fetch));
    forall p | p in SuccessesUpTo(urls, i, fetch)
      ensures p.url in urls[..i] && GetAndParse(p.url, fetch) == Some(p)
    {
      var k :| 0 <= k < i && Parser(fetch)(urls[k]) == Some(p);
      assert urls[..i][k] == urls[k];
    }
  }

  /**
   * A collection that stopped after `i` candidates, either at the end of the
   * list or on reaching `n` pages, holds the first `n` pages of the whole list.
   */
  lemma CollectedIsFirstSuccesses(urls: seq<string>, i: nat, n: nat, fetch: Fetcher)
    requires i <= |urls|
    requires |SuccessesUpTo(urls, i, fetch)| <= n
    requires i < |urls| ==> |SuccessesUpTo(urls, i, fetch)| == n
    ensures Take(Successes(urls, fetch), n) == SuccessesUpTo(urls, i, fetch)
  {
    SuccessesOfPrefix(urls, i, |urls|, fetch);
  }

  /** Python's `s[:n]` for `n >= 0`. */
  function Take<T>(s: seq<T>, n: nat): (r: seq<T>)
    ensures |r| == if |s| <= n then |s| else n
    ensures r <= s
  {
    if |s| <= n then s else s[..n]
  }

  // ======================================================== sentences

  /** One piece as `_retrieve_single` keeps it: stripped, or dropped when nothing is left. */
  function StrippedSentence(piece: string): Option<string> {
    var s := Strip(piece);
    if s != [] then Some(s) else None
  }

  /** The first `i` pieces, stripped, the empty ones dropped, in order: the filter of `_retrieve_single`. */
  function KeepStrippedUpTo(pieces: seq<string>, i: nat): (segs: seq<string>)
    requires i <= |pieces|
    ensures |segs| <= i
  {
    FilterMapUpTo(pieces, i, StrippedSentence)
  }

  /**
   * Nothing is lost: every piece that is not blank after stripping is kept,
   * and every kept sentence is the stripped form of one of the pieces.
   */
  lemma KeepStrippedKeepsAll(pieces: seq<string>, i: nat)
    requires i <= |pieces|
    ensures forall k :: 0 <= k < i && Strip(pieces[k]) != [] ==> Strip(pieces[k]) in KeepStrippedUpTo(pieces, i)
    ensures forall s :: s in KeepStrippedUpTo(pieces, i) ==> exists k :: 0 <= k < i && Strip(pieces[k]) == s
  {
    FilterMapUpToExactly(pieces, i, StrippedSentence);
    forall k | 0 <= k < i && Strip(pieces[k]) != []
      ensures Strip(pieces[k]) in KeepStrippedUpTo(pieces, i)
    {
      assert StrippedSentence(pieces[k]) == Some(Strip(pieces[k]));
    }
  }

  /** Keeping one more piece appends its stripped form, unless that is blank. */
  lemma KeepStrippedSnoc(pieces: seq<string>, i: nat)
    requires 0 < i <= |pieces|
    ensures KeepStrippedUpTo(pieces, i) ==
      KeepStrippedUpTo(pieces, i - 1) + (if Strip(pieces[i - 1]) != [] then [Strip(pieces[i - 1])] else [])
  {
  }

  /** Every kept piece is non-empty and trimmed. */
  lemma {:induction false} KeepStrippedSentences(pieces: seq<string>, i: nat)
    requires i <= |pieces|
    ensures forall k :: 0 <= k < |KeepStrippedUpTo(pieces, i)| ==>
      KeepStrippedUpTo(pieces, i)[k] != [] && IsTrimmed(KeepStrippedUpTo(pieces, i)[k])
    decreases i
  {
    if i > 0 {
      StripSpec(pieces[i - 1]);
      KeepStrippedSnoc(pieces, i);
      KeepStrippedSentences(pieces, i - 1);
    }
  }

  /** A kept piece holds no character its piece did not. */
  lemma {:induction false} KeepStrippedFrom(pieces: seq<string>, i: nat, c: char)
    requires i <= |pieces|
    requires forall k :: 0 <= k < |pieces| ==> c !in pieces[k]
    ensures forall k :: 0 <= k < |KeepStrippedUpTo(pieces, i)| ==> c !in KeepStrippedUpTo(pieces, i)[k]
    decreases i
  {
    if i > 0 {
      var p := pieces[i - 1];
      var s := Strip(p);
      var j := SkipSpace(p, 0);
      StripSpec(p);
      assert s == p[j..j + |s|];
      KeepStrippedSnoc(pieces, i);
      KeepStrippedFrom(pieces, i - 1, c);
    }
  }

  /**
   * The sentences of a page: its text split on newlines, each piece
   * stripped, empty and whitespace-only pieces dropped.
   */
  function Segments(text: string): (sentences: seq<string>)
    ensures |sentences| <= |Split(text, '\n')|
  {
    var pieces := Split(text, '\n');
    KeepStrippedUpTo(pieces, |pieces|)
  }

  /** Every sentence is non-empty, trimmed, and spans no line break. */
  lemma SegmentsSpec(text: string)
    ensures forall k :: 0 <= k < |Segments(text)| ==>
      Segments(text)[k] != [] && IsTrimmed(Segments(text)[k]) && '\n' !in Segments(text)[k]
  {
    var pieces := Split(text, '\n');
    SplitPiecesSepFree(text, '\n', |text|);
    KeepStrippedSentences(pieces, |pieces|);
    KeepStrippedFrom(pieces, |pieces|, '\n');
  }

  /** Every line of the text that is not blank becomes a sentence, stripped. */
  lemma SegmentsKeepEveryLine(text: string)
    ensures forall k :: 0 <= k < |Split(text, '\n')| && Strip(Split(text, '\n')[k]) != [] ==>
      Strip(Split(text, '\n')[k]) in Segments(text)
  {
    var pieces := Split(text, '\n');
    KeepStrippedKeepsAll(pieces, |pieces|);
  }

  /** Stripping a trimmed string changes nothing. */
  lemma StripTrimmed(s: string)
    requires IsTrimmed(s)
    ensures Strip(s) == s
  {
    assert SkipSpace(s, 0) == 0;
    assert SkipSpaceBack(s, 0, |s|) == |s|;
  }

  /**
   * Lines that are already non-empty, trimmed and newline-free, joined with
   * newlines, come back from `Segments` unchanged.
   */
  lemma SegmentsOfJoin(lines: seq<string>)
    requires |lines| >= 1
    requires forall k :: 0 <= k < |lines| ==> lines[k] != [] && IsTrimmed(lines[k]) && '\n' !in lines[k]
    ensures Segments(Join(lines, '\n')) == lines
  {
    SplitJoin(lines, '\n');
    KeepStrippedTrimmed(lines, |lines|);
  }

  lemma {:induction false} KeepStrippedTrimmed(lines: seq<string>, i: nat)
    requires i <= |lines|
    requires forall k :: 0 <= k < |lines| ==> lines[k] != [] && IsTrimmed(lines[k])
    ensures KeepStrippedUpTo(lines, i) == lines[..i]
    decreases i
  {
    if i > 0 {
      StripTrimmed(lines[i - 1]);
      KeepStrippedTrimmed(lines, i - 1);
      assert lines[..i] == lines[..i - 1] + [lines[i - 1]];
    }
  }

  // ======================================================== documents

  /** The content dict of a document with the given url, title and sentences. */
  function Document(url: string, title: string, sentences: seq<string>): ContentDict {
    CreateContentDict(Lines(sentences), map["url" := Text(url), "title" := Text(title)])
  }

  /** The content dict `_retrieve_single` builds from one page. */
  function ToDocument(page: Page): ContentDict {
    Document(page.url, page.title, Segments(page.content))
  }

  /**
   * A page's document has exactly the keys "content", "url" and "title":
   * the page's sentences, its url and its title.
   */
  lemma ToDocumentShape(page: Page)
    ensures forall k :: k in ToDocument(page) <==> k == CONTENT || k == "url" || k == "title"
    ensures "url" in ToDocument(page) && ToDocument(page)["url"] == Text(page.url)
    ensures "title" in ToDocument(page) && ToDocument(page)["title"] == Text(page.title)
    ensures CONTENT in ToDocument(page) && ToDocument(page)[CONTENT] == Lines(Segments(page.content))
  {
  }

  /** The pages the local search path returns for a query: at most `n` successes, in provider order. */
  function SearchedPages(query: string, n: nat, search: SearchProvider, fetch: Fetcher): seq<Page> {
    Take(Successes(search(query, n), fetch), n)
  }

  /** One content dict per page, in order. */
  function ToDocuments(pages: seq<Page>): seq<ContentDict> {
    MapUpTo(pages, |pages|, ToDocument)
  }

  /** What `_retrieve_single` returns for one query. */
  function SingleResult(skipToken: string, query: string, n: nat, search: SearchProvider, fetch: Fetcher): (r: QueryResult)
    ensures r.None? <==> query == skipToken
    ensures r.Some? ==> |r.value| <= n
  {
    if query == skipToken then None
    else Some(ToDocuments(SearchedPages(query, n, search, fetch)))
  }

  /**
   * The shape of a single query's result: `None` exactly for the skip token;
   * otherwise at most `n` documents, document `j` made from the `j`-th page
   * the search yielded, with trimmed non-empty sentences; nothing at all for `n == 0`.
   */
  lemma SingleResultShape(skipToken: string, query: string, n: nat, search: SearchProvider, fetch: Fetcher)
    ensures var r := SingleResult(skipToken, query, n, search, fetch);
      (r.None? <==> query == skipToken)
      && (r.Some? ==> |r.value| <= n && |r.value| == |SearchedPages(query, n, search, fetch)|)
      && (r.Some? ==> forall j :: 0 <= j < |r.value| ==>
            r.value[j] == ToDocument(SearchedPages(query, n, search, fetch)[j])
            && "url" in r.value[j] && r.value[j]["url"] == Text(SearchedPages(query, n, search, fetch)[j].url)
            && CONTENT in r.value[j]
            && forall k :: 0 <= k < |r.value[j][CONTENT].lines| ==>
                 r.value[j][CONTENT].lines[k] != [] && IsTrimmed(r.value[j][CONTENT].lines[k]))
      && (n == 0 && query != skipToken ==> r == Some([]))
  {
    var pages := SearchedPages(query, n, search, fetch);
    forall j | 0 <= j < |pages|
      ensures ToDocuments(pages)[j] == ToDocument(pages[j])
      ensures "url" in ToDocument(pages[j]) && ToDocument(pages[j])["url"] == Text(pages[j].url)
      ensures CONTENT in ToDocument(pages[j])
      ensures forall k :: 0 <= k < |ToDocument(pages[j])[CONTENT].lines| ==>
        ToDocument(pages[j])[CONTENT].lines[k] != [] && IsTrimmed(ToDocument(pages[j])[CONTENT].lines[k])
    {
      MapUpToAt(pages, |pages|, j, ToDocument);
      ToDocumentShape(pages[j]);
      SegmentsSpec(pages[j].content);
    }
  }

  /**
   * Failed fetches are skipped, not fatal: whenever at least `n` of the
   * candidate URLs can be fetched, a non-skip query gets exactly `n` documents.
   */
  lemma EnoughSuccessesFillResult(skipToken: string, query: string, n: nat, search: SearchProvider, fetch: Fetcher)
    requires query != skipToken
    requires |Successes(search(query, n), fetch)| >= n
    ensures SingleResult(skipToken, query, n, search, fetch).Some?
    ensures |SingleResult(skipToken, query, n, search, fetch).value| == n
  {
  }

  /** `_retrieve_single` as a function of the query alone. */
  function Answer(skipToken: string, n: nat, search: SearchProvider, fetch: Fetcher): string -> QueryResult {
    query => SingleResult(skipToken, query, n, search, fetch)
  }

  /**
   * What `retrieve` returns for a batch: one result per query, result `j`
   * being the single result of query `j`, `None` exactly at the skip tokens.
   */
  lemma BatchResultAt(skipToken: string, queries: seq<string>, j: nat, n: nat, search: SearchProvider, fetch: Fetcher)
    requires j < |queries|
    ensures var rs := MapUpTo(queries, |queries|, Answer(skipToken, n, search, fetch));
      |rs| == |queries| && rs[j] == SingleResult(skipToken, queries[j], n, search, fetch)
      && (rs[j].None? <==> queries[j] == skipToken)
  {
    MapUpToAt(queries, |queries|, j, Answer(skipToken, n, search, fetch));
  }

  /** A query of the batch unless it is the skip token. */
  function Unskipped(skipToken: string): string -> Option<string> {
    q => if q == skipToken then None else Some(q)
  }

  /** The first `i` queries of a batch that are not the skip token, in order. */
  function UnskippedUpTo(queries: seq<string>, i: nat, skipToken: string): (r: seq<string>)
    requires i <= |queries|
    ensures |r| <= i
  {
    FilterMapUpTo(queries, i, Unskipped(skipToken))
  }

  /**
   * The unskipped queries are exactly the batch's queries other than the
   * skip token: it never occurs among them, every other query does, and
   * nothing else does.
   */
  lemma UnskippedExactly(queries: seq<string>, i: nat, skipToken: string)
    requires i <= |queries|
    ensures skipToken !in UnskippedUpTo(queries, i, skipToken)
    ensures forall k :: 0 <= k < i && queries[k] != skipToken ==> queries[k] in UnskippedUpTo(queries, i, skipToken)
    ensures forall q :: q in UnskippedUpTo(queries, i, skipToken) ==> q in queries[..i]
  {
    FilterMapUpToExactly(queries, i, Unskipped(skipToken));
    forall q | q in UnskippedUpTo(queries, i, skipToken)
      ensures q in queries[..i] && q != skipToken
    {
      var k :| 0 <= k < i && Unskipped(skipToken)(queries[k]) == Some(q);
      assert queries[..i][k] == q;
    }
  }

  // ======================================================== search-engine retriever

  /**
   * `SearchEngineRetriever` on its local path: the skip token and the
   * validated server address are fixed at construction.
   */
  class SearchEngineRetriever {
    const skipQueryToken: string
    const serverAddress: string

    constructor (skipRetrievalToken: string, searchServer: Option<string>)
      requires ValidateServer(searchServer).Success?
      ensures skipQueryToken == skipRetrievalToken
      ensures serverAddress == ValidateServer(searchServer).value
    {
      skipQueryToken := skipRetrievalToken;
      serverAddress := ValidateServer(searchServer).value;
    }

    /** Construction, which raises when the server address is absent or empty. */
    static method Create(skipRetrievalToken: string, searchServer: Option<string>)
      returns (r: Result<SearchEngineRetriever, string>)
      ensures r.Failure? <==> searchServer.None? || searchServer.value == ""
      ensures r.Success? ==> r.value.skipQueryToken == skipRetrievalToken
      ensures r.Success? ==> r.value.serverAddress == ValidateServer(searchServer).value
      ensures r.Success? ==> HasKnownPrefix(r.value.serverAddress)
    {
      match ValidateServer(searchServer)
      case Failure(e) =>
        r := Failure(e);
      case Success(_) =>
        var retriever := new SearchEngineRetriever(skipRetrievalToken, searchServer);
        r := Success(retriever);
    }

    /**
     * `_query_local_search_server`: fetches the candidate URLs in provider
     * order, skipping failures, and stops as soon as `n` pages are in hand.
     * `fetched` counts the URLs that were fetched.
     */
    method QueryLocalSearchServer(queryTerm: string, n: nat, search: SearchProvider, fetch: Fetcher)
      returns (response: seq<Page>, ghost fetched: nat)
      ensures response == Take(Successes(search(queryTerm, n), fetch), n)
      ensures fetched <= |search(queryTerm, n)|
      ensures response == SuccessesUpTo(search(queryTerm, n), fetched, fetch)
      ensures fetched > 0 ==> |SuccessesUpTo(search(queryTerm, n), fetched - 1, fetch)| < n
      ensures fetched < |search(queryTerm, n)| ==> |response| == n
    {
      var urls := search(queryTerm, n);
      var content: seq<Page> := [];
      var i := 0;
      while i < |urls|
        invariant 0 <= i <= |urls|
        invariant content == SuccessesUpTo(urls, i, fetch)
        invariant |content| <= n
        invariant i > 0 ==> |SuccessesUpTo(urls, i - 1, fetch)| < n
      {
        if |content| >= n {
          break;
        }
        var maybeContent := GetAndParse(urls[i], fetch);
        if maybeContent.Some? {
          content := content + [maybeContent.value];
        }
        i := i + 1;
      }
      fetched := i;
      CollectedIsFirstSuccesses(urls, i, n, fetch);
      response := Take(content, n);
    }

    /**
     * `_retrieve_single`: `None` for the skip token, which never reaches the
     * search; otherwise one document per page found, in order, an empty list
     * when nothing was found. `searched` lists the queries sent to the search.
     */
    method RetrieveSingle(searchQuery: string, numRet: nat, search: SearchProvider, fetch: Fetcher)
      returns (docs: QueryResult, ghost searched: seq<string>)
      ensures docs == SingleResult(skipQueryToken, searchQuery, numRet, search, fetch)
      ensures searched == if searchQuery == skipQueryToken then [] else [searchQuery]
    {
      if searchQuery == skipQueryToken {
        return None, [];
      }
      var retrievedDocs: seq<ContentDict> := [];
      searched := [searchQuery];
      var searchServerResp;
      ghost var fetched;
      searchServerResp, fetched := QueryLocalSearchServer(searchQuery, numRet, search, fetch);
      if searchServerResp == [] {
        return Some(retrievedDocs), searched;
      }
      for k := 0 to |searchServerResp|
        invariant retrievedDocs == MapUpTo(searchServerResp, k, ToDocument)
      {
        var rd := searchServerResp[k];
        var sentences := Segments(rd.content);
        var doc := CreateContentDict(Lines(sentences), map["url" := Text(rd.url), "title" := Text(rd.title)]);
        assert doc == ToDocument(rd);
        retrievedDocs := retrievedDocs + [doc];
      }
      docs := Some(retrievedDocs);
    }

    /**
     * `retrieve`: one result per query, at the query's position; the
     * skip-token positions are `None` and are not searched, every other
     * query is searched once, in batch order.
     */
    method Retrieve(queries: seq<string>, numRet: nat := DEFAULT_NUM_TO_RETRIEVE, search: SearchProvider, fetch: Fetcher)
      returns (results: seq<QueryResult>, ghost searched: seq<string>)
      ensures results == MapUpTo(queries, |queries|, Answer(skipQueryToken, numRet, search, fetch))
      ensures searched == UnskippedUpTo(queries, |queries|, skipQueryToken)
    {
      results, searched := [], [];
      for i := 0 to |queries|
        invariant results == MapUpTo(queries, i, Answer(skipQueryToken, numRet, search, fetch))
        invariant searched == UnskippedUpTo(queries, i, skipQueryToken)
      {
        var r;
        ghost var s;
        r, s := RetrieveSingle(queries[i], numRet, search, fetch);
        results, searched := results + [r], searched + s;
      }
    }
  }
}
