/** The document assembler: chapters are appended, in the order the URLs are given, to one
    growing book that keeps a table of contents beside its body. */
module Assembly {
  import opened Base
  import opened Text
  import opened Cache
  import opened Markup
  import opened Extract

  /** The string the table-of-contents `<ol>` of the book template holds before any chapter. */
  const OlIndent := "\n          "

  /** A chapter as placed in the book: its number, its source address and what was extracted. */
  datatype Entry = Entry(number: nat, url: string, chapter: Chapter)

  /** `unicode(author)`: a byline without a single string reads `None`. */
  function AuthorText(author: Option<string>): string
  {
    if author.Some? then author.value else "None"
  }

  /** The table-of-contents item of a chapter: `<li><a href="#anchor">title</a></li>`. */
  function TocItem(c: Chapter): (item: Node)
    ensures item == Elem("li", map[], [Text(""), Elem("a", map["href" := "#" + Slug(c.title)], [Text(c.title)])])
  {
    var none: map<string, string> := map[];
    assert none + map["href" := "#" + Slug(c.title)] == map["href" := "#" + Slug(c.title)];
    assert none + none == none;
    var link := Tag("a", c.title, map[], map["href" := "#" + Slug(c.title)]);
    assert [Text("")] + [link] == [Text(""), link];
    AppendKid(Tag("li", "", map[], map[]), link)
  }

  /** The chapter header: number, title linked to the source and carrying the anchor, author. */
  function Header(e: Entry): Node
  {
    var title := HeaderTitle(e);
    var header := Tag("div", "", map["class" := "ch-header"], map[]);
    var header := AppendKid(header, Tag("span", DecimalString(e.number), map[], map[]));
    var header := AppendKid(header, title);
    AppendKid(header, Tag("h3", AuthorText(e.chapter.author), map[], map[]))
  }

  /** The header is a `div.ch-header` holding, after the empty string `tag` gives it, the number,
      the title and the author line, in that order; a chapter without an author reads `None`. */
  lemma HeaderParts(e: Entry)
    ensures var h := Header(e);
      && h.Elem? && h.name == "div" && h.attrs == map["class" := "ch-header"] && |h.kids| == 4
      && h.kids[0] == Text("")
      && h.kids[1].Elem? && h.kids[1].name == "span" && TextOf(h.kids[1]) == DecimalString(e.number)
      && h.kids[2] == HeaderTitle(e)
      && h.kids[3].Elem? && h.kids[3].name == "h3" && TextOf(h.kids[3]) == AuthorText(e.chapter.author)
      && (e.chapter.author.None? ==> TextOf(h.kids[3]) == "None")
  {
    TextOfSingle(Text(DecimalString(e.number)));
    TextOfSingle(Text(AuthorText(e.chapter.author)));
  }

  /** The `id` of the header's `<h2>`, the anchor the table of contents points at. */
  function HeaderAnchor(header: Node): Option<string>
  {
    if header.Elem? && |header.kids| >= 3 && header.kids[2].Elem? && "id" in header.kids[2].attrs
    then Some(header.kids[2].attrs["id"]) else None
  }

  lemma HeaderCarriesAnchor(e: Entry)
    ensures HeaderAnchor(Header(e)) == Some(Slug(e.chapter.title))
    ensures TextOf(Header(e).kids[2]) == e.chapter.title
  {
    var h2 := HeaderTitle(e);
    assert Header(e).kids[2] == h2;
    var link := h2.kids[1];
    TextOfSingle(Text(e.chapter.title));
    TextOfPair(Text(""), link);
  }

  /** The `<h2>` of a chapter header: the slug as its id, the linked title as its content. */
  function HeaderTitle(e: Entry): (h2: Node)
    ensures h2.Elem? && "id" in h2.attrs && h2.attrs["id"] == Slug(e.chapter.title)
    ensures h2.kids == [Text(""), Elem("a", map["href" := e.url], [Text(e.chapter.title)])]
  {
    var none: map<string, string> := map[];
    assert none + map["href" := e.url] == map["href" := e.url];
    AppendKid(Tag("h2", "", map[], map["id" := Slug(e.chapter.title)]),
              Tag("a", e.chapter.title, map[], map["href" := e.url]))
  }

  function Unit(e: Entry): seq<Node>
  {
    [Header(e)] + e.chapter.blocks
  }

  function TocItems(es: seq<Entry>): seq<Node>
  {
    if es == [] then [] else TocItems(es[..|es| - 1]) + [TocItem(es[|es| - 1].chapter)]
  }

  function Units(es: seq<Entry>): seq<Node>
  {
    if es == [] then [] else Units(es[..|es| - 1]) + Unit(es[|es| - 1])
  }

  /** Appending a chapter appends its item and its unit and changes nothing before them. */
  lemma EntriesSnoc(es: seq<Entry>, e: Entry)
    ensures TocItems(es + [e]) == TocItems(es) + [TocItem(e.chapter)]
    ensures Units(es + [e]) == Units(es) + Unit(e)
  {
    assert (es + [e])[..|es|] == es;
  }

  /** One table-of-contents item per chapter, in chapter order. */
  lemma {:induction false} TocItemsMatchEntries(es: seq<Entry>)
    ensures |TocItems(es)| == |es|
    ensures forall i :: 0 <= i < |es| ==> TocItems(es)[i] == TocItem(es[i].chapter)
  {
    if es != [] {
      var init := es[..|es| - 1];
      TocItemsMatchEntries(init);
      assert forall i :: 0 <= i < |init| ==> init[i] == es[i];
    }
  }

  /** `after` is `before` with one more chapter, numbered `number` and taken from `url`. */
  predicate Grew(before: seq<Entry>, after: seq<Entry>, number: nat, url: string)
  {
    && |after| == |before| + 1
    && after[..|before|] == before
    && after[|before|].number == number
    && after[|before|].url == url
  }

  /** The book being built. `toc` is the content of the table-of-contents `<ol>`; `body` is what
      follows the fixed title page and table of contents in `<body>`. Both only grow. */
  class Book {
    const name: string
    var toc: seq<Node>
    var body: seq<Node>
    ghost var entries: seq<Entry>

    ghost predicate Valid()
      reads this
    {
      && toc == [Text(OlIndent)] + TocItems(entries)
      && body == Units(entries)
    }

    /** The book template of `main`, before any chapter. */
    constructor (name: string)
      ensures Valid() && this.name == name && entries == []
      ensures toc == [Text(OlIndent)] && body == []
    {
      this.name := name;
      toc := [Text(OlIndent)];
      body := [];
      entries := [];
    }

    /** Lines 216-232 of `parse_chapter`: one item at the end of the table of contents, the
        header and blocks at the end of the body; nothing already there changes. */
    method Append(number: nat, url: string, chapter: Chapter)
      requires Valid()
      modifies this
      ensures Valid()
      ensures entries == old(entries) + [Entry(number, url, chapter)]
      ensures toc == old(toc) + [TocItem(chapter)]
      ensures body == old(body) + [Header(Entry(number, url, chapter))] + chapter.blocks
    {
      var e := Entry(number, url, chapter);
      ghost var before := entries;
      toc := toc + [TocItem(chapter)];
      body := body + Unit(e);
      entries := entries + [e];
      EntriesSnoc(before, e);
      ConcatAssoc([Text(OlIndent)], TocItems(before), [TocItem(chapter)]);
    }

    /** `parse_chapter(book, url, ch_num)`: fetch the page as text, parse it with `parse`,
        extract the chapter and append it. A failure leaves the book as it was. */
    method ParseChapter(cache: FetchCache, parse: string -> Page, url: string, number: nat) returns (r: Outcome)
      requires Valid()
      modifies this, cache
      ensures Valid()
      ensures var run := PageRun(cache.env, parse, old(cache.entries), url);
        && cache.entries == run.store && cache.requested == old(cache.requested) + run.fetched
        && (r.Pass? <==> run.result.Ok?)
        && (r.Fail? ==> run.result == Err(r.error))
        && (r.Pass? ==> Grew(old(entries), entries, number, url) && entries[|old(entries)|].chapter == run.result.value)
      ensures r.Fail? ==> entries == old(entries) && toc == old(toc) && body == old(body)
    {
      var chapter := FetchChapter(cache, parse, url);
      if chapter.Err? {
        return Fail(chapter.error);
      }
      Append(number, url, chapter.value);
      r := Pass;
    }
  }

  /** The first half of `parse_chapter`: fetch the page as text, parse it with `parse` and
      extract the chapter, without touching the book. */
  method FetchChapter(cache: FetchCache, parse: string -> Page, url: string) returns (r: Result<Chapter>)
    modifies cache
    ensures var run := PageRun(cache.env, parse, old(cache.entries), url);
      r == run.result && cache.entries == run.store && cache.requested == old(cache.requested) + run.fetched
  {
    ghost var got := Get(cache.env, cache.entries, url, false);
    ghost var run := PageRun(cache.env, parse, cache.entries, url);
    var text := cache.Lookup(url, false);
    if text.Err? {
      assert run == Run(Err(text.error), got.store, Sent(got, url));
      return Err(text.error);
    }
    ghost var extracted := ChapterRun(cache.env, got.store, parse(text.value));
    assert run == Run(extracted.result, extracted.store, Sent(got, url) + extracted.fetched);
    ConcatAssoc(old(cache.requested), Sent(got, url), extracted.fetched);
    r := ExtractChapter(cache, parse(text.value));
  }

  /** `parse_chapter` on the values: a text lookup of the page, then extraction from what `parse`
      makes of the text. The store and the log are those the extraction leaves. */
  function PageRun(env: Env, parse: string -> Page, store: map<string, Bytes>, url: string): Run<Chapter>
  {
    var got := Get(env, store, url, false);
    if got.result.Err? then Run(Err(got.result.error), got.store, Sent(got, url))
    else
      var extracted := ChapterRun(env, got.store, parse(got.result.value));
      Run(extracted.result, extracted.store, Sent(got, url) + extracted.fetched)
  }

  /** The page is looked up first: a failed lookup is `FetchFailed(url)`, after one request and
      without a write; a page that was served stays cached whatever the extraction does; an
      extracted chapter is the one `ExtractedFrom` describes for the parsed text; the store only
      gains entries. */
  lemma PageRunFacts(env: Env, parse: string -> Page, store: map<string, Bytes>, url: string)
    ensures var run, got := PageRun(env, parse, store, url), Get(env, store, url, false);
      && (got.result.Err? ==> run.result == Err(FetchFailed(url)) && run.store == store && run.fetched == [url])
      && (got.result.Ok? ==> CacheKey(url) in run.store)
      && (run.result.Ok? ==> got.result.Ok? && ExtractedFrom(parse(got.result.value), run.result.value))
      && Extends(store, run.store)
  {
    GetBehaviour(env, store, url, false);
    var got := Get(env, store, url, false);
    if got.result.Ok? {
      ChapterRunFacts(env, got.store, parse(got.result.value));
    }
  }

  /** A page that was turned into a chapter is turned into the same chapter again, from any
      store that kept the entries it left and whatever the network does, without a write or a
      request, provided cached text reads back as it was written. */
  lemma WarmPageRun(env: Env, parse: string -> Page, store: map<string, Bytes>, url: string,
                    later: map<string, Bytes>, net: string -> Option<Response>)
    requires PageRun(env, parse, store, url).result.Ok?
    requires Extends(PageRun(env, parse, store, url).store, later)
    requires forall t :: env.decode(env.encode(t)) == t
    ensures PageRun(env.(network := net), parse, later, url) == Run(PageRun(env, parse, store, url).result, later, [])
  {
    var got := Get(env, store, url, false);
    var page := parse(got.result.value);
    assert Extends(got.store, later) by {
      ChapterRunFacts(env, got.store, page);
    }
    WarmGet(env, store, url, false, later, net);
    WarmChapterRun(env, got.store, page, later, net);
  }

  /** Chapter `i` of `es` is numbered `i + 1` and comes from `urls[i]`. */
  predicate NumberedInOrder(es: seq<Entry>, urls: seq<string>)
  {
    |es| <= |urls| && forall i :: 0 <= i < |es| ==> es[i].number == i + 1 && es[i].url == urls[i]
  }

  lemma NumberedInOrderGrows(es: seq<Entry>, after: seq<Entry>, urls: seq<string>)
    requires NumberedInOrder(es, urls) && |es| < |urls| && Grew(es, after, |es| + 1, urls[|es|])
    ensures NumberedInOrder(after, urls)
  {
    assert forall i :: 0 <= i < |es| ==> after[i] == after[..|es|][i];
  }

  /** The chapter loop of `main` on the values: the pages in order, stopping at the first
      failure, each extraction seeing the store the previous ones left. */
  function CollectRun(env: Env, parse: string -> Page, store: map<string, Bytes>, urls: seq<string>)
    : Run<seq<Chapter>>
    decreases |urls|
  {
    if urls == [] then Run(Ok([]), store, [])
    else
      var prev := CollectRun(env, parse, store, urls[..|urls| - 1]);
      if prev.result.Err? then prev
      else
        var next := PageRun(env, parse, prev.store, urls[|urls| - 1]);
        var result := if next.result.Ok? then Ok(prev.result.value + [next.result.value]) else Err(next.result.error);
        Run(result, next.store, prev.fetched + next.fetched)
  }

  /** Every page of `urls` has an entry in `store`. */
  predicate PagesCached(urls: seq<string>, store: map<string, Bytes>)
  {
    forall i :: 0 <= i < |urls| ==> CacheKey(urls[i]) in store
  }

  lemma PagesCachedSnoc(urls: seq<string>, url: string, store: map<string, Bytes>, later: map<string, Bytes>)
    requires PagesCached(urls, store) && Extends(store, later) && CacheKey(url) in later
    ensures PagesCached(urls + [url], later)
  {
    forall i | 0 <= i < |urls| + 1 ensures CacheKey((urls + [url])[i]) in later {
      if i < |urls| {
        assert (urls + [url])[i] == urls[i];
      }
    }
  }

  /** A run that completes has one chapter per URL and leaves every page in the cache; the store
      only gains entries. */
  lemma {:induction false} CollectRunFacts(env: Env, parse: string -> Page, store: map<string, Bytes>, urls: seq<string>)
    ensures var run := CollectRun(env, parse, store, urls);
      && (run.result.Ok? ==> |run.result.value| == |urls| && PagesCached(urls, run.store))
      && Extends(store, run.store)
    decreases |urls|
  {
    if urls != [] {
      var init, last := urls[..|urls| - 1], urls[|urls| - 1];
      var prev := CollectRun(env, parse, store, init);
      CollectRunFacts(env, parse, store, init);
      if prev.result.Ok? {
        var next := PageRun(env, parse, prev.store, last);
        PageRunFacts(env, parse, prev.store, last);
        if next.result.Ok? {
          InitLast(urls);
          PagesCachedSnoc(init, last, prev.store, next.store);
        }
      }
    }
  }

  /** In a run that completes, chapter `i` is what `ExtractedFrom` describes for the page parsed
      from the text the cache served for `urls[i]`, in the store the earlier chapters left. */
  lemma {:induction false} CollectRunExtracts(env: Env, parse: string -> Page, store: map<string, Bytes>,
                                              urls: seq<string>, i: nat)
    requires CollectRun(env, parse, store, urls).result.Ok? && i < |urls|
    ensures var chapters := CollectRun(env, parse, store, urls).result.value;
      var got := Get(env, CollectRun(env, parse, store, urls[..i]).store, urls[i], false);
      && |chapters| == |urls| && got.result.Ok? && ExtractedFrom(parse(got.result.value), chapters[i])
    decreases |urls|
  {
    var init, last := urls[..|urls| - 1], urls[|urls| - 1];
    var prev := CollectRun(env, parse, store, init);
    var next := PageRun(env, parse, prev.store, last);
    assert CollectRun(env, parse, store, urls).result.value == prev.result.value + [next.result.value];
    CollectRunFacts(env, parse, store, init);
    if i < |urls| - 1 {
      assert init[..i] == urls[..i];
      CollectRunExtracts(env, parse, store, init, i);
    } else {
      assert urls[..i] == init;
      PageRunFacts(env, parse, prev.store, last);
    }
  }

  /** Running the chapter loop again on the cache a complete run left, or on any store that kept
      its entries, sends no request whatever the network does and yields the same chapters,
      provided cached text reads back as it was written. */
  lemma {:induction false} WarmCollectRun(env: Env, parse: string -> Page, store: map<string, Bytes>, urls: seq<string>,
                                          later: map<string, Bytes>, net: string -> Option<Response>)
    requires CollectRun(env, parse, store, urls).result.Ok?
    requires Extends(CollectRun(env, parse, store, urls).store, later)
    requires forall t :: env.decode(env.encode(t)) == t
    ensures CollectRun(env.(network := net), parse, later, urls) == Run(CollectRun(env, parse, store, urls).result, later, [])
    decreases |urls|
  {
    if urls != [] {
      var init, last := urls[..|urls| - 1], urls[|urls| - 1];
      var prev := CollectRun(env, parse, store, init);
      var next := PageRun(env, parse, prev.store, last);
      assert Extends(prev.store, later) by {
        PageRunFacts(env, parse, prev.store, last);
      }
      WarmCollectRun(env, parse, store, init, later, net);
      WarmPageRun(env, parse, prev.store, last, later, net);
    }
  }

  /** Once a prefix of the URLs fails, the rest are never fetched: the run is the prefix's. */
  lemma {:induction false} CollectRunFailure(env: Env, parse: string -> Page, store: map<string, Bytes>, urls: seq<string>, m: nat)
    requires m <= |urls| && CollectRun(env, parse, store, urls[..m]).result.Err?
    ensures CollectRun(env, parse, store, urls) == CollectRun(env, parse, store, urls[..m])
    decreases |urls|
  {
    if m < |urls| {
      var init := urls[..|urls| - 1];
      assert init[..m] == urls[..m];
      CollectRunFailure(env, parse, store, init, m);
    } else {
      assert urls[..m] == urls;
    }
  }

  /** The run over the first `i + 1` URLs, from the run over the first `i`. */
  lemma CollectRunStep(env: Env, parse: string -> Page, store: map<string, Bytes>, urls: seq<string>, i: nat)
    requires i < |urls| && CollectRun(env, parse, store, urls[..i]).result.Ok?
    ensures var prev := CollectRun(env, parse, store, urls[..i]);
      var next := PageRun(env, parse, prev.store, urls[i]);
      CollectRun(env, parse, store, urls[..i + 1])
        == Run(if next.result.Ok? then Ok(prev.result.value + [next.result.value]) else Err(next.result.error),
               next.store, prev.fetched + next.fetched)
  {
    assert urls[..i + 1][..i] == urls[..i];
  }

  /** The chapters of a book, in order. */
  function ChaptersOf(es: seq<Entry>): (cs: seq<Chapter>)
    ensures |cs| == |es| && forall i :: 0 <= i < |es| ==> cs[i] == es[i].chapter
  {
    seq(|es|, i requires 0 <= i < |es| => es[i].chapter)
  }

  lemma ChaptersOfGrew(before: seq<Entry>, after: seq<Entry>, number: nat, url: string)
    requires Grew(before, after, number, url)
    ensures ChaptersOf(after) == ChaptersOf(before) + [after[|before|].chapter]
  {
    assert forall i :: 0 <= i < |before| ==> after[i] == after[..|before|][i];
  }

  /** One turn of the chapter loop of `main`: chapter `idx + 1` from `urls[idx]`, once the
      chapters of the first `idx` URLs are in the book. */
  method CollectNext(book: Book, cache: FetchCache, parse: string -> Page, ghost store: map<string, Bytes>,
                     urls: seq<string>, idx: nat, ghost done: seq<string>)
      returns (r: Outcome, ghost added: seq<string>)
    requires idx < |urls| && book.Valid() && |book.entries| == idx
    requires CollectRun(cache.env, parse, store, urls[..idx]) == Run(Ok(ChaptersOf(book.entries)), cache.entries, done)
    modifies book, cache
    ensures book.Valid()
    ensures var next := CollectRun(cache.env, parse, store, urls[..idx + 1]);
      && cache.entries == next.store && next.fetched == done + added
      && cache.requested == old(cache.requested) + added
      && (r.Pass? ==> Grew(old(book.entries), book.entries, idx + 1, urls[idx]) && next.result == Ok(ChaptersOf(book.entries)))
      && (r.Fail? ==> book.entries == old(book.entries) && next.result == Err(r.error)
                      && CollectRun(cache.env, parse, store, urls) == next)
  {
    CollectRunStep(cache.env, parse, store, urls, idx);
    ghost var before := book.entries;
    ghost var next := PageRun(cache.env, parse, cache.entries, urls[idx]);
    r := book.ParseChapter(cache, parse, urls[idx], idx + 1);
    added := next.fetched;
    if r.Fail? {
      CollectRunFailure(cache.env, parse, store, urls, idx + 1);
    } else {
      ChaptersOfGrew(before, book.entries, idx + 1, urls[idx]);
    }
  }

  /** The chapter loop of `main`: chapter `idx + 1` from `urls[idx]`, in order, stopping at the
      first failure. The book holds the chapters of the URLs handled before it stopped. */
  method Collect(cache: FetchCache, parse: string -> Page, name: string, urls: seq<string>)
    returns (book: Book, r: Outcome)
    modifies cache
    ensures fresh(book) && book.Valid() && book.name == name
    ensures NumberedInOrder(book.entries, urls)
    ensures var run := CollectRun(cache.env, parse, old(cache.entries), urls);
      && cache.entries == run.store && cache.requested == old(cache.requested) + run.fetched
      && (r.Pass? <==> run.result.Ok?)
      && (r.Fail? ==> run.result == Err(r.error))
    ensures r.Pass? <==> |book.entries| == |urls|
    ensures CollectRun(cache.env, parse, old(cache.entries), urls[..|book.entries|]).result == Ok(ChaptersOf(book.entries))
  {
    ghost var store, log := cache.entries, cache.requested;
    book := new Book(name);
    ghost var done: seq<string> := [];
    var idx := 0;
    while idx < |urls|
      invariant 0 <= idx <= |urls|
      invariant fresh(book) && book.Valid() && book.name == name
      invariant |book.entries| == idx && NumberedInOrder(book.entries, urls)
      invariant CollectRun(cache.env, parse, store, urls[..idx]) == Run(Ok(ChaptersOf(book.entries)), cache.entries, done)
      invariant cache.requested == log + done
    {
      ghost var before := book.entries;
      var outcome, added := CollectNext(book, cache, parse, store, urls, idx, done);
      ConcatAssoc(log, done, added);
      done := done + added;
      if outcome.Fail? {
        return book, outcome;
      }
      NumberedInOrderGrows(before, book.entries, urls);
      idx := idx + 1;
    }
    assert urls[..|urls|] == urls;
    r := Pass;
  }
}
