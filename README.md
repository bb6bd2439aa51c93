# ebookify, modelled in Dafny

ebookify turns a list of web-published story chapters into one e-book. For each chapter URL in
order it fetches the page through an on-disk cache. From the page it takes:

- the title, with the site suffix after " | " removed;
- the byline;
- the paragraphs, rules and illustrations of the article body.

Image addresses are redirected to local cache paths (with the quirks below). Cross-links and author credits are not copied, and a
trailing rule is dropped. A numbered chapter header and a table-of-contents item with an anchor
are appended to a growing HTML book. At the end an NCX navigation map is derived from that table
of contents.

The model covers that core, one module per concern:

| module | file | what it models |
|---|---|---|
| `Base` | base.dfy | `Option`, `Result`, `Outcome`, and the `Failure` kinds that stand for the exceptions the program would raise |
| `Text` | text.dfy | the string operations used: `in`, `str.replace`, ASCII `lower`, the two `re.sub` patterns, the slug, `str(int)` |
| `Cache` | cache.dfy | `get_cached`: the key substitution, one lookup as a function (`Get`), and the cache directory as a class (`FetchCache`) |
| `Markup` | markup.dfy | what is read from a page (`Page`, `PageNode`), the output tree (`Node`), `tag`, `find`, `.text` |
| `Extract` | extract.dfy | `parse_child` and the extraction half of `parse_chapter` (title, byline, content loop, trailing-rule trim) |
| `Assembly` | assembly.dfy | the book as a class (`Book`): `Append` covers the second half of `parse_chapter`, `ParseChapter` the whole of it, `Collect` the chapter loop of `main` |
| `Navigation` | navigation.dfy | `create_ncx_toc` as a loop (`CreateNcx`), proved equal to a reference definition (`NcxOf`), plus what that means for a book the assembler built |

Five behaviours of the code are modelled exactly as written, and lemmas spell out what each one
does:

- **Only the first image is localised, and a second image stops the run.** The image loop runs
  once per `<img>`, but every pass re-selects the first `<img>`. Each pass looks up the address
  the previous pass left, so the first image's address is rewritten once per image, and the other
  images are never looked up (`Extract.OnlyFirstImageLocalised`, `Extract.TwoImages`). From the
  second pass on, the address looked up is the relative path `.cache/<key>` the first pass
  returned; its key `.cache^<key>` is not one the cache normally holds, so the pass goes to the
  network with a path that has no scheme. A real network cannot answer that (`requests.get`
  raises), and the run stops there with `FetchFailed` of that path
  (`Extract.SecondRoundFetchesCachePath`, `Extract.ImageChildFailsOnCachePath`). The network of
  the model is a free function, so the success path with two or more images is stated too, but a
  real run that finishes has localised every image it met, unless the cache already held an
  entry under the doubled key.
- **A `#` in a title breaks the link.** The header's `id` keeps the `#`, but the NCX point id
  has every `#` removed, so the two agree exactly when the title has no `#`
  (`Navigation.AnchorIntegrity`, `Navigation.HashInTitleBreaksLink`).
- **Anchors are not unique.** The slug turns a space into `-` and lower-cases the rest, so titles
  that differ only in a space against a `-`, or only in letter case, get the same anchor, and
  two chapters with the same title do too. The table of contents then has two links to one
  anchor (`Text.SpaceAndDashCollide`, `Text.SlugIgnoresCase`,
  `Navigation.SpacedAndDashedTitlesCollide`).
- **An empty chapter is an error.** A page with no kept block fails at `children[-1]`
  (`Extract.ChapterRunFacts`, `Extract.KeptBlocksEmptyIff`).
- **A chapter without an author reads `None`.** When the byline paragraph has no single string,
  `author` is `None`, and the header's `h3` holds `unicode(None)`, the text `None`
  (`Assembly.HeaderParts`).

A credit loses a single `.`: the last character, or the one just before a final newline, since
`$` also matches there (`Text.StripFinalDot`).

The program's outside world is passed in as parameters. The network and the text codec are the
function fields of `Cache.Env`. The HTML parser is the `parse: string -> Page` argument of
`Book.ParseChapter` and `Collect`.

Each step that may write the cache has two forms. A function on values (`ImagePasses`,
`ChildRun`, `ChildrenRun`, `ChapterRun`, `PageRun`, `CollectRun`) gives the result, the new
store and the URLs sent to the network, in order. The method that updates the `FetchCache` is
proved to return that result and leave that store and that request log. The lemmas about the
functions say what the new entries hold, and that a rerun on the store a successful run left
sends no request and gives the same result (`Assembly.WarmCollectRun`).

## Model

| member | source | states |
|---|---|---|
| Cache.CacheKey | ebookify.py:172 | the key has the URL's length; each `:` and `/` becomes `^` and every other character stays; no separator is left |
| Cache.CacheKeyIdempotent | ebookify.py:172 | substituting a key again changes nothing |
| Cache.CacheKeyConcat | ebookify.py:172 | the key of a concatenation is the concatenation of the keys |
| Cache.SameKeyIff | ebookify.py:172 | two URLs map to the same cache entry if and only if they have equal length and agree at every position once `:` and `/` are read as `^` |
| Cache.CachePathInsideCacheDir | ebookify.py:172-190 | the binary-mode path is `.cache/` followed by the key, seven characters longer than the URL, and has no further `/` |
| Cache.GetBehaviour | ebookify.py:166-194 | fetches exactly when the key is absent; a hit serves without changing the store (decoded text, or the path in binary mode); a miss stores the body (raw bytes in binary mode, encoded text otherwise) and serves the text or the path; a failed request is the only error and writes nothing; existing entries never change and the only new key is the URL's |
| Cache.SecondCallHits | ebookify.py:175-194 | after a successful call, a second call for the same URL in either mode fetches nothing and changes nothing; in binary mode it returns the path; after a text-mode miss it returns the decoded encoding of the fetched text |
| Cache.CollidingUrlsShareEntry | ebookify.py:172-178 | once one URL is cached, a different URL with the same key is served from that entry without a request |
| Cache.WarmGet | ebookify.py:175-194 | a successful call answered again from any store that kept its entries gives the same result, writes nothing and sends no request whatever the network does (text mode needs decoding to undo encoding) |
| Cache.FetchCache.constructor | ebookify.py:23-26 | a cache over a given directory content, with no request made yet |
| Cache.FetchCache.Lookup | ebookify.py:166-194 | returns what `Get` returns, sets the store to `Get`'s new store, and logs the URL as requested exactly when `Get` fetches |
| Text.ReplaceAll | ebookify.py:155 | `str.replace` leaves a string without the pattern unchanged, and keeps the length when pattern and replacement are equally long |
| Text.ReplaceCharPointwise | ebookify.py:203 | replacing one character by another substitutes at each position and keeps the length |
| Text.DeleteChar | ebookify.py:155 | removing every `c` leaves no `c`; it changes the string if and only if `c` occurs; a leading `c` makes no difference |
| Text.DeleteOneChar | ebookify.py:155 | deleting the only `#` of `a#b` gives `ab` |
| Text.Lower | ebookify.py:203 | lower-casing keeps the length and maps each character by ASCII case folding |
| Text.SlugShape | ebookify.py:203 | the anchor id has the title's length and no space; at each position a space became `-` and anything else was lower-cased; it contains `#` if and only if the title does |
| Text.SpaceAndDashCollide | ebookify.py:203 | two different titles, one with a space where the other has `-`, have the same slug |
| Text.SlugIgnoresCase | ebookify.py:203 | a title and its lower-cased form have the same slug |
| Text.SkipNonBar | ebookify.py:202 | the bracket pattern after the separator removes the longest leading run without a bar character; what is left is empty or starts with a bar |
| Text.StripTitleSuffix | ebookify.py:202 | the title never grows, and a title without the separator (space, bar, space) is unchanged |
| Text.StripSiteSuffix | ebookify.py:202 | a page title made of `X`, the separator and a site name becomes `X` when neither part contains a bar |
| Text.StripFinalDot | ebookify.py:243 | at most one `.` is deleted, either the last character or the one before a final newline; a final `.` is always deleted, and so is a `.` before a final newline; a string ending in neither is unchanged |
| Text.DecimalString | ebookify.py:224 | `str(n)` is a non-empty string of decimal digits, a single digit below ten |
| Text.DecimalRoundTrip | ebookify.py:224 | reading the digits of the chapter number back gives the number, and only 0 has a leading `0` |
| Markup.Tag | ebookify.py:271-281 | a new element with one string child `contents`; its attribute names are those of `attrs` and the keyword arguments; a keyword overrides an attribute of the same name, and the other attributes keep their values |
| Markup.FindTag | ebookify.py:154 | `find` returns, when it finds anything, an element of the requested name |
| Markup.FindTagFinds | ebookify.py:154 | `find` finds something if and only if an element of that name sits among the nodes or below one of them, elements moved over from a page aside |
| Extract.ClassifyVerdicts | ebookify.py:238-267 | the tests run in the source's order: a string is ignored; a credit is recognised first; then a cross-link; only then a `div` with a figure is an illustration (or a missing caption) and a `p` or `hr` is kept; each verdict holds if and only if its test is the first to pass |
| Extract.CrossLinkIgnoresCase | ebookify.py:246-251 | the cross-link test gives the same answer on a text and on its lower-cased form |
| Extract.CrossLinkAnywhere | ebookify.py:246-251 | a text holding `previous story: ` in any letter case, anywhere, is a cross-link |
| Extract.BylineOfCredit | ebookify.py:241-243 | the credit `Stories written by NAME.` becomes the author `By NAME` |
| Extract.FirstImageRewritten | ebookify.py:253-256 | the image list keeps its length, and every image after the first keeps its address |
| Extract.RoundFacts | ebookify.py:253-256 | one pass of the image loop, on success, points the first image at the cache path of the address it looked up and adds exactly that address's key; on failure it names that address, which had no entry and which the network could not serve, and writes nothing |
| Extract.RoundWrites | ebookify.py:180-184 | the entry a pass adds is the key of the address it looked up, and holds the bytes the network served for it |
| Extract.RoundSends | ebookify.py:175-180 | a pass sends at most one request, for the address it looked up, and only when that address had no entry |
| Extract.ImagePassesAddress | ebookify.py:253-256 | after `n` successful passes the first image points at its address rewritten `n` times; the store only gained entries |
| Extract.ImagePassesStoresEach | ebookify.py:253-256 | after `n` successful passes the store holds the key of every address the passes looked up |
| Extract.ImagePassesBytes | ebookify.py:253-256 | every entry the passes added is the key of an address one of them looked up, holding the bytes the network served for it |
| Extract.ImagePassesFetched | ebookify.py:253-256 | the passes send at most one request each, and only for an address of the first image whose key the cache lacked beforehand |
| Extract.ImagePassesFailure | ebookify.py:253-256 | once a pass fails, later passes change nothing |
| Extract.ImagePassesError | ebookify.py:253-256 | a failed loop names an address one pass looked up, which has no entry and which the network could not serve |
| Extract.SecondRoundFetchesCachePath | ebookify.py:253-256 | with two or more passes and a served first image, when neither the cache nor the network answers for the path `.cache/<key>`, the loop fails with `FetchFailed` of that path after requesting it |
| Extract.WarmImagePasses | ebookify.py:253-256 | a successful loop run again from any store that kept its entries gives the same address, writes nothing and sends no request |
| Extract.ImagesRunFacts | ebookify.py:253-256 | a successful loop leaves the first image rewritten once per image and the others unchanged; a failure is a failed fetch; the store only gains entries |
| Extract.IllustrationIsTagged | ebookify.py:262-263 | the illustration block is the `div.illustration` built by `tag` with the caption in an appended `span` |
| Extract.BlockOf | ebookify.py:238-267 | a child yields at most one block, and yields one if and only if it is an illustration with a caption or a `p`/`hr`; an illustration yields the caption block, and a kept element yields itself with its images rewritten |
| Extract.ChildRunFacts | ebookify.py:234-269 | a child that succeeds adds its block and passes on the author, a credit replacing it; only a child past the credit and cross-link tests can fail, on a failed image fetch or a missing caption, and a missing caption always fails; a child that stops before the image loop leaves the store and the request log alone |
| Extract.ImageChildFailsOnCachePath | ebookify.py:253-256 | a child with two or more images, past the credit and cross-link tests, whose first image is served, fails with `FetchFailed` of `.cache/<key>` when neither the cache nor the network answers for that path |
| Extract.WarmChildRun | ebookify.py:234-269 | a child that succeeded, parsed again from any store that kept its entries, gives the same result, writes nothing and sends no request |
| Extract.FinalAuthorWithoutCredit | ebookify.py:205-212 | without a credit among the children the chapter's author is the byline |
| Extract.FinalAuthorIsLastCredit | ebookify.py:205-212 | the chapter's author is that of the last credit among the children |
| Extract.KeptBlocksAreContent | ebookify.py:238-267 | every kept block is a paragraph, a rule or an illustration; no credit and no cross-link is ever kept |
| Extract.KeptBlocksEmptyIff | ebookify.py:211-214 | the collected children are empty if and only if no child yields a block |
| Extract.KeptBlocksCount | ebookify.py:211-212 | no more blocks than children |
| Extract.ChildrenRunFacts | ebookify.py:209-212 | a loop over the children that succeeds holds their blocks in order and the author their credits leave; the store only gains entries |
| Extract.ChildrenRunFailure | ebookify.py:211-212 | a failure among the first children is the result of the whole loop |
| Extract.WarmChildrenRun | ebookify.py:211-212 | the loop over the children, run again from any store that kept the entries it left, gives the same result, writes nothing and sends no request |
| Extract.TrimTrailingRule | ebookify.py:214-215 | an empty list is the `EmptyChapter` error; otherwise the result is a prefix that is at most one shorter, and shorter exactly when the last block is an `hr` |
| Extract.OnlyOneRuleDropped | ebookify.py:214-215 | of two trailing rules only the last is dropped |
| Extract.ChapterRunFacts | ebookify.py:200-215 | a missing title, byline or content region is its own error, checked in that order, before anything is fetched; a page with no kept block is an error; an extracted chapter is the page's stripped title, the last credit or the byline, and the trimmed kept blocks; the store only gains entries |
| Extract.WarmChapterRun | ebookify.py:202-215 | a chapter extracted again from any store that kept the entries it left is the same, with no write and no request |
| Extract.CacheKeyOfCachePath | ebookify.py:172-190 | the key of a cache path is `.cache^` followed by the original key |
| Extract.RewriteTwice | ebookify.py:253-256 | after two passes the first image points at `.cache/.cache^` followed by its key |
| Extract.OnlyFirstImageLocalised | ebookify.py:253-256 | in a kept element with images, the first image ends up under `.cache/`, every later image keeps its address, and the count is unchanged |
| Extract.TwoImages | ebookify.py:253-256 | on the success path with two images, the kept block holds the doubly rewritten first image and the untouched second one |
| Extract.RewriteFirst | ebookify.py:253-256 | the loop of `n` binary lookups returns the result of `ImagePasses`, leaves its store and logs its requests |
| Extract.RewriteImages | ebookify.py:253-256 | returns the result of `ImagesRun`, leaves its store and logs its requests; on success the list is the first-image-rewritten list and the last address looked up is cached; no image means no change; existing entries never change |
| Extract.ParseChild | ebookify.py:234-269 | returns the result of `ChildRun`, leaves its store and logs its requests; a string, a credit or a cross-link succeeds without touching the cache |
| Extract.ParseChildren | ebookify.py:209-212 | the loop over the content region returns the result of `ChildrenRun`, leaves its store and logs its requests |
| Extract.ExtractChapter | ebookify.py:202-215 | returns the result of `ChapterRun`, leaves its store and logs its requests; an extracted chapter is the one `ExtractedFrom` describes for the page |
| Assembly.TocItem | ebookify.py:217-219 | the table-of-contents item is an `li` holding an empty string and a link to `#` followed by the slug, labelled with the title |
| Assembly.HeaderParts | ebookify.py:221-229 | the header is a `div.ch-header` holding the empty string, a `span` reading the chapter number, the title `h2`, and an `h3` reading the author, which is `None` when the byline had no string |
| Assembly.HeaderTitle | ebookify.py:225-226 | the header's `h2` carries the slug as its `id` and holds an empty string and a link to the source URL labelled with the title |
| Assembly.HeaderCarriesAnchor | ebookify.py:221-229 | the anchor of a chapter's header is the slug of its title, and the header's `h2` reads as the title |
| Assembly.TocItemsMatchEntries | ebookify.py:216-219 | the table of contents holds one item per chapter, in chapter order |
| Assembly.Book.constructor | ebookify.py:43-70 | the template book: no chapter, and a table of contents holding only the template's whitespace |
| Assembly.Book.Append | ebookify.py:216-232 | one table-of-contents item goes at the end; the header and then the chapter's blocks go at the end of the body; nothing already in the book changes; the book stays consistent with its chapter list |
| Assembly.Book.ParseChapter | ebookify.py:196-232 | the cache ends as `PageRun` leaves it, with its requests logged; the call passes if and only if `PageRun` succeeds; on success the book gained exactly one chapter, with this number and URL, and it is `PageRun`'s chapter; on failure the error is `PageRun`'s and the book is unchanged |
| Assembly.FetchChapter | ebookify.py:200-215 | the text lookup, the parse and the extraction return the result of `PageRun`, leave its store and log its requests |
| Assembly.PageRunFacts | ebookify.py:200-215 | a failed page lookup is `FetchFailed` of the URL, after one request and without a write; a page that was served stays cached; an extracted chapter is the one `ExtractedFrom` describes for the parsed text the cache served; the store only gains entries |
| Assembly.WarmPageRun | ebookify.py:200-215 | a page turned into a chapter is turned into the same chapter again from any store that kept the entries, without a write or a request |
| Assembly.NumberedInOrderGrows | ebookify.py:76-77 | appending chapter `k + 1` from `urls[k]` keeps the chapters numbered in order |
| Assembly.CollectRunFacts | ebookify.py:76-77 | a complete run has one chapter per URL and leaves every page cached; the store only gains entries |
| Assembly.CollectRunExtracts | ebookify.py:76-77 | in a complete run chapter `i` is the one `ExtractedFrom` describes for the page parsed from the text served for `urls[i]` |
| Assembly.CollectRunFailure | ebookify.py:76-77 | once a chapter fails, the later URLs are never fetched |
| Assembly.WarmCollectRun | ebookify.py:76-77 | running the chapter loop again on the cache a complete run left, or any store keeping its entries, sends no request whatever the network does and yields the same chapters |
| Assembly.Collect | ebookify.py:76-77 | the cache ends as `CollectRun` leaves it, with its requests logged; the run passes if and only if `CollectRun` succeeds, and then every URL became a chapter; chapter `i` is numbered `i + 1`, comes from `urls[i]`, and the chapters are those `CollectRun` gives for the URLs handled; on failure the error is `CollectRun`'s |
| Navigation.ItemPoint | ebookify.py:152-161 | a point made from an `li` has the given play order, an id without `#`, and a `src` that is the HTML file, `#` and the id |
| Navigation.ItemPoints | ebookify.py:150-162 | one point per `li`, with play orders 2, 3, ... in order, each with a `#`-free id and a matching `src` |
| Navigation.ItemPointsErrPersists | ebookify.py:151-155 | an item without a link or without an `href` stops the walk with that error, whatever follows |
| Navigation.ItemPointsSnoc | ebookify.py:151-162 | a new `li` after a readable prefix adds its own point behind the others |
| Navigation.CreateNcx | ebookify.py:124-164 | the loop computes exactly `NcxOf` of the book title and table of contents; the first point is the table-of-contents point with play order 1; all play orders are consecutive from 1 |
| Navigation.TocItemPoint | ebookify.py:152-161 | the point made from a chapter's table-of-contents item has the title as label and the slug with `#`s removed as id |
| Navigation.BookItemPoints | ebookify.py:150-162 | for an assembled table of contents the walk never fails and yields one point per chapter, in chapter order |
| Navigation.AnchorIntegrity | ebookify.py:155-225 | a chapter's point is labelled with its title, and its id equals the header's anchor if and only if the title has no `#` |
| Navigation.BookNavigation | ebookify.py:147-162 | for any book the assembler built, the NCX exists, starts with the table-of-contents point, and has one point per chapter with play order `i + 2`, the title as label, and the header's anchor as id exactly when the title has no `#` |
| Navigation.HashInTitleBreaksLink | ebookify.py:155-225 | for a title `a#b` the header's anchor is `slug(a)#slug(b)`, while the point's id is `slug(a)slug(b)` |
| Navigation.SpacedAndDashedTitlesCollide | ebookify.py:155-225 | two chapters whose titles differ only in a space against a `-` have the same header anchor and navigation points with the same id |

## Left out

- `create_opf` is not part of this model. It is a pure string template, and its guide references
  always point at `aer.html` whatever the book is called (ebookify.py:115-116).
- Argument parsing, reading the JSON configuration, and writing the `.html`, `.ncx` and `.opf`
  files with `prettify` are I/O and are not modelled.
- The network (`requests.get`) and the UTF-8 encode / locale decode of cached text are given as
  opaque functions in `Cache.Env`. A request that raises is `None`, and the run then stops with
  `FetchFailed`. Which addresses a real network cannot serve (such as the scheme-less
  `.cache/<key>`) is therefore not fixed by the model; `Extract.ImageChildFailsOnCachePath`
  states the outcome when it cannot.
- HTML parsing is the `parse` parameter. The page is summarised as `Page`/`PageNode`, with only
  the fields the extractor reads. `find_all`, `.string`, `.text` and `.body` on the page are
  taken as given.
- File-system details are not modelled: creating the cache directory at start-up,
  `os.path.join`/`relpath` normalisation, and whether the script directory is the working
  directory. The store is a map from key to bytes. The path is `.cache/` followed by the key,
  even for keys such as `..` that the file system would resolve differently.
- An `<img>` without `src` raises `KeyError`. The model assumes every image has an address.
- Markup.FindTag: it does not search inside elements moved over from a chapter page. Those only
  occur in the body, never in the table of contents where `find` is used.
- Text.Lower: only ASCII letters are folded; Unicode case mapping is not modelled.
- Text.Slug: it is not one-to-one, as in the source; nothing in the model promises that two
  chapters get different anchors (`Text.SpaceAndDashCollide`, `Text.SlugIgnoresCase`).
- Navigation.AnchorIntegrity: it relates each point to its own chapter's header only; with two
  chapters of colliding slugs a point's id also names the other chapter's anchor, and the model
  does not promise that each point matches exactly one header
  (`Navigation.SpacedAndDashedTitlesCollide`).
- The Python 2 `unicode` shim (ebookify.py:18-19) is not modelled. A `tag` content is a string,
  the number converted by `Text.DecimalString`, or the author, which may be `None` and then
  reads `None` (`Assembly.AuthorText`, ebookify.py:205, 229, 279).
- An exception aborts the Python program. The model returns a `Failure` instead, and `Collect`
  stops at the first failed chapter and leaves the book with the chapters before it.
- Assembly.Book.ParseChapter and Assembly.Collect: that each chapter is the one `ExtractedFrom`
  describes for its served page is not in the methods' own ensures; it follows from their tie
  to `PageRun` and `CollectRun` by `Assembly.PageRunFacts` and `Assembly.CollectRunExtracts`.
