/** The chapter extractor: title, byline, and the filtered content blocks of one chapter page,
    with the page's images redirected into the fetch cache. */
module Extract {
  import opened Base
  import opened Text
  import opened Cache
  import opened Markup

  /** The phrase that marks an element as an author credit. */
  const BylineMarker := "Stories written by"

  /** How `parse_child` treats one child of the content region, in the order it tests. */
  datatype Verdict =
    | NotAnElement               // a string between elements: ignored
    | AuthorLine(author: string) // an author credit: it replaces the byline
    | CrossLink                  // links to other stories: discarded
    | Illustration(caption: string)
    | CaptionMissing             // a div with a figure but no figcaption: the run aborts
    | Kept                       // a paragraph or horizontal rule, kept as it is
    | Dropped                    // anything else

  /** The cross-link test, on the lower-cased text. */
  predicate IsCrossLink(text: string)
  {
    var t := Lower(text);
    Contains(t, "previous story: ") || Contains(t, "previous episode: ") || Contains(t, "planeswalker profile")
  }

  /** The cross-link test ignores case. */
  lemma CrossLinkIgnoresCase(text: string)
    ensures IsCrossLink(text) <==> IsCrossLink(Lower(text))
  {
    LowerIdempotent(text);
  }

  /** The phrase is found in any case, anywhere in the text. */
  lemma CrossLinkAnywhere(a: string, phrase: string, b: string)
    requires Lower(phrase) == "previous story: "
    ensures IsCrossLink(a + phrase + b)
  {
    LowerConcat(a, phrase);
    LowerConcat(a + phrase, b);
    ContainsInside(Lower(a), "previous story: ", Lower(b));
  }

  /** The credit rewritten into a byline: the marker becomes `By`, then one final dot goes. */
  function BylineAuthor(credit: string): string
  {
    StripFinalDot(ReplaceAll(credit, BylineMarker, "By"))
  }

  /** The usual credit `"Stories written by NAME."` becomes `"By NAME"`. */
  lemma BylineOfCredit(name: string)
    requires !Contains(" " + name + ".", BylineMarker)
    ensures BylineAuthor(BylineMarker + " " + name + ".") == "By " + name
  {
    var credit := BylineMarker + " " + name + ".";
    assert credit[..|BylineMarker|] == BylineMarker;
    assert credit[|BylineMarker|..] == " " + name + ".";
    var replaced := ReplaceAll(credit, BylineMarker, "By");
    assert replaced == "By" + (" " + name + ".");
    assert replaced[..|replaced| - 1] == "By " + name;
  }

  function Classify(c: PageNode): Verdict
  {
    if c.name.None? then NotAnElement
    else if c.str.Some? && Contains(c.str.value, BylineMarker) then AuthorLine(BylineAuthor(c.str.value))
    else if IsCrossLink(c.text) then CrossLink
    else if c.name.value == "div" && c.figure.Some? then
      (if c.figure.value.caption.Some? then Illustration(c.figure.value.caption.value) else CaptionMissing)
    else if c.name.value == "p" || c.name.value == "hr" then Kept
    else Dropped
  }

  /** The order of the tests: a text node is nothing; a credit is recognised before anything
      else; then a cross-link; only then the tag name decides, a `div` with a figure being an
      illustration (or a missing caption) and a `p` or `hr` being kept. */
  lemma ClassifyVerdicts(c: PageNode)
    ensures var credit := c.str.Some? && Contains(c.str.value, BylineMarker);
      && (Classify(c) == NotAnElement <==> c.name.None?)
      && (Classify(c).AuthorLine? <==> c.name.Some? && credit)
      && (Classify(c) == CrossLink <==> c.name.Some? && !credit && IsCrossLink(c.text))
      && ((Classify(c).Illustration? || Classify(c) == CaptionMissing)
          <==> c.name == Some("div") && c.figure.Some? && !credit && !IsCrossLink(c.text))
      && (Classify(c) == Kept <==> (c.name == Some("p") || c.name == Some("hr")) && !credit && !IsCrossLink(c.text))
  {
  }

  /** The verdicts reached after the image loop has run. */
  predicate RewritesImages(v: Verdict)
  {
    !(v.NotAnElement? || v.AuthorLine? || v.CrossLink?)
  }

  /** Where the first image points after `n` passes of the image loop: each pass looks the
      first image's current address up in the cache and stores the returned path back. */
  function RewrittenTimes(src: string, n: nat): string
  {
    if n == 0 then src else CachePath(RewrittenTimes(src, n - 1))
  }

  /** The image addresses after the loop: it runs once per image but always rewrites the first. */
  function FirstImageRewritten(srcs: seq<string>): (r: seq<string>)
    ensures |r| == |srcs|
    ensures |srcs| > 0 ==> r[1..] == srcs[1..]
  {
    if srcs == [] then [] else [RewrittenTimes(srcs[0], |srcs|)] + srcs[1..]
  }

  /** One round of the image loop: a binary lookup of the address the rounds so far left, unless
      one of them failed. */
  function Round(env: Env, run: Run<string>): Run<string>
  {
    if run.result.Err? then run
    else
      var got := Get(env, run.store, run.result.value, true);
      Run(got.result, got.store, run.fetched + Sent(got, run.result.value))
  }

  /** The first image's address and the store after `n` rounds of the image loop, each a binary
      lookup of the address the previous round returned; a failed lookup ends the loop. */
  function ImagePasses(env: Env, store: map<string, Bytes>, src: string, n: nat): Run<string>
  {
    if n == 0 then Run(Ok(src), store, []) else Round(env, ImagePasses(env, store, src, n - 1))
  }

  /** What one successful-so-far round does: on success it points at the cache path and the
      store gains exactly the key of the address; on failure it names the address, which had no
      entry and which the network could not serve, and writes nothing. */
  lemma RoundFacts(env: Env, run: Run<string>)
    requires run.result.Ok?
    ensures var next, a := Round(env, run), run.result.value;
      && (next.result.Ok? ==> && next.result.value == CachePath(a)
                              && next.store.Keys == run.store.Keys + {CacheKey(a)}
                              && CacheKey(a) in next.store)
      && (next.result.Err? ==> next.result == Err(FetchFailed(a)) && next.store == run.store
                               && CacheKey(a) !in run.store && env.network(a).None?)
  {
  }

  /** A round only adds entries. */
  lemma RoundKeeps(env: Env, run: Run<string>)
    ensures Extends(run.store, Round(env, run).store)
  {
  }

  /** An entry a round adds is the key of the address it looked up, holding the bytes the network
      served for that address. */
  lemma RoundWrites(env: Env, run: Run<string>)
    requires run.result.Ok?
    ensures var next, a := Round(env, run), run.result.value;
      forall k :: k in next.store && k !in run.store ==>
        k == CacheKey(a) && env.network(a).Some? && next.store[k] == env.network(a).value.content
  {
  }

  /** A round goes to the network at most once, for the address it looked up, and only when the
      store had no entry for that address. */
  lemma RoundSends(env: Env, run: Run<string>)
    requires run.result.Ok?
    ensures var next, a := Round(env, run), run.result.value;
      next.fetched == run.fetched || (next.fetched == run.fetched + [a] && CacheKey(a) !in run.store)
  {
  }

  /** After `n` successful rounds the first image points at its address rewritten `n` times,
      and every round only added entries. */
  lemma {:induction false} ImagePassesAddress(env: Env, store: map<string, Bytes>, src: string, n: nat)
    ensures var run := ImagePasses(env, store, src, n);
      && (run.result.Ok? ==> run.result.value == RewrittenTimes(src, n))
      && Extends(store, run.store)
  {
    if n > 0 {
      var prev := ImagePasses(env, store, src, n - 1);
      ImagePassesAddress(env, store, src, n - 1);
      RoundKeeps(env, prev);
      if prev.result.Ok? {
        RoundFacts(env, prev);
      }
    }
  }

  /** After `n` successful rounds the store holds the key of every address the loop looked up:
      the first image's address after each earlier round. */
  lemma {:induction false} ImagePassesStoresEach(env: Env, store: map<string, Bytes>, src: string, n: nat, j: nat)
    requires ImagePasses(env, store, src, n).result.Ok? && j < n
    ensures CacheKey(RewrittenTimes(src, j)) in ImagePasses(env, store, src, n).store
  {
    var prev := ImagePasses(env, store, src, n - 1);
    var next := Round(env, prev);
    assert ImagePasses(env, store, src, n) == next;
    assert prev.result.Ok?;
    if j < n - 1 {
      assert CacheKey(RewrittenTimes(src, j)) in next.store by {
        ImagePassesStoresEach(env, store, src, n - 1, j);
        RoundKeeps(env, prev);
      }
    } else {
      assert CacheKey(RewrittenTimes(src, j)) in next.store by {
        ImagePassesAddress(env, store, src, n - 1);
        RoundFacts(env, prev);
      }
    }
  }

  /** Every entry of `next` that `store` lacked holds the bytes the network served for an address
      one of the first `n` rounds looked up. */
  ghost predicate AddedSince(env: Env, src: string, n: nat, store: map<string, Bytes>, next: map<string, Bytes>)
  {
    forall k :: k in next && k !in store ==> exists j :: AddedAt(env, src, n, k, next, j)
  }

  /** One more round keeps `AddedSince`. */
  lemma RoundAdds(env: Env, store: map<string, Bytes>, src: string, n: nat, prev: Run<string>)
    requires prev.result.Ok? ==> prev.result.value == RewrittenTimes(src, n)
    requires AddedSince(env, src, n, store, prev.store)
    ensures AddedSince(env, src, n + 1, store, Round(env, prev).store)
  {
    var run, rounds := Round(env, prev), n + 1;
    RoundKeeps(env, prev);
    if prev.result.Ok? {
      RoundWrites(env, prev);
    }
    forall k | k in run.store && k !in store ensures exists j :: AddedAt(env, src, rounds, k, run.store, j) {
      if k in prev.store {
        var j :| AddedAt(env, src, n, k, prev.store, j);
        assert AddedAt(env, src, rounds, k, run.store, j);
      } else {
        assert AddedAt(env, src, rounds, k, run.store, n);
      }
    }
  }

  /** An entry the image loop added holds the bytes the network served for one of the addresses
      it looked up. */
  lemma {:induction false} ImagePassesBytes(env: Env, store: map<string, Bytes>, src: string, n: nat)
    ensures AddedSince(env, src, n, store, ImagePasses(env, store, src, n).store)
  {
    if n > 0 {
      var prev := ImagePasses(env, store, src, n - 1);
      assert ImagePasses(env, store, src, n) == Round(env, prev);
      ImagePassesBytes(env, store, src, n - 1);
      ImagePassesAddress(env, store, src, n - 1);
      RoundAdds(env, store, src, n - 1, prev);
    }
  }

  /** Address `a` is one the first `n` rounds of the loop may fetch: the first image's address
      after some earlier round, whose key was not in the store the loop started from. */
  ghost predicate FetchedRound(store: map<string, Bytes>, src: string, n: nat, a: string)
  {
    exists j :: 0 <= j < n && a == RewrittenTimes(src, j) && CacheKey(a) !in store
  }

  /** The loop goes to the network at most once per round, and only for an address of the first
      image whose key the cache did not hold beforehand. */
  lemma {:induction false} ImagePassesFetched(env: Env, store: map<string, Bytes>, src: string, n: nat)
    ensures var run := ImagePasses(env, store, src, n);
      && |run.fetched| <= n
      && forall i :: 0 <= i < |run.fetched| ==> FetchedRound(store, src, n, run.fetched[i])
  {
    if n > 0 {
      var prev := ImagePasses(env, store, src, n - 1);
      var run := ImagePasses(env, store, src, n);
      assert run == Round(env, prev);
      ImagePassesFetched(env, store, src, n - 1);
      ImagePassesAddress(env, store, src, n - 1);
      if prev.result.Ok? {
        RoundSends(env, prev);
        if run.fetched != prev.fetched {
          assert run.fetched == prev.fetched + [RewrittenTimes(src, n - 1)];
          assert 0 <= n - 1 < n;
        }
      }
      forall i | 0 <= i < |run.fetched| ensures FetchedRound(store, src, n, run.fetched[i]) {
        if i < |prev.fetched| {
          var j :| 0 <= j < n - 1 && prev.fetched[i] == RewrittenTimes(src, j) && CacheKey(prev.fetched[i]) !in store;
          assert run.fetched[i] == prev.fetched[i];
        }
      }
    }
  }

  /** Entry `k` of `store` was written by round `j` of `n`: it is the key of the address that round
      looked up, and holds what the network served for it. */
  ghost predicate AddedAt(env: Env, src: string, n: nat, k: string, store: map<string, Bytes>, j: int)
    requires k in store
  {
    && 0 <= j < n
    && k == CacheKey(RewrittenTimes(src, j))
    && env.network(RewrittenTimes(src, j)).Some?
    && store[k] == env.network(RewrittenTimes(src, j)).value.content
  }

  /** A failed round names the address it could not fetch, and later rounds change nothing. */
  lemma {:induction false} ImagePassesFailure(env: Env, store: map<string, Bytes>, src: string, m: nat, n: nat)
    requires m <= n && ImagePasses(env, store, src, m).result.Err?
    ensures ImagePasses(env, store, src, n) == ImagePasses(env, store, src, m)
    decreases n
  {
    if n > m {
      ImagePassesFailure(env, store, src, m, n - 1);
    }
  }

  /** A failed loop could not fetch one of the addresses it looked up. */
  lemma {:induction false} ImagePassesError(env: Env, store: map<string, Bytes>, src: string, n: nat)
    requires ImagePasses(env, store, src, n).result.Err?
    ensures exists j :: && 0 <= j < n
                        && ImagePasses(env, store, src, n).result == Err(FetchFailed(RewrittenTimes(src, j)))
                        && CacheKey(RewrittenTimes(src, j)) !in ImagePasses(env, store, src, n).store
                        && env.network(RewrittenTimes(src, j)).None?
  {
    var prev := ImagePasses(env, store, src, n - 1);
    if prev.result.Err? {
      ImagePassesError(env, store, src, n - 1);
    } else {
      ImagePassesAddress(env, store, src, n - 1);
      RoundFacts(env, prev);
    }
  }

  /** With two or more images the second round looks up the first image's own cache path, a path
      relative to the program's directory. When no entry answers for it and the network cannot
      fetch it, the loop fails there, however the first round went. */
  lemma SecondRoundFetchesCachePath(env: Env, store: map<string, Bytes>, src: string, n: nat)
    requires n >= 2 && Get(env, store, src, true).result.Ok?
    requires CacheKey(CachePath(src)) !in store && env.network(CachePath(src)).None?
    ensures var first := Get(env, store, src, true);
      ImagePasses(env, store, src, n) == Run(Err(FetchFailed(CachePath(src))), first.store, Sent(first, src) + [CachePath(src)])
  {
    var first := Get(env, store, src, true);
    assert ImagePasses(env, store, src, 1) == Run(first.result, first.store, Sent(first, src)) by {
      assert ImagePasses(env, store, src, 0) == Run(Ok(src), store, []);
    }
    CacheKeyOfCachePath(src);
    assert CacheKey(CachePath(src)) != CacheKey(src) by {
      assert |CacheKey(CachePath(src))| == |CacheKey(src)| + 7;
    }
    assert ImagePasses(env, store, src, 2) == Run(Err(FetchFailed(CachePath(src))), first.store, Sent(first, src) + [CachePath(src)]);
    ImagePassesFailure(env, store, src, 2, n);
  }

  /** A loop that succeeded runs again from any store that kept its entries: the same address,
      no write, and no use of the network. */
  lemma {:induction false} WarmImagePasses(env: Env, store: map<string, Bytes>, src: string, n: nat,
                                           later: map<string, Bytes>, net: string -> Option<Response>)
    requires ImagePasses(env, store, src, n).result.Ok?
    requires Extends(ImagePasses(env, store, src, n).store, later)
    ensures ImagePasses(env.(network := net), later, src, n) == Run(ImagePasses(env, store, src, n).result, later, [])
  {
    if n > 0 {
      var prev := ImagePasses(env, store, src, n - 1);
      WarmImagePasses(env, store, src, n - 1, later, net);
      WarmGet(env, prev.store, prev.result.value, true, later, net);
    }
  }

  /** The image loop of one element on values: the rewritten address list, or the failure that
      stopped it, with the store after it. */
  function ImagesRun(env: Env, store: map<string, Bytes>, srcs: seq<string>): Run<seq<string>>
  {
    if srcs == [] then Run(Ok([]), store, [])
    else
      var passes := ImagePasses(env, store, srcs[0], |srcs|);
      Run(if passes.result.Ok? then Ok([passes.result.value] + srcs[1..]) else Err(passes.result.error),
          passes.store, passes.fetched)
  }

  /** A successful image loop leaves the first image rewritten once per image and the others as
      they were; a failed one failed on a fetch; either way it only added entries. */
  lemma ImagesRunFacts(env: Env, store: map<string, Bytes>, srcs: seq<string>)
    ensures var run := ImagesRun(env, store, srcs);
      && (run.result.Ok? ==> run.result.value == FirstImageRewritten(srcs))
      && (run.result.Err? ==> run.result.error.FetchFailed?)
      && Extends(store, run.store)
  {
    if srcs != [] {
      ImagePassesAddress(env, store, srcs[0], |srcs|);
      if ImagePasses(env, store, srcs[0], |srcs|).result.Err? {
        ImagePassesError(env, store, srcs[0], |srcs|);
      }
    }
  }

  /** A child as it stands after `parse_child` has run on it. */
  function RewrittenChild(c: PageNode): PageNode
  {
    if RewritesImages(Classify(c)) then c.(imgSrcs := FirstImageRewritten(c.imgSrcs)) else c
  }

  /** `div.illustration` holding only the caption, in a `<span>`. */
  function IllustrationNode(caption: string): Node
  {
    Elem("div", map["class" := "illustration"], [Text(""), Elem("span", map[], [Text(caption)])])
  }

  /** The illustration is what the two `tag` calls and the `append` build. */
  lemma IllustrationIsTagged(caption: string)
    ensures IllustrationNode(caption) ==
      AppendKid(Tag("div", "", map["class" := "illustration"], map[]), Tag("span", caption, map[], map[]))
  {
    assert map["class" := "illustration"] + map[] == map["class" := "illustration"];
    var none: map<string, string> := map[];
    assert none + none == none;
  }

  /** What `parse_child` appends to the chapter's children. */
  function BlockOf(c: PageNode): (b: seq<Node>)
    ensures |b| <= 1
    ensures b != [] <==> Classify(c).Illustration? || Classify(c) == Kept
    ensures Classify(c).Illustration? ==> b == [IllustrationNode(Classify(c).caption)]
    ensures Classify(c) == Kept ==> b == [Moved(c.(imgSrcs := FirstImageRewritten(c.imgSrcs)))]
  {
    match Classify(c)
    case Illustration(caption) => [IllustrationNode(caption)]
    case Kept => [Moved(RewrittenChild(c))]
    case _ => []
  }

  /** The author threaded through `parse_child`: a credit replaces it, nothing else does. */
  function NextAuthor(c: PageNode, author: Option<string>): Option<string>
  {
    if Classify(c).AuthorLine? then Some(Classify(c).author) else author
  }

  /** The author after `parse_child` has run over `cs` in order, starting from `author`. */
  function FinalAuthor(cs: seq<PageNode>, author: Option<string>): Option<string>
  {
    if cs == [] then author else NextAuthor(cs[|cs| - 1], FinalAuthor(cs[..|cs| - 1], author))
  }

  /** The children list after `parse_child` has run over `cs` in order. */
  function KeptBlocks(cs: seq<PageNode>): seq<Node>
  {
    if cs == [] then [] else KeptBlocks(cs[..|cs| - 1]) + BlockOf(cs[|cs| - 1])
  }

  /** No child after index `i` is a credit. */
  predicate IsLastCredit(cs: seq<PageNode>, i: int)
  {
    forall j :: 0 <= j < |cs| && i < j ==> !Classify(cs[j]).AuthorLine?
  }

  /** Without a credit among the children the chapter's author is the byline. */
  lemma {:induction false} FinalAuthorWithoutCredit(cs: seq<PageNode>, author: Option<string>)
    requires forall i :: 0 <= i < |cs| ==> !Classify(cs[i]).AuthorLine?
    ensures FinalAuthor(cs, author) == author
  {
    if cs != [] {
      var init := cs[..|cs| - 1];
      assert forall i :: 0 <= i < |init| ==> init[i] == cs[i];
      FinalAuthorWithoutCredit(init, author);
      assert !Classify(cs[|cs| - 1]).AuthorLine?;
    }
  }

  /** The chapter's author is that of the last credit among its children. */
  lemma {:induction false} FinalAuthorIsLastCredit(cs: seq<PageNode>, author: Option<string>, i: int)
    requires 0 <= i < |cs| && Classify(cs[i]).AuthorLine? && IsLastCredit(cs, i)
    ensures FinalAuthor(cs, author) == Some(Classify(cs[i]).author)
  {
    var init, last := cs[..|cs| - 1], cs[|cs| - 1];
    if i < |cs| - 1 {
      assert !Classify(last).AuthorLine? by {
        assert i < |cs| - 1;
      }
      assert IsLastCredit(init, i) by {
        assert forall j :: 0 <= j < |init| ==> init[j] == cs[j];
      }
      assert init[i] == cs[i];
      FinalAuthorIsLastCredit(init, author, i);
    }
  }

  /** A block is a kept paragraph or rule, or an illustration built from a caption. */
  ghost predicate IsContentBlock(b: Node)
  {
    match b
    case Moved(p) => Classify(p) == Kept
    case Elem(_, _, _) => exists caption :: b == IllustrationNode(caption)
    case Text(_) => false
  }

  /** Every block that survives is a paragraph, a rule or an illustration; in particular no
      credit and no cross-link is ever kept. */
  lemma {:induction false} KeptBlocksAreContent(cs: seq<PageNode>)
    ensures forall b :: b in KeptBlocks(cs) ==> IsContentBlock(b)
    ensures forall b :: b in KeptBlocks(cs) && b.Moved? ==>
      && b.page.name in {Some("p"), Some("hr")}
      && !IsCrossLink(b.page.text)
      && !(b.page.str.Some? && Contains(b.page.str.value, BylineMarker))
  {
    if cs != [] {
      var c := cs[|cs| - 1];
      KeptBlocksAreContent(cs[..|cs| - 1]);
      if Classify(c).Illustration? {
        assert IsContentBlock(IllustrationNode(Classify(c).caption));
      }
      if Classify(c) == Kept {
        assert Classify(RewrittenChild(c)) == Kept;
      }
    }
  }

  /** The concatenation of `f` over `xs`, built from the back like `KeptBlocks`. */
  function Gather<T>(xs: seq<T>, f: T -> seq<Node>): seq<Node>
  {
    if xs == [] then [] else Gather(xs[..|xs| - 1], f) + f(xs[|xs| - 1])
  }

  lemma {:induction false} GatherEmptyIff<T>(xs: seq<T>, f: T -> seq<Node>)
    ensures Gather(xs, f) == [] <==> forall i :: 0 <= i < |xs| ==> f(xs[i]) == []
  {
    if xs != [] {
      var init := xs[..|xs| - 1];
      GatherEmptyIff(init, f);
      assert forall i :: 0 <= i < |init| ==> xs[i] == init[i];
      assert |Gather(xs, f)| == |Gather(init, f)| + |f(xs[|xs| - 1])|;
    }
  }

  lemma {:induction false} KeptBlocksGather(cs: seq<PageNode>)
    ensures KeptBlocks(cs) == Gather(cs, BlockOf)
  {
    if cs != [] {
      KeptBlocksGather(cs[..|cs| - 1]);
    }
  }

  /** The chapter ends up empty exactly when no child yields a block. */
  lemma KeptBlocksEmptyIff(cs: seq<PageNode>)
    ensures KeptBlocks(cs) == [] <==> forall i :: 0 <= i < |cs| ==> BlockOf(cs[i]) == []
  {
    KeptBlocksGather(cs);
    GatherEmptyIff(cs, BlockOf);
  }

  /** Each child contributes at most one block. */
  lemma {:induction false} KeptBlocksCount(cs: seq<PageNode>)
    ensures |KeptBlocks(cs)| <= |cs|
  {
    if cs != [] {
      KeptBlocksCount(cs[..|cs| - 1]);
    }
  }

  /** A final horizontal rule is dropped from the children; a chapter with no children at all is
      an error, since its last child does not exist. */
  function TrimTrailingRule(blocks: seq<Node>): (r: Result<seq<Node>>)
    ensures r.Err? <==> blocks == []
    ensures r.Err? ==> r.error == EmptyChapter
    ensures r.Ok? ==> r.value <= blocks && |blocks| - 1 <= |r.value|
    ensures r.Ok? ==> (|r.value| < |blocks| <==> NameOf(blocks[|blocks| - 1]) == Some("hr"))
  {
    if blocks == [] then Err(EmptyChapter)
    else if NameOf(blocks[|blocks| - 1]) == Some("hr") then Ok(blocks[..|blocks| - 1])
    else Ok(blocks)
  }

  /** Only one rule goes: a second trailing rule stays. */
  lemma OnlyOneRuleDropped(init: seq<Node>, a: Node, b: Node)
    requires NameOf(a) == Some("hr") && NameOf(b) == Some("hr")
    ensures TrimTrailingRule(init + [a, b]) == Ok(init + [a])
  {
    assert (init + [a, b])[..|init| + 1] == init + [a];
  }

  /** After two passes the first image points at the cache path of its own cache path,
      which is the address the second pass looked up. */
  lemma RewriteTwice(src: string)
    ensures RewrittenTimes(src, 2) == ".cache/.cache^" + CacheKey(src)
  {
    var k := CacheKey(src);
    assert RewrittenTimes(src, 2) == CachePath(CachePath(src)) by {
      assert RewrittenTimes(src, 1) == CachePath(RewrittenTimes(src, 0));
    }
    CacheKeyOfCachePath(src);
    DoubleCachePrefix();
    ConcatAssoc(".cache/", ".cache^", k);
  }

  lemma DoubleCachePrefix()
    ensures CacheDir + "/" == ".cache/" && ".cache/" + ".cache^" == ".cache/.cache^"
  {
  }

  /** The key of a cache path: the directory's `/` has become `^`, the old key stays as it is. */
  lemma CacheKeyOfCachePath(url: string)
    ensures CacheKey(CachePath(url)) == ".cache^" + CacheKey(url)
  {
    CacheKeyConcat(CacheDir + "/", CacheKey(url));
    CacheKeyIdempotent(url);
    CacheDirKey();
  }

  lemma CacheDirKey()
    ensures CacheKey(CacheDir + "/") == ".cache^"
  {
    var dir := CacheKey(CacheDir + "/");
    assert forall i :: 0 <= i < 7 ==> dir[i] == ".cache^"[i];
  }

  /** In a kept element only the first image is redirected into the cache; every later image
      keeps its remote address. */
  lemma {:induction false} OnlyFirstImageLocalised(c: PageNode)
    requires Classify(c) == Kept && |c.imgSrcs| > 0
    ensures |BlockOf(c)| == 1 && BlockOf(c)[0].Moved?
    ensures var srcs := BlockOf(c)[0].page.imgSrcs;
      && |srcs| == |c.imgSrcs|
      && srcs[0][..7] == ".cache/"
      && srcs[1..] == c.imgSrcs[1..]
  {
    CachePathInsideCacheDir(RewrittenTimes(c.imgSrcs[0], |c.imgSrcs| - 1));
  }

  /** With two images, the second pass fetches the first image's cache path instead of the
      second image, and the second image is left pointing at the network. */
  lemma TwoImages(c: PageNode)
    requires Classify(c) == Kept && |c.imgSrcs| == 2
    ensures BlockOf(c) == [Moved(c.(imgSrcs := [".cache/.cache^" + CacheKey(c.imgSrcs[0]), c.imgSrcs[1]]))]
  {
    RewriteTwice(c.imgSrcs[0]);
    assert FirstImageRewritten(c.imgSrcs) == [".cache/.cache^" + CacheKey(c.imgSrcs[0]), c.imgSrcs[1]];
  }

  /** The result of `parse_child`: the children list after it, and the author it returns. */
  datatype ChildStep = ChildStep(children: seq<Node>, author: Option<string>)

  /** What `parse_child` does to one child, on the values: the image loop runs for every child
      that gets past the credit and cross-link tests, and a failed fetch or a missing caption
      aborts; the store and the fetch log are those the image loop leaves. */
  function ChildRun(env: Env, store: map<string, Bytes>, children: seq<Node>, c: PageNode, author: Option<string>)
    : Run<ChildStep>
  {
    if !RewritesImages(Classify(c)) then Run(Ok(ChildStep(children, NextAuthor(c, author))), store, [])
    else
      var imgs := ImagesRun(env, store, c.imgSrcs);
      var result :=
        if imgs.result.Err? then Err(imgs.result.error)
        else if Classify(c) == CaptionMissing then Err(MissingCaption)
        else Ok(ChildStep(children + BlockOf(c), author));
      Run(result, imgs.store, imgs.fetched)
  }

  /** A child that succeeds adds its block and passes the author on (a credit replacing it); a
      child fails only on a failed image fetch or a missing caption, and only once it has got
      past the credit and cross-link tests; a child that does not reach the image loop leaves
      the store and the fetch log alone. */
  lemma ChildRunFacts(env: Env, store: map<string, Bytes>, children: seq<Node>, c: PageNode, author: Option<string>)
    ensures var run := ChildRun(env, store, children, c, author);
      && (run.result.Ok? ==> run.result.value == ChildStep(children + BlockOf(c), NextAuthor(c, author)))
      && (run.result.Err? ==> RewritesImages(Classify(c)))
      && (run.result.Err? ==> run.result.error.FetchFailed? || (run.result.error == MissingCaption && Classify(c) == CaptionMissing))
      && (Classify(c) == CaptionMissing ==> run.result.Err?)
      && (!RewritesImages(Classify(c)) ==> run.store == store && run.fetched == [])
      && Extends(store, run.store)
  {
    if RewritesImages(Classify(c)) {
      ImagesRunFacts(env, store, c.imgSrcs);
    }
  }

  /** An element with two or more images, whose first image is fetched, fails on the second
      pass: that pass asks the network for the relative path `.cache/<key>`, and unless the
      cache already holds an entry under that path's key, a network that cannot serve it stops
      the run with `FetchFailed` of that path. */
  lemma ImageChildFailsOnCachePath(env: Env, store: map<string, Bytes>, children: seq<Node>, c: PageNode,
                                   author: Option<string>)
    requires RewritesImages(Classify(c)) && |c.imgSrcs| >= 2
    requires Get(env, store, c.imgSrcs[0], true).result.Ok?
    requires CacheKey(CachePath(c.imgSrcs[0])) !in store && env.network(CachePath(c.imgSrcs[0])).None?
    ensures ChildRun(env, store, children, c, author).result == Err(FetchFailed(CachePath(c.imgSrcs[0])))
  {
    SecondRoundFetchesCachePath(env, store, c.imgSrcs[0], |c.imgSrcs|);
  }

  /** `parse_child` over the children `cs` in order, from an empty children list: the first
      failure ends the run, and the fetch logs of the children are concatenated. */
  function ChildrenRun(env: Env, store: map<string, Bytes>, cs: seq<PageNode>, author: Option<string>)
    : Run<ChildStep>
  {
    if cs == [] then Run(Ok(ChildStep([], author)), store, [])
    else
      var prev := ChildrenRun(env, store, cs[..|cs| - 1], author);
      if prev.result.Err? then prev
      else
        var next := ChildRun(env, prev.store, prev.result.value.children, cs[|cs| - 1], prev.result.value.author);
        Run(next.result, next.store, prev.fetched + next.fetched)
  }

  /** A child that succeeded is parsed again, from any store that kept the entries it left and
      whatever the network does, with the same result, no write and no request. */
  lemma WarmChildRun(env: Env, store: map<string, Bytes>, children: seq<Node>, c: PageNode, author: Option<string>,
                     later: map<string, Bytes>, net: string -> Option<Response>)
    requires ChildRun(env, store, children, c, author).result.Ok?
    requires Extends(ChildRun(env, store, children, c, author).store, later)
    ensures ChildRun(env.(network := net), later, children, c, author)
         == Run(ChildRun(env, store, children, c, author).result, later, [])
  {
    if RewritesImages(Classify(c)) && c.imgSrcs != [] {
      WarmImagePasses(env, store, c.imgSrcs[0], |c.imgSrcs|, later, net);
    }
  }

  /** The same for all the children of a chapter. */
  lemma {:induction false} WarmChildrenRun(env: Env, store: map<string, Bytes>, cs: seq<PageNode>, author: Option<string>,
                                           later: map<string, Bytes>, net: string -> Option<Response>)
    requires ChildrenRun(env, store, cs, author).result.Ok?
    requires Extends(ChildrenRun(env, store, cs, author).store, later)
    ensures ChildrenRun(env.(network := net), later, cs, author) == Run(ChildrenRun(env, store, cs, author).result, later, [])
  {
    if cs != [] {
      var init, last := cs[..|cs| - 1], cs[|cs| - 1];
      var prev := ChildrenRun(env, store, init, author);
      var step := prev.result.value;
      var next := ChildRun(env, prev.store, step.children, last, step.author);
      assert ChildrenRun(env, store, cs, author) == Run(next.result, next.store, prev.fetched + next.fetched);
      assert Extends(prev.store, later) by {
        ChildRunFacts(env, prev.store, step.children, last, step.author);
      }
      WarmChildrenRun(env, store, init, author, later, net);
      WarmChildRun(env, prev.store, step.children, last, step.author, later, net);
    }
  }

  /** A run over all children that succeeds holds the blocks they yield and the author their
      credits leave; every child only added entries. */
  lemma {:induction false} ChildrenRunFacts(env: Env, store: map<string, Bytes>, cs: seq<PageNode>, author: Option<string>)
    ensures var run := ChildrenRun(env, store, cs, author);
      && (run.result.Ok? ==> run.result.value == ChildStep(KeptBlocks(cs), FinalAuthor(cs, author)))
      && Extends(store, run.store)
  {
    if cs != [] {
      var init := cs[..|cs| - 1];
      ChildrenRunFacts(env, store, init, author);
      var prev := ChildrenRun(env, store, init, author);
      if prev.result.Ok? {
        ChildRunFacts(env, prev.store, prev.result.value.children, cs[|cs| - 1], prev.result.value.author);
      }
    }
  }

  /** A failure among the first children is the result of the whole run. */
  lemma {:induction false} ChildrenRunFailure(env: Env, store: map<string, Bytes>, cs: seq<PageNode>, author: Option<string>, m: nat)
    requires m <= |cs| && ChildrenRun(env, store, cs[..m], author).result.Err?
    ensures ChildrenRun(env, store, cs, author) == ChildrenRun(env, store, cs[..m], author)
    decreases |cs|
  {
    if m < |cs| {
      var init := cs[..|cs| - 1];
      assert init[..m] == cs[..m];
      ChildrenRunFailure(env, store, init, author, m);
    } else {
      assert cs[..m] == cs;
    }
  }

  /** One extracted chapter: its title (site suffix stripped), the author its header shows,
      and its content blocks. */
  datatype Chapter = Chapter(title: string, author: Option<string>, blocks: seq<Node>)

  /** `chapter` is what extraction yields for `page` once every image fetch has succeeded. */
  predicate ExtractedFrom(page: Page, chapter: Chapter)
  {
    && page.title.Some? && page.byline.Some? && page.content.Some?
    && chapter.title == StripTitleSuffix(page.title.value)
    && chapter.author == FinalAuthor(page.content.value, page.byline.value)
    && TrimTrailingRule(KeptBlocks(page.content.value)) == Ok(chapter.blocks)
  }

  /** Chapter extraction on the values: the three lookups in order, then the children, then the
      trailing-rule trim. The store and the fetch log are those the children leave. */
  function ChapterRun(env: Env, store: map<string, Bytes>, page: Page): Run<Chapter>
  {
    if page.title.None? then Run(Err(MissingTitle), store, [])
    else if page.byline.None? then Run(Err(MissingByline), store, [])
    else if page.content.None? then Run(Err(MissingContent), store, [])
    else
      var kids := ChildrenRun(env, store, page.content.value, page.byline.value);
      var result :=
        if kids.result.Err? then Err(kids.result.error)
        else match TrimTrailingRule(kids.result.value.children)
          case Err(e) => Err(e)
          case Ok(blocks) => Ok(Chapter(StripTitleSuffix(page.title.value), kids.result.value.author, blocks));
      Run(result, kids.store, kids.fetched)
  }

  /** The title is looked for first, then the byline, then the content region, and a missing one
      is an error before anything is fetched; a chapter without blocks is an error; a chapter
      that is extracted is the one `ExtractedFrom` describes; the store only gains entries. */
  lemma ChapterRunFacts(env: Env, store: map<string, Bytes>, page: Page)
    ensures var run := ChapterRun(env, store, page);
      && (page.title.None? ==> run.result == Err(MissingTitle))
      && (page.title.Some? && page.byline.None? ==> run.result == Err(MissingByline))
      && (page.title.Some? && page.byline.Some? && page.content.None? ==> run.result == Err(MissingContent))
      && (page.title.None? || page.byline.None? || page.content.None? ==> run.store == store && run.fetched == [])
      && (page.content.Some? && KeptBlocks(page.content.value) == [] ==> run.result.Err?)
      && (run.result.Ok? ==> ExtractedFrom(page, run.result.value))
      && Extends(store, run.store)
  {
    if page.title.Some? && page.byline.Some? && page.content.Some? {
      ChildrenRunFacts(env, store, page.content.value, page.byline.value);
    }
  }

  /** A chapter that was extracted is extracted again, from any store that kept the entries it
      left and whatever the network does, with the same result, no write and no request. */
  lemma WarmChapterRun(env: Env, store: map<string, Bytes>, page: Page, later: map<string, Bytes>,
                       net: string -> Option<Response>)
    requires ChapterRun(env, store, page).result.Ok?
    requires Extends(ChapterRun(env, store, page).store, later)
    ensures ChapterRun(env.(network := net), later, page) == Run(ChapterRun(env, store, page).result, later, [])
  {
    WarmChildrenRun(env, store, page.content.value, page.byline.value, later, net);
  }

  /** The rounds of the image loop: `n` binary lookups, each of the address the previous one
      returned, stopping at the first failure. */
  method RewriteFirst(cache: FetchCache, src: string, n: nat) returns (r: Result<string>)
    modifies cache
    ensures var run := ImagePasses(cache.env, old(cache.entries), src, n);
      r == run.result && cache.entries == run.store && cache.requested == old(cache.requested) + run.fetched
  {
    ghost var env, store := cache.env, cache.entries;
    var first := src;
    var i := 0;
    while i < n
      invariant 0 <= i <= n
      invariant var run := ImagePasses(env, store, src, i);
        run.result == Ok(first) && run.store == cache.entries && cache.requested == old(cache.requested) + run.fetched
    {
      ghost var before := ImagePasses(env, store, src, i);
      assert ImagePasses(env, store, src, i + 1) == Round(env, before);
      ConcatAssoc(old(cache.requested), before.fetched, Sent(Get(env, before.store, first, true), first));
      var got := cache.Lookup(first, true);
      if got.Err? {
        ImagePassesFailure(env, store, src, i + 1, n);
        return got;
      }
      first := got.value;
      i := i + 1;
    }
    ghost var passes := ImagePasses(env, store, src, i);
    assert passes == Run(Ok(first), cache.entries, passes.fetched);
    return Ok(first);
  }

  /** The image loop of a kept element: it runs once per image, but every round looks up the first
      image again and points it at the path the binary lookup returns; the other images keep
      their addresses. */
  method RewriteImages(cache: FetchCache, srcs: seq<string>) returns (r: Result<seq<string>>)
    modifies cache
    ensures var run := ImagesRun(cache.env, old(cache.entries), srcs);
      r == run.result && cache.entries == run.store && cache.requested == old(cache.requested) + run.fetched
    ensures r.Ok? ==> r.value == FirstImageRewritten(srcs)
    ensures r.Ok? && srcs != [] ==> CacheKey(RewrittenTimes(srcs[0], |srcs| - 1)) in cache.entries
    ensures srcs == [] ==> r == Ok([]) && unchanged(cache)
    ensures Extends(old(cache.entries), cache.entries)
    ensures old(cache.requested) <= cache.requested
  {
    if srcs == [] {
      return Ok([]);
    }
    ImagesRunFacts(cache.env, cache.entries, srcs);
    var first := RewriteFirst(cache, srcs[0], |srcs|);
    if first.Err? {
      return Err(first.error);
    }
    ImagePassesStoresEach(cache.env, old(cache.entries), srcs[0], |srcs|, |srcs| - 1);
    return Ok([first.value] + srcs[1..]);
  }


  /** `parse_child(book, children, child, author)`. */
  method ParseChild(cache: FetchCache, children: seq<Node>, child: PageNode, author: Option<string>)
    returns (r: Result<ChildStep>)
    modifies cache
    ensures var run := ChildRun(cache.env, old(cache.entries), children, child, author);
      r == run.result && cache.entries == run.store && cache.requested == old(cache.requested) + run.fetched
    ensures !RewritesImages(Classify(child)) ==> r.Ok? && unchanged(cache)
  {
    if child.name.None? {
      return Ok(ChildStep(children, author));
    }
    if child.str.Some? && Contains(child.str.value, BylineMarker) {
      return Ok(ChildStep(children, Some(BylineAuthor(child.str.value))));
    }
    if IsCrossLink(child.text) {
      return Ok(ChildStep(children, author));
    }
    var srcs := RewriteImages(cache, child.imgSrcs);
    if srcs.Err? {
      return Err(srcs.error);
    }
    var node := child.(imgSrcs := srcs.value);
    assert node == RewrittenChild(child);
    var kids := children;
    if node.name.value == "div" && node.figure.Some? {
      if node.figure.value.caption.None? {
        return Err(MissingCaption);
      }
      var illustration := Tag("div", "", map["class" := "illustration"], map[]);
      illustration := AppendKid(illustration, Tag("span", node.figure.value.caption.value, map[], map[]));
      IllustrationIsTagged(node.figure.value.caption.value);
      kids := kids + [illustration];
    }
    if node.name.value == "p" || node.name.value == "hr" {
      kids := kids + [Moved(node)];
    }
    assert kids == children + BlockOf(child);
    return Ok(ChildStep(kids, author));
  }

  /** One more child extends a run that has not failed by what `parse_child` does to it. */
  lemma ChildrenRunStep(env: Env, store: map<string, Bytes>, cs: seq<PageNode>, author: Option<string>, i: nat)
    requires i < |cs| && ChildrenRun(env, store, cs[..i], author).result.Ok?
    ensures var prev := ChildrenRun(env, store, cs[..i], author);
      var next := ChildRun(env, prev.store, prev.result.value.children, cs[i], prev.result.value.author);
      ChildrenRun(env, store, cs[..i + 1], author) == Run(next.result, next.store, prev.fetched + next.fetched)
  {
    assert cs[..i + 1][..i] == cs[..i];
  }

  /** One turn of the loop below: the child `cs[i]` handed to `parse_child` once the first `i`
      children have been parsed into `children` with `author` current. */
  method ParseNext(cache: FetchCache, ghost store: map<string, Bytes>, cs: seq<PageNode>, ghost byline: Option<string>,
                   i: nat, children: seq<Node>, author: Option<string>, ghost done: seq<string>)
      returns (r: Result<ChildStep>, ghost added: seq<string>)
    requires i < |cs| && ChildrenRun(cache.env, store, cs[..i], byline) == Run(Ok(ChildStep(children, author)), cache.entries, done)
    modifies cache
    ensures var next := ChildrenRun(cache.env, store, cs[..i + 1], byline);
      r == next.result && cache.entries == next.store && next.fetched == done + added
      && cache.requested == old(cache.requested) + added
    ensures r.Err? ==> ChildrenRun(cache.env, store, cs, byline) == ChildrenRun(cache.env, store, cs[..i + 1], byline)
  {
    ChildrenRunStep(cache.env, store, cs, byline, i);
    ghost var after := ChildRun(cache.env, cache.entries, children, cs[i], author);
    r := ParseChild(cache, children, cs[i], author);
    added := after.fetched;
    if r.Err? {
      ChildrenRunFailure(cache.env, store, cs, byline, i + 1);
    }
  }

  /** The loop of `parse_chapter` that hands each child of the content region to `parse_child`,
      threading the children list and the author through. */
  method ParseChildren(cache: FetchCache, cs: seq<PageNode>, byline: Option<string>) returns (r: Result<ChildStep>)
    modifies cache
    ensures var run := ChildrenRun(cache.env, old(cache.entries), cs, byline);
      r == run.result && cache.entries == run.store && cache.requested == old(cache.requested) + run.fetched
  {
    ghost var store, log := cache.entries, cache.requested;
    var children: seq<Node> := [];
    var author := byline;
    var i := 0;
    ghost var done: seq<string> := [];
    while i < |cs|
      invariant i <= |cs| && ChildrenRun(cache.env, store, cs[..i], byline) == Run(Ok(ChildStep(children, author)), cache.entries, done)
      invariant cache.requested == log + done
    {
      var step, added := ParseNext(cache, store, cs, byline, i, children, author, done);
      ConcatAssoc(log, done, added);
      done := done + added;
      if step.Err? {
        return Err(step.error);
      }
      children, author := step.value.children, step.value.author;
      i := i + 1;
    }
    assert cs[..|cs|] == cs;
    return Ok(ChildStep(children, author));
  }

  /** Lines 202-215 of `parse_chapter`: title, byline and content of a fetched page. */
  method ExtractChapter(cache: FetchCache, page: Page) returns (r: Result<Chapter>)
    modifies cache
    ensures var run := ChapterRun(cache.env, old(cache.entries), page);
      r == run.result && cache.entries == run.store && cache.requested == old(cache.requested) + run.fetched
    ensures r.Ok? ==> ExtractedFrom(page, r.value)
  {
    ChapterRunFacts(cache.env, cache.entries, page);
    if page.title.None? {
      return Err(MissingTitle);
    }
    var title := StripTitleSuffix(page.title.value);
    if page.byline.None? {
      return Err(MissingByline);
    }
    if page.content.None? {
      return Err(MissingContent);
    }
    var kids := ParseChildren(cache, page.content.value, page.byline.value);
    if kids.Err? {
      return Err(kids.error);
    }
    var blocks := TrimTrailingRule(kids.value.children);
    if blocks.Err? {
      return Err(blocks.error);
    }
    return Ok(Chapter(title, kids.value.author, blocks.value));
  }
}
