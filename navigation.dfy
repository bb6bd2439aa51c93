/** The navigation generator: the NCX `navMap` of ANSI/NISO Z39.86-2005 (section 8, the
    Navigation Control File) derived from the book's table of contents. */
module Navigation {
  import opened Base
  import opened Text
  import opened Markup
  import opened Extract
  import opened Assembly

  /** A `navPoint`: its `id`, its `playOrder`, the text of its `navLabel` and its `content src`. */
  datatype NavPoint = NavPoint(id: string, playOrder: nat, navLabel: string, src: string)

  /** The NCX document: the `docTitle` text and the points of the `navMap`, in order. */
  datatype Ncx = Ncx(docTitle: string, navMap: seq<NavPoint>)

  /** The fixed first point, aimed at the book's table of contents. */
  function TocPoint(htmlfile: string): NavPoint
  {
    NavPoint("table-of-contents", 1, "Table of Contents", htmlfile + "#table-of-contents")
  }

  predicate IsItem(n: Node)
  {
    n.Elem? && n.name == "li"
  }

  function CountItems(toc: seq<Node>): nat
  {
    if toc == [] then 0 else CountItems(toc[..|toc| - 1]) + (if IsItem(toc[|toc| - 1]) then 1 else 0)
  }

  /** The point of one `<li>`: the id is its link's `href` with every `#` removed. */
  function ItemPoint(item: Node, playOrder: nat, htmlfile: string): (r: Result<NavPoint>)
    requires item.Elem?
    ensures r.Ok? ==> r.value.playOrder == playOrder && '#' !in r.value.id
    ensures r.Ok? ==> r.value.src == htmlfile + "#" + r.value.id
  {
    match FindTag(item.kids, "a")
    case None => Err(MissingLink)
    case Some(link) =>
      if "href" !in link.attrs then Err(MissingHref)
      else
        var id := ReplaceAll(link.attrs["href"], ['#'], []);
        DeleteChar(link.attrs["href"], '#');
        Ok(NavPoint(id, playOrder, TextOf(link), htmlfile + "#" + id))
  }

  /** The points of the `<li>` entries of `toc`, numbered from 2 in order; other nodes are
      skipped. The first entry that cannot be read stops the walk. */
  function ItemPoints(toc: seq<Node>, htmlfile: string): (r: Result<seq<NavPoint>>)
    ensures r.Ok? ==> |r.value| == CountItems(toc)
    ensures r.Ok? ==> forall i :: 0 <= i < |r.value| ==> r.value[i].playOrder == i + 2
    ensures r.Ok? ==> forall i :: 0 <= i < |r.value| ==>
      '#' !in r.value[i].id && r.value[i].src == htmlfile + "#" + r.value[i].id
  {
    if toc == [] then Ok([])
    else
      var init := ItemPoints(toc[..|toc| - 1], htmlfile);
      var last := toc[|toc| - 1];
      if init.Err? || !IsItem(last) then init
      else
        match ItemPoint(last, CountItems(toc[..|toc| - 1]) + 2, htmlfile)
        case Err(e) => Err(e)
        case Ok(p) => Ok(init.value + [p])
  }

  /** Once the walk has failed on a prefix it fails the same way on the whole list. */
  lemma {:induction false} ItemPointsErrPersists(toc: seq<Node>, k: nat, htmlfile: string)
    requires k <= |toc| && ItemPoints(toc[..k], htmlfile).Err?
    ensures ItemPoints(toc, htmlfile) == ItemPoints(toc[..k], htmlfile)
    decreases |toc| - k
  {
    if k < |toc| {
      assert toc[..k + 1][..k] == toc[..k];
      ItemPointsErrPersists(toc, k + 1, htmlfile);
    } else {
      assert toc[..k] == toc;
    }
  }

  function NcxOf(docTitle: string, toc: seq<Node>, htmlfile: string): Result<Ncx>
  {
    match ItemPoints(toc, htmlfile)
    case Err(e) => Err(e)
    case Ok(points) => Ok(Ncx(docTitle, [TocPoint(htmlfile)] + points))
  }

  /** The `<title>` of the book template. */
  function BookTitle(name: string): string
  {
    name + ": Collected Stories"
  }

  /** `create_ncx_toc(book, htmlfile)`. */
  method CreateNcx(book: Book, htmlfile: string) returns (r: Result<Ncx>)
    ensures r == NcxOf(BookTitle(book.name), book.toc, htmlfile)
    ensures r.Ok? ==> |r.value.navMap| == 1 + CountItems(book.toc) && r.value.navMap[0] == TocPoint(htmlfile)
    ensures r.Ok? ==> forall i :: 0 <= i < |r.value.navMap| ==> r.value.navMap[i].playOrder == i + 1
  {
    var toc := book.toc;
    var points: seq<NavPoint> := [];
    var playOrder := 1;
    var i := 0;
    while i < |toc|
      invariant 0 <= i <= |toc|
      invariant ItemPoints(toc[..i], htmlfile) == Ok(points)
      invariant playOrder == CountItems(toc[..i]) + 1
    {
      var node := toc[i];
      assert toc[..i + 1][..i] == toc[..i] && toc[..i + 1][i] == node;
      if node.Elem? && node.name == "li" {
        playOrder := playOrder + 1;
        var link := FindTag(node.kids, "a");
        if link.None? {
          ItemPointsErrPersists(toc, i + 1, htmlfile);
          return Err(MissingLink);
        }
        if "href" !in link.value.attrs {
          ItemPointsErrPersists(toc, i + 1, htmlfile);
          return Err(MissingHref);
        }
        var id := ReplaceAll(link.value.attrs["href"], ['#'], []);
        points := points + [NavPoint(id, playOrder, TextOf(link.value), htmlfile + "#" + id)];
      }
      i := i + 1;
    }
    assert toc[..|toc|] == toc;
    r := Ok(Ncx(BookTitle(book.name), [TocPoint(htmlfile)] + points));
  }

  /** The point the NCX gives chapter `i` of a book. */
  function ChapterPoint(e: Entry, i: nat, htmlfile: string): NavPoint
  {
    var id := ReplaceAll("#" + Slug(e.chapter.title), ['#'], []);
    NavPoint(id, i + 2, e.chapter.title, htmlfile + "#" + id)
  }

  lemma TocItemPoint(e: Entry, order: nat, htmlfile: string)
    requires order >= 2
    ensures ItemPoint(TocItem(e.chapter), order, htmlfile) == Ok(ChapterPoint(e, order - 2, htmlfile))
  {
    var item := TocItem(e.chapter);
    var link := item.kids[1];
    assert item.kids[1..] == [link];
    assert FindTag(item.kids, "a") == Some(link);
    TextOfSingle(Text(e.chapter.title));
  }

  /** `ps` are the points of the chapters `es`, in order: point `i` is `ChapterPoint(es[i], i)`. */
  predicate PointsOfChapters(ps: seq<NavPoint>, es: seq<Entry>, htmlfile: string)
  {
    |ps| == |es| && forall i :: 0 <= i < |es| ==> ps[i] == ChapterPoint(es[i], i, htmlfile)
  }

  lemma PointsOfChaptersSnoc(ps: seq<NavPoint>, es: seq<Entry>, e: Entry, htmlfile: string)
    requires PointsOfChapters(ps, es, htmlfile)
    ensures PointsOfChapters(ps + [ChapterPoint(e, |es|, htmlfile)], es + [e], htmlfile)
  {
    assert forall i :: 0 <= i < |es| ==> (es + [e])[i] == es[i];
  }

  /** For a book built by the assembler, the NCX has one point per chapter after the table of
      contents: point `i` has play order `i + 2`, the chapter's title as label, and an id that is
      the chapter's anchor with every `#` removed. */
  lemma {:induction false} BookItemPoints(es: seq<Entry>, htmlfile: string)
    ensures ItemPoints([Text(OlIndent)] + TocItems(es), htmlfile).Ok?
    ensures PointsOfChapters(ItemPoints([Text(OlIndent)] + TocItems(es), htmlfile).value, es, htmlfile)
  {
    var toc := [Text(OlIndent)] + TocItems(es);
    if es == [] {
      assert toc[..0] == [];
    } else {
      var init, last := es[..|es| - 1], es[|es| - 1];
      BookItemPoints(init, htmlfile);
      var tocInit := [Text(OlIndent)] + TocItems(init);
      assert toc == tocInit + [TocItem(last.chapter)];
      var ps := ItemPoints(tocInit, htmlfile).value;
      var p := ChapterPoint(last, |init|, htmlfile);
      TocItemPoint(last, |init| + 2, htmlfile);
      ItemPointsSnoc(tocInit, TocItem(last.chapter), ps, p, htmlfile);
      PointsOfChaptersSnoc(ps, init, last, htmlfile);
      assert init + [last] == es;
    }
  }

  /** One more `<li>` after a readable prefix adds its own point, numbered after the others. */
  lemma ItemPointsSnoc(toc: seq<Node>, item: Node, ps: seq<NavPoint>, p: NavPoint, htmlfile: string)
    requires ItemPoints(toc, htmlfile) == Ok(ps) && IsItem(item)
    requires ItemPoint(item, |ps| + 2, htmlfile) == Ok(p)
    ensures ItemPoints(toc + [item], htmlfile) == Ok(ps + [p])
  {
    assert (toc + [item])[..|toc|] == toc;
  }

  /** A navigation point lands on its chapter's header exactly when the title has no `#`:
      the header's `<h2>` keeps the `#`, while the point's id drops it. */
  lemma AnchorIntegrity(e: Entry, i: nat, htmlfile: string)
    ensures ChapterPoint(e, i, htmlfile).navLabel == e.chapter.title
    ensures Some(ChapterPoint(e, i, htmlfile).id) == HeaderAnchor(Header(e)) <==> '#' !in e.chapter.title
  {
    var anchor := Slug(e.chapter.title);
    HeaderCarriesAnchor(e);
    DeleteChar(anchor, '#');
    SlugShape(e.chapter.title);
    assert "#" + anchor == ['#'] + anchor;
  }

  /** `nav` is the navigation of the chapters `es`: the table-of-contents point, then one point
      per chapter in chapter order, each as `PointsAtChapter` describes. */
  predicate NavigatesChapters(nav: seq<NavPoint>, es: seq<Entry>, htmlfile: string)
  {
    && |nav| == 1 + |es|
    && nav[0] == TocPoint(htmlfile)
    && forall i :: 0 <= i < |es| ==> PointsAtChapter(nav[i + 1], es[i], i)
  }

  /** The whole navigation of an assembled book: the table-of-contents point, then one point per
      chapter in chapter order with play orders 2, 3, ..., each aimed at its chapter's header
      unless the title contains `#`. */
  lemma BookNavigation(book: Book, htmlfile: string)
    requires book.Valid()
    ensures NcxOf(BookTitle(book.name), book.toc, htmlfile).Ok?
    ensures NavigatesChapters(NcxOf(BookTitle(book.name), book.toc, htmlfile).value.navMap, book.entries, htmlfile)
  {
    BookItemPoints(book.entries, htmlfile);
    var ps := ItemPoints(book.toc, htmlfile).value;
    NavigationOfPoints(ps, book.entries, htmlfile);
  }

  /** Chapter points behind the table-of-contents point make the chapters' navigation. */
  lemma NavigationOfPoints(ps: seq<NavPoint>, es: seq<Entry>, htmlfile: string)
    requires PointsOfChapters(ps, es, htmlfile)
    ensures NavigatesChapters([TocPoint(htmlfile)] + ps, es, htmlfile)
  {
    var nav := [TocPoint(htmlfile)] + ps;
    forall i | 0 <= i < |es| ensures PointsAtChapter(nav[i + 1], es[i], i) {
      assert nav[i + 1] == ps[i];
      ChapterPointAtChapter(es[i], i, htmlfile);
    }
  }

  lemma ChapterPointAtChapter(e: Entry, i: nat, htmlfile: string)
    ensures PointsAtChapter(ChapterPoint(e, i, htmlfile), e, i)
  {
    AnchorIntegrity(e, i, htmlfile);
  }

  /** Point `p` is the navigation point of chapter `i` with entry `e`: play order `i + 2`, the
      chapter's title as label, and an id equal to the header's anchor exactly when the title
      has no `#`. */
  predicate PointsAtChapter(p: NavPoint, e: Entry, i: nat)
  {
    && p.playOrder == i + 2
    && p.navLabel == e.chapter.title
    && (Some(p.id) == HeaderAnchor(Header(e)) <==> '#' !in e.chapter.title)
  }

  /** The anchor break spelled out: a title `a#b` is anchored at `Slug(a) + "#" + Slug(b)` in the
      header, while its navigation point's id drops the `#`, so the two never meet. */
  lemma HashInTitleBreaksLink(e: Entry, a: string, b: string, htmlfile: string)
    requires e.chapter.title == a + "#" + b && '#' !in a && '#' !in b
    ensures HeaderAnchor(Header(e)) == Some(Slug(a) + "#" + Slug(b))
    ensures ChapterPoint(e, 0, htmlfile).id == Slug(a) + Slug(b)
  {
    HeaderCarriesAnchor(e);
    SlugConcat(a, "#");
    SlugConcat(a + "#", b);
    SlugOfHash();
    SlugShape(a);
    SlugShape(b);
    var s := Slug(e.chapter.title);
    assert s == Slug(a) + ['#'] + Slug(b);
    DeleteChar(s, '#');
    DeleteOneChar(Slug(a), Slug(b), '#');
  }

  /** Two chapters whose titles differ only in a space against a `-` share one header anchor, and
      their navigation points carry the same id. */
  lemma SpacedAndDashedTitlesCollide(e1: Entry, e2: Entry, a: string, b: string, htmlfile: string)
    requires e1.chapter.title == a + " " + b && e2.chapter.title == a + "-" + b
    ensures e1.chapter.title != e2.chapter.title
    ensures HeaderAnchor(Header(e1)) == HeaderAnchor(Header(e2))
    ensures ChapterPoint(e1, 0, htmlfile).id == ChapterPoint(e2, 1, htmlfile).id
  {
    SpaceAndDashCollide(a, b);
    HeaderCarriesAnchor(e1);
    HeaderCarriesAnchor(e2);
  }
}
