/**
 * The converter's entry point for one document: from the parsed page to the text of the
 * generated PHP file.
 */
module Converter {

  import opened Wrappers
  import opened Dom
  import opened Extract
  import opened Php

  /** Extracts the title, the excerpt and the sections of `doc`, then writes the PHP file. */
  method HtmlToPhpArray(doc: seq<Node>) returns (php: string)
    ensures php == Render(PageOf(doc))
  {
    var title := UntitledPage;
    var h1 := Find(doc, {"h1"});
    if h1.Some? {
      title := NodeText(h1.value);
    }
    var excerpt := "";
    var excerptTag := SelectExcerptParagraph(doc);
    if excerptTag.Some? {
      excerpt := NodeText(excerptTag.value);
    }
    var sections := CollectSections(doc);
    php := Serialise(Page(title, excerpt, sections));
  }

  // ---------------------------------------------------------------------------------------
  // An example page: a padded `h1`, an image without `alt` and an `h2` without `id`, and no
  // excerpt
  // ---------------------------------------------------------------------------------------

  const ExampleH1 := Element("h1", map[], [], [NavigableString(" Welcome ")])
  const ExampleImg := Element("img", map["src" := "a.png"], [], [])
  const ExampleH2 := Element("h2", map[], [], [NavigableString("About Us")])
  const ExampleDoc := [Element("body", map[], [], [ExampleH1, ExampleImg, ExampleH2])]

  lemma ExampleElements()
    ensures Elements(ExampleDoc) == [ExampleDoc[0], ExampleH1, ExampleImg, ExampleH2]
  {
    var kids := [ExampleH1, ExampleImg, ExampleH2];
    assert ElementsOf(ExampleH2) == [ExampleH2];
    assert Elements([ExampleH2]) == [ExampleH2];
    assert ElementsOf(ExampleImg) == [ExampleImg];
    assert [ExampleImg, ExampleH2][1..] == [ExampleH2];
    assert Elements([ExampleImg, ExampleH2]) == [ExampleImg, ExampleH2];
    assert ElementsOf(ExampleH1) == [ExampleH1];
    assert kids[1..] == [ExampleImg, ExampleH2];
    assert Elements(kids) == kids;
    assert ElementsOf(ExampleDoc[0]) == [ExampleDoc[0]] + kids;
  }

  lemma ExampleTitleText()
    ensures NodeText(ExampleH1) == "Welcome"
  {
    assert LeadingSpaces(" Welcome ") == 1;
    assert TrailingStart("Welcome ") == 7;
    assert TextOf([NavigableString(" Welcome ")]) == "Welcome" + TextOf([]);
  }

  lemma ExampleTitle()
    ensures Title(ExampleDoc) == "Welcome"
  {
    ExampleElements();
    FilterOfFour(ExampleDoc[0], ExampleH1, ExampleImg, ExampleH2, {"h1"});
    assert Find(ExampleDoc, {"h1"}) == Some(ExampleH1);
    ExampleTitleText();
  }

  lemma ExampleExcerpt()
    ensures Excerpt(ExampleDoc) == ""
  {
    ExampleElements();
    WalkMeetsElements(ExampleDoc, []);
  }

  lemma FilterCons(e: Node, es: seq<Node>, names: set<string>)
    ensures Filter([e] + es, names) == (if HasTag(e, names) then [e] else []) + Filter(es, names)
  {
    assert ([e] + es)[1..] == es;
  }

  lemma FilterOfFour(a: Node, b: Node, c: Node, d: Node, names: set<string>)
    ensures Filter([a, b, c, d], names) ==
            (if HasTag(a, names) then [a] else []) + ((if HasTag(b, names) then [b] else []) +
            ((if HasTag(c, names) then [c] else []) + (if HasTag(d, names) then [d] else [])))
  {
    assert [a, b, c, d] == [a] + ([b] + ([c] + [d]));
    FilterCons(d, [], names);
    assert [d] + [] == [d];
    FilterCons(c, [d], names);
    FilterCons(b, [c] + [d], names);
    FilterCons(a, [b] + ([c] + [d]), names);
  }

  lemma ExampleFindAll()
    ensures FindAll(ExampleDoc, ImageTags) == [ExampleImg]
    ensures FindAll(ExampleDoc, HeadingTags) == [ExampleH2]
    ensures FindAll(ExampleDoc, TableTags) == []
    ensures FindAll(ExampleDoc, ListTags) == []
  {
    ExampleElements();
    FilterOfFour(ExampleDoc[0], ExampleH1, ExampleImg, ExampleH2, ImageTags);
    FilterOfFour(ExampleDoc[0], ExampleH1, ExampleImg, ExampleH2, HeadingTags);
    FilterOfFour(ExampleDoc[0], ExampleH1, ExampleImg, ExampleH2, TableTags);
    FilterOfFour(ExampleDoc[0], ExampleH1, ExampleImg, ExampleH2, ListTags);
  }

  lemma ExampleHeadingText()
    ensures NodeText(ExampleH2) == "About Us"
  {
    assert LeadingSpaces("About Us") == 0;
    assert TrailingStart("About Us") == 8;
    assert TextOf([NavigableString("About Us")]) == "About Us" + TextOf([]);
  }

  lemma ExampleSlug()
    ensures Slug("About Us") == "about-us"
  {
    var t, slug := "About Us", "about-us";
    SlugShape(t);
    assert LowerChar('A') == 'a';
    forall k | 0 <= k < |t|
      ensures Slug(t)[k] == slug[k]
    {
    }
  }

  lemma ExampleHeading()
    ensures HeadingSection(ExampleH2) == Heading("about-us", "About Us")
  {
    ExampleHeadingText();
    ExampleSlug();
  }

  lemma ExampleImage()
    ensures ImageSection(ExampleImg) == Image("a.png", "")
  {
    assert "alt" !in ExampleImg.attrs by {
      assert "alt"[0] != "src"[0];
    }
  }

  lemma SectionsOfImageAndHeading(doc: seq<Node>, img: Node, h: Node)
    requires FindAll(doc, ImageTags) == [img] && FindAll(doc, HeadingTags) == [h]
    requires FindAll(doc, TableTags) == [] && FindAll(doc, ListTags) == []
    ensures Sections(doc) == [ImageSection(img), HeadingSection(h)]
  {
    assert [img][..0] == [] && [h][..0] == [];
    assert ImageSections([img]) == [ImageSection(img)];
    assert HeadingSections([h]) == [HeadingSection(h)];
    assert TableSections([]) == [] && ListSections([]) == [];
  }

  lemma ExampleSections()
    ensures Sections(ExampleDoc) == [Image("a.png", ""), Heading("about-us", "About Us")]
  {
    ExampleFindAll();
    ExampleHeading();
    SectionsOfImageAndHeading(ExampleDoc, ExampleImg, ExampleH2);
    ExampleImage();
  }

  // ---------------------------------------------------------------------------------------
  // An example excerpt: a `p` inside a `div` of class `excerpt`
  // ---------------------------------------------------------------------------------------

  const ExcerptP := Element("p", map[], [], [NavigableString("Hi there")])
  const ExcerptDiv := Element("div", map[], ["excerpt"], [ExcerptP])
  const ExcerptDoc := [ExcerptDiv]

  lemma ExcerptDocWalk()
    ensures Walk(ExcerptDoc, []) == [Visit(ExcerptDiv, []), Visit(ExcerptP, [ExcerptDiv])]
  {
    assert Walk([NavigableString("Hi there")], [ExcerptDiv, ExcerptP]) == [];
    assert [ExcerptDiv] + [ExcerptP] == [ExcerptDiv, ExcerptP];
    assert Walk([ExcerptP], [ExcerptDiv]) == [Visit(ExcerptP, [ExcerptDiv])];
    assert [] + [ExcerptDiv] == [ExcerptDiv];
    assert WalkFrom(ExcerptDiv, []) == [Visit(ExcerptDiv, [])] + [Visit(ExcerptP, [ExcerptDiv])];
  }

  lemma ExcerptParagraphText()
    ensures NodeText(ExcerptP) == "Hi there"
  {
    assert LeadingSpaces("Hi there") == 0;
    assert TrailingStart("Hi there") == 8;
    assert TextOf([NavigableString("Hi there")]) == "Hi there" + TextOf([]);
  }

  /** `.excerpt p` finds the paragraph inside the `excerpt` block, and its text is the
      excerpt. */
  lemma ExampleExcerptFound()
    ensures SelectExcerptParagraph(ExcerptDoc) == Some(ExcerptP)
    ensures Excerpt(ExcerptDoc) == "Hi there"
  {
    ExcerptDocWalk();
    var vs := Walk(ExcerptDoc, []);
    assert !InExcerpt(vs[0]) by {
      assert "div" != "p";
    }
    assert ExcerptDiv in vs[1].ancestors;
    assert FirstInExcerpt(vs, 1);
    ExcerptParagraphText();
  }

  /** What the converter extracts from the example page. */
  lemma ExamplePage()
    ensures PageOf(ExampleDoc) == Page("Welcome", "", [Image("a.png", ""), Heading("about-us", "About Us")])
  {
    ExampleTitle();
    ExampleExcerpt();
    ExampleSections();
  }
}
