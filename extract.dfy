/**
 * The extraction half of the converter: from the parsed document it takes the page title,
 * the excerpt and a flat list of typed sections. The sections are gathered by four passes
 * over the whole document, one after the other: every image, then every `h2`/`h3` heading,
 * then every table that has content, then every `ul`/`ol` list that has items. So the list
 * is grouped by kind, and only within a kind does it follow the document's order.
 */
module Extract {

  import opened Wrappers
  import opened Dom

  /** One entry of the page's `sections` array. */
  datatype Section =
    | Image(src: string, alt: string)
    | Heading(id: string, text: string)
    | Table(headers: seq<string>, rows: seq<seq<string>>)
    | List(items: seq<string>)

  /** What the converter extracts from one document, before it is written out. */
  datatype Page = Page(title: string, excerpt: string, sections: seq<Section>)

  /** The title of a page without an `h1`. */
  const UntitledPage := "Untitled Page"

  /** The page title: the text of the first `h1`, or `Untitled Page` when there is none. */
  function Title(doc: seq<Node>): (r: string)
    ensures (forall e :: e in Elements(doc) ==> !HasTag(e, {"h1"})) ==> r == UntitledPage
    ensures forall i :: FirstWithTag(Elements(doc), i, {"h1"}) ==> r == NodeText(Elements(doc)[i])
  {
    match Find(doc, {"h1"})
    case Some(h) => NodeText(h)
    case None => UntitledPage
  }

  /** The excerpt: the text of the first `p` inside an element of class `excerpt`, or the
      empty string when there is none. */
  function Excerpt(doc: seq<Node>): (r: string)
    ensures (forall k :: 0 <= k < |Walk(doc, [])| ==> !InExcerpt(Walk(doc, [])[k])) ==> r == ""
    ensures forall i :: FirstInExcerpt(Walk(doc, []), i) ==> r == NodeText(Walk(doc, [])[i].node)
  {
    match SelectExcerptParagraph(doc)
    case Some(p) => NodeText(p)
    case None => ""
  }

  // ---------------------------------------------------------------------------------------
  // Headings and their slugs
  // ---------------------------------------------------------------------------------------

  /** `c.lower()` for an ASCII letter; every other character is left as it is. */
  function LowerChar(c: char): char
  {
    if 'A' <= c <= 'Z' then (c as int + 32) as char else c
  }

  /** `s.lower()`, restricted to ASCII letters. */
  function Lower(s: string): (r: string)
    ensures |r| == |s|
  {
    if s == [] then [] else [LowerChar(s[0])] + Lower(s[1..])
  }

  /** Each character of `s.lower()` is the lower-cased character at the same position. */
  lemma {:induction false} LowerAt(s: string)
    ensures forall k :: 0 <= k < |s| ==> Lower(s)[k] == LowerChar(s[k])
  {
    if s != [] {
      LowerAt(s[1..]);
    }
  }

  /** `s.replace(from, to)` for single characters. */
  function Replace(s: string, from: char, to: char): (r: string)
    ensures |r| == |s|
  {
    if s == [] then [] else [if s[0] == from then to else s[0]] + Replace(s[1..], from, to)
  }

  /** Each character of `s.replace(from, to)` is `to` where `s` has `from`, and the
      character of `s` elsewhere. */
  lemma {:induction false} ReplaceAt(s: string, from: char, to: char)
    ensures forall k :: 0 <= k < |s| ==> Replace(s, from, to)[k] == (if s[k] == from then to else s[k])
  {
    if s != [] {
      ReplaceAt(s[1..], from, to);
    }
  }

  /** The id a heading gets when it has none: its text lower-cased, with every space turned
      into a hyphen. */
  function Slug(text: string): string
  {
    Replace(Lower(text), ' ', '-')
  }

  /** A slug is as long as its text; each space becomes `-` and every other character is
      lower-cased; so a slug has no spaces. */
  lemma SlugShape(text: string)
    ensures |Slug(text)| == |text|
    ensures forall k :: 0 <= k < |text| ==> Slug(text)[k] == (if text[k] == ' ' then '-' else LowerChar(text[k]))
    ensures ' ' !in Slug(text)
  {
    LowerAt(text);
    ReplaceAt(Lower(text), ' ', '-');
  }

  /** The section for an `h2` or `h3`: its `id` attribute, or the slug of its text when it
      has none, and its text. */
  function HeadingSection(h: Node): Section
  {
    var text := NodeText(h);
    Heading(Get(h, "id", Slug(text)), text)
  }

  /** A heading section carries the heading's text. Its id is the `id` attribute when the
      heading has one, and otherwise the slug of the text, which has no space and is as long
      as the text. */
  lemma HeadingSectionFields(h: Node)
    ensures HeadingSection(h).Heading? && HeadingSection(h).text == NodeText(h)
    ensures HeadingSection(h).id ==
            (if h.Element? && "id" in h.attrs then h.attrs["id"] else Slug(NodeText(h)))
    ensures !(h.Element? && "id" in h.attrs) ==>
              ' ' !in HeadingSection(h).id && |HeadingSection(h).id| == |NodeText(h)|
  {
    SlugShape(NodeText(h));
  }

  /** The section for an `img`: its `src` and `alt` attributes, each `''` when absent. */
  function ImageSection(img: Node): Section
  {
    Image(Get(img, "src", ""), Get(img, "alt", ""))
  }

  // ---------------------------------------------------------------------------------------
  // Tables and lists
  // ---------------------------------------------------------------------------------------

  /** `[e.get_text(strip=True) for e in es]`. */
  function Texts(es: seq<Node>): (r: seq<string>)
    ensures |r| == |es|
  {
    if es == [] then [] else [NodeText(es[0])] + Texts(es[1..])
  }

  /** Each text is the text of the element in the same position. */
  lemma {:induction false} TextsAt(es: seq<Node>)
    ensures forall k :: 0 <= k < |es| ==> Texts(es)[k] == NodeText(es[k])
  {
    if es != [] {
      TextsAt(es[1..]);
    }
  }

  /** The texts of every `th` anywhere in the table, whatever row holds it. */
  function Headers(table: Node): seq<string>
  {
    Texts(FindAll(ChildrenOf(table), {"th"}))
  }

  /** The texts of every `td` anywhere in the row. */
  function Cells(tr: Node): seq<string>
  {
    Texts(FindAll(ChildrenOf(tr), {"td"}))
  }

  /** The texts of every `li` anywhere in the list. */
  function ListItems(list: Node): seq<string>
  {
    Texts(FindAll(ChildrenOf(list), {"li"}))
  }

  /** The rows the rows loop keeps from `trs`: the cells of each, leaving out the rows
      without any. */
  function RowsOf(trs: seq<Node>): (r: seq<seq<string>>)
    ensures |r| <= |trs|
    ensures forall k :: 0 <= k < |r| ==> r[k] != []
  {
    if trs == [] then []
    else
      var kept, last := RowsOf(trs[..|trs| - 1]), Cells(trs[|trs| - 1]);
      if last != [] then kept + [last] else kept
  }

  lemma {:induction false} RowsOfEmpty(trs: seq<Node>)
    ensures RowsOf(trs) == [] <==> forall k :: 0 <= k < |trs| ==> Cells(trs[k]) == []
  {
    if trs != [] {
      RowsOfEmpty(trs[..|trs| - 1]);
    }
  }

  lemma RowsOfStep(trs: seq<Node>, i: int)
    requires 0 <= i < |trs|
    ensures var cells := Cells(trs[i]);
            RowsOf(trs[..i + 1]) == RowsOf(trs[..i]) + (if cells != [] then [cells] else [])
  {
    assert trs[..i + 1][..i] == trs[..i];
  }

  /** The rows of a table: the non-empty cell lists of its `tr` elements, in order. */
  function TableRows(table: Node): seq<seq<string>>
  {
    RowsOf(FindAll(ChildrenOf(table), {"tr"}))
  }

  /** The section for a `table`, if it has any headers or rows. */
  function TableSection(table: Node): Option<Section>
  {
    var headers, rows := Headers(table), TableRows(table);
    if headers != [] || rows != [] then Some(Table(headers, rows)) else None
  }

  /** The section for a `ul` or `ol`, if it has any items. */
  function ListSection(list: Node): Option<Section>
  {
    var items := ListItems(list);
    if items != [] then Some(List(items)) else None
  }

  lemma FindAllEmpty(ns: seq<Node>, names: set<string>)
    ensures FindAll(ns, names) == [] <==> forall e :: e in Elements(ns) ==> !HasTag(e, names)
  {
    var all := FindAll(ns, names);
    FilterMembers(Elements(ns), names);
    if all != [] {
      assert all[0] in all;
    }
  }

  /** A table holds a `th`, or a `tr` that holds a `td`. */
  predicate HasContent(table: Node)
  {
    (exists th :: th in Elements(ChildrenOf(table)) && HasTag(th, {"th"})) ||
    (exists tr :: tr in Elements(ChildrenOf(table)) && HasTag(tr, {"tr"}) &&
       exists td :: td in Elements(ChildrenOf(tr)) && HasTag(td, {"td"}))
  }

  /** A table yields a section exactly when it holds a `th`, or a `tr` that holds a `td`;
      every row of that section has at least one cell. */
  lemma TableEligibility(table: Node)
    ensures TableSection(table).Some? <==> HasContent(table)
    ensures TableSection(table).Some? ==>
              TableSection(table).value.Table? &&
              forall k :: 0 <= k < |TableSection(table).value.rows| ==> TableSection(table).value.rows[k] != []
  {
    var ns := ChildrenOf(table);
    FindAllEmpty(ns, {"th"});
    var trs := FindAll(ns, {"tr"});
    RowsOfEmpty(trs);
    forall k | 0 <= k < |trs|
      ensures Cells(trs[k]) == [] <==> forall td :: td in Elements(ChildrenOf(trs[k])) ==> !HasTag(td, {"td"})
    {
      FindAllEmpty(ChildrenOf(trs[k]), {"td"});
    }
    FilterMembers(Elements(ns), {"tr"});
  }

  /** A list holds an `li`. */
  predicate HasItem(list: Node)
  {
    exists li :: li in Elements(ChildrenOf(list)) && HasTag(li, {"li"})
  }

  /** A list yields a section exactly when it holds an `li`; that section has items. */
  lemma ListEligibility(list: Node)
    ensures ListSection(list).Some? <==> HasItem(list)
    ensures ListSection(list).Some? ==> ListSection(list).value.List? && ListSection(list).value.items != []
  {
    FindAllEmpty(ChildrenOf(list), {"li"});
  }

  // ---------------------------------------------------------------------------------------
  // The four passes
  // ---------------------------------------------------------------------------------------

  /** The image pass: one section per `img`, in document order. */
  function ImageSections(imgs: seq<Node>): seq<Section>
  {
    if imgs == [] then [] else ImageSections(imgs[..|imgs| - 1]) + [ImageSection(imgs[|imgs| - 1])]
  }

  /** The image pass yields exactly one section per `img`, in document order, carrying its
      `src` and `alt` attributes, each `''` when absent. */
  lemma {:induction false} ImageSectionsAt(imgs: seq<Node>)
    ensures |ImageSections(imgs)| == |imgs|
    ensures forall k :: 0 <= k < |imgs| ==>
              ImageSections(imgs)[k] == Image(Get(imgs[k], "src", ""), Get(imgs[k], "alt", ""))
  {
    if imgs != [] {
      ImageSectionsAt(imgs[..|imgs| - 1]);
    }
  }

  /** The heading pass: one section per `h2`/`h3`, in document order. */
  function HeadingSections(hs: seq<Node>): seq<Section>
  {
    if hs == [] then [] else HeadingSections(hs[..|hs| - 1]) + [HeadingSection(hs[|hs| - 1])]
  }

  /** The heading pass yields exactly one section per `h2`/`h3`, in document order. */
  lemma {:induction false} HeadingSectionsAt(hs: seq<Node>)
    ensures |HeadingSections(hs)| == |hs|
    ensures forall k :: 0 <= k < |hs| ==> HeadingSections(hs)[k] == HeadingSection(hs[k])
  {
    if hs != [] {
      HeadingSectionsAt(hs[..|hs| - 1]);
    }
  }

  /** The sections an optional section stands for: none or one. */
  function Emit(s: Option<Section>): seq<Section>
  {
    match s
    case Some(x) => [x]
    case None => []
  }

  /** The table pass: one section per table that has content, in document order. */
  function TableSections(ts: seq<Node>): seq<Section>
  {
    if ts == [] then [] else TableSections(ts[..|ts| - 1]) + Emit(TableSection(ts[|ts| - 1]))
  }

  /** Every section of the table pass is a table with headers or rows, and each of its rows
      has a cell; there are no more of them than tables. */
  lemma {:induction false} TableSectionsShape(ts: seq<Node>)
    ensures |TableSections(ts)| <= |ts|
    ensures forall k :: 0 <= k < |TableSections(ts)| ==>
              var s := TableSections(ts)[k];
              s.Table? && (s.headers != [] || s.rows != []) && forall j :: 0 <= j < |s.rows| ==> s.rows[j] != []
  {
    if ts != [] {
      TableSectionsShape(ts[..|ts| - 1]);
    }
  }

  /** The list pass: one section per list that has items, in document order. */
  function ListSections(ls: seq<Node>): seq<Section>
  {
    if ls == [] then [] else ListSections(ls[..|ls| - 1]) + Emit(ListSection(ls[|ls| - 1]))
  }

  /** Every section of the list pass is a list with at least one item; there are no more of
      them than lists. */
  lemma {:induction false} ListSectionsShape(ls: seq<Node>)
    ensures |ListSections(ls)| <= |ls|
    ensures forall k :: 0 <= k < |ListSections(ls)| ==> ListSections(ls)[k].List? && ListSections(ls)[k].items != []
  {
    if ls != [] {
      ListSectionsShape(ls[..|ls| - 1]);
    }
  }

  const ImageTags: set<string> := {"img"}
  const HeadingTags: set<string> := {"h2", "h3"}
  const TableTags: set<string> := {"table"}
  const ListTags: set<string> := {"ul", "ol"}

  /** The sections of the page: the four passes, one after the other. */
  function Sections(doc: seq<Node>): seq<Section>
  {
    ImageSections(FindAll(doc, ImageTags)) + HeadingSections(FindAll(doc, HeadingTags)) +
    TableSections(FindAll(doc, TableTags)) + ListSections(FindAll(doc, ListTags))
  }

  /** Everything the converter extracts from `doc`. */
  function PageOf(doc: seq<Node>): Page
  {
    Page(Title(doc), Excerpt(doc), Sections(doc))
  }

  // ---------------------------------------------------------------------------------------
  // What the passes promise together
  // ---------------------------------------------------------------------------------------

  /** The pass that produces a section: images first, lists last. */
  function Kind(s: Section): nat
  {
    match s
    case Image(_, _) => 0
    case Heading(_, _) => 1
    case Table(_, _) => 2
    case List(_) => 3
  }

  /** The number of tables in `ts` that hold content. */
  function CountWithContent(ts: seq<Node>): nat
  {
    if ts == [] then 0 else CountWithContent(ts[..|ts| - 1]) + (if HasContent(ts[|ts| - 1]) then 1 else 0)
  }

  /** The number of lists in `ls` that hold an item. */
  function CountWithItem(ls: seq<Node>): nat
  {
    if ls == [] then 0 else CountWithItem(ls[..|ls| - 1]) + (if HasItem(ls[|ls| - 1]) then 1 else 0)
  }

  /** The table pass yields one section for each table with content. */
  lemma {:induction false} TableSectionsCount(ts: seq<Node>)
    ensures |TableSections(ts)| == CountWithContent(ts)
  {
    if ts != [] {
      TableSectionsCount(ts[..|ts| - 1]);
      TableEligibility(ts[|ts| - 1]);
    }
  }

  /** The list pass yields one section for each list with an item. */
  lemma {:induction false} ListSectionsCount(ls: seq<Node>)
    ensures |ListSections(ls)| == CountWithItem(ls)
  {
    if ls != [] {
      ListSectionsCount(ls[..|ls| - 1]);
      ListEligibility(ls[|ls| - 1]);
    }
  }

  /** The table pass keeps the tables' order: on two runs of tables, one after the other, it
      yields the sections of the first run, then those of the second. */
  lemma {:induction false} TableSectionsConcat(a: seq<Node>, b: seq<Node>)
    ensures TableSections(a + b) == TableSections(a) + TableSections(b)
  {
    if b == [] {
      assert a + b == a;
    } else {
      var init := b[..|b| - 1];
      assert (a + b)[..|a + b| - 1] == a + init;
      assert (a + b)[|a + b| - 1] == b[|b| - 1];
      TableSectionsConcat(a, init);
    }
  }

  /** The list pass keeps the lists' order, in the same sense. */
  lemma {:induction false} ListSectionsConcat(a: seq<Node>, b: seq<Node>)
    ensures ListSections(a + b) == ListSections(a) + ListSections(b)
  {
    if b == [] {
      assert a + b == a;
    } else {
      var init := b[..|b| - 1];
      assert (a + b)[..|a + b| - 1] == a + init;
      assert (a + b)[|a + b| - 1] == b[|b| - 1];
      ListSectionsConcat(a, init);
    }
  }

  /** The page's sections are one image section per `img`, then one heading section per
      `h2`/`h3`, then one table section per table with content, then one list section per
      list with an item; images and headings in document order, with their attributes. */
  lemma SectionsLayout(doc: seq<Node>)
    ensures var imgs, hs := FindAll(doc, ImageTags), FindAll(doc, HeadingTags);
            var n, h := |imgs|, |hs|;
            var m, l := CountWithContent(FindAll(doc, TableTags)), CountWithItem(FindAll(doc, ListTags));
            var ss := Sections(doc);
            |ss| == n + h + m + l &&
            (forall k :: 0 <= k < n ==> ss[k] == Image(Get(imgs[k], "src", ""), Get(imgs[k], "alt", ""))) &&
            (forall k :: 0 <= k < h ==> ss[n + k] == HeadingSection(hs[k])) &&
            (forall k :: n + h <= k < n + h + m ==> ss[k].Table?) &&
            (forall k :: n + h + m <= k < |ss| ==> ss[k].List?)
  {
    SectionsCount(doc);
    ImagesFirst(doc);
    HeadingsNext(doc);
    TablesThenLists(doc);
  }

  /** The page has one section per image, per heading, per table with content and per list
      with an item. */
  lemma SectionsCount(doc: seq<Node>)
    ensures |Sections(doc)| == |FindAll(doc, ImageTags)| + |FindAll(doc, HeadingTags)| +
                               CountWithContent(FindAll(doc, TableTags)) + CountWithItem(FindAll(doc, ListTags))
  {
    ImageSectionsAt(FindAll(doc, ImageTags));
    HeadingSectionsAt(FindAll(doc, HeadingTags));
    TableSectionsCount(FindAll(doc, TableTags));
    ListSectionsCount(FindAll(doc, ListTags));
  }

  /** The image sections open the list, one per `img` in document order. */
  lemma ImagesFirst(doc: seq<Node>)
    ensures var imgs := FindAll(doc, ImageTags);
            |Sections(doc)| >= |imgs| &&
            forall k :: 0 <= k < |imgs| ==> Sections(doc)[k] == Image(Get(imgs[k], "src", ""), Get(imgs[k], "alt", ""))
  {
    ImageSectionsAt(FindAll(doc, ImageTags));
  }

  /** The heading sections follow the image sections, one per `h2`/`h3` in document order. */
  lemma HeadingsNext(doc: seq<Node>)
    ensures |Sections(doc)| >= |FindAll(doc, ImageTags)| + |FindAll(doc, HeadingTags)|
    ensures forall k :: 0 <= k < |FindAll(doc, HeadingTags)| ==>
              Sections(doc)[|FindAll(doc, ImageTags)| + k] == HeadingSection(FindAll(doc, HeadingTags)[k])
  {
    HeadingsAfterImages(FindAll(doc, ImageTags), FindAll(doc, HeadingTags),
                        TableSections(FindAll(doc, TableTags)), ListSections(FindAll(doc, ListTags)));
  }

  /** `HeadingsNext` for any image and heading runs and any later sections. */
  lemma HeadingsAfterImages(imgs: seq<Node>, hs: seq<Node>, c: seq<Section>, d: seq<Section>)
    ensures |ImageSections(imgs) + HeadingSections(hs) + c + d| >= |imgs| + |hs|
    ensures forall k :: 0 <= k < |hs| ==>
              (ImageSections(imgs) + HeadingSections(hs) + c + d)[|imgs| + k] == HeadingSection(hs[k])
  {
    ImageSectionsAt(imgs);
    HeadingSectionsAt(hs);
    forall k | 0 <= k < |hs|
      ensures (ImageSections(imgs) + HeadingSections(hs) + c + d)[|imgs| + k] == HeadingSection(hs[k])
    {
      SecondOfFour(ImageSections(imgs), HeadingSections(hs), c, d, k);
    }
  }

  /** In four sequences laid end to end, the second one starts right after the first. */
  lemma SecondOfFour<T>(a: seq<T>, b: seq<T>, c: seq<T>, d: seq<T>, k: int)
    requires 0 <= k < |b|
    ensures |a + b + c + d| >= |a| + |b| && (a + b + c + d)[|a| + k] == b[k]
  {
  }

  /** After the images and headings come the tables, then the lists. */
  lemma TablesThenLists(doc: seq<Node>)
    ensures var n, h := |FindAll(doc, ImageTags)|, |FindAll(doc, HeadingTags)|;
            var m, ss := CountWithContent(FindAll(doc, TableTags)), Sections(doc);
            |ss| >= n + h + m &&
            (forall k :: n + h <= k < n + h + m ==> ss[k].Table?) &&
            (forall k :: n + h + m <= k < |ss| ==> ss[k].List?)
  {
    ImageSectionsAt(FindAll(doc, ImageTags));
    HeadingSectionsAt(FindAll(doc, HeadingTags));
    TableSectionsShape(FindAll(doc, TableTags));
    TableSectionsCount(FindAll(doc, TableTags));
    ListSectionsShape(FindAll(doc, ListTags));
  }

  /** Every section of `ss` comes from pass `k`. */
  predicate AllOfKind(ss: seq<Section>, k: nat)
  {
    forall i :: 0 <= i < |ss| ==> Kind(ss[i]) == k
  }

  /** Four runs of kinds 0, 1, 2 and 3, laid end to end, never go down in kind. */
  lemma GroupedConcat(a: seq<Section>, b: seq<Section>, c: seq<Section>, d: seq<Section>)
    requires AllOfKind(a, 0) && AllOfKind(b, 1) && AllOfKind(c, 2) && AllOfKind(d, 3)
    ensures var ss := a + b + c + d;
            forall i, j :: 0 <= i < j < |ss| ==> Kind(ss[i]) <= Kind(ss[j])
  {
    var ss := a + b + c + d;
    forall k | 0 <= k < |ss|
      ensures Kind(ss[k]) == if k < |a| then 0 else if k < |a| + |b| then 1 else if k < |a| + |b| + |c| then 2 else 3
    {
      if k < |a| {
        assert ss[k] == a[k];
      } else if k < |a| + |b| {
        assert ss[k] == b[k - |a|];
      } else if k < |a| + |b| + |c| {
        assert ss[k] == c[k - |a| - |b|];
      } else {
        assert ss[k] == d[k - |a| - |b| - |c|];
      }
    }
  }

  /** Each pass yields sections of its own kind only. */
  lemma PassKinds(doc: seq<Node>)
    ensures AllOfKind(ImageSections(FindAll(doc, ImageTags)), 0)
    ensures AllOfKind(HeadingSections(FindAll(doc, HeadingTags)), 1)
    ensures AllOfKind(TableSections(FindAll(doc, TableTags)), 2)
    ensures AllOfKind(ListSections(FindAll(doc, ListTags)), 3)
  {
    ImageSectionsAt(FindAll(doc, ImageTags));
    HeadingSectionsAt(FindAll(doc, HeadingTags));
    TableSectionsShape(FindAll(doc, TableTags));
    ListSectionsShape(FindAll(doc, ListTags));
  }

  /** The sections are grouped by the pass that produced them: no section comes before one
      of an earlier pass. */
  lemma SectionsGroupedByKind(doc: seq<Node>)
    ensures forall i, j :: 0 <= i < j < |Sections(doc)| ==> Kind(Sections(doc)[i]) <= Kind(Sections(doc)[j])
  {
    PassKinds(doc);
    GroupedConcat(ImageSections(FindAll(doc, ImageTags)), HeadingSections(FindAll(doc, HeadingTags)),
                  TableSections(FindAll(doc, TableTags)), ListSections(FindAll(doc, ListTags)));
  }

  // ---------------------------------------------------------------------------------------
  // The loops
  // ---------------------------------------------------------------------------------------

  /** The rows loop of a table: for each `tr`, in document order, the texts of its `td`
      elements, kept when there is at least one. */
  method CollectRows(table: Node) returns (rows: seq<seq<string>>)
    ensures rows == TableRows(table)
  {
    var trs := FindAll(ChildrenOf(table), {"tr"});
    rows := [];
    for i := 0 to |trs|
      invariant rows == RowsOf(trs[..i])
    {
      var cells := Cells(trs[i]);
      RowsOfStep(trs, i);
      if cells != [] {
        rows := rows + [cells];
      }
    }
    assert trs[..|trs|] == trs;
  }

  /** The image pass: append one section per `img`, in document order. */
  method AppendImages(doc: seq<Node>, before: seq<Section>) returns (sections: seq<Section>)
    ensures sections == before + ImageSections(FindAll(doc, ImageTags))
  {
    sections := before;
    var imgs := FindAll(doc, ImageTags);
    for i := 0 to |imgs|
      invariant sections == before + ImageSections(imgs[..i])
    {
      ImageSectionsStep(before, sections, imgs, i);
      sections := sections + [Image(Get(imgs[i], "src", ""), Get(imgs[i], "alt", ""))];
    }
    assert imgs[..|imgs|] == imgs;
  }

  /** The heading pass: append one section per `h2`/`h3`, in document order. */
  method AppendHeadings(doc: seq<Node>, before: seq<Section>) returns (sections: seq<Section>)
    ensures sections == before + HeadingSections(FindAll(doc, HeadingTags))
  {
    sections := before;
    var hs := FindAll(doc, HeadingTags);
    for i := 0 to |hs|
      invariant sections == before + HeadingSections(hs[..i])
    {
      var text := NodeText(hs[i]);
      HeadingSectionsStep(before, sections, hs, i);
      sections := sections + [Heading(Get(hs[i], "id", Slug(text)), text)];
    }
    assert hs[..|hs|] == hs;
  }

  /** The table pass: append one section per table that has headers or rows. */
  method AppendTables(doc: seq<Node>, before: seq<Section>) returns (sections: seq<Section>)
    ensures sections == before + TableSections(FindAll(doc, TableTags))
  {
    sections := before;
    var ts := FindAll(doc, TableTags);
    for i := 0 to |ts|
      invariant sections == before + TableSections(ts[..i])
    {
      var table := ts[i];
      var headers := Headers(table);
      var rows := CollectRows(table);
      TableSectionsStep(before, sections, ts, i, headers, rows);
      if headers != [] || rows != [] {
        sections := sections + [Table(headers, rows)];
      }
    }
    assert ts[..|ts|] == ts;
  }

  /** The list pass: append one section per `ul`/`ol` that has items. */
  method AppendLists(doc: seq<Node>, before: seq<Section>) returns (sections: seq<Section>)
    ensures sections == before + ListSections(FindAll(doc, ListTags))
  {
    sections := before;
    var ls := FindAll(doc, ListTags);
    for i := 0 to |ls|
      invariant sections == before + ListSections(ls[..i])
    {
      var items := ListItems(ls[i]);
      ListSectionsStep(before, sections, ls, i, items);
      if items != [] {
        sections := sections + [List(items)];
      }
    }
    assert ls[..|ls|] == ls;
  }

  lemma TableSectionsStep(before: seq<Section>, sections: seq<Section>, ts: seq<Node>, i: int,
                          headers: seq<string>, rows: seq<seq<string>>)
    requires 0 <= i < |ts| && sections == before + TableSections(ts[..i])
    requires headers == Headers(ts[i]) && rows == TableRows(ts[i])
    ensures headers != [] || rows != [] ==> sections + [Table(headers, rows)] == before + TableSections(ts[..i + 1])
    ensures headers == [] && rows == [] ==> sections == before + TableSections(ts[..i + 1])
  {
    assert ts[..i + 1][..i] == ts[..i];
  }

  lemma ImageSectionsStep(before: seq<Section>, sections: seq<Section>, imgs: seq<Node>, i: int)
    requires 0 <= i < |imgs| && sections == before + ImageSections(imgs[..i])
    ensures sections + [Image(Get(imgs[i], "src", ""), Get(imgs[i], "alt", ""))] == before + ImageSections(imgs[..i + 1])
  {
    assert imgs[..i + 1][..i] == imgs[..i];
  }

  lemma HeadingSectionsStep(before: seq<Section>, sections: seq<Section>, hs: seq<Node>, i: int)
    requires 0 <= i < |hs| && sections == before + HeadingSections(hs[..i])
    ensures var text := NodeText(hs[i]);
            sections + [Heading(Get(hs[i], "id", Slug(text)), text)] == before + HeadingSections(hs[..i + 1])
  {
    assert hs[..i + 1][..i] == hs[..i];
  }

  lemma ListSectionsStep(before: seq<Section>, sections: seq<Section>, ls: seq<Node>, i: int, items: seq<string>)
    requires 0 <= i < |ls| && sections == before + ListSections(ls[..i])
    requires items == ListItems(ls[i])
    ensures items != [] ==> sections + [List(items)] == before + ListSections(ls[..i + 1])
    ensures items == [] ==> sections == before + ListSections(ls[..i + 1])
  {
    assert ls[..i + 1][..i] == ls[..i];
  }

  /** The four passes, one after the other, appending to one list of sections. */
  method CollectSections(doc: seq<Node>) returns (sections: seq<Section>)
    ensures sections == Sections(doc)
  {
    ghost var imgs, hs := ImageSections(FindAll(doc, ImageTags)), HeadingSections(FindAll(doc, HeadingTags));
    ghost var ts, ls := TableSections(FindAll(doc, TableTags)), ListSections(FindAll(doc, ListTags));
    sections := AppendImages(doc, []);
    assert sections == imgs;
    sections := AppendHeadings(doc, sections);
    assert sections == imgs + hs;
    sections := AppendTables(doc, sections);
    assert sections == imgs + hs + ts;
    sections := AppendLists(doc, sections);
  }
}
