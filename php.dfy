/**
 * The serialisation half of the converter: the generated PHP file. It is a fixed prologue,
 * the page's `title` and `excerpt` spliced between single quotes exactly as they are, with
 * no escaping, a fixed `updated` entry, one line per section in section order, and a fixed
 * epilogue that closes the array and declares an empty `renderContent` function.
 *
 * Table headers, table rows and list items are written as Python writes a list (see
 * PyRepr); every other value is spliced in raw, so a value holding a `'` ends the PHP
 * string literal early.
 */
module Php {

  import opened Extract
  import PyRepr

  /** The opening tag, the generated-file comment and the start of the array. */
  const Prologue := "<?php\n" + "// Auto-generated file from converter\n\n" + "$page_content = [\n"

  /** The `updated` entry: PHP's `date('F Y')`, written out as code, not as a value. */
  const UpdatedEntry := "    'updated' => date('F Y'),\n"

  /** The opening of the `sections` entry. */
  const SectionsOpen := "    'sections' => [\n"

  /** The `title` entry: the title between single quotes, not escaped. */
  function TitleEntry(title: string): string
  {
    "    'title' => '" + title + "',\n"
  }

  /** The `excerpt` entry: the excerpt between single quotes, not escaped. */
  function ExcerptEntry(excerpt: string): string
  {
    "    'excerpt' => '" + excerpt + "',\n"
  }

  /** Everything before the section lines. */
  function Header(title: string, excerpt: string): string
  {
    Prologue + TitleEntry(title) + ExcerptEntry(excerpt) + UpdatedEntry + SectionsOpen
  }

  /** The line for one section, tagged with its type. */
  function SectionLine(s: Section): string
  {
    match s
    case Image(src, alt) =>
      "        [ 'type' => 'image', 'src' => '" + src + "', 'alt' => '" + alt + "' ],\n"
    case Heading(id, text) =>
      "        [ 'type' => 'heading', 'id' => '" + id + "', 'text' => '" + text + "' ],\n"
    case Table(headers, rows) =>
      "        [ 'type' => 'table', 'headers' => " + PyRepr.ListRepr(headers) +
      ", 'rows' => " + PyRepr.NestedListRepr(rows) + " ],\n"
    case List(items) =>
      "        [ 'type' => 'list', 'items' => " + PyRepr.ListRepr(items) + " ],\n"
  }

  /** The lines for `ss`, in order. */
  function SectionLines(ss: seq<Section>): string
  {
    if ss == [] then "" else SectionLines(ss[..|ss| - 1]) + SectionLine(ss[|ss| - 1])
  }

  /** The close of `sections` and of the array, then the stub rendering function. */
  const Closing := "    ]\n];\n\n" +
                   "function renderContent($content, $viewType = 'desktop') {\n" +
                   "    // Add rendering logic similar to create-audience.php\n" +
                   "}\n"

  /** What follows the section lines: the closing part, then the PHP closing tag. */
  const Epilogue := Closing + "?>\n"

  /** The generated file for a page: the header, the section lines, then the epilogue. */
  function Render(p: Page): string
  {
    Header(p.title, p.excerpt) + SectionLines(p.sections) + Epilogue
  }

  /** What follows the excerpt entry. */
  function Tail(ss: seq<Section>): string
  {
    UpdatedEntry + SectionsOpen + SectionLines(ss) + Epilogue
  }

  // ---------------------------------------------------------------------------------------
  // The shape of the file
  // ---------------------------------------------------------------------------------------

  lemma Regroup5(x: string, a: string, b: string, c: string, d: string, e: string)
    ensures x + a + b + c + d + e == x + (a + b + c + d + e)
  {
  }

  lemma Regroup4(x: string, a: string, b: string, c: string, d: string)
    ensures x + a + b + c + d == x + (a + b + c + d)
  {
  }

  /** The file is the prologue, the title entry, the excerpt entry and the rest, in that
      order. */
  lemma RenderParts(p: Page)
    ensures Render(p) == Prologue + TitleEntry(p.title) + ExcerptEntry(p.excerpt) + Tail(p.sections)
  {
    Regroup4(Prologue + TitleEntry(p.title) + ExcerptEntry(p.excerpt), UpdatedEntry, SectionsOpen,
             SectionLines(p.sections), Epilogue);
  }

  lemma PrefixOfConcat(x: string, a: string, b: string, c: string)
    ensures |x + a + b + c| >= |x| && (x + a + b + c)[..|x|] == x
  {
    assert x + a + b + c == x + (a + b + c);
  }

  lemma SuffixOfConcat(x: string, a: string)
    ensures |x + a| >= |a| && (x + a)[|x + a| - |a|..] == a
  {
  }

  /** The file opens with the prologue and closes with `?>` and a newline. */
  lemma RenderFrame(p: Page)
    ensures |Render(p)| >= |Prologue| + 3
    ensures Render(p)[..|Prologue|] == Prologue
    ensures Render(p)[|Render(p)| - 3..] == "?>\n"
  {
    RenderParts(p);
    PrefixOfConcat(Prologue, TitleEntry(p.title), ExcerptEntry(p.excerpt), Tail(p.sections));
    Associative(Header(p.title, p.excerpt) + SectionLines(p.sections), Closing, "?>\n");
    SuffixOfConcat(Header(p.title, p.excerpt) + SectionLines(p.sections) + Closing, "?>\n");
    assert |Tail(p.sections)| >= 3;
  }

  // ---------------------------------------------------------------------------------------
  // One line per section
  // ---------------------------------------------------------------------------------------

  /** `s` is one line: it ends with a line break and holds no other. */
  predicate OneLine(s: string)
  {
    |s| > 0 && s[|s| - 1] == '\n' && '\n' !in s[..|s| - 1]
  }

  /** The number of line breaks in `s`. */
  function Newlines(s: string): nat
  {
    multiset(s)['\n']
  }

  lemma OneLineAfter(a: string, b: string)
    requires '\n' !in a && OneLine(b)
    ensures OneLine(a + b)
  {
    assert (a + b)[..|a + b| - 1] == a + b[..|b| - 1];
  }

  lemma OneLineNewlines(s: string)
    requires OneLine(s)
    ensures Newlines(s) == 1
  {
    assert s == s[..|s| - 1] + [s[|s| - 1]];
  }

  /** The raw values of a section hold no line break (the values written through `repr`
      never do). */
  predicate SectionSingleLine(s: Section)
  {
    match s
    case Image(src, alt) => '\n' !in src && '\n' !in alt
    case Heading(id, text) => '\n' !in id && '\n' !in text
    case Table(_, _) => true
    case List(_) => true
  }

  lemma ImageLineIsOneLine(src: string, alt: string)
    requires '\n' !in src && '\n' !in alt
    ensures OneLine(SectionLine(Image(src, alt)))
  {
    assert OneLine("' ],\n");
    OneLineAfter("        [ 'type' => 'image', 'src' => '" + src + "', 'alt' => '" + alt, "' ],\n");
  }

  lemma HeadingLineIsOneLine(id: string, text: string)
    requires '\n' !in id && '\n' !in text
    ensures OneLine(SectionLine(Heading(id, text)))
  {
    assert OneLine("' ],\n");
    OneLineAfter("        [ 'type' => 'heading', 'id' => '" + id + "', 'text' => '" + text, "' ],\n");
  }

  lemma TableLineIsOneLine(headers: seq<string>, rows: seq<seq<string>>)
    ensures OneLine(SectionLine(Table(headers, rows)))
  {
    assert OneLine(" ],\n");
    OneLineAfter("        [ 'type' => 'table', 'headers' => " + PyRepr.ListRepr(headers) +
                 ", 'rows' => " + PyRepr.NestedListRepr(rows), " ],\n");
  }

  lemma ListLineIsOneLine(items: seq<string>)
    ensures OneLine(SectionLine(List(items)))
  {
    assert OneLine(" ],\n");
    OneLineAfter("        [ 'type' => 'list', 'items' => " + PyRepr.ListRepr(items), " ],\n");
  }

  /** When its raw values hold no line break, a section is written as exactly one line. */
  lemma SectionLineIsOneLine(s: Section)
    requires SectionSingleLine(s)
    ensures OneLine(SectionLine(s))
  {
    match s
    case Image(src, alt) => ImageLineIsOneLine(src, alt);
    case Heading(id, text) => HeadingLineIsOneLine(id, text);
    case Table(headers, rows) => TableLineIsOneLine(headers, rows);
    case List(items) => ListLineIsOneLine(items);
  }

  /** The section lines hold exactly one line break per section. */
  lemma {:induction false} SectionLinesNewlines(ss: seq<Section>)
    requires forall k :: 0 <= k < |ss| ==> SectionSingleLine(ss[k])
    ensures Newlines(SectionLines(ss)) == |ss|
  {
    if ss != [] {
      SectionLinesNewlines(ss[..|ss| - 1]);
      SectionLineIsOneLine(ss[|ss| - 1]);
      OneLineNewlines(SectionLine(ss[|ss| - 1]));
    }
  }

  // ---------------------------------------------------------------------------------------
  // Values spliced in without escaping
  // ---------------------------------------------------------------------------------------

  /** What stands before the title in the file. */
  const TitleOpening := Prologue + "    'title' => '"

  /** What stands between the title and the excerpt in the file. */
  const TitleExcerptSeam := "',\n" + "    'excerpt' => '"

  lemma SpliceRegroup(x: string, a: string, t: string, b: string, c: string, e: string, y: string)
    ensures ((x + ((a + t) + b)) + ((c + e) + b)) + y == ((((x + a) + t) + (b + c)) + e) + (b + y)
  {
  }

  /** The file is the title and the excerpt spliced into fixed text around them. */
  lemma RenderAroundTitle(p: Page)
    ensures Render(p) == TitleOpening + p.title + TitleExcerptSeam + p.excerpt + ("',\n" + Tail(p.sections))
  {
    RenderParts(p);
    SpliceRegroup(Prologue, "    'title' => '", p.title, "',\n", "    'excerpt' => '", p.excerpt,
                  Tail(p.sections));
  }

  lemma SplitRegroup(o: string, t: string, s: string, e: string, z: string)
    ensures o + t + s + e + z == o + t + (s + e + z)
  {
  }

  /** The quote that opens `b` is the first quote after `a`. */
  lemma FirstQuoteAfter(a: string, t: string, b: string)
    requires '\'' !in t && |b| > 0 && b[0] == '\''
    ensures (a + t + b)[|a| + |t|] == '\''
    ensures forall k :: |a| <= k < |a| + |t| ==> (a + t + b)[k] != '\''
  {
    forall k | |a| <= k < |a| + |t|
      ensures (a + t + b)[k] != '\''
    {
      assert (a + t + b)[k] == t[k - |a|];
    }
  }

  /** If the first quote after `a` comes at the same place in two strings, they agree up to it. */
  lemma SplitAtQuote(a: string, t1: string, b1: string, t2: string, b2: string)
    requires a + t1 + b1 == a + t2 + b2
    requires '\'' !in t1 && '\'' !in t2
    requires |b1| > 0 && b1[0] == '\'' && |b2| > 0 && b2[0] == '\''
    ensures t1 == t2 && b1 == b2
  {
    var s := a + t1 + b1;
    FirstQuoteAfter(a, t1, b1);
    FirstQuoteAfter(a, t2, b2);
    assert |t1| == |t2|;
    assert t1 == s[|a|..|a| + |t1|];
    assert t2 == s[|a|..|a| + |t2|];
    assert b1 == s[|a| + |t1|..];
  }

  /** With no quote in either, the title and the excerpt can be read back from the file:
      two pages that give the same file have the same title and excerpt. */
  lemma QuoteFreeTitleAndExcerptRecoverable(p: Page, q: Page)
    requires '\'' !in p.title && '\'' !in p.excerpt && '\'' !in q.title && '\'' !in q.excerpt
    requires Render(p) == Render(q)
    ensures p.title == q.title && p.excerpt == q.excerpt
  {
    var zp, zq := "',\n" + Tail(p.sections), "',\n" + Tail(q.sections);
    RenderAroundTitle(p);
    RenderAroundTitle(q);
    SplitRegroup(TitleOpening, p.title, TitleExcerptSeam, p.excerpt, zp);
    SplitRegroup(TitleOpening, q.title, TitleExcerptSeam, q.excerpt, zq);
    assert TitleExcerptSeam[0] == '\'';
    SplitAtQuote(TitleOpening, p.title, TitleExcerptSeam + p.excerpt + zp,
                 q.title, TitleExcerptSeam + q.excerpt + zq);
    assert zp[0] == '\'' && zq[0] == '\'';
    SplitAtQuote(TitleExcerptSeam, p.excerpt, zp, q.excerpt, zq);
  }

  lemma ForgeRegroup(o: string, a: string, s: string, b: string, c: string, z: string)
    ensures o + (a + s + b) + s + c + z == o + a + s + (b + s + c) + z
  {
  }

  /** With a quote allowed, they cannot: a title that ends its own literal and writes the
      excerpt entry gives the same file as a different title and excerpt. */
  lemma QuotedTitleForgesExcerpt(a: string, b: string, c: string, ss: seq<Section>)
    ensures Page(a + TitleExcerptSeam + b, c, ss) != Page(a, b + TitleExcerptSeam + c, ss)
    ensures Render(Page(a + TitleExcerptSeam + b, c, ss)) == Render(Page(a, b + TitleExcerptSeam + c, ss))
  {
    var p, q := Page(a + TitleExcerptSeam + b, c, ss), Page(a, b + TitleExcerptSeam + c, ss);
    assert |p.title| > |q.title|;
    RenderAroundTitle(p);
    RenderAroundTitle(q);
    ForgeRegroup(TitleOpening, a, TitleExcerptSeam, b, c, "',\n" + Tail(ss));
  }

  // ---------------------------------------------------------------------------------------
  // The += loop
  // ---------------------------------------------------------------------------------------

  lemma Associative(a: string, b: string, c: string)
    ensures (a + b) + c == a + (b + c)
  {
  }

  lemma SectionLinesStep(before: string, php: string, ss: seq<Section>, i: int)
    requires 0 <= i < |ss| && php == before + SectionLines(ss[..i])
    ensures php + SectionLine(ss[i]) == before + SectionLines(ss[..i + 1])
  {
    assert ss[..i + 1][..i] == ss[..i];
    Associative(before, SectionLines(ss[..i]), SectionLine(ss[i]));
  }

  /** Builds the file piece by piece, appending one line per section. */
  method Serialise(p: Page) returns (php: string)
    ensures php == Render(p)
  {
    php := "<?php\n";
    php := php + "// Auto-generated file from converter\n\n";
    php := php + "$page_content = [\n";
    php := php + TitleEntry(p.title);
    php := php + ExcerptEntry(p.excerpt);
    php := php + "    'updated' => date('F Y'),\n";
    php := php + "    'sections' => [\n";
    ghost var header := php;
    assert header == Header(p.title, p.excerpt);

    for i := 0 to |p.sections|
      invariant php == header + SectionLines(p.sections[..i])
    {
      SectionLinesStep(header, php, p.sections, i);
      php := php + SectionLine(p.sections[i]);
    }
    assert p.sections[..|p.sections|] == p.sections;

    php := php + "    ]\n];\n\n";
    php := php + "function renderContent($content, $viewType = 'desktop') {\n";
    php := php + "    // Add rendering logic similar to create-audience.php\n";
    php := php + "}\n";
    php := php + "?>\n";
    Regroup5(header + SectionLines(p.sections), "    ]\n];\n\n",
             "function renderContent($content, $viewType = 'desktop') {\n",
             "    // Add rendering logic similar to create-audience.php\n", "}\n", "?>\n");
  }
}
