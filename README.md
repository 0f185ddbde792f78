# HTML page to PHP array converter, modelled in Dafny

This project models `html_to_php_array` from `convert-php.py`. The function takes a parsed
HTML page and returns the text of a PHP file. The file declares a `$page_content` array holding:

- the page title: the text of the first `h1`, or `Untitled Page`;
- the excerpt: the text of the first `p` inside an element of class `excerpt`, or `''`;
- a list of typed sections, gathered in four passes over the whole page:
  - every `img`, as `src` and `alt`;
  - every `h2`/`h3`, with its `id` attribute or a slug of its text;
  - every `table` with headers or non-empty rows;
  - every `ul`/`ol` with items.

The modules follow the function's structure:

- `Dom` (`dom.dfy`): the parsed tree, and the queries the function runs on it.
  - `get_text(strip=True)`.
  - `find_all` and `find`.
  - The CSS query `select_one('.excerpt p')`.
  - All of them are document-order (pre-order) traversals.
- `Extract` (`extract.dfy`): the extraction of the title, the excerpt and the sections.
  - The passes and the `tr` loop are methods with loops.
  - Each method is proved equal to a specification function.
  - The promised properties are proved about those functions.
- `PyRepr` (`pyrepr.dfy`): Python's `repr` of a string, a list of strings and a list of lists.
  - The f-strings write table headers, rows and list items through it.
  - It has a decoder and a proved round trip.
- `Php` (`php.dfy`): the generated file.
  - `Render` specifies the file.
  - The method `Serialise` builds it with `+=`, as the source does, and is proved equal to `Render`.
- `Converter` (`convert.dfy`): the whole function, plus a worked example page.
- `Wrappers` (`wrappers.dfy`): `Option`.

The title, the excerpt, `src`, `alt`, `id` and heading text are spliced between single quotes
with no escaping. The model keeps this as written. Two lemmas pin down what that means:

- without a `'`, the title and the excerpt can be read back from the file;
- with a `'`, a title can forge the excerpt entry.

## Model

| member | source | states |
|---|---|---|
| Dom.Strip | convert-php.py:9 | `strip()`: the result has no whitespace at either end, and it is the input less whitespace only at either end (Python's `isspace` set) |
| Dom.NodeText | convert-php.py:9 | `get_text(strip=True)` never starts or ends with whitespace |
| Dom.FindAll | convert-php.py:18 | `find_all(names)`: the elements of the tree in document order whose tag is one of `names`; `Dom.FilterMembers` proves which elements it keeps |
| Dom.FilterMembers | convert-php.py:18 | `find_all(names)` keeps exactly the elements whose tag is one of `names` |
| Dom.Find | convert-php.py:9 | `find` is `None` exactly when no element has the tag; otherwise it is the first such element in document order |
| Dom.WalkMeetsElements | convert-php.py:12 | the walk used by `select_one` meets the same elements as `find_all`, in the same order |
| Dom.SelectExcerptParagraph | convert-php.py:12 | `select_one('.excerpt p')`: the first `p`, in document order, with an ancestor of class `excerpt`; `Dom.WalkMeetsElements` and `Dom.FirstExcerptParagraph` prove that this is what it finds |
| Dom.FirstExcerptParagraph | convert-php.py:12 | `.excerpt p` matches nothing exactly when no `p` has an ancestor of class `excerpt`; otherwise it gives the first such `p` |
| Extract.Title | convert-php.py:9 | the title is the text of the first `h1` in document order, or `Untitled Page` when there is none |
| Extract.Excerpt | convert-php.py:12-13 | the excerpt is the text of the first `p` with an ancestor of class `excerpt`, or `''` when there is none |
| Extract.LowerAt | convert-php.py:29 | `lower()` changes each character in place to its lower-case form |
| Extract.ReplaceAt | convert-php.py:29 | `replace(' ', '-')` puts `-` exactly where the text has a space and keeps every other character |
| Extract.SlugShape | convert-php.py:29 | the slug has the text's length; each space becomes `-` and every other character is lower-cased; the slug holds no space |
| Extract.HeadingSection | convert-php.py:26-31 | the section for an `h2`/`h3`; `Extract.HeadingSectionFields` states what it holds |
| Extract.HeadingSectionFields | convert-php.py:29-30 | a heading section carries the heading's text; its id is the `id` attribute when present, and otherwise exactly the slug of the text, which is space-free and as long as the text |
| Extract.TextsAt | convert-php.py:35 | a text-list comprehension gives one text per element, each the text of the element at the same position |
| Extract.RowsOfEmpty | convert-php.py:37-40 | the rows loop keeps no row exactly when no `tr` has a `td` |
| Extract.CollectRows | convert-php.py:36-40 | the `tr` loop appends the `td` texts of each `tr`, in order, skipping rows with no cells |
| Extract.TableEligibility | convert-php.py:34-46 | a table yields a section if and only if it has a `th` descendant or a `tr` descendant with a `td`; every row of that section is non-empty |
| Extract.ListEligibility | convert-php.py:49-55 | a `ul`/`ol` yields a section if and only if it has an `li` descendant, and that section's items are non-empty |
| Extract.ImageSection | convert-php.py:18-23 | the section for an `img`: its `src` and `alt`, each `''` when absent; `Extract.ImageSectionsAt` states this for every image of the page |
| Extract.TableSection | convert-php.py:34-46 | the section for a `table`, present only when it has headers or rows; `Extract.TableEligibility` states when and what |
| Extract.ListSection | convert-php.py:49-55 | the section for a `ul`/`ol`, present only when it has items; `Extract.ListEligibility` states when and what |
| Extract.ImageSectionsAt | convert-php.py:18-23 | exactly one image section per `img`, in document order, with its `src` and `alt`, each `''` when absent |
| Extract.HeadingSectionsAt | convert-php.py:26-31 | exactly one heading section per `h2`/`h3`, in document order |
| Extract.TableSectionsShape | convert-php.py:34-46 | every section of the table pass is a table with headers or rows, and every row has a cell |
| Extract.ListSectionsShape | convert-php.py:49-55 | every section of the list pass is a list with at least one item |
| Extract.TableSectionsCount | convert-php.py:41-46 | the table pass yields one section per table with content |
| Extract.ListSectionsCount | convert-php.py:51-55 | the list pass yields one section per list with an item |
| Extract.TableSectionsConcat | convert-php.py:34 | the table pass keeps document order: on two runs of tables it yields the first run's sections, then the second's |
| Extract.ListSectionsConcat | convert-php.py:49 | the list pass keeps document order in the same sense |
| Extract.Sections | convert-php.py:15-55 | the page's sections: the image, heading, table and list passes laid end to end; `Extract.SectionsLayout` and `Extract.SectionsGroupedByKind` state their layout |
| Extract.SectionsLayout | convert-php.py:15-55 | the sections are, in order: the image sections of every `img`, the heading sections of every `h2`/`h3`, then one table per table with content, then one list per list with items |
| Extract.SectionsGroupedByKind | convert-php.py:15-55 | no section comes after a section of a later pass: images, then headings, then tables, then lists |
| Extract.AppendImages | convert-php.py:18-23 | the image loop appends exactly the image pass's sections to what was there |
| Extract.AppendHeadings | convert-php.py:26-31 | the heading loop appends exactly the heading pass's sections |
| Extract.AppendTables | convert-php.py:34-46 | the table loop appends exactly the table pass's sections |
| Extract.AppendLists | convert-php.py:49-55 | the list loop appends exactly the list pass's sections |
| Extract.CollectSections | convert-php.py:15-55 | the four loops, run in turn on an empty list, give the page's sections |
| PyRepr.Repr | convert-php.py:72-74 | `repr` of one header, cell or item, as the f-strings write it inside a list: quoted and escaped; `PyRepr.UnreprRepr` reads every repr back to its string, and `PyRepr.ReprInjective` shows that no two strings share one |
| PyRepr.ListRepr | convert-php.py:74 | the repr of a list of strings is bracketed and holds no line break |
| PyRepr.NestedListRepr | convert-php.py:72 | the repr of a list of rows is bracketed and holds no line break |
| PyRepr.UnreprRepr | convert-php.py:72-74 | reading back the repr of a string gives the string |
| PyRepr.ReprInjective | convert-php.py:72-74 | two strings with the same repr are equal |
| Php.Render | convert-php.py:57-80 | the whole generated file; `Php.RenderParts`, `Php.RenderFrame` and `Php.RenderAroundTitle` state its shape, and `Php.Serialise` builds it |
| Php.SectionLine | convert-php.py:66-74 | the line for one section, with `src`, `alt`, `id` and heading text spliced raw and lists written through `repr`; `Php.SectionLineIsOneLine` states when it is one line |
| Php.RenderParts | convert-php.py:58-64 | the file is the prologue, the title entry, the excerpt entry, then the rest |
| Php.RenderFrame | convert-php.py:58-80 | the file starts with the fixed prologue and ends with `?>` and a line break |
| Php.SectionLineIsOneLine | convert-php.py:66-74 | when its raw values hold no line break, each section is written as exactly one line |
| Php.SectionLinesNewlines | convert-php.py:66-74 | the section part of the file holds one line break per section |
| Php.RenderAroundTitle | convert-php.py:61-62 | the file is fixed text, then the raw title, then fixed text, then the raw excerpt, then the rest |
| Php.QuoteFreeTitleAndExcerptRecoverable | convert-php.py:61-62 | if titles and excerpts hold no `'`, two pages with the same file have the same title and excerpt |
| Php.QuotedTitleForgesExcerpt | convert-php.py:61-62 | a title holding `',\n    'excerpt' => '` gives the same file as a different title and excerpt |
| Php.Serialise | convert-php.py:57-80 | building the file with `+=`, one line per section in order, gives exactly `Render` of the page |
| Converter.HtmlToPhpArray | convert-php.py:4-82 | the whole conversion of a parsed page gives `Render` of its extracted title, excerpt and sections |
| Converter.ExampleExcerptFound | convert-php.py:12-13 | on a page whose `div` of class `excerpt` holds `<p>Hi there</p>`, `.excerpt p` finds that `p` and the excerpt is `Hi there` |
| Converter.ExamplePage | convert-php.py:9-31 | on a page with a padded `h1`, an `img` without `alt` and an `h2` without `id`: title `Welcome`, excerpt `''`, sections `[Image("a.png", ""), Heading("about-us", "About Us")]` |

## Left out

- `convert_folder` and the `__main__` block (convert-php.py:85-103) are not modelled. They list a directory, read and overwrite files, prompt on the console and print, which is all I/O.
- Parsing HTML text into a tree is not modelled; the input is the parsed tree. BeautifulSoup's lenient error recovery is library behaviour.
- The tree holds elements and runs of character data only. Comments, doctypes and processing instructions are not represented, and `get_text` leaves them out anyway.
- A `NavigableString` stands only for text that `get_text` reads. BeautifulSoup 4.9 and later give the character data inside `script`, `style`, `template`, `rt` and `rp` its own string classes, and `get_text` on any other tag skips it. So that character data, at any depth below those tags, is not in the tree. For example, `<h1>Hi<script>x()</script></h1>` is an `h1` holding only the text `Hi`, and `<h1>漢<rt>kan</rt></h1>` is an `h1` holding `漢` and an empty `rt`.
- Elements inside a `template` stay in the tree, because `html.parser` parses a template's contents as ordinary elements; only their text is left out. So `<template><h1>T</h1></template>` holds an `h1` with no text, and the title is `''`. An `img`, `h2`/`h3`, `table` or `ul`/`ol` inside a `template` still yields its section.
- The `class` attribute is kept apart from the other attributes as a list of words, as BeautifulSoup splits it. The other attributes are single strings.
- Tag names are compared as given. The parser lower-cases them before the converter sees them.
- Extract.LowerChar: lower-cases ASCII letters only. Python's `lower()` also maps non-ASCII letters.
- PyRepr.EscapeChar: characters above U+00FF are written unescaped. Python escapes the non-printable ones among them as `\u` or `\U` sequences.
- `date('F Y')` is emitted as literal text (`Php.UpdatedEntry`). No clock is involved.
- Php.SectionLinesNewlines: the line count assumes the raw `src`, `alt`, `id` and heading text hold no line break. Such a value would split a section's line, and the file is still produced.
