// The heading-context chunker of the crawler (data/crawling.py): one fetched
// article becomes a full document plus one chunk per heading whose section
// has text, each chunk carrying the h1/h2/h3/h4 path that leads to it.
//
// The parsed page is abstract: an article is its text strings (as they stood
// before cleaning) and the flat sequence of its child elements after
// cleaning, each child an element tag with its own text strings. The
// document id of a URL is an uninterpreted function supplied by the caller.

module Crawling {
  import opened Common
  import opened Strings

  /** The element names the chunker looks at; every other element is
      `Other` with its name. */
  datatype Tag = H2 | H3 | H4 | P | Ul | Ol | Li | Other(name: string)

  /** One element: its tag and the text strings inside it, in document
      order. */
  datatype Node = Node(tag: Tag, strings: seq<string>)

  /** The `ftwp-postcontent` element: every text string inside it before
      cleaning, and its children after scripts, styles, figures, images,
      tables and nested divs were removed. */
  datatype Article = Article(strings: seq<string>, children: seq<Node>)

  /** The outcome of fetching one URL: the request failed (with the error
      text), or the page parsed, with or without the `ftwp-postcontent`
      article and with or without an `h1` element. */
  datatype Page = FetchFailed(error: string) | Fetched(article: Option<Article>, h1: Option<Node>)

  const H1Key := "section_h1"
  const H2Key := "section_h2"
  const H3Key := "section_h3"
  const H4Key := "section_h4"
  const NoH1 := "N/A"

  // ---------------------------------------------------------------------
  // Text of an element

  /** The strings kept by `strip=True`: each one stripped, empty ones dropped. */
  function StrippedStrings(strings: seq<string>): (r: seq<string>)
    ensures |r| <= |strings|
    ensures forall i :: 0 <= i < |r| ==> r[i] != []
  {
    if strings == [] then []
    else
      var s := PyStrip(strings[0]);
      (if s == [] then [] else [s]) + StrippedStrings(strings[1..])
  }

  /** Each string marked with what `strip=True` keeps of it: the stripped
      string when that is not empty, nothing otherwise. */
  function StrippedMarks(strings: seq<string>): (marks: seq<Option<string>>)
    ensures |marks| == |strings|
    ensures forall i :: 0 <= i < |strings| ==> (marks[i].Some? <==> PyStrip(strings[i]) != [])
  {
    seq(|strings|, i requires 0 <= i < |strings| => if PyStrip(strings[i]) != [] then Some(PyStrip(strings[i])) else None)
  }

  lemma {:induction false} StrippedSnoc(strings: seq<string>, last: string)
    ensures StrippedStrings(strings + [last]) ==
      StrippedStrings(strings) + if PyStrip(last) == [] then [] else [PyStrip(last)]
    decreases |strings|
  {
    if strings != [] {
      assert (strings + [last])[1..] == strings[1..] + [last];
      StrippedSnoc(strings[1..], last);
    }
  }

  lemma {:induction false} StrippedArePresent(strings: seq<string>)
    ensures StrippedStrings(strings) == Present(StrippedMarks(strings))
    decreases |strings|
  {
    if strings != [] {
      var n := |strings|;
      StrippedArePresent(strings[..n - 1]);
      StrippedSnoc(strings[..n - 1], strings[n - 1]);
      assert strings[..n - 1] + [strings[n - 1]] == strings;
      assert StrippedMarks(strings)[..n - 1] == StrippedMarks(strings[..n - 1]);
    }
  }

  /** `strip=True` keeps the stripped strings that are not empty, each once
      and in document order: kept string `j` is string `at[j]` stripped,
      the positions `at` increase, and a string is kept exactly when
      stripping leaves something. */
  lemma StrippedInOrder(strings: seq<string>)
    ensures var kept, at := StrippedStrings(strings), PresentAt(StrippedMarks(strings));
      && |at| == |kept|
      && (forall j :: 0 <= j < |at| ==> at[j] < |strings| && kept[j] == PyStrip(strings[at[j]]))
      && (forall j, l :: 0 <= j < l < |at| ==> at[j] < at[l])
      && (forall i :: 0 <= i < |strings| ==> (i in at <==> PyStrip(strings[i]) != []))
  {
    StrippedArePresent(strings);
    PresentInOrder(StrippedMarks(strings));
  }

  /** `get_text(separator=sep, strip=True)`. */
  function GetText(strings: seq<string>, sep: string): string
  {
    Join(StrippedStrings(strings), sep)
  }

  /** The text of a heading or of the h1: `get_text(strip=True)`. */
  function HeadingText(n: Node): string
  {
    GetText(n.strings, "")
  }

  predicate IsHeading(n: Node)
  {
    n.tag.H2? || n.tag.H3? || n.tag.H4?
  }

  predicate IsContent(n: Node)
  {
    n.tag.P? || n.tag.Ul? || n.tag.Ol? || n.tag.Li?
  }

  // ---------------------------------------------------------------------
  // extract_text_between_tags

  /** The texts gathered from `siblings` before the first one equal to
      `endTag` (elements compare by name and content, as in the parser):
      those of paragraphs and lists only. */
  function Collected(siblings: seq<Node>, endTag: Option<Node>): seq<string>
  {
    if siblings == [] || Some(siblings[0]) == endTag then []
    else (if IsContent(siblings[0]) then [GetText(siblings[0].strings, " ")] else [])
         + Collected(siblings[1..], endTag)
  }

  /** The texts of the paragraphs and lists among `nodes`. */
  function ContentTexts(nodes: seq<Node>): (r: seq<string>)
    ensures |r| <= |nodes|
  {
    if nodes == [] then []
    else (if IsContent(nodes[0]) then [GetText(nodes[0].strings, " ")] else []) + ContentTexts(nodes[1..])
  }

  /** The paragraph and list texts gathered from `siblings`, one per line. */
  function TextBetween(siblings: seq<Node>, endTag: Option<Node>): string
  {
    Join(Collected(siblings, endTag), "\n")
  }

  /** Walks the siblings after `nodes[start]`, stopping at the first one equal
      to `endTag`, and joins the paragraph and list texts with newlines. */
  method ExtractTextBetweenTags(nodes: seq<Node>, start: nat, endTag: Option<Node>) returns (text: string)
    requires start < |nodes|
    ensures text == TextBetween(nodes[start + 1..], endTag)
  {
    var siblings := nodes[start + 1..];
    var content: seq<string> := [];
    var j := 0;
    while j < |siblings|
      invariant 0 <= j <= |siblings|
      invariant Collected(siblings, endTag) == content + Collected(siblings[j..], endTag)
    {
      var sibling := siblings[j];
      CollectedAt(siblings, j, endTag);
      if Some(sibling) == endTag {
        break;
      }
      var piece := if IsContent(sibling) then [GetText(sibling.strings, " ")] else [];
      CollectedStep(siblings, endTag, content, j, piece);
      content := content + piece;
      j := j + 1;
    }
    CollectedEnds(siblings, endTag, content, j);
    text := Join(content, "\n");
  }

  /** One sibling that is not the end tag: its text, if it is a paragraph
      or a list, joins what was collected. */
  lemma CollectedStep(siblings: seq<Node>, endTag: Option<Node>, content: seq<string>, j: nat, piece: seq<string>)
    requires j < |siblings|
    requires Collected(siblings[j..], endTag) == piece + Collected(siblings[j + 1..], endTag)
    requires Collected(siblings, endTag) == content + Collected(siblings[j..], endTag)
    ensures Collected(siblings, endTag) == (content + piece) + Collected(siblings[j + 1..], endTag)
  {
  }

  /** The walk ends at the end tag or after the last sibling: everything
      has been collected. */
  lemma CollectedEnds(siblings: seq<Node>, endTag: Option<Node>, content: seq<string>, j: nat)
    requires j <= |siblings| && (j == |siblings| || Some(siblings[j]) == endTag)
    requires Collected(siblings, endTag) == content + Collected(siblings[j..], endTag)
    ensures Collected(siblings, endTag) == content
  {
    if j == |siblings| {
      assert siblings[j..] == [];
    }
    assert content + [] == content;
  }

  lemma CollectedAt(siblings: seq<Node>, j: nat, endTag: Option<Node>)
    requires j < |siblings|
    ensures Collected(siblings[j..], endTag) ==
      if Some(siblings[j]) == endTag then []
      else (if IsContent(siblings[j]) then [GetText(siblings[j].strings, " ")] else []) + Collected(siblings[j + 1..], endTag)
  {
    assert siblings[j..][1..] == siblings[j + 1..];
  }

  /** Without an end tag every paragraph and list after the start is taken. */
  lemma {:induction false} CollectedToEnd(siblings: seq<Node>)
    ensures Collected(siblings, None) == ContentTexts(siblings)
  {
    if siblings != [] {
      CollectedToEnd(siblings[1..]);
    }
  }

  /** With an end tag that first occurs at `stop`, exactly the paragraphs and
      lists before it are taken. */
  lemma {:induction false} CollectedUpTo(siblings: seq<Node>, stop: nat)
    requires stop < |siblings|
    requires forall i :: 0 <= i < stop ==> siblings[i] != siblings[stop]
    ensures Collected(siblings, Some(siblings[stop])) == ContentTexts(siblings[..stop])
  {
    if stop > 0 {
      CollectedUpTo(siblings[1..], stop - 1);
      assert siblings[1..][..stop - 1] == siblings[..stop][1..];
    }
  }

  // ---------------------------------------------------------------------
  // The headings of the article and the context they build

  /** Positions of the h2/h3/h4 children, in document order. */
  function HeadingPositions(nodes: seq<Node>): (hs: seq<nat>)
    ensures forall i :: 0 <= i < |hs| ==> hs[i] < |nodes|
  {
    if nodes == [] then []
    else
      var init := HeadingPositions(nodes[..|nodes| - 1]);
      init + (if IsHeading(nodes[|nodes| - 1]) then [|nodes| - 1] else [])
  }

  /** `find_all(['h2', 'h3', 'h4'])` over the flat children: the positions
      found are headings, in increasing order, and no heading is missed. */
  lemma {:induction false} HeadingPositionsProps(nodes: seq<Node>)
    ensures var hs := HeadingPositions(nodes);
      && (forall i :: 0 <= i < |hs| ==> IsHeading(nodes[hs[i]]))
      && (forall i, j :: 0 <= i < j < |hs| ==> hs[i] < hs[j])
      && (forall p :: 0 <= p < |nodes| && IsHeading(nodes[p]) ==> p in hs)
  {
    if nodes != [] {
      var init := nodes[..|nodes| - 1];
      HeadingPositionsProps(init);
      var hs := HeadingPositions(nodes);
      var his := HeadingPositions(init);
      assert hs == his + (if IsHeading(nodes[|nodes| - 1]) then [|nodes| - 1] else []);
      forall i | 0 <= i < |hs| ensures IsHeading(nodes[hs[i]]) {
        if i < |his| {
          assert hs[i] == his[i] && init[his[i]] == nodes[his[i]];
          assert forall k :: 0 <= k < |his| ==> IsHeading(init[his[k]]);
          assert IsHeading(init[his[i]]);
        } else {
          assert hs[i] == |nodes| - 1;
        }
      }
      forall p | 0 <= p < |nodes| && IsHeading(nodes[p]) ensures p in hs {
        if p < |nodes| - 1 {
          assert init[p] == nodes[p];
          var k :| 0 <= k < |his| && his[k] == p;
          assert hs[k] == p;
        } else {
          assert hs[|hs| - 1] == p;
        }
      }
    }
  }

  predicate ValidPositions(hs: seq<nat>, nodes: seq<Node>)
  {
    forall i :: 0 <= i < |hs| ==> hs[i] < |nodes|
  }

  /** What the loop reads off a heading: its level and its text. */
  datatype Heading = Heading(tag: Tag, text: string)

  function HeadingOf(n: Node): Heading
  {
    Heading(n.tag, HeadingText(n))
  }

  /** The headings at positions `hs`, read off in order. */
  function HeadingsAt(nodes: seq<Node>, hs: seq<nat>): (heads: seq<Heading>)
    requires ValidPositions(hs, nodes)
    ensures |heads| == |hs|
    ensures forall i :: 0 <= i < |hs| ==> heads[i] == HeadingOf(nodes[hs[i]])
  {
    if hs == [] then [] else HeadingsAt(nodes, hs[..|hs| - 1]) + [HeadingOf(nodes[hs[|hs| - 1]])]
  }

  /** `section_h1`: the h1 text, or "N/A" when the page has no h1. */
  function H1Text(h1: Option<Node>): string
  {
    if h1.Some? then HeadingText(h1.value) else NoH1
  }

  /** The context before the first heading holds `section_h1` only. */
  function InitialContext(h1Text: string): Metadata
  {
    map[H1Key := h1Text]
  }

  /** The context after one heading (the `if`/`elif` chain on its level). */
  function Step(ctx: Metadata, heading: Heading): (r: Metadata)
    ensures r.Keys <= ctx.Keys + {H2Key, H3Key, H4Key}
    ensures H1Key in ctx ==> H1Key in r && r[H1Key] == ctx[H1Key]
    ensures heading.tag !in {H2, H3, H4} ==> r == ctx
  {
    match heading.tag
    case H2 => ctx[H2Key := heading.text] - {H3Key, H4Key}
    case H3 => ctx[H3Key := heading.text] - {H4Key}
    case H4 => ctx[H4Key := heading.text]
    case _ => ctx
  }

  /** An h2 sets `section_h2` and drops the deeper levels, an h3 sets
      `section_h3` and drops `section_h4`, an h4 sets `section_h4`; every
      other key keeps its value. */
  lemma StepEffect(ctx: Metadata, heading: Heading)
    ensures var r := Step(ctx, heading);
      && (heading.tag == H2 ==>
            && H2Key in r && r[H2Key] == heading.text
            && H3Key !in r && H4Key !in r
            && (forall key :: key in ctx && key != H2Key && key != H3Key && key != H4Key ==> key in r && r[key] == ctx[key]))
      && (heading.tag == H3 ==>
            && H3Key in r && r[H3Key] == heading.text
            && H4Key !in r
            && (forall key :: key in ctx && key != H3Key && key != H4Key ==> key in r && r[key] == ctx[key]))
      && (heading.tag == H4 ==>
            && H4Key in r && r[H4Key] == heading.text
            && (forall key :: key in ctx && key != H4Key ==> key in r && r[key] == ctx[key]))
      && r.Keys <= ctx.Keys + {H2Key, H3Key, H4Key}
  {
  }

  /** The context after a run of headings. */
  function ContextAfter(ctx: Metadata, heads: seq<Heading>): Metadata
  {
    if heads == [] then ctx else Step(ContextAfter(ctx, heads[..|heads| - 1]), heads[|heads| - 1])
  }

  /** The context after the first `n` of the headings at positions `hs`. */
  function ContextAt(h1: Option<Node>, nodes: seq<Node>, hs: seq<nat>, n: nat): Metadata
    requires ValidPositions(hs, nodes) && n <= |hs|
  {
    if n == 0 then InitialContext(H1Text(h1)) else Step(ContextAt(h1, nodes, hs, n - 1), HeadingOf(nodes[hs[n - 1]]))
  }

  lemma {:induction false} ContextAtIsAfter(h1: Option<Node>, nodes: seq<Node>, hs: seq<nat>, n: nat)
    requires ValidPositions(hs, nodes) && n <= |hs|
    ensures ContextAt(h1, nodes, hs, n) == ContextAfter(InitialContext(H1Text(h1)), HeadingsAt(nodes, hs[..n]))
  {
    if n > 0 {
      var prev := HeadingsAt(nodes, hs[..n - 1]);
      var last := HeadingOf(nodes[hs[n - 1]]);
      HeadingsAtSnoc(nodes, hs, n);
      ContextAfterSnoc(InitialContext(H1Text(h1)), prev, last);
      ContextAtIsAfter(h1, nodes, hs, n - 1);
    }
  }

  lemma ContextAfterSnoc(ctx: Metadata, heads: seq<Heading>, last: Heading)
    ensures ContextAfter(ctx, heads + [last]) == Step(ContextAfter(ctx, heads), last)
  {
    assert (heads + [last])[..|heads|] == heads;
  }

  lemma HeadingsAtSnoc(nodes: seq<Node>, hs: seq<nat>, n: nat)
    requires ValidPositions(hs, nodes) && 0 < n <= |hs|
    ensures HeadingsAt(nodes, hs[..n]) == HeadingsAt(nodes, hs[..n - 1]) + [HeadingOf(nodes[hs[n - 1]])]
  {
    assert hs[..n][..n - 1] == hs[..n - 1];
  }

  /** Position of the last heading whose tag is in `tags`. */
  function LastWith(heads: seq<Heading>, tags: set<Tag>): (r: Option<nat>)
    ensures r.Some? ==> r.value < |heads| && heads[r.value].tag in tags
    ensures r.Some? ==> forall i :: r.value < i < |heads| ==> heads[i].tag !in tags
    ensures r.None? ==> forall i :: 0 <= i < |heads| ==> heads[i].tag !in tags
  {
    if heads == [] then None
    else if heads[|heads| - 1].tag in tags then Some(|heads| - 1)
    else LastWith(heads[..|heads| - 1], tags)
  }

  /** The heading path, stated without the loop: `section_h1` never changes
      and no key other than the four section keys appears; */
  predicate H1Path(ctx: Metadata, h1Text: string)
  {
    H1Key in ctx && ctx[H1Key] == h1Text && ctx.Keys <= {H1Key, H2Key, H3Key, H4Key}
  }

  /** `section_h2` is the text of the last h2 seen, absent before any; */
  predicate H2Path(ctx: Metadata, heads: seq<Heading>)
  {
    var l := LastWith(heads, {H2});
    (H2Key in ctx <==> l.Some?) && (l.Some? ==> ctx[H2Key] == heads[l.value].text)
  }

  /** `section_h3` is present exactly when the last h2-or-h3 was an h3, and
      is its text; */
  predicate H3Path(ctx: Metadata, heads: seq<Heading>)
  {
    var l := LastWith(heads, {H2, H3});
    (H3Key in ctx <==> l.Some? && heads[l.value].tag == H3)
    && (l.Some? && heads[l.value].tag == H3 ==> ctx[H3Key] == heads[l.value].text)
  }

  /** `section_h4` is present exactly when the last heading was an h4, and is
      its text. */
  predicate H4Path(ctx: Metadata, heads: seq<Heading>)
  {
    var l := LastWith(heads, {H2, H3, H4});
    (H4Key in ctx <==> l.Some? && heads[l.value].tag == H4)
    && (l.Some? && heads[l.value].tag == H4 ==> ctx[H4Key] == heads[l.value].text)
  }

  predicate IsPath(ctx: Metadata, h1Text: string, heads: seq<Heading>)
  {
    H1Path(ctx, h1Text) && H2Path(ctx, heads) && H3Path(ctx, heads) && H4Path(ctx, heads)
  }

  lemma ContextIsPath(h1Text: string, heads: seq<Heading>)
    ensures IsPath(ContextAfter(InitialContext(h1Text), heads), h1Text, heads)
  {
    ContextH1(h1Text, heads);
    ContextH2(h1Text, heads);
    ContextH3(h1Text, heads);
    ContextH4(h1Text, heads);
  }

  lemma {:induction false} ContextH1(h1Text: string, heads: seq<Heading>)
    ensures H1Path(ContextAfter(InitialContext(h1Text), heads), h1Text)
  {
    if heads != [] {
      ContextH1(h1Text, heads[..|heads| - 1]);
      StepEffect(ContextAfter(InitialContext(h1Text), heads[..|heads| - 1]), heads[|heads| - 1]);
    }
  }

  lemma {:induction false} ContextH2(h1Text: string, heads: seq<Heading>)
    ensures H2Path(ContextAfter(InitialContext(h1Text), heads), heads)
  {
    if heads != [] {
      var init := heads[..|heads| - 1];
      ContextH2(h1Text, init);
      StepEffect(ContextAfter(InitialContext(h1Text), init), heads[|heads| - 1]);
      LastWithSnoc(init, heads[|heads| - 1], {H2});
      assert init + [heads[|heads| - 1]] == heads;
    }
  }

  lemma {:induction false} ContextH3(h1Text: string, heads: seq<Heading>)
    ensures H3Path(ContextAfter(InitialContext(h1Text), heads), heads)
  {
    if heads != [] {
      var init := heads[..|heads| - 1];
      ContextH3(h1Text, init);
      StepEffect(ContextAfter(InitialContext(h1Text), init), heads[|heads| - 1]);
      LastWithSnoc(init, heads[|heads| - 1], {H2, H3});
      assert init + [heads[|heads| - 1]] == heads;
    }
  }

  lemma {:induction false} ContextH4(h1Text: string, heads: seq<Heading>)
    ensures H4Path(ContextAfter(InitialContext(h1Text), heads), heads)
  {
    if heads != [] {
      var init := heads[..|heads| - 1];
      ContextH4(h1Text, init);
      StepEffect(ContextAfter(InitialContext(h1Text), init), heads[|heads| - 1]);
      LastWithSnoc(init, heads[|heads| - 1], {H2, H3, H4});
      assert init + [heads[|heads| - 1]] == heads;
    }
  }

  lemma LastWithSnoc(init: seq<Heading>, last: Heading, tags: set<Tag>)
    ensures var r := LastWith(init + [last], tags);
      && (last.tag in tags ==> r == Some(|init|))
      && (last.tag !in tags ==> r == LastWith(init, tags))
      && (r.Some? ==> (init + [last])[r.value] == if last.tag in tags then last else init[r.value])
  {
    assert (init + [last])[..|init|] == init;
  }

  // ---------------------------------------------------------------------
  // process_html_to_documents

  /** The whole article as one document: all its text joined by newlines,
      with the URL and its document id. */
  function FullDocument(url: string, article: Article, docId: string -> string): Document
  {
    Document(GetText(article.strings, "\n"), map[UrlKey := url, DocIdKey := docId(url)])
  }

  /** The section text under heading `i`: what lies between it and the next
      heading, or up to the end for the last one. */
  function SectionText(nodes: seq<Node>, hs: seq<nat>, i: nat): string
    requires ValidPositions(hs, nodes) && i < |hs|
  {
    var endTag := if i + 1 < |hs| then Some(nodes[hs[i + 1]]) else None;
    TextBetween(nodes[hs[i] + 1..], endTag)
  }

  /** The chunk for heading `i`, if its section has any non-whitespace text:
      heading text, ": ", section text, and a copy of the context at that
      heading with the URL and document id added. */
  function ChunkAt(url: string, docId: string -> string, h1: Option<Node>, nodes: seq<Node>, hs: seq<nat>, i: nat): Option<Document>
    requires ValidPositions(hs, nodes) && i < |hs|
  {
    var content := SectionText(nodes, hs, i);
    if PyStrip(content) == "" then None
    else
      var ctx := ContextAt(h1, nodes, hs, i + 1);
      Some(Document(HeadingText(nodes[hs[i]]) + ": " + content, ctx[UrlKey := url][DocIdKey := docId(url)]))
  }

  /** The chunks of the first `n` headings, in heading order. */
  function ChunksUpTo(url: string, docId: string -> string, h1: Option<Node>, nodes: seq<Node>, hs: seq<nat>, n: nat): seq<Document>
    requires ValidPositions(hs, nodes) && n <= |hs|
  {
    if n == 0 then []
    else
      var c := ChunkAt(url, docId, h1, nodes, hs, n - 1);
      ChunksUpTo(url, docId, h1, nodes, hs, n - 1) + (if c.Some? then [c.value] else [])
  }

  /** What `process_html_to_documents(url)` returns for a fetched page. */
  function Process(url: string, page: Page, docId: string -> string): (r: (Option<Document>, seq<Document>))
    ensures r.0.Some? <==> page.Fetched? && page.article.Some?
    ensures r.0.None? ==> r.1 == []
  {
    match page
    case FetchFailed(_) => (None, [])
    case Fetched(None, _) => (None, [])
    case Fetched(Some(article), h1) =>
      var hs := HeadingPositions(article.children);
      (Some(FullDocument(url, article, docId)), ChunksUpTo(url, docId, h1, article.children, hs, |hs|))
  }

  method ProcessHtmlToDocuments(url: string, page: Page, docId: string -> string)
    returns (fullDoc: Option<Document>, chunks: seq<Document>)
    ensures (fullDoc, chunks) == Process(url, page, docId)
  {
    if page.FetchFailed? || page.article.None? {
      return None, [];
    }
    var article := page.article.value;
    fullDoc := Some(FullDocument(url, article, docId));
    chunks := ChunkByHeadings(url, article.children, page.h1, docId);
  }

  /** The loop over the h2/h3/h4 children: the context map follows the
      headings and each heading whose section has text adds one chunk. */
  method ChunkByHeadings(url: string, nodes: seq<Node>, h1: Option<Node>, docId: string -> string)
    returns (chunks: seq<Document>)
    ensures chunks == ChunksUpTo(url, docId, h1, nodes, HeadingPositions(nodes), |HeadingPositions(nodes)|)
  {
    var headings := HeadingPositions(nodes);
    assert ValidPositions(headings, nodes);
    var contextMap := InitialContext(if h1.Some? then HeadingText(h1.value) else NoH1);
    chunks := [];
    var i := 0;
    while i < |headings|
      invariant 0 <= i <= |headings|
      invariant contextMap == ContextAt(h1, nodes, headings, i)
      invariant chunks == ChunksUpTo(url, docId, h1, nodes, headings, i)
    {
      contextMap, chunks := ChunkHeading(url, nodes, h1, docId, headings, i, contextMap, chunks);
      i := i + 1;
    }
  }

  /** One pass of the heading loop: enter heading `i`, gather its section
      and, when the section has text, append its chunk. */
  method ChunkHeading(url: string, nodes: seq<Node>, h1: Option<Node>, docId: string -> string,
                      headings: seq<nat>, i: nat, contextMap: Metadata, chunks: seq<Document>)
    returns (nextMap: Metadata, nextChunks: seq<Document>)
    requires ValidPositions(headings, nodes) && i < |headings|
    requires contextMap == ContextAt(h1, nodes, headings, i)
    requires chunks == ChunksUpTo(url, docId, h1, nodes, headings, i)
    ensures nextMap == ContextAt(h1, nodes, headings, i + 1)
    ensures nextChunks == ChunksUpTo(url, docId, h1, nodes, headings, i + 1)
  {
    var current := nodes[headings[i]];
    var headingLevel := current.tag;
    var headingText := HeadingText(current);
    nextMap := EnterHeading(contextMap, headingLevel, headingText);
    ContextNext(h1, nodes, headings, i, contextMap);
    var endTag := if i + 1 < |headings| then Some(nodes[headings[i + 1]]) else None;
    var content := ExtractTextBetweenTags(nodes, headings[i], endTag);
    ChunksNext(url, docId, h1, nodes, headings, i, headingText, content, nextMap);
    nextChunks := chunks;
    if PyStrip(content) != "" {
      var metadata := nextMap;
      metadata := metadata[UrlKey := url];
      metadata := metadata[DocIdKey := docId(url)];
      nextChunks := nextChunks + [Document(headingText + ": " + content, metadata)];
    }
  }

  /** The `if`/`elif` chain of the loop body: sets the heading's level and
      pops the deeper ones. */
  method EnterHeading(contextMap: Metadata, headingLevel: Tag, headingText: string) returns (updated: Metadata)
    ensures updated == Step(contextMap, Heading(headingLevel, headingText))
  {
    updated := contextMap;
    if headingLevel == H2 {
      updated := updated[H2Key := headingText];
      updated := updated - {H3Key};
      updated := updated - {H4Key};
    } else if headingLevel == H3 {
      updated := updated[H3Key := headingText];
      updated := updated - {H4Key};
    } else if headingLevel == H4 {
      updated := updated[H4Key := headingText];
    }
    StepUnfolds(contextMap, Heading(headingLevel, headingText));
  }

  /** One more heading: the context takes one `Step`. */
  lemma ContextNext(h1: Option<Node>, nodes: seq<Node>, hs: seq<nat>, i: nat, previous: Metadata)
    requires ValidPositions(hs, nodes) && i < |hs|
    requires previous == ContextAt(h1, nodes, hs, i)
    ensures ContextAt(h1, nodes, hs, i + 1) == Step(previous, Heading(nodes[hs[i]].tag, HeadingText(nodes[hs[i]])))
  {
  }

  /** One more heading: a chunk is added exactly when its section has text. */
  lemma ChunksNext(url: string, docId: string -> string, h1: Option<Node>, nodes: seq<Node>, hs: seq<nat>, i: nat,
                   headingText: string, content: string, ctx: Metadata)
    requires ValidPositions(hs, nodes) && i < |hs|
    requires headingText == HeadingText(nodes[hs[i]]) && content == SectionText(nodes, hs, i)
    requires ctx == ContextAt(h1, nodes, hs, i + 1)
    ensures ChunksUpTo(url, docId, h1, nodes, hs, i + 1) == ChunksUpTo(url, docId, h1, nodes, hs, i) +
      if PyStrip(content) == "" then [] else [Document(headingText + ": " + content, ctx[UrlKey := url][DocIdKey := docId(url)])]
  {
  }

  /** `Step` is the context map updated key by key, one `pop` at a time. */
  lemma StepUnfolds(ctx: Metadata, heading: Heading)
    ensures && (heading.tag == H2 ==> Step(ctx, heading) == ctx[H2Key := heading.text] - {H3Key} - {H4Key})
            && (heading.tag == H3 ==> Step(ctx, heading) == ctx[H3Key := heading.text] - {H4Key})
            && (heading.tag == H4 ==> Step(ctx, heading) == ctx[H4Key := heading.text])
            && (!(heading.tag == H2 || heading.tag == H3 || heading.tag == H4) ==> Step(ctx, heading) == ctx)
  {
    if heading.tag == H2 {
      assert ctx[H2Key := heading.text] - {H3Key, H4Key} == ctx[H2Key := heading.text] - {H3Key} - {H4Key};
    }
  }

  // ---------------------------------------------------------------------
  // Properties of the chunker

  /** No child strictly between two consecutive headings equals the second
      one: the children in between are not headings. */
  lemma NothingEqualsNextHeading(nodes: seq<Node>, hs: seq<nat>, i: nat)
    requires hs == HeadingPositions(nodes) && i + 1 < |hs|
    ensures hs[i] < hs[i + 1]
    ensures forall p :: hs[i] < p < hs[i + 1] ==> nodes[p] != nodes[hs[i + 1]]
  {
    HeadingPositionsProps(nodes);
    forall p | hs[i] < p < hs[i + 1] ensures nodes[p] != nodes[hs[i + 1]] {
      NotAPosition(hs, i, p);
      assert !IsHeading(nodes[p]);
    }
  }

  /** A position strictly between two consecutive entries of an increasing
      sequence is not in it. */
  lemma NotAPosition(hs: seq<nat>, i: nat, p: nat)
    requires i + 1 < |hs| && hs[i] < p < hs[i + 1]
    requires forall a, b :: 0 <= a < b < |hs| ==> hs[a] < hs[b]
    ensures p !in hs
  {
    forall m | 0 <= m < |hs| ensures hs[m] != p {
      if m < i {
        assert hs[m] < hs[i];
      } else if i + 1 < m {
        assert hs[i + 1] < hs[m];
      }
    }
  }

  /** The section under a heading is the paragraph and list text lying
      strictly between it and the next heading, or, for the last heading,
      everything after it. */
  lemma SectionBetweenHeadings(nodes: seq<Node>, i: nat)
    requires i < |HeadingPositions(nodes)|
    ensures var hs := HeadingPositions(nodes);
      && (i + 1 < |hs| ==> hs[i] < hs[i + 1] && SectionText(nodes, hs, i) == Join(ContentTexts(nodes[hs[i] + 1..hs[i + 1]]), "\n"))
      && (i + 1 == |hs| ==> SectionText(nodes, hs, i) == Join(ContentTexts(nodes[hs[i] + 1..]), "\n"))
  {
    var hs := HeadingPositions(nodes);
    var siblings := nodes[hs[i] + 1..];
    if i + 1 < |hs| {
      NothingEqualsNextHeading(nodes, hs, i);
      var stop := hs[i + 1] - hs[i] - 1;
      assert siblings[stop] == nodes[hs[i + 1]];
      assert forall k :: 0 <= k < stop ==> siblings[k] == nodes[hs[i] + 1 + k];
      CollectedUpTo(siblings, stop);
      assert siblings[..stop] == nodes[hs[i] + 1..hs[i + 1]];
    } else {
      CollectedToEnd(siblings);
    }
  }

  /** Heading `i` yields a chunk exactly when its section has a character
      that is not whitespace, and the chunk's text is the heading, ": " and
      the section. */
  lemma ChunkEmitted(url: string, docId: string -> string, h1: Option<Node>, nodes: seq<Node>, hs: seq<nat>, i: nat)
    requires ValidPositions(hs, nodes) && i < |hs|
    ensures var c := ChunkAt(url, docId, h1, nodes, hs, i);
      var content := SectionText(nodes, hs, i);
      && (c.Some? <==> HasNonSpace(content, IsPySpace))
      && (c.Some? ==> c.value.text == HeadingText(nodes[hs[i]]) + ": " + content)
  {
    TrimNonEmpty(SectionText(nodes, hs, i), IsPySpace);
  }

  /** A chunk's metadata is the heading path at its heading plus the URL and
      the document id. */
  lemma ChunkMetadata(url: string, docId: string -> string, h1: Option<Node>, nodes: seq<Node>, hs: seq<nat>, i: nat)
    requires ValidPositions(hs, nodes) && i < |hs|
    ensures var c := ChunkAt(url, docId, h1, nodes, hs, i);
      c.Some? ==>
        && c.value.metadata.Keys == ContextAt(h1, nodes, hs, i + 1).Keys + {UrlKey, DocIdKey}
        && c.value.metadata[UrlKey] == url
        && c.value.metadata[DocIdKey] == docId(url)
        && IsPath(c.value.metadata - {UrlKey, DocIdKey}, H1Text(h1), HeadingsAt(nodes, hs[..i + 1]))
  {
    var ctx := ContextAt(h1, nodes, hs, i + 1);
    PathOfContextAt(h1, nodes, hs, i + 1);
    AddIds(ctx, url, docId(url));
  }

  /** Adding the URL and the document id to a context keeps the context
      apart: neither key is a section key. */
  lemma AddIds(ctx: Metadata, url: string, id: string)
    requires ctx.Keys <= {H1Key, H2Key, H3Key, H4Key}
    ensures var m := ctx[UrlKey := url][DocIdKey := id];
      && m.Keys == ctx.Keys + {UrlKey, DocIdKey}
      && m[UrlKey] == url && m[DocIdKey] == id
      && m - {UrlKey, DocIdKey} == ctx
  {
    assert UrlKey != DocIdKey by { assert |UrlKey| != |DocIdKey|; }
    assert UrlKey !in ctx && DocIdKey !in ctx by {
      assert |UrlKey| == 3 && |DocIdKey| == 6;
      assert |H1Key| == |H2Key| == |H3Key| == |H4Key| == 10;
    }
  }

  /** The context after the first `n` headings is their heading path. */
  lemma PathOfContextAt(h1: Option<Node>, nodes: seq<Node>, hs: seq<nat>, n: nat)
    requires ValidPositions(hs, nodes) && n <= |hs|
    ensures IsPath(ContextAt(h1, nodes, hs, n), H1Text(h1), HeadingsAt(nodes, hs[..n]))
  {
    ContextAtIsAfter(h1, nodes, hs, n);
    ContextIsPath(H1Text(h1), HeadingsAt(nodes, hs[..n]));
  }

  /** What each of the first `n` headings yields: a chunk or nothing. */
  function Candidates(url: string, docId: string -> string, h1: Option<Node>, nodes: seq<Node>, hs: seq<nat>, n: nat): (r: seq<Option<Document>>)
    requires ValidPositions(hs, nodes) && n <= |hs|
    ensures |r| == n
  {
    seq(n, i requires 0 <= i < n => ChunkAt(url, docId, h1, nodes, hs, i))
  }

  /** The chunks are the candidates that are present. */
  lemma {:induction false} ChunksArePresent(url: string, docId: string -> string, h1: Option<Node>, nodes: seq<Node>, hs: seq<nat>, n: nat)
    requires ValidPositions(hs, nodes) && n <= |hs|
    ensures ChunksUpTo(url, docId, h1, nodes, hs, n) == Present(Candidates(url, docId, h1, nodes, hs, n))
  {
    if n > 0 {
      ChunksArePresent(url, docId, h1, nodes, hs, n - 1);
      var cs := Candidates(url, docId, h1, nodes, hs, n);
      assert cs[..n - 1] == Candidates(url, docId, h1, nodes, hs, n - 1);
    }
  }

  /** The chunks come one per heading with text, in heading order: chunk `j`
      is the chunk of heading `origins[j]`, the origins increase, and a
      heading is among them exactly when it yields a chunk. */
  lemma ChunksInHeadingOrder(url: string, docId: string -> string, h1: Option<Node>, nodes: seq<Node>, hs: seq<nat>, n: nat)
    requires ValidPositions(hs, nodes) && n <= |hs|
    ensures var chunks := ChunksUpTo(url, docId, h1, nodes, hs, n);
      var origins := PresentAt(Candidates(url, docId, h1, nodes, hs, n));
      && |origins| == |chunks| <= n
      && (forall j :: 0 <= j < |origins| ==> origins[j] < n && ChunkAt(url, docId, h1, nodes, hs, origins[j]) == Some(chunks[j]))
      && (forall j, k :: 0 <= j < k < |origins| ==> origins[j] < origins[k])
      && (forall i :: 0 <= i < n ==> (i in origins <==> ChunkAt(url, docId, h1, nodes, hs, i).Some?))
  {
    var cs := Candidates(url, docId, h1, nodes, hs, n);
    ChunksArePresent(url, docId, h1, nodes, hs, n);
    PresentInOrder(cs);
  }

  /** Later headings never change a chunk already emitted: the chunks of the
      first `n` headings are a prefix of those of the first `m`. */
  lemma ChunksArePrefixes(url: string, docId: string -> string, h1: Option<Node>, nodes: seq<Node>, hs: seq<nat>, n: nat, m: nat)
    requires ValidPositions(hs, nodes) && n <= m <= |hs|
    ensures ChunksUpTo(url, docId, h1, nodes, hs, n) <= ChunksUpTo(url, docId, h1, nodes, hs, m)
  {
    var cs := Candidates(url, docId, h1, nodes, hs, m);
    assert Candidates(url, docId, h1, nodes, hs, n) == cs[..n];
    ChunksArePresent(url, docId, h1, nodes, hs, n);
    ChunksArePresent(url, docId, h1, nodes, hs, m);
    PresentOfPrefix(cs, n);
  }

  /** A failed fetch or a page without the article yields nothing; otherwise
      the full document carries the URL and its document id, there are at
      most as many chunks as headings, and every chunk carries the same URL,
      the same document id and the page's `section_h1`. */
  lemma ProcessProps(url: string, page: Page, docId: string -> string)
    ensures var (fullDoc, chunks) := Process(url, page, docId);
      && (page.FetchFailed? || page.article.None? ==> fullDoc.None? && chunks == [])
      && (page.Fetched? && page.article.Some? ==>
            && fullDoc.Some?
            && fullDoc.value.text == GetText(page.article.value.strings, "\n")
            && fullDoc.value.metadata == map[UrlKey := url, DocIdKey := docId(url)]
            && |chunks| <= |HeadingPositions(page.article.value.children)|)
      && (forall j :: 0 <= j < |chunks| ==>
            && UrlKey in chunks[j].metadata && chunks[j].metadata[UrlKey] == url
            && DocIdKey in chunks[j].metadata && chunks[j].metadata[DocIdKey] == docId(url)
            && H1Key in chunks[j].metadata && chunks[j].metadata[H1Key] == H1Text(page.h1))
  {
    if page.Fetched? && page.article.Some? {
      var nodes := page.article.value.children;
      var hs := HeadingPositions(nodes);
      var chunks := ChunksUpTo(url, docId, page.h1, nodes, hs, |hs|);
      ChunksInHeadingOrder(url, docId, page.h1, nodes, hs, |hs|);
      var origins := PresentAt(Candidates(url, docId, page.h1, nodes, hs, |hs|));
      forall j | 0 <= j < |chunks|
        ensures && UrlKey in chunks[j].metadata && chunks[j].metadata[UrlKey] == url
                && DocIdKey in chunks[j].metadata && chunks[j].metadata[DocIdKey] == docId(url)
                && H1Key in chunks[j].metadata && chunks[j].metadata[H1Key] == H1Text(page.h1)
      {
        ChunkMetadata(url, docId, page.h1, nodes, hs, origins[j]);
        var meta := chunks[j].metadata;
        assert (meta - {UrlKey, DocIdKey})[H1Key] == meta[H1Key];
      }
    }
  }
}
