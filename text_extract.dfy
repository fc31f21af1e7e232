/**
 * `ExtractText` (rss_keyword_collector/parse.py): the per-site text
 * extractor registry and its two strategies.
 *
 * HTML parsing is outside the model: a page arrives as a `Document`, the
 * values the extractors read from BeautifulSoup.
 */
module TextExtract {
  import opened Strings
  import opened Outcomes
  import Netloc

  /** An element below the BBC article-body container, in document order. */
  datatype Node = Node(name: string, text: string)

  /** What the extractors read from a parsed page. */
  datatype Document = Document(
    visibleText: string,              // get_text() once comments, scripts and styles are gone
    title: Option<string>,            // get_text() of the <title> element, if there is one
    titleString: Option<string>,      // `.string` of the <title> element: its one string; None without a <title> or without a single string in it
    lang: Option<string>,             // the lang attribute of <html>, if there is one
    storyHeading: Option<string>,     // the text of h1.story-body__h1, if there is one
    storyBody: Option<seq<Node>>)     // the descendants of div.story-body__inner, if there is one

  /** The `(text, title, lang)` triple an extractor returns. */
  datatype Extracted = Extracted(text: string, title: string, lang: string)

  /** The strategies: `extractor_generic` and `extractor_www_bbc_com`. */
  datatype TextStrategy = GenericText | BbcText

  /** The registry: routing key to site-specific strategy. */
  const TextExtractors: map<string, TextStrategy> := map["www_bbc_com" := BbcText]

  // ---------------------------------------------------------------------
  // Dispatch
  // ---------------------------------------------------------------------

  /** The strategy `ExtractText.extract` picks for a URL, or get_netloc's error. */
  function ResolveText(url: string): (r: Result<TextStrategy>)
  {
    match Netloc.GetNetloc(url)
    case Err(e) => Err(e)
    case Ok(key) => Ok(if key in TextExtractors then TextExtractors[key] else GenericText)
  }

  /** `ExtractText(url, raw)`: dispatch, then run the chosen strategy. */
  function ExtractText(url: string, doc: Document): (r: Result<Extracted>)
  {
    match ResolveText(url)
    case Err(e) => Err(e)
    case Ok(GenericText) => ExtractGeneric(doc)
    case Ok(BbcText) => BbcExtraction(doc)
  }

  // ---------------------------------------------------------------------
  // The generic strategy
  // ---------------------------------------------------------------------

  /** The stripped phrases of one stripped line: split on double spaces, each stripped. */
  function LinePhrases(line: string): (r: seq<string>)
  {
    var parts := SplitOn(Strip(line), "  ");
    seq(|parts|, i requires 0 <= i < |parts| => Strip(parts[i]))
  }

  /** The phrases of all lines, line after line. */
  function Phrases(lines: seq<string>): (r: seq<string>)
  {
    if lines == [] then [] else LinePhrases(lines[0]) + Phrases(lines[1..])
  }

  /** The non-empty elements, in their order. */
  function NonEmpty(xs: seq<string>): (r: seq<string>)
  {
    if xs == [] then []
    else (if xs[0] != "" then [xs[0]] else []) + NonEmpty(xs[1..])
  }

  /** The chunks the clean-up keeps: the non-empty phrases of the text's lines. */
  function Chunks(text: string): seq<string>
  {
    NonEmpty(Phrases(SplitLines(text)))
  }

  /** The generic clean-up: the chunks, one per line. */
  function CleanUp(text: string): string
  {
    Join(Chunks(text), "\n")
  }

  /**
   * `extractor_generic`: clean-up of the visible text, the title string and
   * the language. Reading `.string` of a missing <title>, or stripping the
   * None of a <title> without a single string, raises.
   */
  function ExtractGeneric(doc: Document): (r: Result<Extracted>)
  {
    if doc.titleString.None? then Err(MissingTitle)
    else if doc.lang.None? then Err(MissingLang)
    else Ok(Extracted(CleanUp(doc.visibleText), doc.titleString.value, doc.lang.value))
  }

  // ---------------------------------------------------------------------
  // The BBC strategy
  // ---------------------------------------------------------------------

  /** The texts of the `p` elements, in document order. */
  function Paragraphs(nodes: seq<Node>): (r: seq<string>)
  {
    if nodes == [] then []
    else
      var last := nodes[|nodes| - 1];
      Paragraphs(nodes[..|nodes| - 1]) + (if last.name == "p" then [last.text] else [])
  }

  /** The article text: the paragraphs joined by '\n', or "" when the body or its paragraphs are missing. */
  function ArticleText(body: Option<seq<Node>>): string
  {
    match body
    case None => ""
    case Some(nodes) =>
      var paragraphs := Paragraphs(nodes);
      if paragraphs != [] then Join(paragraphs, "\n") else ""
  }

  /** The story title: the h1 heading, else the <title> text. */
  function StoryTitle(doc: Document): Option<string>
  {
    if doc.storyHeading.Some? then doc.storyHeading else doc.title
  }

  /** What `extractor_www_bbc_com` returns or raises. */
  function BbcExtraction(doc: Document): Result<Extracted>
  {
    if StoryTitle(doc).None? then Err(MissingTitle)
    else if doc.lang.None? then Err(MissingLang)
    else Ok(Extracted(ArticleText(doc.storyBody), StoryTitle(doc).value, doc.lang.value))
  }

  /** `extractor_www_bbc_com`: collects the paragraphs of the article body in a loop. */
  method ExtractBbc(doc: Document) returns (r: Result<Extracted>)
    ensures r == BbcExtraction(doc)
    ensures r.Ok? && (doc.storyBody.None? || Paragraphs(doc.storyBody.value) == []) ==> r.value.text == ""
  {
    var storyTitle: string;
    if doc.storyHeading.Some? {
      storyTitle := doc.storyHeading.value;
    } else if doc.title.Some? {
      storyTitle := doc.title.value;
    } else {
      return Err(MissingTitle);
    }
    if doc.lang.None? {
      return Err(MissingLang);
    }
    var articleText := "";
    if doc.storyBody.Some? {
      var nodes := doc.storyBody.value;
      var articleContents: seq<string> := [];
      var i := 0;
      while i < |nodes|
        invariant 0 <= i <= |nodes|
        invariant articleContents == Paragraphs(nodes[..i])
      {
        assert nodes[..i + 1][..i] == nodes[..i];
        if nodes[i].name == "p" {
          articleContents := articleContents + [nodes[i].text];
        }
        i := i + 1;
      }
      assert nodes[..i] == nodes;
      if articleContents != [] {
        articleText := Join(articleContents, "\n");
      }
    }
    r := Ok(Extracted(articleText, storyTitle, doc.lang.value));
  }

  // ---------------------------------------------------------------------
  // Properties
  // ---------------------------------------------------------------------

  /**
   * The BBC strategy is chosen exactly for the key "www_bbc_com"; every
   * other key that get_netloc accepts falls back to the generic strategy,
   * and get_netloc's failure is the dispatch's failure.
   */
  lemma ResolveTextSpec(url: string)
    ensures ResolveText(url).Err? <==> Netloc.GetNetloc(url).Err?
    ensures ResolveText(url) == Ok(BbcText) <==> Netloc.GetNetloc(url) == Ok("www_bbc_com")
    ensures ResolveText(url) == Ok(GenericText) <==>
      Netloc.GetNetloc(url).Ok? && Netloc.GetNetloc(url).value != "www_bbc_com"
  {
  }

  /** Dispatch on two example URLs: a BBC article goes to the BBC strategy... */
  lemma ResolveBbcUrl()
    ensures ResolveText("http://www.bbc.com/news/world-123") == Ok(BbcText)
  {
    Netloc.GetNetlocOfBbcUrl();
  }

  /** ...and a site without its own strategy to the generic one. */
  lemma ResolveUnknownSite()
    ensures ResolveText("https://unknown-site.example/a") == Ok(GenericText)
  {
    Netloc.GetNetlocOfUnknownSite();
  }

  /** Every phrase of a line is trimmed, has no double space, and keeps the line's absent characters absent. */
  lemma LinePhrasesSpec(line: string)
    ensures forall p :: p in LinePhrases(line) ==> Trimmed(p) && NoDoubleSpace(p)
    ensures '\n' !in line ==> forall p :: p in LinePhrases(line) ==> '\n' !in p
  {
    var parts := SplitOn(Strip(line), "  ");
    var phrases := LinePhrases(line);
    SplitOnDoubleSpace(Strip(line));
    if '\n' !in line {
      SplitOnKeepsAbsent(Strip(line), "  ", '\n');
    }
    forall p | p in phrases
      ensures Trimmed(p) && NoDoubleSpace(p) && ('\n' !in line ==> '\n' !in p)
    {
      var i :| 0 <= i < |phrases| && phrases[i] == p;
      assert p == Strip(parts[i]);
      assert parts[i] in parts;
    }
  }

  lemma {:induction false} PhrasesSpec(lines: seq<string>)
    requires forall l :: l in lines ==> '\n' !in l
    ensures forall p :: p in Phrases(lines) ==> Trimmed(p) && NoDoubleSpace(p) && '\n' !in p
  {
    if lines != [] {
      LinePhrasesSpec(lines[0]);
      assert lines[0] in lines;
      PhrasesSpec(lines[1..]);
      assert forall l :: l in lines[1..] ==> l in lines;
    }
  }

  /** Subsequence: `xs` is `ys` with some elements left out, order kept. */
  predicate IsSubsequence(xs: seq<string>, ys: seq<string>)
    decreases |ys|
  {
    if xs == [] then true
    else if ys == [] then false
    else if xs[0] == ys[0] then IsSubsequence(xs[1..], ys[1..])
    else IsSubsequence(xs, ys[1..])
  }

  /**
   * NonEmpty drops exactly the empty strings and keeps the others in order,
   * each as often as it occurs.
   */
  lemma {:induction false} NonEmptySpec(xs: seq<string>)
    ensures forall x :: x in NonEmpty(xs) <==> x in xs && x != ""
    ensures IsSubsequence(NonEmpty(xs), xs)
    ensures multiset(NonEmpty(xs)) == multiset(xs)["" := 0]
  {
    if xs != [] {
      NonEmptySpec(xs[1..]);
      var r := NonEmpty(xs);
      HeadTail(xs);
      assert multiset(xs) == multiset([xs[0]]) + multiset(xs[1..]);
      if xs[0] != "" {
        assert r == [xs[0]] + NonEmpty(xs[1..]);
        assert r[1..] == NonEmpty(xs[1..]);
      } else {
        assert r == NonEmpty(xs[1..]);
        if r != [] {
          assert r[0] in NonEmpty(xs[1..]);
        }
      }
    }
  }

  /** NonEmpty works element by element: it distributes over concatenation and keeps a lone element when it is non-empty. */
  lemma {:induction false} NonEmptyAppend(a: seq<string>, b: seq<string>)
    ensures NonEmpty(a + b) == NonEmpty(a) + NonEmpty(b)
    ensures |a| == 1 ==> NonEmpty(a) == if a[0] != "" then a else []
    decreases |a|
  {
    if a == [] {
      assert a + b == b;
    } else {
      var x := if a[0] != "" then [a[0]] else [];
      assert (a + b)[1..] == a[1..] + b;
      assert NonEmpty(a + b) == x + NonEmpty(a[1..] + b);
      NonEmptyAppend(a[1..], b);
      ConsAssoc(x, NonEmpty(a[1..]), NonEmpty(b), NonEmpty(a[1..] + b));
      if |a| == 1 {
        assert a[1..] == [];
        assert a == [a[0]];
      }
    }
  }

  /** No line of `splitlines` holds a line break. */
  lemma SplitLinesHasNoBreak(text: string)
    ensures forall l :: l in SplitLines(text) ==> '\n' !in l
  {
    var pieces := SplitOn(text, "\n");
    SplitOnCharRemovesSep(text, '\n');
    assert forall l :: l in SplitLines(text) ==> l in pieces;
  }

  /**
   * The generic clean-up: every output line is a non-empty, trimmed chunk
   * without double spaces; reading the output line by line gives back the
   * chunks; and the chunks are the non-empty phrases of the input's lines,
   * in their original order.
   */
  lemma CleanUpSpec(text: string)
    ensures forall c :: c in Chunks(text) ==> c != "" && Trimmed(c) && NoDoubleSpace(c) && '\n' !in c
    ensures SplitLines(CleanUp(text)) == Chunks(text)
    ensures NoDoubleSpace(CleanUp(text))
    ensures IsSubsequence(Chunks(text), Phrases(SplitLines(text)))
    ensures forall p :: p in Phrases(SplitLines(text)) && p != "" ==> p in Chunks(text)
    ensures multiset(Chunks(text)) == multiset(Phrases(SplitLines(text)))["" := 0]
  {
    SplitLinesHasNoBreak(text);
    PhrasesSpec(SplitLines(text));
    NonEmptySpec(Phrases(SplitLines(text)));
    LinesOfJoin(Chunks(text));
    JoinLinesNoDoubleSpace(Chunks(text));
  }

  /** Whatever the URL, a generic extraction's text has the clean-up's shape. */
  lemma ExtractGenericText(url: string, doc: Document)
    requires ResolveText(url) == Ok(GenericText)
    ensures ExtractText(url, doc).Ok? <==> doc.titleString.Some? && doc.lang.Some?
    ensures ExtractText(url, doc).Err? ==>
      ExtractText(url, doc).error == if doc.titleString.None? then MissingTitle else MissingLang
    ensures ExtractText(url, doc).Ok? ==>
      ExtractText(url, doc).value.title == doc.titleString.value &&
      ExtractText(url, doc).value.lang == doc.lang.value
    ensures ExtractText(url, doc).Ok? ==>
      var lines := SplitLines(ExtractText(url, doc).value.text);
      && lines == Chunks(doc.visibleText)
      && forall l :: l in lines ==> l != "" && Trimmed(l) && NoDoubleSpace(l)
  {
    CleanUpSpec(doc.visibleText);
  }

  /**
   * The BBC article text is empty when the body container or its
   * paragraphs are missing; otherwise, for non-empty one-line paragraphs,
   * its lines are exactly the paragraphs in document order.
   */
  lemma ArticleTextSpec(body: Option<seq<Node>>)
    ensures body.None? || Paragraphs(body.value) == [] ==> ArticleText(body) == ""
    ensures body.Some? && (forall p :: p in Paragraphs(body.value) ==> p != "" && '\n' !in p) ==>
      SplitLines(ArticleText(body)) == Paragraphs(body.value)
  {
    if body.Some? && (forall p :: p in Paragraphs(body.value) ==> p != "" && '\n' !in p) {
      LinesOfJoin(Paragraphs(body.value));
    }
  }

  /** A paragraph's text is kept exactly when its element is a `p`. */
  lemma {:induction false} ParagraphsSpec(nodes: seq<Node>)
    ensures |Paragraphs(nodes)| <= |nodes|
    ensures forall i :: 0 <= i < |nodes| && nodes[i].name == "p" ==> nodes[i].text in Paragraphs(nodes)
    ensures forall t :: t in Paragraphs(nodes) ==> exists i :: 0 <= i < |nodes| && nodes[i].name == "p" && nodes[i].text == t
  {
    if nodes != [] {
      var init := nodes[..|nodes| - 1];
      ParagraphsSpec(init);
      forall t | t in Paragraphs(nodes)
        ensures exists i :: 0 <= i < |nodes| && nodes[i].name == "p" && nodes[i].text == t
      {
        if t in Paragraphs(init) {
          var i :| 0 <= i < |init| && init[i].name == "p" && init[i].text == t;
          assert nodes[i] == init[i];
        } else {
          assert nodes[|nodes| - 1].text == t;
        }
      }
      forall i | 0 <= i < |nodes| && nodes[i].name == "p" ensures nodes[i].text in Paragraphs(nodes) {
        if i < |nodes| - 1 {
          assert nodes[i] == init[i];
        }
      }
    }
  }

  /** Paragraphs works node by node: it distributes over concatenation and keeps a lone node's text when it is a `p`. */
  lemma {:induction false} ParagraphsAppend(a: seq<Node>, b: seq<Node>)
    ensures Paragraphs(a + b) == Paragraphs(a) + Paragraphs(b)
    ensures |a| == 1 ==> Paragraphs(a) == if a[0].name == "p" then [a[0].text] else []
    decreases |b|
  {
    if b == [] {
      assert a + b == a;
    } else {
      var init := b[..|b| - 1];
      var last := b[|b| - 1];
      var tail := if last.name == "p" then [last.text] else [];
      assert (a + b)[..|a + b| - 1] == a + init;
      assert (a + b)[|a + b| - 1] == last;
      assert Paragraphs(a + b) == Paragraphs(a + init) + tail;
      ParagraphsAppend(a, init);
      ConsAssoc(Paragraphs(a), Paragraphs(init), tail, Paragraphs(b));
    }
    if |a| == 1 {
      assert a[..0] == [];
    }
  }
}
