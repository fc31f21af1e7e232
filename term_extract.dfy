/**
 * `ExtractTerms` (rss_keyword_collector/parse.py): the per-language term
 * extractor registry, keyword normalisation and the entity threshold.
 *
 * Tokenizers (NLTK, hazm), stop-word corpora and the entity recogniser
 * (polyglot) are outside the model: what they return for a text arrives
 * as an `Analysis`.
 */
module TermExtract {
  import opened Strings
  import opened Outcomes

  // ---------------------------------------------------------------------
  // Registry
  // ---------------------------------------------------------------------

  /** The strategies: `extractor_generic`, `extractor_en` and `extractor_fa`. */
  datatype TermStrategy = GenericTerms | EnglishTerms | PersianTerms

  /** The registry: language code to language-specific strategy. */
  const TermExtractors: map<string, TermStrategy> := map["en" := EnglishTerms, "fa" := PersianTerms]

  /** The language `ExtractTerms` assumes when it is given none. */
  const DefaultLanguage: string := "english"

  /** `get_entities`' default `min_text_length`. */
  const MinTextLength: nat := 50

  /** What the third-party analysers return for one text. */
  datatype Analysis = Analysis(
    nltkTokens: seq<string>,          // nltk.word_tokenize(raw)
    hazmTokens: seq<string>,          // hazm.word_tokenize(raw)
    englishStopWords: set<string>,    // stopwords.words('english')
    persianStopWords: set<string>,    // stopwords.words('persian')
    entitySpans: seq<seq<string>>)    // Text(raw).entities, each a list of words

  /** The strategy `ExtractTerms.extract` picks for a language. */
  function ResolveTerms(language: string): TermStrategy
  {
    if language in TermExtractors then TermExtractors[language] else GenericTerms
  }

  // ---------------------------------------------------------------------
  // Keyword normalisation
  // ---------------------------------------------------------------------

  /**
   * A character `\w` matches (re.UNICODE): ASCII letters, digits and '_';
   * every non-ASCII character is counted as a word character.
   */
  predicate IsWordChar(c: char) {
    'a' <= c <= 'z' || 'A' <= c <= 'Z' || '0' <= c <= '9' || c == '_' || c as int >= 128
  }

  /** `re.sub('\W+', '', s)`: the word characters of `s`, in order. */
  function WordChars(s: string): (r: string)
    ensures |r| <= |s|
    ensures forall c :: c in r ==> c in s && IsWordChar(c)
  {
    if s == [] then []
    else
      (if IsWordChar(s[0]) then [s[0]] else []) + WordChars(s[1..])
  }

  /** One token as the extractors normalise it: lower-cased, then stripped of non-word characters. */
  function NormalizeToken(t: string): string
  {
    WordChars(Lower(t))
  }

  /** Each token normalised, in order. */
  function Normalized(tokens: seq<string>): (r: seq<string>)
    ensures |r| == |tokens|
    ensures forall i :: 0 <= i < |tokens| ==> r[i] == NormalizeToken(tokens[i])
  {
    seq(|tokens|, i requires 0 <= i < |tokens| => NormalizeToken(tokens[i]))
  }

  predicate NoDuplicates<T(==)>(xs: seq<T>) {
    forall i, j :: 0 <= i < j < |xs| ==> xs[i] != xs[j]
  }

  /**
   * `set(xs)` read back as a list. Python iterates a set in hash order;
   * the model takes the order of first occurrence.
   */
  function Dedup<T(==)>(xs: seq<T>): (r: seq<T>)
  {
    if xs == [] then []
    else
      var d := Dedup(xs[..|xs| - 1]);
      if xs[|xs| - 1] in d then d else d + [xs[|xs| - 1]]
  }

  /** A list comprehension `[x for x in xs if keep(x)]`. */
  function Filter<T>(xs: seq<T>, keep: T -> bool): (r: seq<T>)
  {
    if xs == [] then []
    else (if keep(xs[0]) then [xs[0]] else []) + Filter(xs[1..], keep)
  }

  /**
   * The keyword list of the term extractors: tokens normalised, made
   * unique, stop words removed when a stop-word set is given, and tokens
   * of one character or none dropped.
   */
  function Keywords(tokens: seq<string>, stopWords: Option<set<string>>): seq<string>
  {
    var unique := Dedup(Normalized(tokens));
    var kept := if stopWords.Some? then Filter(unique, (w: string) => w !in stopWords.value) else unique;
    Filter(kept, (w: string) => |w| > 1)
  }

  // ---------------------------------------------------------------------
  // Entities and terms
  // ---------------------------------------------------------------------

  /** What `get_entities` returns: nothing for a short text, else each span's words joined by spaces. */
  function Entities(raw: string, spans: seq<seq<string>>, minTextLength: int): seq<string>
  {
    if |raw| < minTextLength then []
    else seq(|spans|, i requires 0 <= i < |spans| => Join(spans[i], " "))
  }

  /** `get_entities`: the threshold check, then a loop appending each joined span. */
  method GetEntities(raw: string, spans: seq<seq<string>>, minTextLength: int) returns (entities: seq<string>)
    ensures entities == Entities(raw, spans, minTextLength)
    ensures |raw| < minTextLength ==> entities == []
    ensures |raw| >= minTextLength ==>
      |entities| == |spans| && forall i :: 0 <= i < |spans| ==> entities[i] == Join(spans[i], " ")
  {
    if |raw| < minTextLength {
      return [];
    }
    entities := [];
    var i := 0;
    while i < |spans|
      invariant 0 <= i <= |spans|
      invariant |entities| == i
      invariant forall k :: 0 <= k < i ==> entities[k] == Join(spans[k], " ")
    {
      entities := entities + [Join(spans[i], " ")];
      i := i + 1;
    }
  }

  /** The `keywords` and `entities` attributes an `ExtractTerms` object ends up with. */
  datatype TermLists = TermLists(keywords: seq<string>, entities: seq<string>)

  /** `ExtractTerms(raw, language, remove_stopwords)`: dispatch, then run the chosen strategy. */
  function ExtractTerms(raw: string, language: string, removeStopwords: bool, a: Analysis): TermLists
  {
    var entities := Entities(raw, a.entitySpans, MinTextLength);
    match ResolveTerms(language)
    case GenericTerms =>
      TermLists(Keywords(a.nltkTokens, None), entities)
    case EnglishTerms =>
      TermLists(Keywords(a.nltkTokens, if removeStopwords then Some(a.englishStopWords) else None), entities)
    case PersianTerms =>
      TermLists(Keywords(a.hazmTokens, if removeStopwords then Some(a.persianStopWords) else None), entities)
  }

  /** The `terms` property: keywords, then entities. */
  function Terms(t: TermLists): (r: seq<string>)
    ensures |r| == |t.keywords| + |t.entities|
    ensures r[..|t.keywords|] == t.keywords && r[|t.keywords|..] == t.entities
  {
    t.keywords + t.entities
  }

  // ---------------------------------------------------------------------
  // Properties
  // ---------------------------------------------------------------------

  /** Dedup keeps every element once and nothing else. */
  lemma {:induction false} DedupSpec<T>(xs: seq<T>)
    ensures NoDuplicates(Dedup(xs))
    ensures forall x :: x in Dedup(xs) <==> x in xs
  {
    if xs != [] {
      var init := xs[..|xs| - 1];
      DedupSpec(init);
      assert xs == init + [xs[|xs| - 1]];
    }
  }

  /** Filter keeps exactly the elements that pass, and keeps them unique. */
  lemma {:induction false} FilterSpec<T>(xs: seq<T>, keep: T -> bool)
    ensures forall x :: x in Filter(xs, keep) <==> x in xs && keep(x)
    ensures NoDuplicates(xs) ==> NoDuplicates(Filter(xs, keep))
  {
    if xs != [] {
      FilterSpec(xs[1..], keep);
      assert forall x :: x in xs <==> x == xs[0] || x in xs[1..];
      if NoDuplicates(xs) {
        var rest := Filter(xs[1..], keep);
        assert NoDuplicates(xs[1..]);
        assert xs[0] !in xs[1..];
        if keep(xs[0]) {
          var r := [xs[0]] + rest;
          forall i, j | 0 <= i < j < |r| ensures r[i] != r[j] {
            if i == 0 {
              assert r[j] == rest[j - 1] && rest[j - 1] in rest;
            } else {
              assert r[i] == rest[i - 1] && r[j] == rest[j - 1];
            }
          }
        }
      }
    }
  }

  /** A normalised token is lower case and made of word characters only. */
  lemma NormalizeTokenSpec(t: string)
    ensures IsLowerCase(NormalizeToken(t))
    ensures forall c :: c in NormalizeToken(t) ==> IsWordChar(c)
  {
    var w := NormalizeToken(t);
    forall i | 0 <= i < |w| ensures !IsUpper(w[i]) {
      assert w[i] in w;
      assert w[i] in Lower(t);
    }
  }

  /**
   * The keyword list has no duplicates; every keyword is lower case, longer
   * than one character, made of word characters and, when stop words are
   * removed, not a stop word; and every normalised token meeting those
   * conditions is a keyword.
   */
  lemma KeywordsSpec(tokens: seq<string>, stopWords: Option<set<string>>)
    ensures NoDuplicates(Keywords(tokens, stopWords))
    ensures forall w :: w in Keywords(tokens, stopWords) <==>
      w in Normalized(tokens) && |w| > 1 && (stopWords.Some? ==> w !in stopWords.value)
    ensures forall w :: w in Keywords(tokens, stopWords) ==>
      IsLowerCase(w) && (forall c :: c in w ==> IsWordChar(c))
  {
    var unique := Dedup(Normalized(tokens));
    DedupSpec(Normalized(tokens));
    var kept := unique;
    if stopWords.Some? {
      kept := Filter(unique, (w: string) => w !in stopWords.value);
      FilterSpec(unique, (w: string) => w !in stopWords.value);
    }
    FilterSpec(kept, (w: string) => |w| > 1);
    forall w | w in Keywords(tokens, stopWords)
      ensures IsLowerCase(w) && (forall c :: c in w ==> IsWordChar(c))
    {
      var i :| 0 <= i < |tokens| && Normalized(tokens)[i] == w;
      NormalizeTokenSpec(tokens[i]);
    }
  }

  /**
   * The dispatch: "en" and "fa" have their own strategies, every other
   * language (the default "english" among them) falls back to the generic
   * one, which never removes stop words.
   */
  lemma ExtractTermsSpec(raw: string, language: string, removeStopwords: bool, a: Analysis)
    ensures ResolveTerms(DefaultLanguage) == GenericTerms
    ensures language !in {"en", "fa"} ==>
      ExtractTerms(raw, language, removeStopwords, a).keywords == Keywords(a.nltkTokens, None)
    ensures language == "en" ==>
      ExtractTerms(raw, language, removeStopwords, a).keywords ==
      Keywords(a.nltkTokens, if removeStopwords then Some(a.englishStopWords) else None)
    ensures language == "fa" ==>
      ExtractTerms(raw, language, removeStopwords, a).keywords ==
      Keywords(a.hazmTokens, if removeStopwords then Some(a.persianStopWords) else None)
    ensures ExtractTerms(raw, language, removeStopwords, a).entities == Entities(raw, a.entitySpans, MinTextLength)
  {
  }

  /**
   * The term list is the keywords followed by the entities; a text shorter
   * than the threshold contributes no entity, so its terms are its keywords.
   */
  lemma TermsSpec(raw: string, language: string, removeStopwords: bool, a: Analysis)
    ensures var t := ExtractTerms(raw, language, removeStopwords, a);
      |Terms(t)| == |t.keywords| + |t.entities|
    ensures |raw| < MinTextLength ==>
      Terms(ExtractTerms(raw, language, removeStopwords, a)) == ExtractTerms(raw, language, removeStopwords, a).keywords
  {
    var t := ExtractTerms(raw, language, removeStopwords, a);
    if |raw| < MinTextLength {
      assert t.entities == [];
      assert Terms(t) == t.keywords + [];
    }
  }

  /** Word characters pass through unchanged. */
  lemma {:induction false} WordCharsOfWord(s: string)
    requires forall i :: 0 <= i < |s| ==> IsWordChar(s[i])
    ensures WordChars(s) == s
  {
    if s != [] {
      WordCharsOfWord(s[1..]);
    }
  }

  /**
   * Removing the non-word characters of two texts one after the other is
   * removing them from the two together: every word character is kept, in
   * its place.
   */
  lemma {:induction false} WordCharsAppend(a: string, b: string)
    ensures WordChars(a + b) == WordChars(a) + WordChars(b)
    ensures |a| == 1 ==> WordChars(a) == if IsWordChar(a[0]) then a else ""
    decreases |a|
  {
    if a == [] {
      assert a + b == b;
    } else {
      var x := if IsWordChar(a[0]) then [a[0]] else [];
      assert (a + b)[1..] == a[1..] + b;
      assert WordChars(a + b) == x + WordChars(a[1..] + b);
      assert WordChars(a) == x + WordChars(a[1..]);
      WordCharsAppend(a[1..], b);
      ConsAssoc(x, WordChars(a[1..]), WordChars(b), WordChars(a[1..] + b));
      if |a| == 1 {
        assert a[1..] == [];
        assert a == [a[0]];
      }
    }
  }

  /** A token of punctuation only normalises to the empty string. */
  lemma {:induction false} WordCharsOfPunctuation(s: string)
    requires forall i :: 0 <= i < |s| ==> !IsWordChar(s[i])
    ensures WordChars(s) == ""
  {
    if s != [] {
      WordCharsOfPunctuation(s[1..]);
    }
  }

  /** Normalising a token of word characters is lower-casing it. */
  lemma NormalizeWord(t: string, w: string)
    requires |t| == |w|
    requires forall i :: 0 <= i < |t| ==> IsWordChar(t[i]) && LowerChar(t[i]) == w[i]
    ensures NormalizeToken(t) == w
  {
    assert Lower(t) == w;
    forall i | 0 <= i < |w| ensures IsWordChar(w[i]) {
      assert 'a' <= w[i] <= 'z' || w[i] == t[i];
    }
    WordCharsOfWord(w);
  }

  /** "The" normalises to "the". */
  lemma NormalizeCapitalised()
    ensures NormalizeToken("The") == "the"
  {
    NormalizeWord("The", "the");
  }

  /** A full stop normalises to the empty token. */
  lemma NormalizePunctuation()
    ensures NormalizeToken(".") == ""
  {
    var l := Lower(".");
    assert l == "." by {
      assert l[0] == LowerChar('.');
    }
    WordCharsOfPunctuation(".");
  }

  /** Two tokens that differ only in case or punctuation give one keyword. */
  lemma KeywordsOfRepeatedWord(a: string, b: string)
    requires NormalizeToken(a) == NormalizeToken(b)
    requires |NormalizeToken(a)| > 1
    ensures Keywords([a, b], None) == [NormalizeToken(a)]
  {
    var w := NormalizeToken(a);
    var normalized := Normalized([a, b]);
    assert normalized[0] == w && normalized[1] == w;
    assert normalized == [w, w];
    DedupTwice(w);
    assert Filter([w], (x: string) => |x| > 1) == [w] by {
      assert [w][1..] == [];
    }
  }

  /** A value seen twice is kept once. */
  lemma DedupTwice<T>(w: T)
    ensures Dedup([w, w]) == [w]
  {
    assert [w, w][..1] == [w];
    assert [w][..0] == [];
    assert Dedup([w]) == [w];
  }

  /** "The" and "the" are one keyword. */
  lemma KeywordsIgnoreCase()
    ensures Keywords(["The", "the"], None) == ["the"]
  {
    NormalizeCapitalised();
    NormalizeWord("the", "the");
    KeywordsOfRepeatedWord("The", "the");
  }
}
