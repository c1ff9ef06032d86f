/** Entry-header parsing of the coverage parser (outlook.py, get_title_pub): the split of
    the header text into title and publication, the platform list and the link list.
    The regex that locates the header text (outlook.py:137), html.unescape, and the regex
    that finds the anchor texts (outlook.py:157) are not modelled: their results are
    parameters. */
module Header {
  import opened Common
  import opened Text

  /** The first separator tried (outlook.py:143): the three characters U+00E2 U+20AC
      U+201C, i.e. the UTF-8 bytes of an en dash read as Windows-1252 text. */
  const Mojibake: string := "\U{E2}\U{20AC}\U{201C}"

  const Hyphen: string := "-"

  /** The placeholder publication when the header cannot be split (outlook.py:200). */
  const NotAvailable: string := "N/A"

  /** The fixed platform vocabulary, in its declared order (outlook.py:164). */
  const Vocabulary: seq<string> :=
    ["Online", "Facebook", "Instagram", "Twitter", "LinkedIn", "Linkedin", "Youtube"]

  const PrintWord: string := "Print"

  /** Start and end of the link regex `<a href=\"([\s\S]*?)\">` (outlook.py:180). */
  const HrefOpen: string := "<a href=\""
  const HrefClose: string := "\">"

  datatype TitlePub = TitlePub(title: string, publication: string)

  /** One parsed coverage entry, as get_title_pub returns it. */
  datatype Entry = Entry(title: string, publication: string, platforms: seq<string>,
                         links: seq<string>)

  /** The text neither starts nor ends with whitespace, as `strip()` leaves it. */
  predicate Trimmed(s: string) {
    |s| > 0 ==> !IsSpace(s[0]) && !IsSpace(s[|s| - 1])
  }

  /** The parts the header text is cut into: by the mojibake separator, and by a hyphen
      only when that first split gives fewer than two parts. */
  function HeaderParts(titlePub: string): (parts: seq<string>)
    ensures |parts| >= 1
    ensures Contains(titlePub, Mojibake) ==> parts == Split(titlePub, Mojibake)
    ensures !Contains(titlePub, Mojibake) ==> parts == Split(titlePub, Hyphen)
  {
    SplitNoSeparator(titlePub, Mojibake);
    var parts := Split(titlePub, Mojibake);
    if |parts| < 2 then Split(titlePub, Hyphen) else parts
  }

  /** Title and publication chosen from the parts (outlook.py:183-201). */
  function SelectTitlePub(titlePub: string): (r: TitlePub)
    ensures Trimmed(r.title) && Trimmed(r.publication)
  {
    ChooseTitlePub(HeaderParts(titlePub))
  }

  /** Parts 1 and 2 when there are more than two, parts 0 and 1 when there are two,
      and part 0 with the placeholder otherwise, each stripped. */
  function ChooseTitlePub(parts: seq<string>): (r: TitlePub)
    requires |parts| >= 1
    ensures Trimmed(r.title) && Trimmed(r.publication)
  {
    if |parts| > 2 then TitlePub(Strip(parts[1]), Strip(parts[2]))
    else if |parts| == 2 then TitlePub(Strip(parts[0]), Strip(parts[1]))
    else TitlePub(Strip(parts[0]), NotAvailable)
  }

  lemma MojibakeUnbordered()
    ensures Unbordered(Mojibake)
  {
    assert Mojibake[..1][0] != Mojibake[2..][0];
    assert Mojibake[..2][0] != Mojibake[1..][0];
  }

  /** `a <sep> b` with `a` free of the separator splits into `a` and the split of `b`. */
  lemma SplitAtFirst(a: string, sep: string, b: string)
    requires |sep| > 0 && Unbordered(sep) && !Contains(a, sep)
    ensures Split(a + sep + b, sep) == [a] + Split(b, sep)
  {
    NoEarlyOccurrence(a, sep, b);
    SplitAfter(a, sep, b);
  }

  /** Exactly two parts: title and publication are the stripped parts 0 and 1
      (outlook.py:143, 189-191), whatever hyphens they hold. */
  lemma TwoPartHeader(a: string, b: string)
    requires !Contains(a, Mojibake) && !Contains(b, Mojibake)
    ensures SelectTitlePub(a + Mojibake + b) == TitlePub(Strip(a), Strip(b))
  {
    MojibakeUnbordered();
    SplitAtFirst(a, Mojibake, b);
    SplitNoSeparator(b, Mojibake);
    OccursContains(a + Mojibake + b, Mojibake, |a|);
  }

  /** More than two parts: part 0 is dropped, title and publication are parts 1 and 2,
      and whatever follows the second separator is ignored (outlook.py:185-187). */
  lemma ExtraLeadingPart(a: string, b: string, c: string)
    requires !Contains(a, Mojibake) && !Contains(b, Mojibake)
    ensures SelectTitlePub(a + Mojibake + b + Mojibake + c)
            == TitlePub(Strip(b), Strip(Split(c, Mojibake)[0]))
  {
    MojibakeUnbordered();
    var t := a + Mojibake + b + Mojibake + c;
    assert t == a + Mojibake + (b + Mojibake + c);
    SplitAtFirst(a, Mojibake, b + Mojibake + c);
    SplitAtFirst(b, Mojibake, c);
    OccursContains(t, Mojibake, |a|);
  }

  /** Without the mojibake separator, a single hyphen separates title and publication. */
  lemma HyphenFallback(a: string, b: string)
    requires !Contains(a + Hyphen + b, Mojibake)
    requires !Contains(a, Hyphen) && !Contains(b, Hyphen)
    ensures SelectTitlePub(a + Hyphen + b) == TitlePub(Strip(a), Strip(b))
  {
    SplitAtFirst(a, Hyphen, b);
    SplitNoSeparator(b, Hyphen);
  }

  /** Without the mojibake separator, more than one hyphen: part 0 is dropped, and title
      and publication are the stripped parts 1 and 2 of the hyphen split, so "A-B - Pub"
      gives "B" and "Pub". */
  lemma HyphenExtraLeadingPart(a: string, b: string, c: string)
    requires !Contains(a + Hyphen + b + Hyphen + c, Mojibake)
    requires !Contains(a, Hyphen) && !Contains(b, Hyphen)
    ensures SelectTitlePub(a + Hyphen + b + Hyphen + c)
            == TitlePub(Strip(b), Strip(Split(c, Hyphen)[0]))
  {
    var t := a + Hyphen + b + Hyphen + c;
    assert t == a + Hyphen + (b + Hyphen + c);
    SplitAtFirst(a, Hyphen, b + Hyphen + c);
    SplitAtFirst(b, Hyphen, c);
  }

  /** A header text with neither separator gives the whole stripped text as title and
      the placeholder "N/A" as publication (outlook.py:193-201). */
  lemma UnsplitHeader(titlePub: string)
    requires !Contains(titlePub, Mojibake) && !Contains(titlePub, Hyphen)
    ensures SelectTitlePub(titlePub) == TitlePub(Strip(titlePub), NotAvailable)
  {
    SplitNoSeparator(titlePub, Hyphen);
  }

  /** Holds when `xs` is `ys` with some elements left out, order kept. */
  predicate SubsequenceOf(xs: seq<string>, ys: seq<string>)
    decreases |ys|
  {
    if |xs| == 0 then true
    else if |ys| == 0 then false
    else (xs[|xs| - 1] == ys[|ys| - 1] && SubsequenceOf(xs[..|xs| - 1], ys[..|ys| - 1]))
         || SubsequenceOf(xs, ys[..|ys| - 1])
  }

  /** The vocabulary names that occur, case-sensitively, in the raw header, in vocabulary
      order (outlook.py:165-168). */
  function VocabularyHits(header: string, vocab: seq<string>): (hits: seq<string>)
    ensures forall x :: x in hits <==> x in vocab && Contains(header, x)
    ensures SubsequenceOf(hits, vocab)
    decreases |vocab|
  {
    if |vocab| == 0 then []
    else
      var last := vocab[|vocab| - 1];
      var init := vocab[..|vocab| - 1];
      assert vocab == init + [last];
      var before := VocabularyHits(header, init);
      if Contains(header, last) then
        var hits := before + [last];
        assert hits[..|hits| - 1] == before;
        hits
      else before
  }

  predicate IsWordChar(c: char) {
    IsAsciiLetter(c) || '0' <= c <= '9' || c == '_'
  }

  /** A whole-word `Print` starts at index `i` (the regex `\bPrint\b`, outlook.py:173). */
  predicate PrintAt(h: string, i: nat) {
    OccursAt(h, PrintWord, i)
    && (i == 0 || !IsWordChar(h[i - 1]))
    && (i + |PrintWord| == |h| || !IsWordChar(h[i + |PrintWord|]))
  }

  /** Positions of the whole-word `Print` matches at or after `from`, in document order.
      The word cannot overlap itself, so scanning every position finds the same matches
      as `re.findall`. */
  function PrintMatches(h: string, from: nat): (ps: seq<nat>)
    ensures forall i :: i in ps <==> from <= i && PrintAt(h, i)
    ensures forall k, l :: 0 <= k < l < |ps| ==> ps[k] < ps[l]
    decreases |h| - from
  {
    if from >= |h| then []
    else
      var rest := PrintMatches(h, from + 1);
      assert forall l :: 0 <= l < |rest| ==> rest[l] in rest;
      if PrintAt(h, from) then [from] + rest else rest
  }

  function Repeat(x: string, n: nat): (r: seq<string>)
    ensures |r| == n && forall k :: 0 <= k < n ==> r[k] == x
  {
    seq(n, _ => x)
  }

  /** The platform list get_title_pub returns: the anchor texts when there are any,
      otherwise the vocabulary hits; then one "Print" per whole-word match. */
  function Platforms(header: string, anchors: seq<string>): (p: seq<string>)
    ensures |anchors| > 0 ==> |anchors| <= |p| && p[..|anchors|] == anchors
    ensures forall x :: x in p ==> x in anchors || (x in Vocabulary && Contains(header, x))
                                   || x == PrintWord
    ensures |p| >= |PrintMatches(header, 0)|
  {
    var base := if |anchors| > 0 then anchors else VocabularyHits(header, Vocabulary);
    var p := base + Repeat(PrintWord, |PrintMatches(header, 0)|);
    assert p[..|base|] == base;
    p
  }

  /** Builds the platform list with the append loops of outlook.py:154-177. */
  method BuildPlatforms(header: string, anchors: seq<string>) returns (platform: seq<string>)
    ensures platform == Platforms(header, anchors)
  {
    platform := [];
    // Check 1: the anchor texts.
    if |anchors| > 0 {
      for k := 0 to |anchors|
        invariant platform == anchors[..k]
      {
        platform := platform + [anchors[k]];
      }
      assert anchors[..|anchors|] == anchors;
    }
    // Check 2: the vocabulary, only when check 1 found nothing.
    if |platform| == 0 {
      for k := 0 to |Vocabulary|
        invariant platform == VocabularyHits(header, Vocabulary[..k])
      {
        assert Vocabulary[..k + 1][..k] == Vocabulary[..k];
        if Contains(header, Vocabulary[k]) {
          platform := platform + [Vocabulary[k]];
        }
      }
      assert Vocabulary[..|Vocabulary|] == Vocabulary;
    }
    // Print check: one "Print" per whole-word match.
    var base := platform;
    var matches := PrintMatches(header, 0);
    for k := 0 to |matches|
      invariant platform == base + Repeat(PrintWord, k)
    {
      platform := platform + [PrintWord];
    }
  }

  /** With anchor texts, the platforms are exactly those texts in order, then the
      "Print" matches; the vocabulary is not consulted. */
  lemma AnchorsWin(header: string, anchors: seq<string>)
    requires |anchors| > 0
    ensures var p := Platforms(header, anchors);
            |p| == |anchors| + |PrintMatches(header, 0)| && p[..|anchors|] == anchors
            && forall k :: |anchors| <= k < |p| ==> p[k] == PrintWord
  {
    var p := Platforms(header, anchors);
    assert p[..|anchors|] == anchors;
  }

  /** Without anchor texts, a name other than "Print" is a platform exactly when it is a
      vocabulary name occurring in the header. */
  lemma VocabularyWhenNoAnchors(header: string, x: string)
    requires x != PrintWord
    ensures x in Platforms(header, []) <==> x in Vocabulary && Contains(header, x)
  {
    var hits := VocabularyHits(header, Vocabulary);
    var p := Platforms(header, []);
    assert p == hits + Repeat(PrintWord, |PrintMatches(header, 0)|);
    if x in p {
      var k :| 0 <= k < |p| && p[k] == x;
      assert k < |hits|;
    }
  }

  /** Without anchor texts, the platforms are the vocabulary hits in vocabulary order,
      then exactly one "Print" per whole-word match. */
  lemma VocabularyThenPrints(header: string)
    ensures var hits := VocabularyHits(header, Vocabulary);
            var p := Platforms(header, []);
            |p| == |hits| + |PrintMatches(header, 0)| && p[..|hits|] == hits
            && forall k :: |hits| <= k < |p| ==> p[k] == PrintWord
  {
    var hits := VocabularyHits(header, Vocabulary);
    var p := Platforms(header, []);
    assert p[..|hits|] == hits;
  }

  lemma HrefOpenUnbordered()
    ensures Unbordered(HrefOpen)
  {
    assert HrefOpen[..1][0] != HrefOpen[8..][0];
    assert HrefOpen[..2][0] != HrefOpen[7..][0];
    assert HrefOpen[..3][0] != HrefOpen[6..][0];
    assert HrefOpen[..4][0] != HrefOpen[5..][0];
    assert HrefOpen[..5][0] != HrefOpen[4..][0];
    assert HrefOpen[..6][0] != HrefOpen[3..][0];
    assert HrefOpen[..7][0] != HrefOpen[2..][0];
    assert HrefOpen[..8][0] != HrefOpen[1..][0];
  }

  lemma HrefCloseUnbordered()
    ensures Unbordered(HrefClose)
  {
    assert HrefClose[..1][0] != HrefClose[1..][0];
  }

  /** `re.findall(r"<a href=\"([\s\S]*?)\">", s)` (outlook.py:180, Demo/s_parser.py:53):
      the shortest text after each `<a href="` up to the next `">`, left to right. */
  function Hrefs(s: string): (links: seq<string>)
    ensures forall k :: 0 <= k < |links| ==> !Contains(links[k], HrefClose)
    decreases |s|
  {
    match IndexOf(s, HrefOpen)
    case None => []
    case Some(i) =>
      var body := s[i + |HrefOpen|..];
      match IndexOf(body, HrefClose)
      case None => []
      case Some(j) =>
        PrefixFree(body, HrefClose, j);
        [body[..j]] + Hrefs(body[j + |HrefClose|..])
  }

  /** Links are the href values of the anchors, in document order: an anchor preceded
      by text without `<a href="` contributes its href first. */
  lemma HrefsInOrder(pre: string, url: string, post: string)
    requires !Contains(pre, HrefOpen) && !Contains(url, HrefClose)
    ensures Hrefs(pre + HrefOpen + url + HrefClose + post) == [url] + Hrefs(post)
  {
    HrefOpenUnbordered();
    HrefCloseUnbordered();
    var s := pre + HrefOpen + url + HrefClose + post;
    var rest := url + HrefClose + post;
    assert s == pre + HrefOpen + rest;
    NoEarlyOccurrence(pre, HrefOpen, rest);
    assert OccursAt(s, HrefOpen, |pre|);
    assert IndexOf(s, HrefOpen) == Some(|pre|);
    assert s[|pre| + |HrefOpen|..] == rest;
    NoEarlyOccurrence(url, HrefClose, post);
    assert OccursAt(rest, HrefClose, |url|);
    assert IndexOf(rest, HrefClose) == Some(|url|);
    assert rest[..|url|] == url;
    assert rest[|url| + |HrefClose|..] == post;
  }

  /** An `<a href="` with no `">` after it ends the matches: `findall` finds none. */
  lemma UnclosedAnchorNoLinks(pre: string, body: string)
    requires !Contains(pre, HrefOpen) && !Contains(body, HrefClose)
    ensures Hrefs(pre + HrefOpen + body) == []
  {
    HrefOpenUnbordered();
    var s := pre + HrefOpen + body;
    NoEarlyOccurrence(pre, HrefOpen, body);
    assert OccursAt(s, HrefOpen, |pre|);
    assert IndexOf(s, HrefOpen) == Some(|pre|);
    assert s[|pre| + |HrefOpen|..] == body;
  }

  /** A header with no `<a href="` has no links. */
  lemma NoAnchorNoLinks(s: string)
    requires !Contains(s, HrefOpen)
    ensures Hrefs(s) == []
  {
  }

  /** get_title_pub (outlook.py:134-201) with the located, unescaped header text
      `titlePub`, the raw `header` and the anchor texts found in it. */
  method GetTitlePub(titlePub: string, header: string, anchors: seq<string>)
    returns (e: Entry)
    ensures TitlePub(e.title, e.publication) == SelectTitlePub(titlePub)
    ensures e.platforms == Platforms(header, anchors)
    ensures e.links == Hrefs(header)
  {
    var platform := BuildPlatforms(header, anchors);
    var links := Hrefs(header);
    var tp := SelectTitlePub(titlePub);
    e := Entry(tp.title, tp.publication, platform, links);
  }
}
