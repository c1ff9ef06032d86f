/** The tier/category classifier (outlook.py, get_tiercat): four passes over the media
    list, in strict order, each returning the tier and type of the first matching row.
    The media list is given as a sequence in the order `SELECT * FROM medialist` yields
    it, and every regex built from publication text is read as plain text. */
module TierCat {
  import opened Common
  import opened Text

  /** One row of the media list: its url, tier and type columns. */
  datatype MediaRow = MediaRow(url: string, tier: Cell, kind: Cell)

  datatype TierCategory = TierCategory(tier: Cell, category: Cell)

  /** What the classifier returns when no row matches (outlook.py:333). */
  const NotFound: TierCategory := TierCategory(Txt("N/A"), Txt("N/A"))

  function TierOf(row: MediaRow): TierCategory {
    TierCategory(row.tier, row.kind)
  }

  /** From `p` on, the index of the first '/', unless a newline or the end comes first:
      the lazy `(.*?)(?=\/)` of outlook.py:277, whose `.` does not match a newline. */
  function SlashFrom(s: string, p: nat): (r: Option<nat>)
    ensures r.Some? ==> p <= r.value < |s| && s[r.value] == '/'
                        && forall k :: p <= k < r.value ==> s[k] != '/' && s[k] != '\n'
    decreases |s| - p
  {
    if p >= |s| then None
    else if s[p] == '/' then Some(p)
    else if s[p] == '\n' then None
    else SlashFrom(s, p + 1)
  }

  /** Index `q` is preceded by `//`, where the lookbehind `(?<=//)` succeeds. */
  predicate AfterDoubleSlash(s: string, q: nat) {
    2 <= q <= |s| && s[q - 2..q] == "//"
  }

  /** A match of `(?<=//)(.*?)(?=\/)` can start at `q`. */
  predicate HostStart(s: string, q: nat) {
    AfterDoubleSlash(s, q) && SlashFrom(s, q).Some?
  }

  /** `re.search(r"(?<=//)(.*?)(?=\/)", s)` tried at every start from `p` on. */
  function HostFrom(s: string, p: nat): (r: Option<string>)
    ensures r.Some? ==> forall k :: 0 <= k < |r.value| ==> r.value[k] != '/' && r.value[k] != '\n'
    decreases |s| + 1 - p
  {
    if p > |s| then None
    else if HostStart(s, p) then
      var q := SlashFrom(s, p).value;
      Some(s[p..q])
    else HostFrom(s, p + 1)
  }

  /** The search from `p` finds the match at the first start from `p` on, and fails
      exactly when no start from `p` on can match. */
  lemma {:induction false} HostFromFirst(s: string, p: nat)
    ensures var r := HostFrom(s, p);
            (r.Some? ==> exists q: nat :: p <= q && HostStart(s, q) && r.value == s[q..SlashFrom(s, q).value]
                                          && forall q': nat :: p <= q' < q ==> !HostStart(s, q'))
            && (r.None? ==> forall q: nat :: p <= q ==> !HostStart(s, q))
    decreases |s| + 1 - p
  {
    if p <= |s| {
      if HostStart(s, p) {
        var r := HostFrom(s, p);
        assert r == Some(s[p..SlashFrom(s, p).value]);
        assert forall q': nat :: p <= q' < p ==> !HostStart(s, q');
      } else {
        HostFromFirst(s, p + 1);
        var r := HostFrom(s, p + 1);
        assert HostFrom(s, p) == r;
        if r.Some? {
          var q: nat :| p + 1 <= q && HostStart(s, q) && r.value == s[q..SlashFrom(s, q).value]
                         && forall q': nat :: p + 1 <= q' < q ==> !HostStart(s, q');
          forall q': nat | p <= q' < q
            ensures !HostStart(s, q')
          {
            if q' > p {
              assert p + 1 <= q' < q;
            }
          }
        } else {
          forall q: nat | p <= q
            ensures !HostStart(s, q)
          {
            if q > p {
              assert p + 1 <= q;
            }
          }
        }
      }
    }
  }

  /** The host part of a link: the text between the first `//` that some `/` follows on
      the same line and that `/`; None where `regex.group()` raises AttributeError. */
  function HostOf(link: string): (r: Option<string>)
    ensures r.Some? ==> exists q: nat :: HostStart(link, q) && r.value == link[q..SlashFrom(link, q).value]
                                         && forall q': nat :: q' < q ==> !HostStart(link, q')
    ensures r.None? <==> forall q: nat :: !HostStart(link, q)
  {
    HostFromFirst(link, 2);
    HostFrom(link, 2)
  }

  lemma {:induction false} SlashAfter(s: string, p: nat, q: nat)
    requires p <= q < |s| && s[q] == '/'
    requires forall k :: p <= k < q ==> s[k] != '/' && s[k] != '\n'
    ensures SlashFrom(s, p) == Some(q)
    decreases q - p
  {
    if p < q {
      SlashAfter(s, p + 1, q);
    }
  }

  lemma {:induction false} HostSkip(s: string, p: nat, t: nat)
    requires 2 <= p <= t <= |s|
    requires forall q :: p <= q < t ==> !AfterDoubleSlash(s, q)
    ensures HostFrom(s, p) == HostFrom(s, t)
    decreases t - p
  {
    if p < t {
      HostSkip(s, p + 1, t);
    }
  }

  /** No `//` ends before the one after a slash-free scheme. */
  lemma NoEarlierDoubleSlash(s: string, scheme: string)
    requires |scheme| + 2 <= |s| && s[..|scheme|] == scheme
    requires forall k :: 0 <= k < |scheme| ==> scheme[k] != '/'
    ensures forall q :: 2 <= q < |scheme| + 2 ==> !AfterDoubleSlash(s, q)
  {
    forall q | 2 <= q < |scheme| + 2 ensures !AfterDoubleSlash(s, q) {
      assert s[q - 2..q][0] == s[q - 2] && s[q - 2..q][1] == s[q - 1];
      assert s[q - 2] == scheme[q - 2];
    }
  }

  /** For a link `scheme//host/rest` whose scheme has no slash and whose host has no
      slash or newline, the host part is exactly `host`. */
  lemma HostOfLink(scheme: string, host: string, rest: string)
    requires forall k :: 0 <= k < |scheme| ==> scheme[k] != '/'
    requires forall k :: 0 <= k < |host| ==> host[k] != '/' && host[k] != '\n'
    ensures HostOf(scheme + "//" + host + "/" + rest) == Some(host)
  {
    var s := scheme + "//" + host + "/" + rest;
    var t := |scheme| + 2;
    assert s == (scheme + "//") + (host + "/" + rest);
    assert s[..|scheme|] == scheme;
    assert s[t - 2..t] == "//";
    assert s[t..t + |host|] == host;
    assert s[t + |host|] == '/';
    NoEarlierDoubleSlash(s, scheme);
    HostSkip(s, 2, t);
    HostAfterScheme(s, t, host);
    assert HostOf(s) == HostFrom(s, 2);
  }

  /** The host part found at `t`, right after `//`, when `host` and a '/' follow. */
  lemma HostAfterScheme(s: string, t: nat, host: string)
    requires 2 <= t && t + |host| < |s| && s[t - 2..t] == "//"
    requires s[t..t + |host|] == host && s[t + |host|] == '/'
    requires forall k :: 0 <= k < |host| ==> host[k] != '/' && host[k] != '\n'
    ensures HostFrom(s, t) == Some(host)
  {
    assert forall k :: t <= k < t + |host| ==> s[k] == host[k - t];
    SlashAfter(s, t, t + |host|);
    assert HostStart(s, t);
  }

  /** The four passes of the classifier, with the text each one searches for. */
  datatype Pass =
    | ByHost(host: string)       // pass 1: the link's host against the url, both ways
    | ByName(name: string)       // pass 2: the publication without spaces
    | ByWord(word: string)       // pass 3: the first word of the publication
    | ByLetters(letters: string) // pass 4: that word with its non-letters removed

  /** Whether a pass accepts a row url (outlook.py:281, 296, 310, 327). */
  predicate Matches(pass: Pass, url: string) {
    match pass
    case ByHost(h) => Contains(h, url) || Contains(url, h)
    case ByName(n) => CiContains(url, n) || CiContains(RemoveSpaces(url), n)
    case ByWord(w) => CiContains(url, w)
    case ByLetters(l) => CiContains(url, l)
  }

  /** The host pass compares exactly, in either direction; the name pass ignores the
      case of the publication, and a plain hit in the url is also a name hit. */
  lemma MatchRules(h: string, n: string, url: string)
    ensures Matches(ByHost(h), url) <==> Matches(ByHost(url), h)
    ensures Matches(ByName(n), url) <==> Matches(ByName(Lower(n)), url)
    ensures Contains(url, n) ==> Matches(ByName(n), url)
  {
    LowerIdempotent(n);
    if Contains(url, n) {
      var i := IndexOf(url, n).value;
      assert Lower(url)[i..i + |n|] == Lower(n);
      OccursContains(Lower(url), Lower(n), i);
    }
  }

  lemma LowerIdempotent(s: string)
    ensures Lower(Lower(s)) == Lower(s)
  {
  }

  /** The first row, at or after `from`, that the pass accepts. */
  function FirstMatch(table: seq<MediaRow>, pass: Pass, from: nat): (r: Option<nat>)
    ensures r.Some? ==> from <= r.value < |table| && Matches(pass, table[r.value].url)
    ensures forall j :: from <= j < |table| && (r.None? || j < r.value)
                        ==> !Matches(pass, table[j].url)
    decreases |table| - from
  {
    if from >= |table| then None
    else if Matches(pass, table[from].url) then Some(from)
    else FirstMatch(table, pass, from + 1)
  }

  function Found(table: seq<MediaRow>, i: Option<nat>): TierCategory
    requires i.Some? ==> i.value < |table|
  {
    if i.Some? then TierOf(table[i.value]) else NotFound
  }

  /** What get_tiercat returns or raises, given the entry's links, its publication,
      the publication's whitespace-separated words and the media list. */
  function Classify(links: seq<string>, publication: string, pubsplit: seq<string>,
                    table: seq<MediaRow>): (r: Result<TierCategory>)
    ensures |table| == 0 ==> r == Ok(NotFound)
    ensures r.Err? ==> |table| > 0 && (r.error == IndexError || r.error == AttributeError)
    ensures r.Ok? && r.value != NotFound ==>
              exists i :: 0 <= i < |table| && r.value == TierOf(table[i])
  {
    if |table| == 0 then Ok(NotFound)
    else if |links| == 0 then Err(IndexError)
    else if HostOf(links[0]).None? then Err(AttributeError)
    else
      var byHost := FirstMatch(table, ByHost(HostOf(links[0]).value), 0);
      if byHost.Some? then Ok(Found(table, byHost))
      else
        var byName := FirstMatch(table, ByName(RemoveSpaces(publication)), 0);
        if byName.Some? then Ok(Found(table, byName))
        else if |pubsplit| == 0 then Err(IndexError)
        else
          var byWord := FirstMatch(table, ByWord(pubsplit[0]), 0);
          if byWord.Some? then Ok(Found(table, byWord))
          else
            var letters := LettersOnly(pubsplit[0]);
            if letters == "" then Ok(NotFound)
            else Ok(Found(table, FirstMatch(table, ByLetters(letters), 0)))
  }

  /** One rescan of the media list by a later pass (outlook.py:288-299, 303-313,
      317-330): the first accepted row, or the row counter left at the table size. */
  method Rescan(table: seq<MediaRow>, pass: Pass) returns (found: Option<nat>, rowCounter: nat)
    ensures found == FirstMatch(table, pass, 0)
    ensures found.None? ==> rowCounter == |table|
  {
    rowCounter := 0;
    var m := 0;
    while m < |table|
      invariant m <= |table| && rowCounter == m
      invariant FirstMatch(table, pass, 0) == FirstMatch(table, pass, m)
    {
      rowCounter := rowCounter + 1;
      if Matches(pass, table[m].url) {
        return Some(m), rowCounter;
      }
      m := m + 1;
    }
    found := None;
  }

  /** get_tiercat (outlook.py:258-334): the outer loop runs pass 1 row by row; on its
      last row (`row_counter == max_rows`) passes 2, 3 and 4 each rescan the table. */
  method GetTierCat(links: seq<string>, publication: string, pubsplit: seq<string>,
                    table: seq<MediaRow>) returns (r: Result<TierCategory>)
    ensures r == Classify(links, publication, pubsplit, table)
  {
    var maxRows := |table|;
    var name := RemoveSpaces(publication);
    var rowCounter := 0;
    var k := 0;
    while k < |table|
      invariant k <= |table|
      invariant k < |table| ==> rowCounter == k
      invariant k > 0 ==> |links| > 0 && HostOf(links[0]).Some?
      invariant k > 0 ==> FirstMatch(table, ByHost(HostOf(links[0]).value), 0)
                          == FirstMatch(table, ByHost(HostOf(links[0]).value), k)
      invariant k == |table| && k > 0 ==>
                  Classify(links, publication, pubsplit, table) == Ok(NotFound)
    {
      rowCounter := rowCounter + 1;
      var url := table[k].url;
      if |links| == 0 {
        return Err(IndexError);
      }
      var host := HostOf(links[0]);
      if host.None? {
        return Err(AttributeError);
      }
      // Check 1: host and url contain one another.
      if Matches(ByHost(host.value), url) {
        return Ok(TierOf(table[k]));
      }
      var found: Option<nat>;
      // Check 2: the publication without spaces.
      if rowCounter == maxRows {
        found, rowCounter := Rescan(table, ByName(name));
        if found.Some? {
          return Ok(TierOf(table[found.value]));
        }
      }
      // Check 3: the first word of the publication; `pubsplit[0]` raises on the
      // rescan's first row when there are no words.
      if rowCounter == maxRows {
        if |pubsplit| == 0 {
          return Err(IndexError);
        }
        found, rowCounter := Rescan(table, ByWord(pubsplit[0]));
        if found.Some? {
          return Ok(TierOf(table[found.value]));
        }
      }
      // Check 4: that word with every non-letter removed, skipped when nothing is left.
      if rowCounter == maxRows {
        rowCounter := 0;
        var letters := LettersOnly(pubsplit[0]);
        if letters != "" {
          found, rowCounter := Rescan(table, ByLetters(letters));
          if found.Some? {
            return Ok(TierOf(table[found.value]));
          }
        }
      }
      k := k + 1;
    }
    return Ok(NotFound);
  }

  /** Pass 1 has priority: when some row matches the link's host, the result is the
      first such row, whatever the later passes would have found. */
  lemma HostMatchWins(links: seq<string>, publication: string, pubsplit: seq<string>,
                      table: seq<MediaRow>, j: nat)
    requires |links| > 0 && HostOf(links[0]).Some? && j < |table|
    requires Matches(ByHost(HostOf(links[0]).value), table[j].url)
    ensures exists i :: 0 <= i <= j
                        && Classify(links, publication, pubsplit, table) == Ok(TierOf(table[i]))
                        && Matches(ByHost(HostOf(links[0]).value), table[i].url)
                        && forall l :: 0 <= l < i ==> !Matches(ByHost(HostOf(links[0]).value), table[l].url)
  {
    var i := FirstMatch(table, ByHost(HostOf(links[0]).value), 0).value;
    assert i <= j;
  }

  /** Pass 2 decides when no row matches the host and some row matches the publication
      name: the result is the first row matching the name. */
  lemma NameMatchSecond(links: seq<string>, publication: string, pubsplit: seq<string>,
                        table: seq<MediaRow>, j: nat)
    requires |links| > 0 && HostOf(links[0]).Some? && j < |table|
    requires forall l :: 0 <= l < |table| ==> !Matches(ByHost(HostOf(links[0]).value), table[l].url)
    requires Matches(ByName(RemoveSpaces(publication)), table[j].url)
    ensures exists i :: 0 <= i <= j
                        && Classify(links, publication, pubsplit, table) == Ok(TierOf(table[i]))
                        && Matches(ByName(RemoveSpaces(publication)), table[i].url)
                        && forall l :: 0 <= l < i ==> !Matches(ByName(RemoveSpaces(publication)), table[l].url)
  {
    assert FirstMatch(table, ByHost(HostOf(links[0]).value), 0).None?;
    var i := FirstMatch(table, ByName(RemoveSpaces(publication)), 0).value;
    assert i <= j;
  }

  /** Passes 3 and 4 decide only after passes 1 and 2 fail on every row; when all four
      fail the result is ("N/A", "N/A"). */
  lemma LaterPasses(links: seq<string>, publication: string, pubsplit: seq<string>,
                    table: seq<MediaRow>)
    requires |links| > 0 && HostOf(links[0]).Some? && |table| > 0 && |pubsplit| > 0
    requires forall l :: 0 <= l < |table| ==> !Matches(ByHost(HostOf(links[0]).value), table[l].url)
    requires forall l :: 0 <= l < |table| ==> !Matches(ByName(RemoveSpaces(publication)), table[l].url)
    ensures var word := FirstMatch(table, ByWord(pubsplit[0]), 0);
            var letters := LettersOnly(pubsplit[0]);
            Classify(links, publication, pubsplit, table)
            == if word.Some? then Ok(TierOf(table[word.value]))
               else if letters == "" then Ok(NotFound)
               else Ok(Found(table, FirstMatch(table, ByLetters(letters), 0)))
  {
    assert FirstMatch(table, ByHost(HostOf(links[0]).value), 0).None?;
    assert FirstMatch(table, ByName(RemoveSpaces(publication)), 0).None?;
  }

  /** The error exits: a non-empty table with no link raises IndexError, and a first
      link without a `//host/` part raises AttributeError. */
  lemma ClassifyErrors(links: seq<string>, publication: string, pubsplit: seq<string>,
                       table: seq<MediaRow>)
    requires |table| > 0
    ensures |links| == 0 ==> Classify(links, publication, pubsplit, table) == Err(IndexError)
    ensures |links| > 0 && HostOf(links[0]).None? ==>
              Classify(links, publication, pubsplit, table) == Err(AttributeError)
  {
  }
}
