/** The demonstration parser (Demo/s_parser.py): each entry header is cut at the en dash
    into title and publication, its platforms are the vocabulary names it contains and
    its links the href values; every article is stored in a fresh database with three
    slot columns per side table and committed on its own, with no retry on a duplicate
    title. The folder dialog, the message files and the regexes that locate the body,
    the entries and the header text are not modelled: the located, unescaped header
    text and the raw header of each entry are inputs. */
module Demo {
  import opened Common
  import opened Text
  import opened Header
  import opened Store

  /** Slot columns per side table: platform0..platform2 and link0..link2
      (Demo/s_parser.py:95-111). */
  const DemoSlots: nat := 3

  /** The separator of title and publication (Demo/s_parser.py:41): the en dash U+2013. */
  const EnDash: string := "\U{2013}"

  /** The setup deletes every row and empties `sqlite_sequence`, so AUTOINCREMENT hands
      out 1 first (Demo/s_parser.py:113-118). */
  const FirstId: nat := 1

  /** One entry of a message: the located, unescaped header text and the raw header. */
  datatype DemoEntry = DemoEntry(titlePub: string, header: string)

  /** What the run leaves: the tables as last committed, and the exception that ended
      it, if one did. */
  datatype Outcome = Outcome(committed: Tables, error: Option<Error>)

  /** The emptied tables of the setup. */
  function Fresh(): Tables {
    Tables([], FirstId, [], [])
  }

  /** `split("–")`, then parts 0 and 1 stripped (Demo/s_parser.py:40-44); a header text
      without the dash has one part, and `split_list[1]` raises IndexError. */
  function DemoTitlePub(titlePub: string): (r: Result<TitlePub>)
    ensures r.Err? <==> !Contains(titlePub, EnDash)
    ensures r.Err? ==> r.error == IndexError
    ensures r.Ok? ==> Trimmed(r.value.title) && Trimmed(r.value.publication)
  {
    SplitNoSeparator(titlePub, EnDash);
    var parts := Split(titlePub, EnDash);
    if |parts| < 2 then Err(IndexError) else Ok(TitlePub(Strip(parts[0]), Strip(parts[1])))
  }

  lemma EnDashUnbordered()
    ensures Unbordered(EnDash)
  {
  }

  /** The title is the text before the first dash and the publication the text up to
      the next one, both stripped; whatever follows a second dash is dropped. */
  lemma DashSplit(a: string, b: string, c: string)
    requires !Contains(a, EnDash) && !Contains(b, EnDash)
    ensures DemoTitlePub(a + EnDash + b) == Ok(TitlePub(Strip(a), Strip(b)))
    ensures DemoTitlePub(a + EnDash + b + EnDash + c) == Ok(TitlePub(Strip(a), Strip(b)))
  {
    EnDashUnbordered();
    SplitAtFirst(a, EnDash, b);
    SplitNoSeparator(b, EnDash);
    var t := a + EnDash + b + EnDash + c;
    assert t == a + EnDash + (b + EnDash + c);
    SplitAtFirst(a, EnDash, b + EnDash + c);
    SplitAtFirst(b, EnDash, c);
  }

  /** The parse of one entry (Demo/s_parser.py:35-53): title and publication, the
      vocabulary names that occur in the raw header, in vocabulary order, and the links. */
  function DemoEntryOf(e: DemoEntry): (r: Result<Entry>)
    ensures r.Err? <==> !Contains(e.titlePub, EnDash)
    ensures r.Ok? ==> TitlePub(r.value.title, r.value.publication) == DemoTitlePub(e.titlePub).value
                      && (forall x :: x in r.value.platforms <==> x in Vocabulary && Contains(e.header, x))
                      && SubsequenceOf(r.value.platforms, Vocabulary)
                      && r.value.links == Hrefs(e.header)
  {
    match DemoTitlePub(e.titlePub)
    case Err(x) => Err(x)
    case Ok(tp) => Ok(Entry(tp.title, tp.publication, VocabularyHits(e.header, Vocabulary), Hrefs(e.header)))
  }

  /** sql_insert (Demo/s_parser.py:58-80) before its commit: the article row with no
      date, tier or category, then its side-table rows and slots. */
  function DemoStore(t: Tables, title: string, publication: string, platforms: seq<string>,
                     links: seq<string>): (r: Result<Tables>)
    ensures r.Err? <==> HasTitle(t.articles, title) || |platforms| > DemoSlots || |links| > DemoSlots
    ensures r.Ok? ==> |r.value.articles| == |t.articles| + 1 && r.value.articles[..|t.articles|] == t.articles
                      && r.value.articles[|t.articles|].title == title
                      && r.value.articles[|t.articles|].id == t.nextId && r.value.nextId == t.nextId + 1
  {
    match Insert(t, Null, title, publication, Null, Null)
    case Err(x) => Err(x)
    case Ok(u) =>
      assert u.articles[|t.articles|].title == title;
      Slots(u, title, DemoSlots, platforms, links)
  }

  /** One entry: parsed, then stored. */
  function DemoStep(t: Tables, e: DemoEntry): (r: Result<Tables>)
    ensures r.Ok? ==> Contains(e.titlePub, EnDash)
                      && |r.value.articles| == |t.articles| + 1 && r.value.articles[..|t.articles|] == t.articles
                      && r.value.articles[|t.articles|].title == DemoTitlePub(e.titlePub).value.title
  {
    match DemoEntryOf(e)
    case Err(x) => Err(x)
    case Ok(en) => DemoStore(t, en.title, en.publication, en.platforms, en.links)
  }

  /** The entries in order from the tables `t0`: each stored entry is committed, and the
      first exception ends the run with the tables of the entries before it. */
  function DemoRun(t0: Tables, entries: seq<DemoEntry>): (r: Outcome)
    ensures |t0.articles| <= |r.committed.articles| <= |t0.articles| + |entries|
    ensures r.committed.articles[..|t0.articles|] == t0.articles
    decreases |entries|
  {
    if |entries| == 0 then Outcome(t0, None)
    else
      var before := DemoRun(t0, entries[..|entries| - 1]);
      if before.error.Some? then before
      else
        match DemoStep(before.committed, entries[|entries| - 1])
        case Err(x) => Outcome(before.committed, Some(x))
        case Ok(u) => Outcome(u, None)
  }

  /** A header text without the en dash ends the run with IndexError. */
  lemma NoDashIndexError(t: Tables, e: DemoEntry)
    requires !Contains(e.titlePub, EnDash)
    ensures DemoStep(t, e) == Err(IndexError)
  {
  }

  /** A title already stored is an IntegrityError: unlike the coverage parser, the demo
      does not retry under another title. */
  lemma DuplicateRejected(t: Tables, title: string, publication: string,
                         platforms: seq<string>, links: seq<string>)
    requires HasTitle(t.articles, title)
    ensures DemoStore(t, title, publication, platforms, links) == Err(IntegrityError)
  {
  }

  /** A fourth platform, or with at most three platforms a fourth link, names a column
      the demo's tables do not have. */
  lemma FourthSlotMissing(t: Tables, title: string, publication: string,
                          platforms: seq<string>, links: seq<string>)
    requires !HasTitle(t.articles, title)
    requires |platforms| > DemoSlots || |links| > DemoSlots
    ensures DemoStore(t, title, publication, platforms, links)
            == Err(NoSuchColumn(if |platforms| > DemoSlots then "platform" else "link", DemoSlots))
  {
  }

  /** A new title with at most three platforms and links is stored under the next id,
      with the platforms and links in slots 0, 1, ... and NULL after them. */
  lemma DemoStoreContents(t: Tables, title: string, publication: string,
                          platforms: seq<string>, links: seq<string>)
    requires Consistent(t, DemoSlots) && !HasTitle(t.articles, title)
    requires |platforms| <= DemoSlots && |links| <= DemoSlots
    ensures DemoStore(t, title, publication, platforms, links)
            == Ok(Tables(t.articles + [Article(t.nextId, Null, title, publication, Null, Null)],
                         t.nextId + 1,
                         t.platforms + [SlotRow(t.nextId, Texts(platforms) + Nulls(DemoSlots - |platforms|))],
                         t.links + [SlotRow(t.nextId, Texts(links) + Nulls(DemoSlots - |links|))]))
  {
    StoredArticleRows(t, DemoSlots, Null, title, publication, Null, Null, platforms, links);
  }

  /** The articles are numbered 1, 2, ... in the order they were stored, and the next
      id follows the last. */
  predicate Numbered(t: Tables) {
    t.nextId == |t.articles| + FirstId
    && forall k :: 0 <= k < |t.articles| ==> t.articles[k].id == k + FirstId
  }

  /** A store keeps the tables consistent and the numbering gapless. */
  lemma DemoStoreKeeps(t: Tables, title: string, publication: string,
                       platforms: seq<string>, links: seq<string>)
    requires Consistent(t, DemoSlots) && Numbered(t)
    requires DemoStore(t, title, publication, platforms, links).Ok?
    ensures Consistent(DemoStore(t, title, publication, platforms, links).value, DemoSlots)
    ensures Numbered(DemoStore(t, title, publication, platforms, links).value)
  {
    DemoStoreContents(t, title, publication, platforms, links);
    var a := Article(t.nextId, Null, title, publication, Null, Null);
    var arts := t.articles + [a];
    forall i, j | 0 <= i < j < |arts| ensures arts[i].title != arts[j].title {
      if j == |t.articles| {
        assert arts[i] == t.articles[i];
      }
    }
    forall k | 0 <= k < |arts| ensures arts[k].id == k + FirstId {
      if k < |t.articles| {
        assert arts[k] == t.articles[k];
      }
    }
  }

  /** After any run from the emptied tables, the committed tables are consistent and
      their articles are numbered 1, 2, ... in processing order. */
  lemma {:induction false} DemoRunKeeps(entries: seq<DemoEntry>)
    ensures Consistent(DemoRun(Fresh(), entries).committed, DemoSlots)
    ensures Numbered(DemoRun(Fresh(), entries).committed)
    decreases |entries|
  {
    if |entries| > 0 {
      var prefix := entries[..|entries| - 1];
      DemoRunKeeps(prefix);
      var before := DemoRun(Fresh(), prefix);
      var e := entries[|entries| - 1];
      if before.error.None? && DemoStep(before.committed, e).Ok? {
        var en := DemoEntryOf(e).value;
        DemoStoreKeeps(before.committed, en.title, en.publication, en.platforms, en.links);
      }
    }
  }

  /** Once an entry raises, the run ends there: the committed tables are those of the
      entries before it and the exception is that entry's. */
  lemma {:induction false} CrashKeepsCommitted(t0: Tables, entries: seq<DemoEntry>, n: nat)
    requires n <= |entries| && DemoRun(t0, entries[..n]).error.Some?
    ensures DemoRun(t0, entries) == DemoRun(t0, entries[..n])
    decreases |entries| - n
  {
    if n < |entries| {
      var shorter := entries[..|entries| - 1];
      assert shorter[..n] == entries[..n];
      CrashKeepsCommitted(t0, shorter, n);
    } else {
      assert entries[..n] == entries;
    }
  }

  /** A run without exceptions stores every entry, one article each. */
  lemma {:induction false} CleanRunStoresAll(t0: Tables, entries: seq<DemoEntry>)
    requires DemoRun(t0, entries).error.None?
    ensures |DemoRun(t0, entries).committed.articles| == |t0.articles| + |entries|
    ensures DemoRun(t0, entries).committed.articles[..|t0.articles|] == t0.articles
    decreases |entries|
  {
    if |entries| > 0 {
      var prefix := entries[..|entries| - 1];
      var before := DemoRun(t0, prefix);
      CleanRunStoresAll(t0, prefix);
      var e := entries[|entries| - 1];
      var en := DemoEntryOf(e).value;
      var u := Insert(before.committed, Null, en.title, en.publication, Null, Null).value;
      assert u.articles[..|before.committed.articles|] == before.committed.articles;
      assert DemoRun(t0, entries).committed.articles == u.articles;
      assert u.articles[..|t0.articles|] == before.committed.articles[..|t0.articles|];
    }
  }

  /** One more entry after a clean prefix: the run goes on with its tables, or stops
      with the tables before it and its exception. */
  lemma DemoRunStep(t0: Tables, entries: seq<DemoEntry>, i: nat, t: Tables)
    requires i < |entries| && DemoRun(t0, entries[..i]) == Outcome(t, None)
    ensures DemoRun(t0, entries[..i + 1])
            == match DemoStep(t, entries[i])
               case Err(x) => Outcome(t, Some(x))
               case Ok(u) => Outcome(u, None)
  {
    assert entries[..i + 1][..i] == entries[..i];
  }

  /** sql_insert (Demo/s_parser.py:58-80): the insert, the side-table rows and slots,
      then the commit; an exception leaves the last commit in place. */
  method SqlInsert(store: ArticleStore, title: string, publication: string,
                   platforms: seq<string>, links: seq<string>) returns (r: Result<()>)
    requires store.Valid() && store.capacity == DemoSlots
    modifies store
    ensures store.Valid()
    ensures var spec := DemoStore(old(store.Contents()), title, publication, platforms, links);
            (r.Ok? <==> spec.Ok?)
            && (r.Ok? ==> store.Contents() == spec.value && store.committed == store.Contents())
            && (r.Err? ==> r.error == spec.error && store.committed == old(store.committed))
  {
    var ins := store.InsertArticle(Null, title, publication, Null, Null);
    if ins.Err? {
      return Err(ins.error);
    }
    assert store.articles[|old(store.articles)|].title == title;
    var s := store.StoreSlots(title, platforms, links);
    if s.Err? {
      return Err(s.error);
    }
    store.Commit();
    r := Ok(());
  }

  /** The loop of main over the entries (Demo/s_parser.py:34-55), from a store whose
      contents are committed, as the setup leaves them. */
  method ProcessDemo(store: ArticleStore, entries: seq<DemoEntry>) returns (r: Result<()>)
    requires store.Valid() && store.capacity == DemoSlots && store.committed == store.Contents()
    modifies store
    ensures store.Valid()
    ensures var spec := DemoRun(old(store.Contents()), entries);
            store.committed == spec.committed
            && (r.Ok? <==> spec.error.None?)
            && (r.Err? ==> r.error == spec.error.value)
  {
    ghost var t0 := store.Contents();
    for i := 0 to |entries|
      invariant store.Valid() && store.capacity == DemoSlots
      invariant store.committed == store.Contents()
      invariant DemoRun(t0, entries[..i]) == Outcome(store.Contents(), None)
    {
      var e := entries[i];
      DemoRunStep(t0, entries, i, store.Contents());
      var split := DemoTitlePub(e.titlePub);
      if split.Err? {
        CrashKeepsCommitted(t0, entries, i + 1);
        return Err(split.error);
      }
      // `[p for p in platform_list if p in header]` and the href findall
      var platforms := VocabularyHits(e.header, Vocabulary);
      var links := Hrefs(e.header);
      var s := SqlInsert(store, split.value.title, split.value.publication, platforms, links);
      if s.Err? {
        CrashKeepsCommitted(t0, entries, i + 1);
        return Err(s.error);
      }
    }
    assert entries[..|entries|] == entries;
    r := Ok(());
  }
}
