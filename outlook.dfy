/** The per-entry flow of the coverage parser's main loop (outlook.py:71-129): parse the
    header, resolve the date, classify the publication and store the article, carrying
    the date from one entry to the next and committing once at the end. */
module Outlook {
  import opened Common
  import opened Text
  import opened Header
  import opened TierCat
  import opened Dates
  import opened Store

  /** Slot columns per side table: platform0..platform4 and link0..link4 (setup_db.py:20-46). */
  const SlotCount: nat := 5

  /** Appended to a title that is already stored (outlook.py:110). */
  const RetrySuffix: string := "(2)"

  /** One coverage entry as main meets it: its message, the located and unescaped header
      text, the raw header and the anchor texts found in it. Entries of all messages
      come in one sequence, in processing order. */
  datatype EntryInput = EntryInput(msg: Message, titlePub: string, header: string,
                                   anchors: seq<string>)

  /** The title an article is stored under: its own, or with "(2)" appended once when
      its own is taken; None when both are taken. */
  function StoredTitle(articles: seq<Article>, title: string): (r: Option<string>)
    ensures r.Some? ==> !HasTitle(articles, r.value)
    ensures r.Some? ==> r.value == title || (HasTitle(articles, title) && r.value == title + RetrySuffix)
    ensures r.None? <==> HasTitle(articles, title) && HasTitle(articles, title + RetrySuffix)
  {
    if !HasTitle(articles, title) then Some(title)
    else if !HasTitle(articles, title + RetrySuffix) then Some(title + RetrySuffix)
    else None
  }

  /** The store of one article (outlook.py:104-127): the title stored and the new tables.
      It fails exactly when both titles are taken or a side table runs out of slots;
      otherwise one article is appended under the stored title and the next id. */
  function StoreEntry(t: Tables, date: string, title: string, publication: string,
                      tc: TierCategory, platforms: seq<string>, links: seq<string>)
    : (r: Result<(string, Tables)>)
    ensures r.Err? <==> StoredTitle(t.articles, title).None?
                        || |platforms| > SlotCount || |links| > SlotCount
    ensures r.Err? ==> r.error == IntegrityError || r.error.NoSuchColumn?
    ensures r.Ok? ==> var (stored, u) := r.value;
              (stored == title || (HasTitle(t.articles, title) && stored == title + RetrySuffix))
              && |u.articles| == |t.articles| + 1 && u.articles[..|t.articles|] == t.articles
              && u.articles[|t.articles|].title == stored && u.articles[|t.articles|].id == t.nextId
              && u.nextId == t.nextId + 1
  {
    match StoredTitle(t.articles, title)
    case None => Err(IntegrityError)
    case Some(stored) =>
      var u := Insert(t, Txt(date), stored, publication, tc.tier, tc.category).value;
      match Slots(u, stored, SlotCount, platforms, links)
      case Err(e) => Err(e)
      case Ok(v) => Ok((stored, v))
  }

  /** Main's handling of one entry (outlook.py:71-127), given the tables so far and the
      value `date` holds from the entries before (None while unbound): the new tables and
      the new value of `date`. */
  function Step(t: Tables, date: Option<string>, e: EntryInput, table: seq<MediaRow>)
    : (r: Result<(Tables, Option<string>)>)
    ensures r == Err(UnboundLocalError) ==> date.None?
    ensures r.Ok? ==> r.value.1.Some? && (date.Some? ==> |r.value.1.value| == 8 || r.value.1 == date)
    ensures r.Ok? ==> |r.value.0.articles| == |t.articles| + 1
                      && r.value.0.articles[..|t.articles|] == t.articles
  {
    var tp := SelectTitlePub(e.titlePub);
    var platforms := Platforms(e.header, e.anchors);
    var links := Hrefs(e.header);
    var pubsplit := Words(tp.publication);
    var newDate := NextDate(LookupDate(e.msg, tp.publication, pubsplit), e.msg, date);
    match Classify(links, tp.publication, pubsplit, table)
    case Err(x) => Err(x)
    case Ok(tc) =>
      if newDate.None? then Err(UnboundLocalError)
      else
        match StoreEntry(t, newDate.value, tp.title, tp.publication, tc, platforms, links)
        case Err(x) => Err(x)
        case Ok((_, u)) => Ok((u, newDate))
  }

  /** The tables and `date` after the given entries, from the emptied tables `t0`. A run
      that completes has stored one article per entry, after those of `t0`, and has
      bound `date` as soon as there was an entry. */
  function Run(t0: Tables, entries: seq<EntryInput>, table: seq<MediaRow>)
    : (r: Result<(Tables, Option<string>)>)
    ensures r.Ok? ==> |r.value.0.articles| == |t0.articles| + |entries|
                      && r.value.0.articles[..|t0.articles|] == t0.articles
                      && (|entries| > 0 <==> r.value.1.Some?)
    decreases |entries|
  {
    if |entries| == 0 then Ok((t0, None))
    else
      match Run(t0, entries[..|entries| - 1], table)
      case Err(x) => Err(x)
      case Ok((t, d)) => Step(t, d, entries[|entries| - 1], table)
  }

  /** Once an entry raises, the run ends with that exception. */
  lemma {:induction false} RunErrorSticks(t0: Tables, entries: seq<EntryInput>, n: nat,
                                          table: seq<MediaRow>)
    requires n <= |entries| && Run(t0, entries[..n], table).Err?
    ensures Run(t0, entries, table) == Run(t0, entries[..n], table)
    decreases |entries| - n
  {
    if n < |entries| {
      var longer := entries[..|entries| - 1];
      assert longer[..n] == entries[..n];
      RunErrorSticks(t0, longer, n, table);
    } else {
      assert entries[..n] == entries;
    }
  }

  /** A fresh title is stored as it is. */
  lemma FreshTitleKept(articles: seq<Article>, title: string)
    requires !HasTitle(articles, title)
    ensures StoredTitle(articles, title) == Some(title)
  {
  }

  /** A title already stored is retried once with "(2)"; a second collision is the
      IntegrityError that ends the run. */
  lemma DuplicateTitleRetried(t: Tables, date: string, title: string, publication: string,
                              tc: TierCategory, platforms: seq<string>, links: seq<string>)
    requires HasTitle(t.articles, title)
    ensures !HasTitle(t.articles, title + RetrySuffix) && |platforms| <= SlotCount
            && |links| <= SlotCount
            ==> StoreEntry(t, date, title, publication, tc, platforms, links).Ok?
                && StoreEntry(t, date, title, publication, tc, platforms, links).value.0
                   == title + RetrySuffix
    ensures HasTitle(t.articles, title + RetrySuffix)
            ==> StoreEntry(t, date, title, publication, tc, platforms, links) == Err(IntegrityError)
  {
    var st := title + RetrySuffix;
    if !HasTitle(t.articles, st) {
      var u := Insert(t, Txt(date), st, publication, tc.tier, tc.category).value;
      assert u.articles[|t.articles|].title == st;
      assert HasTitle(u.articles, st);
    }
  }

  /** An article stored without error gets the next id, its title, date, tier and
      category, and its platforms and links in slots 0, 1, ... of its side-table rows,
      NULL after them. */
  lemma StoreEntryContents(t: Tables, date: string, title: string, publication: string,
                           tc: TierCategory, platforms: seq<string>, links: seq<string>)
    requires Consistent(t, SlotCount)
    requires StoredTitle(t.articles, title).Some?
    requires |platforms| <= SlotCount && |links| <= SlotCount
    ensures var stored := StoredTitle(t.articles, title).value;
            StoreEntry(t, date, title, publication, tc, platforms, links)
            == Ok((stored,
                   Tables(t.articles + [Article(t.nextId, Txt(date), stored, publication, tc.tier, tc.category)],
                          t.nextId + 1,
                          t.platforms + [SlotRow(t.nextId, Texts(platforms) + Nulls(SlotCount - |platforms|))],
                          t.links + [SlotRow(t.nextId, Texts(links) + Nulls(SlotCount - |links|))])))
  {
    var stored := StoredTitle(t.articles, title).value;
    StoredArticleRows(t, SlotCount, Txt(date), stored, publication, tc.tier, tc.category,
                      platforms, links);
  }

  /** The sixth platform or link of an article names a column that does not exist. */
  lemma TooManySlots(t: Tables, date: string, title: string, publication: string,
                     tc: TierCategory, platforms: seq<string>, links: seq<string>)
    requires StoredTitle(t.articles, title).Some?
    requires |platforms| > SlotCount || |links| > SlotCount
    ensures StoreEntry(t, date, title, publication, tc, platforms, links)
            == Err(NoSuchColumn(if |platforms| > SlotCount then "platform" else "link", SlotCount))
  {
    var stored := StoredTitle(t.articles, title).value;
    var u := Insert(t, Txt(date), stored, publication, tc.tier, tc.category).value;
    assert u.articles[|t.articles|].title == stored;
    assert HasTitle(u.articles, stored);
  }

  /** A successful store keeps the tables consistent. */
  lemma StoreEntryConsistent(t: Tables, date: string, title: string, publication: string,
                             tc: TierCategory, platforms: seq<string>, links: seq<string>)
    requires Consistent(t, SlotCount)
    requires StoreEntry(t, date, title, publication, tc, platforms, links).Ok?
    ensures Consistent(StoreEntry(t, date, title, publication, tc, platforms, links).value.1, SlotCount)
  {
    StoreEntryContents(t, date, title, publication, tc, platforms, links);
    var stored := StoredTitle(t.articles, title).value;
    var a := Article(t.nextId, Txt(date), stored, publication, tc.tier, tc.category);
    var arts := t.articles + [a];
    forall i, j | 0 <= i < j < |arts| ensures arts[i].title != arts[j].title {
      if j == |t.articles| {
        assert arts[i] == t.articles[i];
      }
    }
  }

  /** The first entry, when its date falls back to the `str(SentOn)` prefix, ends the run
      with UnboundLocalError once its classification succeeds. */
  lemma FirstEntryUnboundDate(t: Tables, e: EntryInput, table: seq<MediaRow>)
    requires var tp := SelectTitlePub(e.titlePub);
             |e.msg.attachments| > 0 && |Words(tp.publication)| <= 1
             && (forall j :: 0 <= j < |e.msg.attachments| ==> !CiContains(e.msg.attachments[j], tp.publication))
             && Classify(Hrefs(e.header), tp.publication, Words(tp.publication), table).Ok?
    requires |e.msg.sentText| >= 3 && IsDigit(e.msg.sentText[0]) && IsDigit(e.msg.sentText[1])
             && IsDigit(e.msg.sentText[2])
    ensures Step(t, None, e, table) == Err(UnboundLocalError)
  {
    var tp := SelectTitlePub(e.titlePub);
    FallbackKeepsPreviousDate(e.msg, tp.publication, Words(tp.publication), None);
  }

  /** The first entry, when its matching attachment's date text does not parse, ends the
      run with UnboundLocalError once its classification succeeds. */
  lemma FirstEntryBadAttachmentDate(t: Tables, e: EntryInput, table: seq<MediaRow>)
    requires var tp := SelectTitlePub(e.titlePub);
             var k := FirstNamedAttachment(e.msg.attachments, tp.publication, 0);
             k.Some? && ParseDate(AttachmentDate(e.msg.attachments[k.value], e.msg.sentText)).None?
             && Classify(Hrefs(e.header), tp.publication, Words(tp.publication), table).Ok?
    ensures Step(t, None, e, table) == Err(UnboundLocalError)
  {
    var tp := SelectTitlePub(e.titlePub);
    BadAttachmentDateKeepsPrevious(e.msg, tp.publication, Words(tp.publication), None);
  }

  /** A later entry in the same situation is stored under the date of the entry before. */
  lemma LaterEntryKeepsDate(t: Tables, previous: string, e: EntryInput, table: seq<MediaRow>)
    requires var tp := SelectTitlePub(e.titlePub);
             |e.msg.attachments| > 0 && |Words(tp.publication)| <= 1
             && (forall j :: 0 <= j < |e.msg.attachments| ==> !CiContains(e.msg.attachments[j], tp.publication))
    requires |e.msg.sentText| >= 3 && IsDigit(e.msg.sentText[0]) && IsDigit(e.msg.sentText[1])
             && IsDigit(e.msg.sentText[2])
    ensures Step(t, Some(previous), e, table).Ok? ==> Step(t, Some(previous), e, table).value.1 == Some(previous)
  {
    var tp := SelectTitlePub(e.titlePub);
    FallbackKeepsPreviousDate(e.msg, tp.publication, Words(tp.publication), Some(previous));
  }

  /** A classification error ends the run before the date is looked at. */
  lemma ClassifyErrorFirst(t: Tables, date: Option<string>, e: EntryInput, table: seq<MediaRow>)
    requires var tp := SelectTitlePub(e.titlePub);
             Classify(Hrefs(e.header), tp.publication, Words(tp.publication), table).Err?
    ensures var tp := SelectTitlePub(e.titlePub);
            Step(t, date, e, table)
            == Err(Classify(Hrefs(e.header), tp.publication, Words(tp.publication), table).error)
  {
  }

  /** Every completed run leaves the tables consistent. */
  lemma {:induction false} RunConsistent(t0: Tables, entries: seq<EntryInput>, table: seq<MediaRow>)
    requires Consistent(t0, SlotCount)
    requires Run(t0, entries, table).Ok?
    ensures Consistent(Run(t0, entries, table).value.0, SlotCount)
    decreases |entries|
  {
    if |entries| > 0 {
      var prefix := entries[..|entries| - 1];
      RunConsistent(t0, prefix, table);
      var t := Run(t0, prefix, table).value.0;
      var d := Run(t0, prefix, table).value.1;
      var e := entries[|entries| - 1];
      var tp := SelectTitlePub(e.titlePub);
      var pubsplit := Words(tp.publication);
      var links := Hrefs(e.header);
      var tc := Classify(links, tp.publication, pubsplit, table).value;
      var newDate := NextDate(LookupDate(e.msg, tp.publication, pubsplit), e.msg, d);
      StoreEntryConsistent(t, newDate.value, tp.title, tp.publication, tc,
                           Platforms(e.header, e.anchors), links);
    }
  }

  /** Stores one article through the store's operations, with the retry of
      outlook.py:104-112. */
  method StoreArticle(store: ArticleStore, date: string, title: string, publication: string,
                      tc: TierCategory, platforms: seq<string>, links: seq<string>)
    returns (r: Result<string>)
    requires store.Valid() && store.capacity == SlotCount
    modifies store
    ensures store.Valid() && store.committed == old(store.committed)
    ensures var spec := StoreEntry(old(store.Contents()), date, title, publication, tc, platforms, links);
            (r.Ok? <==> spec.Ok?) && (r.Ok? ==> r.value == spec.value.0 && store.Contents() == spec.value.1)
            && (r.Err? ==> r.error == spec.error)
  {
    var stored := title;
    var ins := store.InsertArticle(Txt(date), stored, publication, tc.tier, tc.category);
    if ins.Err? {
      stored := title + RetrySuffix;
      ins := store.InsertArticle(Txt(date), stored, publication, tc.tier, tc.category);
      if ins.Err? {
        return Err(ins.error);
      }
    }
    assert store.articles[|old(store.articles)|].title == stored;
    var s := store.StoreSlots(stored, platforms, links);
    if s.Err? {
      return Err(s.error);
    }
    r := Ok(stored);
  }

  /** One pass of main's entry loop (outlook.py:71-127): parse the header, date the
      entry, classify it and store it, with `date` the value left by the entry before. */
  method ProcessEntry(store: ArticleStore, date: Option<string>, e: EntryInput, table: seq<MediaRow>)
    returns (r: Result<Option<string>>)
    requires store.Valid() && store.capacity == SlotCount
    modifies store
    ensures store.Valid() && store.committed == old(store.committed)
    ensures var spec := Step(old(store.Contents()), date, e, table);
            (r.Ok? <==> spec.Ok?)
            && (r.Ok? ==> store.Contents() == spec.value.0 && r.value == spec.value.1)
            && (r.Err? ==> r.error == spec.error)
  {
    var entry := GetTitlePub(e.titlePub, e.header, e.anchors);
    var pubsplit := Words(entry.publication);
    var lookup := GetDate(e.msg, entry.publication, pubsplit);
    var newDate := NextDate(lookup, e.msg, date);
    var tc := GetTierCat(entry.links, entry.publication, pubsplit, table);
    if tc.Err? {
      return Err(tc.error);
    }
    if newDate.None? {
      return Err(UnboundLocalError);
    }
    var s := StoreArticle(store, newDate.value, entry.title, entry.publication, tc.value,
                          entry.platforms, entry.links);
    if s.Err? {
      return Err(s.error);
    }
    r := Ok(newDate);
  }

  /** The loop of main over all entries (outlook.py:71-129): commits once, after the last
      entry, so an exception leaves the database as it was committed before. */
  method ProcessEntries(store: ArticleStore, entries: seq<EntryInput>, table: seq<MediaRow>)
    returns (r: Result<()>)
    requires store.Valid() && store.capacity == SlotCount
    modifies store
    ensures store.Valid()
    ensures var spec := Run(old(store.Contents()), entries, table);
            (r.Ok? <==> spec.Ok?)
            && (r.Ok? ==> store.Contents() == spec.value.0 && store.committed == store.Contents())
            && (r.Err? ==> r.error == spec.error && store.committed == old(store.committed))
  {
    ghost var t0 := store.Contents();
    var date: Option<string> := None;
    for i := 0 to |entries|
      invariant store.Valid() && store.capacity == SlotCount && store.committed == old(store.committed)
      invariant Run(t0, entries[..i], table) == Ok((store.Contents(), date))
    {
      assert entries[..i + 1][..i] == entries[..i];
      var step := ProcessEntry(store, date, entries[i], table);
      if step.Err? {
        RunErrorSticks(t0, entries, i + 1, table);
        return Err(step.error);
      }
      date := step.value;
    }
    assert entries[..|entries|] == entries;
    store.Commit();
    r := Ok(());
  }
}
