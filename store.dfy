/** The article store the parsers fill (the SQLite tables of setup_db.py and of the demo's
    setup): the `articles` table with its UNIQUE title and AUTOINCREMENT id, and the two
    side tables `platforms` and `links`, one row per article with a fixed number of
    slot columns (`platform0`.. and `link0`..). */
module Store {
  import opened Common

  /** One row of `articles`. The demo's table has no date, tier or category: Null there. */
  datatype Article = Article(id: nat, date: Cell, title: string, publication: string,
                             tier: Cell, category: Cell)

  /** One row of a side table: the article id and its slot columns in order. */
  datatype SlotRow = SlotRow(articleId: nat, slots: seq<Cell>)

  datatype Side = PlatformSide | LinkSide

  /** The store's contents. */
  datatype Tables = Tables(articles: seq<Article>, nextId: nat,
                           platforms: seq<SlotRow>, links: seq<SlotRow>)

  /** The slot column names are this prefix followed by the slot index. */
  function ColumnPrefix(side: Side): string {
    match side
    case PlatformSide => "platform"
    case LinkSide => "link"
  }

  predicate HasTitle(articles: seq<Article>, title: string) {
    exists k :: 0 <= k < |articles| && articles[k].title == title
  }

  /** The UNIQUE constraint of the title column. */
  predicate UniqueTitles(articles: seq<Article>) {
    forall i, j :: 0 <= i < j < |articles| ==> articles[i].title != articles[j].title
  }

  /** Every stored id is below the next id AUTOINCREMENT hands out. */
  predicate IdsBelow(articles: seq<Article>, nextId: nat) {
    forall k :: 0 <= k < |articles| ==> articles[k].id < nextId
  }

  /** Every side-table row has one cell per slot column. */
  predicate Shaped(rows: seq<SlotRow>, capacity: nat) {
    forall k :: 0 <= k < |rows| ==> |rows[k].slots| == capacity
  }

  /** Every side-table row belongs to an id already handed out. */
  predicate RowIdsBelow(rows: seq<SlotRow>, nextId: nat) {
    forall k :: 0 <= k < |rows| ==> rows[k].articleId < nextId
  }

  predicate Consistent(t: Tables, capacity: nat) {
    UniqueTitles(t.articles) && IdsBelow(t.articles, t.nextId)
    && Shaped(t.platforms, capacity) && Shaped(t.links, capacity)
    && RowIdsBelow(t.platforms, t.nextId) && RowIdsBelow(t.links, t.nextId)
  }

  function Rows(t: Tables, side: Side): seq<SlotRow> {
    match side
    case PlatformSide => t.platforms
    case LinkSide => t.links
  }

  function WithRows(t: Tables, side: Side, rows: seq<SlotRow>): (r: Tables)
    ensures r.articles == t.articles && r.nextId == t.nextId && Rows(r, side) == rows
    ensures side == PlatformSide ==> r.links == t.links
    ensures side == LinkSide ==> r.platforms == t.platforms
  {
    match side
    case PlatformSide => t.(platforms := rows)
    case LinkSide => t.(links := rows)
  }

  /** A fresh side-table row's slots: all NULL. */
  function Nulls(n: nat): (r: seq<Cell>)
    ensures |r| == n && forall k :: 0 <= k < n ==> r[k] == Null
  {
    seq(n, _ => Null)
  }

  /** `INSERT INTO articles (...) VALUES (...)`: an existing title breaks the UNIQUE
      constraint and changes nothing; otherwise the row gets the next id. */
  function Insert(t: Tables, date: Cell, title: string, publication: string,
                  tier: Cell, category: Cell): (r: Result<Tables>)
    ensures r.Err? <==> HasTitle(t.articles, title)
    ensures r.Err? ==> r.error == IntegrityError
    ensures r.Ok? ==> |r.value.articles| == |t.articles| + 1
                      && r.value.articles[..|t.articles|] == t.articles
                      && r.value.articles[|t.articles|].title == title
                      && r.value.articles[|t.articles|].id == t.nextId
                      && r.value.nextId == t.nextId + 1
                      && r.value.platforms == t.platforms && r.value.links == t.links
  {
    if HasTitle(t.articles, title) then Err(IntegrityError)
    else
      var a := Article(t.nextId, date, title, publication, tier, category);
      assert (t.articles + [a])[..|t.articles|] == t.articles;
      Ok(t.(articles := t.articles + [a], nextId := t.nextId + 1))
  }

  /** `SELECT id FROM articles WHERE title = ?`, the last row the loop over the cursor
      sees; with unique titles, the only one. */
  function IdOf(articles: seq<Article>, title: string): (r: Option<nat>)
    ensures r.Some? <==> HasTitle(articles, title)
    ensures r.Some? ==> exists k :: 0 <= k < |articles| && articles[k].title == title
                                    && articles[k].id == r.value
    decreases |articles|
  {
    if |articles| == 0 then None
    else
      var last := articles[|articles| - 1];
      if last.title == title then Some(last.id)
      else
        var r := IdOf(articles[..|articles| - 1], title);
        assert forall k :: 0 <= k < |articles| - 1 ==> articles[..|articles| - 1][k] == articles[k];
        r
  }

  /** `INSERT INTO platforms (article_id) SELECT id FROM articles WHERE title = ?`: a
      row of NULL slots for the article with that title. */
  function AddRow(t: Tables, side: Side, title: string, capacity: nat): Tables {
    match IdOf(t.articles, title)
    case None => t
    case Some(id) => WithRows(t, side, Rows(t, side) + [SlotRow(id, Nulls(capacity))])
  }

  /** The slots of a row once the values have gone into slots 0, 1, ... in order. */
  function FillRow(slots: seq<Cell>, values: seq<string>): (r: seq<Cell>)
    ensures |r| == |slots|
    ensures forall k :: 0 <= k < |r| ==> r[k] == (if k < |values| then Txt(values[k]) else slots[k])
  {
    seq(|slots|, k requires 0 <= k < |slots| => if k < |values| then Txt(values[k]) else slots[k])
  }

  /** The side-table rows of article `id` filled with `values`; the other rows as they were. */
  function FillRows(rows: seq<SlotRow>, id: nat, values: seq<string>): (r: seq<SlotRow>)
    ensures |r| == |rows|
    ensures forall k :: 0 <= k < |r| ==>
              r[k] == if rows[k].articleId == id then SlotRow(id, FillRow(rows[k].slots, values)) else rows[k]
  {
    seq(|rows|, k requires 0 <= k < |rows| =>
      if rows[k].articleId == id then SlotRow(id, FillRow(rows[k].slots, values)) else rows[k])
  }

  /** `UPDATE platforms SET platform{i} = ? WHERE article_id = ?` for an existing column. */
  function SetSlotRows(rows: seq<SlotRow>, id: nat, i: nat, value: string): (r: seq<SlotRow>)
    requires forall k :: 0 <= k < |rows| ==> i < |rows[k].slots|
    ensures |r| == |rows|
    ensures forall k :: 0 <= k < |r| ==>
              |r[k].slots| == |rows[k].slots| && r[k].articleId == rows[k].articleId
  {
    seq(|rows|, k requires 0 <= k < |rows| =>
      if rows[k].articleId == id then SlotRow(id, rows[k].slots[i := Txt(value)]) else rows[k])
  }

  /** One more value filled is one more slot update. */
  lemma FillOneMore(rows: seq<SlotRow>, id: nat, values: seq<string>, i: nat, capacity: nat)
    requires Shaped(rows, capacity) && i < |values| && i < capacity
    ensures SetSlotRows(FillRows(rows, id, values[..i]), id, i, values[i]) == FillRows(rows, id, values[..i + 1])
  {
    var before := FillRows(rows, id, values[..i]);
    var a := SetSlotRows(before, id, i, values[i]);
    var b := FillRows(rows, id, values[..i + 1]);
    forall k | 0 <= k < |rows| ensures a[k] == b[k] {
      if rows[k].articleId == id {
        assert a[k].slots == b[k].slots;
      }
    }
  }

  lemma FillNothing(rows: seq<SlotRow>, id: nat)
    ensures FillRows(rows, id, []) == rows
  {
    forall k | 0 <= k < |rows| && rows[k].articleId == id
      ensures FillRow(rows[k].slots, []) == rows[k].slots
    {
    }
  }

  /** A fresh row filled with at most `capacity` values holds those values in order and
      NULL after them. */
  lemma FillFreshRow(values: seq<string>, capacity: nat)
    requires |values| <= capacity
    ensures FillRow(Nulls(capacity), values) == Texts(values) + Nulls(capacity - |values|)
  {
    var r := FillRow(Nulls(capacity), values);
    var s := Texts(values) + Nulls(capacity - |values|);
    assert forall k :: 0 <= k < capacity ==> r[k] == s[k];
  }

  function Texts(values: seq<string>): (r: seq<Cell>)
    ensures |r| == |values| && forall k :: 0 <= k < |values| ==> r[k] == Txt(values[k])
  {
    seq(|values|, k requires 0 <= k < |values| => Txt(values[k]))
  }

  /** An insert that succeeds keeps the titles unique and the ids fresh, and the new
      title then names the new id. */
  lemma InsertKeepsConsistent(t: Tables, capacity: nat, date: Cell, title: string,
                              publication: string, tier: Cell, category: Cell)
    requires Consistent(t, capacity)
    requires Insert(t, date, title, publication, tier, category).Ok?
    ensures var u := Insert(t, date, title, publication, tier, category).value;
            Consistent(u, capacity) && IdOf(u.articles, title) == Some(t.nextId)
  {
    var u := Insert(t, date, title, publication, tier, category).value;
    assert forall k :: 0 <= k < |t.articles| ==> u.articles[k] == t.articles[k];
  }

  /** The side-table inserts and slot updates for the article just stored under `title`
      (outlook.py:115-127, Demo/s_parser.py:64-78): a NULL row in each side table, then
      the platforms and the links into their slots; a value past the last slot raises. */
  function Slots(t: Tables, title: string, capacity: nat, platforms: seq<string>,
                 links: seq<string>): (r: Result<Tables>)
    requires HasTitle(t.articles, title)
    ensures r.Err? <==> |platforms| > capacity || |links| > capacity
    ensures |platforms| > capacity ==> r == Err(NoSuchColumn(ColumnPrefix(PlatformSide), capacity))
    ensures |platforms| <= capacity < |links| ==> r == Err(NoSuchColumn(ColumnPrefix(LinkSide), capacity))
    ensures r.Ok? ==> r.value.articles == t.articles && r.value.nextId == t.nextId
  {
    var t1 := AddRow(AddRow(t, PlatformSide, title, capacity), LinkSide, title, capacity);
    var id := IdOf(t1.articles, title).value;
    if |platforms| > capacity then Err(NoSuchColumn(ColumnPrefix(PlatformSide), capacity))
    else
      var t2 := WithRows(t1, PlatformSide, FillRows(t1.platforms, id, platforms));
      if |links| > capacity then Err(NoSuchColumn(ColumnPrefix(LinkSide), capacity))
      else Ok(WithRows(t2, LinkSide, FillRows(t2.links, id, links)))
  }

  /** Rows of other articles are left alone by a fill. */
  lemma FillOthers(rows: seq<SlotRow>, id: nat, values: seq<string>)
    requires RowIdsBelow(rows, id)
    ensures FillRows(rows, id, values) == rows
  {
  }

  /** A new article with at most `capacity` platforms and links gets one row in each
      side table, holding its i-th value in slot i and NULL after the last; nothing else
      changes. */
  lemma StoredArticleRows(t: Tables, capacity: nat, date: Cell, title: string,
                          publication: string, tier: Cell, category: Cell,
                          platforms: seq<string>, links: seq<string>)
    requires Consistent(t, capacity) && !HasTitle(t.articles, title)
    requires |platforms| <= capacity && |links| <= capacity
    ensures Insert(t, date, title, publication, tier, category).Ok?
    ensures var u := Insert(t, date, title, publication, tier, category).value;
            HasTitle(u.articles, title)
            && Slots(u, title, capacity, platforms, links)
               == Ok(Tables(t.articles + [Article(t.nextId, date, title, publication, tier, category)],
                            t.nextId + 1,
                            t.platforms + [SlotRow(t.nextId, Texts(platforms) + Nulls(capacity - |platforms|))],
                            t.links + [SlotRow(t.nextId, Texts(links) + Nulls(capacity - |links|))]))
  {
    var a := Article(t.nextId, date, title, publication, tier, category);
    var u := Insert(t, date, title, publication, tier, category).value;
    InsertKeepsConsistent(t, capacity, date, title, publication, tier, category);
    assert u.articles == t.articles + [a];
    var id := t.nextId;
    var t1 := AddRow(AddRow(u, PlatformSide, title, capacity), LinkSide, title, capacity);
    assert t1.platforms == t.platforms + [SlotRow(id, Nulls(capacity))];
    assert t1.links == t.links + [SlotRow(id, Nulls(capacity))];
    FillTail(t.platforms, id, platforms, capacity);
    FillTail(t.links, id, links, capacity);
  }

  /** Filling the one row of a fresh id appended after older rows. */
  lemma FillTail(rows: seq<SlotRow>, id: nat, values: seq<string>, capacity: nat)
    requires RowIdsBelow(rows, id) && |values| <= capacity
    ensures FillRows(rows + [SlotRow(id, Nulls(capacity))], id, values)
            == rows + [SlotRow(id, Texts(values) + Nulls(capacity - |values|))]
  {
    var all := rows + [SlotRow(id, Nulls(capacity))];
    var r := FillRows(all, id, values);
    FillFreshRow(values, capacity);
    assert forall k :: 0 <= k < |rows| ==> r[k] == rows[k];
    assert r[|rows|] == SlotRow(id, Texts(values) + Nulls(capacity - |values|));
  }

  /** The article store: the three tables and what was last committed. */
  class ArticleStore {
    /** The number of slot columns in each side table. */
    const capacity: nat
    var articles: seq<Article>
    var nextId: nat
    var platformRows: seq<SlotRow>
    var linkRows: seq<SlotRow>
    /** The contents as of the last commit; a run that crashes leaves these. */
    var committed: Tables

    ghost predicate Valid()
      reads this
    {
      Consistent(Contents(), capacity)
    }

    function Contents(): Tables
      reads this
    {
      Tables(articles, nextId, platformRows, linkRows)
    }

    /** The coverage parser's setup over the tables `previous` that the last run
        committed: the `DELETE`s come after setup's last commit, so they empty the tables
        without committing, and AUTOINCREMENT, whose counter is not reset, goes on from
        the previous run's next id. A run that raises therefore leaves `previous`. */
    constructor (capacity: nat, previous: Tables)
      requires Consistent(previous, capacity)
      ensures Valid() && this.capacity == capacity
      ensures Contents() == Tables([], previous.nextId, [], []) && committed == previous
    {
      this.capacity := capacity;
      articles, nextId, platformRows, linkRows := [], previous.nextId, [], [];
      committed := previous;
    }

    /** The demo's setup: the tables and the AUTOINCREMENT counter are emptied and the
        result is committed, so the ids start again at `firstId`. */
    constructor Emptied(capacity: nat, firstId: nat)
      ensures Valid() && this.capacity == capacity
      ensures Contents() == Tables([], firstId, [], []) && committed == Contents()
    {
      this.capacity := capacity;
      articles, nextId, platformRows, linkRows := [], firstId, [], [];
      committed := Tables([], firstId, [], []);
    }

    method InsertArticle(date: Cell, title: string, publication: string, tier: Cell,
                         category: Cell) returns (r: Result<nat>)
      requires Valid()
      modifies this
      ensures Valid() && committed == old(committed)
      ensures r.Err? <==> old(HasTitle(articles, title))
      ensures var spec := Insert(old(Contents()), date, title, publication, tier, category);
              if spec.Ok? then r == Ok(old(nextId)) && Contents() == spec.value
              else r == Err(IntegrityError) && Contents() == old(Contents())
    {
      var spec := Insert(Contents(), date, title, publication, tier, category);
      if HasTitle(articles, title) {
        return Err(IntegrityError);
      }
      InsertKeepsConsistent(Contents(), capacity, date, title, publication, tier, category);
      r := Ok(nextId);
      articles := articles + [Article(nextId, date, title, publication, tier, category)];
      nextId := nextId + 1;
    }

    method AddSlotRow(side: Side, title: string)
      requires Valid()
      modifies this
      ensures Valid() && committed == old(committed)
      ensures Contents() == AddRow(old(Contents()), side, title, capacity)
    {
      var id := IdOf(articles, title);
      if id.Some? {
        match side {
          case PlatformSide => platformRows := platformRows + [SlotRow(id.value, Nulls(capacity))];
          case LinkSide => linkRows := linkRows + [SlotRow(id.value, Nulls(capacity))];
        }
      }
    }

    /** `UPDATE platforms SET platform{i} = ? WHERE article_id = ?`: a column past the
        last slot does not exist. */
    method SetSlot(side: Side, i: nat, value: string, id: nat) returns (r: Result<()>)
      requires Valid()
      modifies this
      ensures Valid() && committed == old(committed)
      ensures r.Err? <==> i >= capacity
      ensures r.Err? ==> r.error == NoSuchColumn(ColumnPrefix(side), i) && Contents() == old(Contents())
      ensures r.Ok? ==> Contents() == WithRows(old(Contents()), side,
                                              SetSlotRows(Rows(old(Contents()), side), id, i, value))
    {
      if i >= capacity {
        return Err(NoSuchColumn(ColumnPrefix(side), i));
      }
      match side {
        case PlatformSide => platformRows := SetSlotRows(platformRows, id, i, value);
        case LinkSide => linkRows := SetSlotRows(linkRows, id, i, value);
      }
      r := Ok(());
    }

    /** The loop `for i, _ in enumerate(values)` of slot updates: the values go to slots
        0, 1, ... of article `id`; a value past the last slot raises, after the ones
        before it went in. */
    method FillSlots(side: Side, values: seq<string>, id: nat) returns (r: Result<()>)
      requires Valid()
      modifies this
      ensures Valid() && committed == old(committed)
      ensures r == if |values| <= capacity then Ok(()) else Err(NoSuchColumn(ColumnPrefix(side), capacity))
      ensures var n := if |values| <= capacity then |values| else capacity;
              Contents() == WithRows(old(Contents()), side, FillRows(Rows(old(Contents()), side), id, values[..n]))
    {
      ghost var start := Contents();
      FillNothing(Rows(start, side), id);
      for i := 0 to |values|
        invariant i <= capacity
        invariant Valid() && committed == old(committed)
        invariant Contents() == WithRows(start, side, FillRows(Rows(start, side), id, values[..i]))
      {
        var s := SetSlot(side, i, values[i], id);
        if s.Err? {
          return s;
        }
        FillOneMore(Rows(start, side), id, values, i, capacity);
      }
      assert values[..|values|] == values;
      r := Ok(());
    }

    /** The side-table part of an article's insert, with the id looked up by title. */
    method StoreSlots(title: string, platforms: seq<string>, links: seq<string>)
      returns (r: Result<()>)
      requires Valid() && HasTitle(articles, title)
      modifies this
      ensures Valid() && committed == old(committed)
      ensures var spec := Slots(old(Contents()), title, capacity, platforms, links);
              (r.Ok? <==> spec.Ok?) && (r.Ok? ==> Contents() == spec.value)
              && (r.Err? ==> r.error == spec.error)
    {
      AddSlotRow(PlatformSide, title);
      AddSlotRow(LinkSide, title);
      // `for item in article_id: _id = item[0]`
      var id := IdOf(articles, title);
      var s := FillSlots(PlatformSide, platforms, id.value);
      if s.Err? {
        return s;
      }
      assert platforms[..|platforms|] == platforms;
      s := FillSlots(LinkSide, links, id.value);
      if s.Err? {
        return s;
      }
      assert links[..|links|] == links;
      r := Ok(());
    }

    method Commit()
      requires Valid()
      modifies this
      ensures Valid() && Contents() == old(Contents()) && committed == Contents()
    {
      committed := Contents();
    }
  }
}
