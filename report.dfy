/** The spreadsheet report (excel.py): the side-table rows read back through shared
    cursors (get_links, get_platforms), the extra rows each article gets
    (get_extra_rows), the lines written to the sheet, the indicator flags and the
    highlight range. The workbook, its formats and the writes themselves are not
    modelled: the sheet is the sequence of its data lines. */
module Report {
  import opened Common
  import opened Store

  /** A row of `SELECT date, title, publication, tier, category FROM articles`. */
  datatype ReportRow = ReportRow(date: string, title: string, publication: string,
                                 tier: Cell, category: Cell)

  /** The title column of a data line: the title hyperlinked to a url, or plain text. */
  datatype TitleCell = Link(url: string, text: string) | Plain(text: string)

  /** One data line of the sheet: date, title, "publication (platform)". */
  datatype Line = Line(date: string, title: TitleCell, publication: string)

  /** A written indicator: the number 1 in an Excel column letter and 1-based row. */
  datatype Flag = Flag(column: char, row: nat)

  /** What one call of get_links or get_platforms returns: the counter and the list. */
  datatype SideRead = SideRead(count: nat, items: seq<string>)

  /** The sheet: the data lines (line j on 0-based sheet row j + 1, below the header),
      the start `og_rows` of each article, the flags and the last row of the highlight
      range A1:C{last}. */
  datatype Sheet = Sheet(lines: seq<Line>, og: seq<nat>, flags: seq<Flag>, highlightLast: nat)

  /** What `SELECT * FROM links` gives for a side-table row: the id, then the slots. */
  function SideRow(r: SlotRow): seq<Cell> {
    [Int(r.articleId)] + r.slots
  }

  /** The text cells of a row up to its first NULL, other cells (the id) passed over;
      None when the row holds no NULL, as the cell loop then ends without returning. */
  function ScanRow(row: seq<Cell>): (r: Option<seq<string>>)
    ensures r.None? <==> NoNull(row)
    ensures r.Some? ==> |r.value| < |row|
    decreases |row|
  {
    if |row| == 0 then None
    else
      assert row[0] != Null ==> (NoNull(row) <==> NoNull(row[1..]));
      match row[0]
      case Null => Some([])
      case Int(_) => ScanRow(row[1..])
      case Txt(s) =>
        var rest := ScanRow(row[1..]);
        if rest.Some? then Some([s] + rest.value) else None
  }

  predicate NoNull(row: seq<Cell>) {
    forall j :: 0 <= j < |row| ==> row[j] != Null
  }

  /** The texts among some cells, in order. */
  function TextsIn(row: seq<Cell>): seq<string>
    decreases |row|
  {
    if |row| == 0 then []
    else (if row[0].Txt? then [row[0].s] else []) + TextsIn(row[1..])
  }

  /** A row is read exactly when it holds a NULL, and then gives the texts before the
      first NULL. */
  lemma {:induction false} ScanRowMeaning(row: seq<Cell>, n: nat)
    requires n <= |row| && NoNull(row[..n])
    ensures n == |row| ==> ScanRow(row) == None
    ensures n < |row| && row[n] == Null ==> ScanRow(row) == Some(TextsIn(row[..n]))
    decreases n
  {
    if n > 0 {
      assert row[1..][..n - 1] == row[..n][1..];
      assert NoNull(row[1..][..n - 1]);
      ScanRowMeaning(row[1..], n - 1);
      assert row[0] == row[..n][0];
      if n < |row| && row[n] == Null {
        assert row[1..][n - 1] == row[n];
        var inner := TextsIn(row[1..][..n - 1]);
        assert ScanRow(row[1..]) == Some(inner);
        assert row[..n][0] != Null;
        assert TextsIn(row[..n]) == (if row[0].Txt? then [row[0].s] else []) + inner;
        match row[0] {
          case Int(_) =>
            assert ScanRow(row) == ScanRow(row[1..]);
            assert [] + inner == inner;
          case Txt(s) =>
            assert ScanRow(row) == Some([s] + inner);
        }
      }
    } else {
      assert row[..0] == [];
    }
  }

  /** A side-table row as the store leaves it, read back: fewer values than slots come
      back exactly; a row with every slot filled holds no NULL and is passed over. */
  lemma ReadBackStored(id: nat, values: seq<string>, capacity: nat)
    requires |values| <= capacity
    ensures ScanRow(SideRow(SlotRow(id, Texts(values) + Nulls(capacity - |values|))))
            == if |values| < capacity then Some(values) else None
  {
    var row := SideRow(SlotRow(id, Texts(values) + Nulls(capacity - |values|)));
    var n := 1 + |values|;
    assert NoNull(row[..n]);
    if |values| < capacity {
      ScanRowMeaning(row, n);
      TextsOfStored(id, values);
      assert row[..n] == [Int(id)] + Texts(values);
    } else {
      assert row[..n] == row;
      ScanRowMeaning(row, n);
    }
  }

  lemma {:induction false} TextsOfTexts(values: seq<string>)
    ensures TextsIn(Texts(values)) == values
    decreases |values|
  {
    if |values| > 0 {
      assert Texts(values)[1..] == Texts(values[1..]);
      TextsOfTexts(values[1..]);
    }
  }

  lemma TextsOfStored(id: nat, values: seq<string>)
    ensures TextsIn([Int(id)] + Texts(values)) == values
  {
    assert ([Int(id)] + Texts(values))[1..] == Texts(values);
    TextsOfTexts(values);
  }

  /** The rows a cursor's reads give, in order: those holding a NULL. */
  function Readable(rows: seq<seq<Cell>>): seq<seq<string>>
    decreases |rows|
  {
    if |rows| == 0 then []
    else
      var last := ScanRow(rows[|rows| - 1]);
      Readable(rows[..|rows| - 1]) + (if last.Some? then [last.value] else [])
  }

  /** The next read from position `pos` on: the list found (None when the cursor runs
      out) and the position after it. */
  function NextList(rows: seq<seq<Cell>>, pos: nat): (r: (Option<seq<string>>, nat))
    requires pos <= |rows|
    ensures pos <= r.1 <= |rows|
    ensures r.0.Some? ==> pos < r.1
    decreases |rows| - pos
  {
    if pos == |rows| then (None, pos)
    else
      var l := ScanRow(rows[pos]);
      if l.Some? then (l, pos + 1) else NextList(rows, pos + 1)
  }

  /** Each read gives the next readable row: a row without NULL is skipped, and a
      cursor that runs out has no readable row left. */
  lemma {:induction false} NextListReadable(rows: seq<seq<Cell>>, pos: nat)
    requires pos <= |rows|
    ensures var (l, next) := NextList(rows, pos);
            Readable(rows[..next]) == Readable(rows[..pos]) + (if l.Some? then [l.value] else [])
            && (l.None? ==> next == |rows| && Readable(rows) == Readable(rows[..pos]))
    decreases |rows| - pos
  {
    if pos < |rows| {
      assert rows[..pos + 1][..pos] == rows[..pos];
      if ScanRow(rows[pos]).None? {
        NextListReadable(rows, pos + 1);
      }
    } else {
      assert rows[..pos] == rows;
    }
  }

  /** The reads so far are a prefix of all the reads the cursor gives. */
  lemma {:induction false} ReadablePrefix(rows: seq<seq<Cell>>, p: nat)
    requires p <= |rows|
    ensures var done := Readable(rows[..p]);
            |done| <= |Readable(rows)| && done == Readable(rows)[..|done|]
    decreases |rows|
  {
    if p < |rows| {
      var shorter := rows[..|rows| - 1];
      assert shorter[..p] == rows[..p];
      ReadablePrefix(shorter, p);
    } else {
      assert rows[..p] == rows;
    }
  }

  /** After the k-th read, the next read gives the k-th readable row, or None exactly
      when all k readable rows have been read. */
  lemma ReadAdvance(rows: seq<seq<Cell>>, pos: nat, k: nat)
    requires pos <= |rows| && k <= |Readable(rows)| && Readable(rows[..pos]) == Readable(rows)[..k]
    ensures var (l, next) := NextList(rows, pos);
            (l.None? <==> k == |Readable(rows)|)
            && (l.Some? ==> Readable(rows)[k] == l.value
                            && Readable(rows[..next]) == Readable(rows)[..k + 1])
  {
    var all := Readable(rows);
    var (l, next) := NextList(rows, pos);
    NextListReadable(rows, pos);
    ReadablePrefix(rows, next);
    if l.None? {
      assert all[..k] == all;
    } else {
      assert |Readable(rows[..next])| == k + 1;
      assert Readable(rows[..next])[k] == l.value;
    }
  }

  /** A cursor over the rows of a side table, as get_links and get_platforms share it. */
  class RowCursor {
    const rows: seq<seq<Cell>>
    var pos: nat

    ghost predicate Valid()
      reads this
    {
      pos <= |rows|
    }

    constructor (rows: seq<seq<Cell>>)
      ensures Valid() && this.rows == rows && pos == 0
    {
      this.rows := rows;
      pos := 0;
    }
  }

  /** get_links / get_platforms (excel.py:155-192): the counter and the list of the next
      row holding a NULL; None (the function's implicit return) when the rows run out. */
  method ReadSide(c: RowCursor) returns (r: Option<SideRead>)
    requires c.Valid()
    modifies c
    ensures c.Valid()
    ensures r.Some? ==> r.value.count == |r.value.items|
    ensures NextList(c.rows, old(c.pos))
            == (if r.Some? then Some(r.value.items) else None, c.pos)
  {
    while c.pos < |c.rows|
      invariant c.Valid()
      invariant NextList(c.rows, old(c.pos)) == NextList(c.rows, c.pos)
      decreases |c.rows| - c.pos
    {
      var row := c.rows[c.pos];
      c.pos := c.pos + 1;
      ghost var next := c.pos;
      var counter := 0;
      var list := [];
      var j := 0;
      assert ScanRow(row).Some? ==> [] + ScanRow(row).value == ScanRow(row).value;
      while j < |row|
        invariant c.Valid() && c.pos == next && 0 < c.pos && row == c.rows[c.pos - 1]
        invariant NextList(c.rows, old(c.pos)) == NextList(c.rows, c.pos - 1)
        invariant j <= |row| && counter == |list|
        invariant ScanRow(row) == ScanFrom(list, row[j..])
      {
        ScanStep(list, row[j..]);
        assert row[j..][1..] == row[j + 1..];
        match row[j] {
          case Txt(s) =>
            counter := counter + 1;
            list := list + [s];
          case Null =>
            return Some(SideRead(counter, list));
          case Int(_) =>
        }
        j := j + 1;
      }
    }
    return None;
  }

  /** The outcome of a row scan that has already collected `list`. */
  function ScanFrom(list: seq<string>, rest: seq<Cell>): Option<seq<string>> {
    var tail := ScanRow(rest);
    if tail.Some? then Some(list + tail.value) else None
  }

  /** One cell of the scan: a text is collected, NULL ends the row, an id is passed over. */
  lemma ScanStep(list: seq<string>, rest: seq<Cell>)
    requires |rest| > 0
    ensures rest[0] == Null ==> ScanFrom(list, rest) == Some(list)
    ensures rest[0].Int? ==> ScanFrom(list, rest) == ScanFrom(list, rest[1..])
    ensures rest[0].Txt? ==> ScanFrom(list, rest) == ScanFrom(list + [rest[0].s], rest[1..])
  {
    if rest[0].Txt? {
      var tail := ScanRow(rest[1..]);
      if tail.Some? {
        assert list + ([rest[0].s] + tail.value) == list + [rest[0].s] + tail.value;
      }
    }
    if rest[0] == Null {
      assert list + [] == list;
    }
  }

  /** get_extra_rows (excel.py:132-152): the larger of the two counts, less one. */
  function ExtraRows(linkCount: nat, platformCount: nat): (n: int)
    ensures n + 1 >= linkCount && n + 1 >= platformCount
    ensures n + 1 == linkCount || n + 1 == platformCount
  {
    var rowsToPrint :=
      if linkCount == platformCount then linkCount
      else if linkCount > platformCount then linkCount
      else platformCount;
    rowsToPrint - 1
  }

  /** The number of extra lines: `range` of a negative count is empty. */
  function ExtraCount(links: seq<string>, platforms: seq<string>): (n: nat)
    ensures n + 1 >= |links| && n + 1 >= |platforms|
    ensures |links| > 0 || |platforms| > 0 ==> n + 1 == |links| || n + 1 == |platforms|
  {
    var n := ExtraRows(|links|, |platforms|);
    if n < 0 then 0 else n
  }

  /** The publication cell: the publication and, in parentheses, a platform. */
  function PublicationCell(publication: string, platform: string): string {
    publication + " (" + platform + ")"
  }

  /** The primary line of an article (excel.py:44-56). */
  function PrimaryLine(a: ReportRow, links: seq<string>, platforms: seq<string>): (l: Line)
    requires |links| > 0 && |platforms| > 0
    ensures l.date == a.date && l.title.text == a.title
    ensures l.title.Link? && l.title.url == links[0]
    ensures l.publication == PublicationCell(a.publication, platforms[0])
  {
    Line(a.date, Link(links[0], a.title), PublicationCell(a.publication, platforms[0]))
  }

  /** Extra line i of an article (excel.py:58-88): the title linked to link i + 1, or
      left plain when there is none, and platform i + 1 or else platform 0. The `""`
      that the source writes over the title cell when link i + 1 is missing is a blank
      write without a format, which xlsxwriter ignores, so the cell keeps the plain
      title written by the loop over the row's items. */
  function ExtraLine(a: ReportRow, links: seq<string>, platforms: seq<string>, i: nat): (l: Line)
    requires |platforms| > 0
    ensures l.date == a.date && l.title.text == a.title
    ensures l.title.Link? <==> i + 1 < |links|
    ensures l.title.Link? ==> l.title.url == links[i + 1]
    ensures i + 1 < |platforms| ==> l.publication == PublicationCell(a.publication, platforms[i + 1])
    ensures i + 1 >= |platforms| ==> l.publication == PublicationCell(a.publication, platforms[0])
  {
    Line(a.date,
         if i + 1 < |links| then Link(links[i + 1], a.title) else Plain(a.title),
         PublicationCell(a.publication, if i + 1 < |platforms| then platforms[i + 1] else platforms[0]))
  }

  /** All lines of an article; IndexError without a link or without a platform. */
  function ArticleLines(a: ReportRow, links: seq<string>, platforms: seq<string>): (r: Result<seq<Line>>)
    ensures r.Err? <==> |links| == 0 || |platforms| == 0
    ensures r.Err? ==> r.error == IndexError
    ensures r.Ok? ==> |r.value| == 1 + ExtraCount(links, platforms)
                      && r.value[0] == PrimaryLine(a, links, platforms)
                      && forall i :: 0 <= i < ExtraCount(links, platforms) ==>
                           r.value[1 + i] == ExtraLine(a, links, platforms, i)
  {
    if |links| == 0 || |platforms| == 0 then Err(IndexError)
    else
      Ok([PrimaryLine(a, links, platforms)]
         + seq(ExtraCount(links, platforms), i requires 0 <= i => ExtraLine(a, links, platforms, i)))
  }

  /** An article takes as many lines as the longer of its link and platform lists: line
      i shows the title linked to link i, or plain once the links run out, and platform i,
      or platform 0 once the platforms run out. So every link and every platform is
      written, each on its own line. */
  lemma ArticleLinesCover(a: ReportRow, links: seq<string>, platforms: seq<string>)
    requires |links| > 0 && |platforms| > 0
    ensures var lines := ArticleLines(a, links, platforms).value;
            (|lines| == |links| || |lines| == |platforms|)
            && |links| <= |lines| && |platforms| <= |lines|
            && (forall i :: 0 <= i < |lines| ==> lines[i].date == a.date && lines[i].title.text == a.title)
            && (forall i :: 0 <= i < |lines| ==> (lines[i].title.Link? <==> i < |links|))
            && (forall i :: 0 <= i < |links| ==> lines[i].title.url == links[i])
            && (forall i :: 0 <= i < |platforms| ==>
                  lines[i].publication == PublicationCell(a.publication, platforms[i]))
            && (forall i :: |platforms| <= i < |lines| ==>
                  lines[i].publication == PublicationCell(a.publication, platforms[0]))
  {
    var lines := ArticleLines(a, links, platforms).value;
    forall i | 1 <= i < |lines|
      ensures lines[i] == ExtraLine(a, links, platforms, i - 1)
    {
      assert lines[1 + (i - 1)] == ExtraLine(a, links, platforms, i - 1);
    }
  }

  /** The lines and `og_rows` of main's first loop (excel.py:31-91) for the articles in
      order, article k using the k-th readable link and platform rows; a read past the last
      readable row gives None, whose unpacking raises TypeError. */
  function Layout(articles: seq<ReportRow>, links: seq<seq<string>>, platforms: seq<seq<string>>)
    : (r: Result<(seq<nat>, seq<Line>)>)
    ensures r.Err? ==> r.error == TypeError || r.error == IndexError
    ensures r.Ok? ==> |r.value.0| == |articles| && |articles| <= |r.value.1|
                      && |articles| <= |links| && |articles| <= |platforms|
                      && forall k :: 0 <= k < |articles| ==> |links[k]| > 0 && |platforms[k]| > 0
    decreases |articles|
  {
    if |articles| == 0 then Ok(([], []))
    else
      var k := |articles| - 1;
      match Layout(articles[..k], links, platforms)
      case Err(x) => Err(x)
      case Ok((og, lines)) =>
        if k >= |links| || k >= |platforms| then Err(TypeError)
        else
          match ArticleLines(articles[k], links[k], platforms[k])
          case Err(x) => Err(x)
          case Ok(more) => Ok((og + [|lines|], lines + more))
  }

  /** The lines article k takes: one plus its extra lines. */
  function Span(links: seq<string>, platforms: seq<string>): nat {
    1 + ExtraCount(links, platforms)
  }

  /** The lines the first k articles take. */
  function SpanTotal(links: seq<seq<string>>, platforms: seq<seq<string>>, k: nat): nat
    requires k <= |links| && k <= |platforms|
  {
    if k == 0 then 0 else SpanTotal(links, platforms, k - 1) + Span(links[k - 1], platforms[k - 1])
  }

  /** Article k's place in the layout: its lines start at the total span of the articles
      before it, and the lines from there on are its primary line and its extra lines. */
  ghost predicate Placed(a: ReportRow, links: seq<seq<string>>, platforms: seq<seq<string>>,
                         k: nat, og: seq<nat>, lines: seq<Line>)
    requires k < |og| && k < |links| && k < |platforms|
  {
    og[k] == SpanTotal(links, platforms, k)
    && ArticleLines(a, links[k], platforms[k]).Ok?
    && og[k] + Span(links[k], platforms[k]) <= |lines|
    && lines[og[k]..og[k] + Span(links[k], platforms[k])] == ArticleLines(a, links[k], platforms[k]).value
  }

  /** A finished layout places every article after the ones before it, and the final row
      counter is the total span of all of them. */
  lemma {:induction false} LayoutShape(articles: seq<ReportRow>, links: seq<seq<string>>,
                                       platforms: seq<seq<string>>)
    requires Layout(articles, links, platforms).Ok?
    ensures |articles| <= |links| && |articles| <= |platforms|
    ensures var (og, lines) := Layout(articles, links, platforms).value;
            |og| == |articles| && |lines| == SpanTotal(links, platforms, |articles|)
            && forall k :: 0 <= k < |articles| ==> Placed(articles[k], links, platforms, k, og, lines)
    decreases |articles|
  {
    if |articles| > 0 {
      var last := |articles| - 1;
      var prefix := articles[..last];
      LayoutShape(prefix, links, platforms);
      var (og0, lines0) := Layout(prefix, links, platforms).value;
      var more := ArticleLines(articles[last], links[last], platforms[last]).value;
      assert Layout(articles, links, platforms).value == (og0 + [|lines0|], lines0 + more);
      assert forall k :: 0 <= k < last ==> prefix[k] == articles[k];
      PlacedAppend(articles, links, platforms, last, og0, lines0, more);
    }
  }

  /** Appending the lines of the last article to a layout that places the others keeps
      them placed and places the last one after them. */
  lemma PlacedAppend(articles: seq<ReportRow>, links: seq<seq<string>>, platforms: seq<seq<string>>,
                     n: nat, og: seq<nat>, lines: seq<Line>, more: seq<Line>)
    requires |articles| == n + 1 && n < |links| && n < |platforms|
    requires |og| == n && |lines| == SpanTotal(links, platforms, n)
    requires forall k :: 0 <= k < n ==> Placed(articles[k], links, platforms, k, og, lines)
    requires ArticleLines(articles[n], links[n], platforms[n]) == Ok(more)
    ensures |lines + more| == SpanTotal(links, platforms, n + 1)
    ensures forall k :: 0 <= k < n ==>
              Placed(articles[k], links, platforms, k, og + [|lines|], lines + more)
    ensures Placed(articles[n], links, platforms, n, og + [|lines|], lines + more)
  {
    PlacedLast(articles[n], links, platforms, n, og, lines, more);
    forall k | 0 <= k < n
      ensures Placed(articles[k], links, platforms, k, og + [|lines|], lines + more)
    {
      PlacedStays(articles[k], links, platforms, k, og, lines, |lines|, more);
    }
  }

  /** The last article's lines, appended at the end, are placed there. */
  lemma PlacedLast(a: ReportRow, links: seq<seq<string>>, platforms: seq<seq<string>>, k: nat,
                   og: seq<nat>, lines: seq<Line>, more: seq<Line>)
    requires k < |links| && k < |platforms| && |og| == k
    requires |lines| == SpanTotal(links, platforms, k)
    requires ArticleLines(a, links[k], platforms[k]) == Ok(more)
    ensures |lines + more| == SpanTotal(links, platforms, k + 1)
    ensures Placed(a, links, platforms, k, og + [|lines|], lines + more)
  {
    assert (lines + more)[|lines|..|lines| + |more|] == more;
    assert (og + [|lines|])[k] == |lines|;
  }

  /** An article placed among the lines so far stays placed when another article's
      lines are appended. */
  lemma PlacedStays(a: ReportRow, links: seq<seq<string>>, platforms: seq<seq<string>>, k: nat,
                    og: seq<nat>, lines: seq<Line>, start: nat, more: seq<Line>)
    requires k < |og| && k < |links| && k < |platforms|
    requires Placed(a, links, platforms, k, og, lines)
    ensures Placed(a, links, platforms, k, og + [start], lines + more)
  {
    var first := og[k];
    var end := first + Span(links[k], platforms[k]);
    assert end <= |lines|;
    assert forall i :: first <= i < end ==> (lines + more)[i] == lines[i];
    assert (lines + more)[first..end] == lines[first..end];
    assert (og + [start])[k] == og[k];
  }

  /** Each article of a finished layout had a link and a platform, and its lines are its
      primary line followed by its extra lines. */
  lemma LayoutLines(articles: seq<ReportRow>, links: seq<seq<string>>,
                    platforms: seq<seq<string>>, k: nat)
    requires Layout(articles, links, platforms).Ok? && k < |articles|
    ensures k < |links| && k < |platforms| && |links[k]| > 0 && |platforms[k]| > 0
    ensures var (og, lines) := Layout(articles, links, platforms).value;
            |og| == |articles| && og[k] + Span(links[k], platforms[k]) <= |lines|
            && lines[og[k]] == PrimaryLine(articles[k], links[k], platforms[k])
            && forall i :: 0 <= i < ExtraCount(links[k], platforms[k]) ==>
                 lines[og[k] + 1 + i] == ExtraLine(articles[k], links[k], platforms[k], i)
  {
    LayoutShape(articles, links, platforms);
    var (og, lines) := Layout(articles, links, platforms).value;
    PlacedLines(articles[k], links, platforms, k, og, lines);
  }

  /** The lines of a placed article, one by one. */
  lemma PlacedLines(a: ReportRow, links: seq<seq<string>>, platforms: seq<seq<string>>,
                    k: nat, og: seq<nat>, lines: seq<Line>)
    requires k < |og| && k < |links| && k < |platforms|
    requires Placed(a, links, platforms, k, og, lines)
    ensures |links[k]| > 0 && |platforms[k]| > 0 && og[k] + Span(links[k], platforms[k]) <= |lines|
    ensures lines[og[k]] == PrimaryLine(a, links[k], platforms[k])
    ensures forall i :: 0 <= i < ExtraCount(links[k], platforms[k]) ==>
              lines[og[k] + 1 + i] == ExtraLine(a, links[k], platforms[k], i)
  {
    var mine := ArticleLines(a, links[k], platforms[k]).value;
    var start := og[k];
    var n := ExtraCount(links[k], platforms[k]);
    assert lines[start..start + 1 + n] == mine;
    assert lines[start] == mine[0];
    forall i | 0 <= i < n
      ensures lines[start + 1 + i] == ExtraLine(a, links[k], platforms[k], i)
    {
      assert lines[start + 1 + i] == mine[1 + i];
    }
  }

  /** The indicator columns of an article's tier and category (excel.py:97-122). */
  function FlagColumns(tier: Cell, category: Cell): (cs: seq<char>)
    ensures |cs| <= 2
  {
    (if tier == Int(1) then ['D'] else if tier == Int(2) then ['E'] else if tier == Int(3) then ['F'] else [])
    + (if category == Txt("Business") then ['G']
       else if category == Txt("National") then ['H']
       else if category == Txt("Channel") then ['I']
       else if category == Txt("Trade") then ['J']
       else if category == Txt("Vertical") then ['K']
       else if category == Txt("Lifestyle") then ['L']
       else [])
  }

  /** The tier values that set a flag, and the column each sets. */
  const Tiers: seq<(int, char)> := [(1, 'D'), (2, 'E'), (3, 'F')]

  /** The category names that set a flag, and the column each sets. */
  const Categories: seq<(string, char)> :=
    [("Business", 'G'), ("National", 'H'), ("Channel", 'I'), ("Trade", 'J'),
     ("Vertical", 'K'), ("Lifestyle", 'L')]

  /** An article's flag columns are exactly the column of its tier, if it is 1, 2 or 3,
      and that of its category, if it is one of the six names; "N/A" sets none. */
  lemma FlagColumnsMeaning(tier: Cell, category: Cell, c: char)
    ensures c in FlagColumns(tier, category) <==>
              (exists k :: 0 <= k < |Tiers| && tier == Int(Tiers[k].0) && c == Tiers[k].1)
              || (exists k :: 0 <= k < |Categories| && category == Txt(Categories[k].0) && c == Categories[k].1)
  {
    var cs := FlagColumns(tier, category);
    if c in cs {
      if tier == Int(1) && c == 'D' { assert Tiers[0] == (1, 'D'); }
      else if tier == Int(2) && c == 'E' { assert Tiers[1] == (2, 'E'); }
      else if tier == Int(3) && c == 'F' { assert Tiers[2] == (3, 'F'); }
      else if category == Txt("Business") { assert Categories[0] == ("Business", 'G'); }
      else if category == Txt("National") { assert Categories[1] == ("National", 'H'); }
      else if category == Txt("Channel") { assert Categories[2] == ("Channel", 'I'); }
      else if category == Txt("Trade") { assert Categories[3] == ("Trade", 'J'); }
      else if category == Txt("Vertical") { assert Categories[4] == ("Vertical", 'K'); }
      else { assert Categories[5] == ("Lifestyle", 'L'); }
    }
  }

  /** The flags the tier and category of one article write, in its row. */
  function FlagsOf(a: ReportRow, start: nat): seq<Flag> {
    var cs := FlagColumns(a.tier, a.category);
    seq(|cs|, j requires 0 <= j < |cs| => Flag(cs[j], 2 + start))
  }

  /** The flags of the first loop's articles, article i in Excel row 2 + og[i] (excel.py:93-122). */
  function Flags(articles: seq<ReportRow>, og: seq<nat>): (fs: seq<Flag>)
    requires |og| == |articles|
    ensures |fs| <= 2 * |articles|
    ensures forall j :: 0 <= j < |fs| ==> fs[j].row >= 2
    decreases |articles|
  {
    if |articles| == 0 then []
    else
      var k := |articles| - 1;
      Flags(articles[..k], og[..k]) + FlagsOf(articles[k], og[k])
  }

  /** The flags of one article are the columns of its tier and category, in its row. */
  lemma FlagsOfMeaning(a: ReportRow, start: nat, f: Flag)
    ensures f in FlagsOf(a, start) <==> f.row == 2 + start && f.column in FlagColumns(a.tier, a.category)
  {
    var cs := FlagColumns(a.tier, a.category);
    if f.row == 2 + start && f.column in cs {
      var j :| 0 <= j < |cs| && cs[j] == f.column;
      assert FlagsOf(a, start)[j] == f;
    }
  }

  /** Every flag written belongs to some article's row and tier or category. */
  lemma {:induction false} FlagsSound(articles: seq<ReportRow>, og: seq<nat>, f: Flag)
    requires |og| == |articles| && f in Flags(articles, og)
    ensures exists i :: 0 <= i < |articles| && f.row == 2 + og[i]
                        && f.column in FlagColumns(articles[i].tier, articles[i].category)
    decreases |articles|
  {
    var k := |articles| - 1;
    if f in FlagsOf(articles[k], og[k]) {
      FlagsOfMeaning(articles[k], og[k], f);
    } else {
      FlagsSound(articles[..k], og[..k], f);
      var i :| 0 <= i < k && f.row == 2 + og[..k][i]
               && f.column in FlagColumns(articles[..k][i].tier, articles[..k][i].category);
      assert articles[..k][i] == articles[i] && og[..k][i] == og[i];
    }
  }

  /** Every article's tier and category flags are written in its row. */
  lemma {:induction false} FlagsComplete(articles: seq<ReportRow>, og: seq<nat>, i: nat, f: Flag)
    requires |og| == |articles| && i < |articles| && f.row == 2 + og[i]
    requires f.column in FlagColumns(articles[i].tier, articles[i].category)
    ensures f in Flags(articles, og)
    decreases |articles|
  {
    var k := |articles| - 1;
    if i == k {
      FlagsOfMeaning(articles[k], og[k], f);
    } else {
      assert articles[..k][i] == articles[i] && og[..k][i] == og[i];
      FlagsComplete(articles[..k], og[..k], i, f);
    }
  }

  /** A flag is written exactly in an article's row, in a column of its tier or category. */
  lemma FlagsMeaning(articles: seq<ReportRow>, og: seq<nat>, f: Flag)
    requires |og| == |articles|
    ensures f in Flags(articles, og) <==>
              exists i :: 0 <= i < |articles| && f.row == 2 + og[i]
                          && f.column in FlagColumns(articles[i].tier, articles[i].category)
  {
    if f in Flags(articles, og) {
      FlagsSound(articles, og, f);
    }
    if exists i :: 0 <= i < |articles| && f.row == 2 + og[i]
                   && f.column in FlagColumns(articles[i].tier, articles[i].category) {
      var i :| 0 <= i < |articles| && f.row == 2 + og[i]
               && f.column in FlagColumns(articles[i].tier, articles[i].category);
      FlagsComplete(articles, og, i, f);
    }
  }

  /** The report main builds from the articles and the readable side-table rows. */
  function BuildSheet(articles: seq<ReportRow>, links: seq<seq<string>>, platforms: seq<seq<string>>)
    : (r: Result<Sheet>)
    ensures r.Err? ==> r.error == TypeError || r.error == IndexError
    ensures r.Ok? ==> |r.value.og| == |articles| && r.value.highlightLast == |r.value.lines|
                      && (|articles| > 0 ==> r.value.og[0] == 0)
                      && forall k :: 0 <= k < |articles| ==> r.value.og[k] < |r.value.lines|
  {
    match Layout(articles, links, platforms)
    case Err(x) => Err(x)
    case Ok((og, lines)) =>
      LayoutStarts(articles, links, platforms);
      Ok(Sheet(lines, og, Flags(articles, og), |lines|))
  }

  /** The first article starts on the first line, and every article before the end. */
  lemma LayoutStarts(articles: seq<ReportRow>, links: seq<seq<string>>, platforms: seq<seq<string>>)
    requires Layout(articles, links, platforms).Ok?
    ensures var (og, lines) := Layout(articles, links, platforms).value;
            |og| == |articles| && (|articles| > 0 ==> og[0] == 0)
            && forall k :: 0 <= k < |articles| ==> og[k] < |lines|
  {
    LayoutShape(articles, links, platforms);
    var (og, lines) := Layout(articles, links, platforms).value;
    forall k | 0 <= k < |articles| ensures og[k] < |lines| && (k == 0 ==> og[k] == 0) {
      assert Placed(articles[k], links, platforms, k, og, lines);
    }
  }

  /** The highlight range A1:C{R} (excel.py:125-127) covers Excel rows 1 to R; data line j
      sits on Excel row j + 2, so every line but the last is highlighted. */
  lemma HighlightMissesLastLine(s: Sheet, j: nat)
    requires s.highlightLast == |s.lines| && j < |s.lines|
    ensures 1 <= j + 2 <= s.highlightLast <==> j + 1 < |s.lines|
  {
  }

  /** Once an article fails, the layout fails with the same exception. */
  lemma {:induction false} LayoutErrorSticks(articles: seq<ReportRow>, links: seq<seq<string>>,
                                             platforms: seq<seq<string>>, n: nat)
    requires n <= |articles| && Layout(articles[..n], links, platforms).Err?
    ensures Layout(articles, links, platforms) == Layout(articles[..n], links, platforms)
    decreases |articles| - n
  {
    if n < |articles| {
      var shorter := articles[..|articles| - 1];
      assert shorter[..n] == articles[..n];
      LayoutErrorSticks(shorter, links, platforms, n);
    } else {
      assert articles[..n] == articles;
    }
  }

  /** One more article extends the layout by its lines, or fails: with TypeError when a
      read has run out, otherwise with the error of its lines. */
  lemma LayoutStep(articles: seq<ReportRow>, links: seq<seq<string>>, platforms: seq<seq<string>>,
                   k: nat, og: seq<nat>, lines: seq<Line>)
    requires k < |articles| && Layout(articles[..k], links, platforms) == Ok((og, lines))
    ensures Layout(articles[..k + 1], links, platforms)
            == if k >= |links| || k >= |platforms| then Err(TypeError)
               else match ArticleLines(articles[k], links[k], platforms[k])
                    case Err(x) => Err(x)
                    case Ok(more) => Ok((og + [|lines|], lines + more))
  {
    assert articles[..k + 1][..k] == articles[..k];
  }

  /** The lines one pass of main's first loop writes for an article (excel.py:44-88):
      the primary line, then `extra_rows` extra lines, each with link i + 1 or no link and
      platform i + 1 or else platform 0. */
  method WriteArticle(a: ReportRow, linkList: seq<string>, platformList: seq<string>, extra: int)
    returns (r: Result<seq<Line>>)
    requires extra == ExtraRows(|linkList|, |platformList|)
    ensures r == ArticleLines(a, linkList, platformList)
  {
    // the title cell of the primary line needs link 0, the publication cell platform 0
    if |linkList| == 0 || |platformList| == 0 {
      return Err(IndexError);
    }
    var lines := [Line(a.date, Link(linkList[0], a.title), PublicationCell(a.publication, platformList[0]))];
    var n := if extra < 0 then 0 else extra;
    for i := 0 to n
      invariant lines == [PrimaryLine(a, linkList, platformList)]
                         + seq(i, j requires 0 <= j < i => ExtraLine(a, linkList, platformList, j))
    {
      var title := if i + 1 < |linkList| then Link(linkList[i + 1], a.title) else Plain(a.title);
      var platform := if i + 1 < |platformList| then platformList[i + 1] else platformList[0];
      lines := lines + [Line(a.date, title, PublicationCell(a.publication, platform))];
    }
    var ok := ArticleLines(a, linkList, platformList).value;
    assert |lines| == |ok|;
    forall j | 0 <= j < |lines| ensures lines[j] == ok[j] {
      if j > 0 {
        assert lines[j] == ExtraLine(a, linkList, platformList, j - 1);
      }
    }
    assert lines == ok;
    assert ArticleLines(a, linkList, platformList) == Ok(ok);
    return Ok(lines);
  }

  /** main's second loop (excel.py:93-122): the flags of each article in its row. */
  method WriteFlags(articles: seq<ReportRow>, og: seq<nat>) returns (flags: seq<Flag>)
    requires |og| == |articles|
    ensures flags == Flags(articles, og)
  {
    flags := [];
    for i := 0 to |articles|
      invariant flags == Flags(articles[..i], og[..i])
    {
      assert articles[..i + 1][..i] == articles[..i] && og[..i + 1][..i] == og[..i];
      var columns := FlagColumns(articles[i].tier, articles[i].category);
      for j := 0 to |columns|
        invariant flags == Flags(articles[..i], og[..i]) + FlagsOf(articles[i], og[i])[..j]
      {
        assert FlagsOf(articles[i], og[i])[..j + 1] == FlagsOf(articles[i], og[i])[..j] + [Flag(columns[j], 2 + og[i])];
        flags := flags + [Flag(columns[j], 2 + og[i])];
      }
      assert FlagsOf(articles[i], og[i])[..|columns|] == FlagsOf(articles[i], og[i]);
    }
    assert articles[..|articles|] == articles && og[..|articles|] == og;
  }

  /** main (excel.py:8-127) without the workbook: the loop over the articles with the
      reads through the two side-table cursors, the flag loop and the highlight range. */
  method WriteReport(articles: seq<ReportRow>, links: RowCursor, platforms: RowCursor)
    returns (r: Result<Sheet>)
    requires links.Valid() && platforms.Valid() && links.pos == 0 && platforms.pos == 0
    requires links != platforms
    modifies links, platforms
    ensures r == BuildSheet(articles, Readable(links.rows), Readable(platforms.rows))
  {
    ghost var ls := Readable(links.rows);
    ghost var ps := Readable(platforms.rows);
    var rowCounter: nat := 0;
    var og: seq<nat> := [];
    var lines: seq<Line> := [];
    assert links.rows[..0] == [] && platforms.rows[..0] == [];
    for k := 0 to |articles|
      invariant links.Valid() && platforms.Valid()
      invariant k <= |ls| && Readable(links.rows[..links.pos]) == ls[..k]
      invariant k <= |ps| && Readable(platforms.rows[..platforms.pos]) == ps[..k]
      invariant Layout(articles[..k], ls, ps) == Ok((og, lines))
      invariant rowCounter == |lines| && |og| == k
    {
      // get_extra_rows: get_links, then get_platforms
      LayoutStep(articles, ls, ps, k, og, lines);
      ReadAdvance(links.rows, links.pos, k);
      var l := ReadSide(links);
      if l.None? {
        LayoutErrorSticks(articles, ls, ps, k + 1);
        return Err(TypeError);
      }
      ReadAdvance(platforms.rows, platforms.pos, k);
      var p := ReadSide(platforms);
      if p.None? {
        LayoutErrorSticks(articles, ls, ps, k + 1);
        return Err(TypeError);
      }
      var extra := ExtraRows(l.value.count, p.value.count);
      og := og + [rowCounter];
      var more := WriteArticle(articles[k], l.value.items, p.value.items, extra);
      if more.Err? {
        LayoutErrorSticks(articles, ls, ps, k + 1);
        return Err(more.error);
      }
      lines := lines + more.value;
      // one row per extra line, and one after the article
      rowCounter := rowCounter + |more.value|;
    }
    assert articles[..|articles|] == articles;
    var flags := WriteFlags(articles, og);
    r := Ok(Sheet(lines, og, flags, rowCounter));
  }
}
