# OutlookParser50 in Dafny

This project models the core of OutlookParser50. That tool reads coverage-report emails, pulls out one article per list entry, stores the articles in SQLite, and writes an Excel summary. The model covers five pieces.

- **Entry-header parsing** (`get_title_pub` in outlook.py), in `Header`. The header text is split first on the three-character mojibake separator `U+00E2 U+20AC U+201C`, then on a hyphen. Title and publication are chosen from the parts. The platform list comes from the anchor texts, or else from the fixed vocabulary, and then gets one `Print` per whole-word match. The links are the href values.
- **The tier/category classifier** (`get_tiercat`), in `TierCat`. It runs four passes over the media list in strict order:
  1. host containment;
  2. the publication without spaces;
  3. the first word;
  4. that word's ASCII letters.

  A failed lookup gives `("N/A", "N/A")`. An entry with no link raises `IndexError`, and an entry whose first link has no host raises `AttributeError`.
- **Date resolution** (`get_date` and the try statement at outlook.py:81-91), in `Dates`. The date comes from the first attachment naming the publication, or from the send date. The debug-logging `TypeError` is modelled: the `end=` keyword of the first logging call in the word loop raises it whenever that loop runs, so the word matching after it never executes. The nine-character fallback is modelled too. That fallback never parses, so the entry keeps the previous entry's date (or `date` is unbound). `strptime("%d %B %Y")` and `strftime("%d/%m/%y")` are modelled with an English month table.
- **The article store**, in `Store` and `Outlook`. It has a UNIQUE title, AUTOINCREMENT ids, and side tables of five platform slots and five link slots.
  - A duplicate title is retried once with `(2)` appended.
  - Slot `i` receives the `i`-th value.
  - A value past the last slot raises OperationalError.
  - The coverage parser commits once, at the end of the run.
- **The Excel report** (excel.py), in `Report`.
  - The side-table rows are read back through the shared cursors.
  - Each article gets extra lines: the larger of its link and platform counts, less one.
  - The model records where each article starts (`og_rows`), what every line holds, which indicator columns each tier and category set, and the highlight range. A cell holds its last write, except that an unformatted `""` write is a blank that xlsxwriter ignores: an extra line without a link keeps its plain title.

The demonstration parser (Demo/s_parser.py) is modelled in `Demo`. It splits on a real en dash and has no fallback. It has no anchor or `Print` handling, uses three slots per side table, makes no retry on a duplicate title, and commits after every article.

Operations that update state in place are classes: `Store.ArticleStore` holds the tables and `Report.RowCursor` is a database cursor. Each method's `ensures` ties the new state, or the value it returns, to a pure function of the old state. The lemmas state the source's rules about those functions.

Where the code and its design notes disagree, the model follows the code.
- The placeholder is `"N/A"` (outlook.py:200 and 333), not "unknown".
- A sixth platform or link raises an error instead of being dropped.
- The first separator is the mojibake text that the source holds literally, not an en dash.
- A matching attachment whose date text does not parse does not fall back to the send date. The ValueError is passed over (outlook.py:88-91), so `date` keeps the previous entry's value, and on the first entry the insert raises UnboundLocalError.
- An exception in one entry is not absorbed: it ends the whole run, and the entries before it are not committed (RunErrorSticks).

The reset in setup_db.py:71-73 comes after the last commit of `setup()` and does not clear `sqlite_sequence`. It is committed only with the run, at outlook.py:129. So the coverage parser's store starts from the tables the previous run committed: its contents are emptied and its ids go on from the previous next id, while its `committed` field still holds the previous tables. A run that raises leaves those in place. The demo's setup empties `sqlite_sequence` and commits, so its ids start at 1 and its emptied tables are committed.

## Model

| member | source | states |
|---|---|---|
| Text.Split | outlook.py:143 | `str.split(sep)`: the parts joined with the separator give back the text, and no part contains the separator |
| Text.SplitNoSeparator | outlook.py:146-147 | the split has fewer than two parts exactly when the separator does not occur, and is then the whole text |
| Text.Strip | outlook.py:186-194 | `str.strip()`: the result is a substring of the input with only whitespace around it, and does not begin or end with whitespace |
| Text.StripExact | outlook.py:186-194 | stripping text surrounded by whitespace returns exactly that text |
| Text.StripIdempotent | outlook.py:186-194 | stripping twice gives the same result as stripping once |
| Text.Words | outlook.py:78 | `str.split()`: every word is non-empty and contains no whitespace |
| Text.WordsOfWord | outlook.py:78 | a non-empty text without whitespace splits into exactly itself |
| Text.WordsSpaceSplit | outlook.py:78 | a whitespace character separates words: the words of `a + c + b` are those of `a` followed by those of `b`, so the result is all maximal non-whitespace runs, in order |
| Text.WordsEmpty | outlook.py:78 | the text has no words exactly when it is all whitespace |
| Text.RemoveSpaces | outlook.py:267 | `replace(" ", "")`: no space is left, every other character is kept as often as it occurs, and a text without spaces is unchanged |
| Text.RemoveSpacesAppend | outlook.py:267 | removing spaces from `a + b` gives the result for `a` followed by the result for `b`, so the kept characters stay in order |
| Text.LettersOnly | outlook.py:320-321 | `re.sub('[^a-zA-Z]', "", s)`: only ASCII letters are left, every letter of the input is kept as often as it occurs, and a text of letters only is unchanged |
| Text.LettersOnlyAppend | outlook.py:320-321 | the letters of `a + b` are the letters of `a` followed by those of `b`, so the letters stay in order |
| Text.Take | outlook.py:208 | `s[0:n]` is the first `n` characters, clamped to the length |
| Header.HeaderParts | outlook.py:143-147 | the parts are the mojibake split when the mojibake separator occurs, and the hyphen split otherwise |
| Header.ChooseTitlePub | outlook.py:183-201 | the title and publication chosen from the parts are stripped of surrounding whitespace |
| Header.SelectTitlePub | outlook.py:183-201 | the title and publication chosen are both stripped of surrounding whitespace |
| Header.TwoPartHeader | outlook.py:189-191 | with exactly two mojibake parts, the title and publication are parts 0 and 1, stripped, whatever hyphens they contain |
| Header.ExtraLeadingPart | outlook.py:185-187 | with more than two parts, the title and publication are parts 1 and 2, stripped; part 0 and the text after the second separator are dropped |
| Header.HyphenFallback | outlook.py:146-147 | without the mojibake separator, one hyphen separates the title from the publication |
| Header.HyphenExtraLeadingPart | outlook.py:146-187 | without the mojibake separator and with two or more hyphens, the title and publication are hyphen parts 1 and 2, stripped: "A-B - Pub" gives "B" and "Pub" |
| Header.UnsplitHeader | outlook.py:193-201 | with neither separator, the title is the whole stripped text and the publication is "N/A" |
| Header.VocabularyHits | outlook.py:164-168 | a name is a hit exactly when it is in the vocabulary and occurs case-sensitively in the header; the hits keep vocabulary order |
| Header.PrintMatches | outlook.py:173 | the positions returned are exactly the whole-word `Print` matches, in increasing order |
| Header.Platforms | outlook.py:154-177 | the list starts with the anchor texts when there are any; every entry is an anchor text, a vocabulary name occurring in the header, or "Print"; there are at least as many entries as whole-word `Print` matches |
| Header.BuildPlatforms | outlook.py:154-177 | the append loops build exactly the anchor texts, or else the vocabulary hits, followed by one "Print" per match |
| Header.AnchorsWin | outlook.py:157-161 | when there are anchor texts, the platform list is those texts in order followed only by "Print" entries; the vocabulary is not consulted |
| Header.VocabularyThenPrints | outlook.py:154-177 | without anchor texts, the platforms are the vocabulary hits in vocabulary order, then exactly one "Print" per whole-word match and nothing else |
| Header.VocabularyWhenNoAnchors | outlook.py:165-168 | without anchor texts, a name other than "Print" is a platform exactly when it is a vocabulary name occurring in the header |
| Header.Hrefs | outlook.py:180 | `findall(r'<a href="([\s\S]*?)">')`: no link contains the closing `">` |
| Header.HrefsInOrder | outlook.py:180 | an anchor preceded by text without `<a href="` contributes its url first, then the links of the rest follow |
| Header.NoAnchorNoLinks | outlook.py:180 | a header without `<a href="` has no links |
| Header.UnclosedAnchorNoLinks | outlook.py:180 | an `<a href="` with no `">` after it gives no link, and ends the matches |
| Header.GetTitlePub | outlook.py:134-201 | the method returns the selected title and publication, the platform list and the links |
| TierCat.HostOf | outlook.py:277-278 | the host is the text from the first `//` that a `/` follows on the same line up to that `/`; None exactly when there is no such `//` |
| TierCat.HostOfLink | outlook.py:277-278 | for `scheme//host/rest`, the host part extracted is `host` |
| TierCat.FirstMatch | outlook.py:272-330 | the result is a row the pass accepts, and no earlier row is accepted; None means no row is accepted |
| TierCat.MatchRules | outlook.py:281-327 | the host test is exact substring containment either way between host and url; the name test ignores the case of the publication and accepts every plain hit in the url |
| TierCat.Classify | outlook.py:258-334 | an empty media list gives ("N/A", "N/A"), an error needs a non-empty list and is IndexError or AttributeError, and any other result is some row's tier and type |
| TierCat.Rescan | outlook.py:288-330 | one rescan finds the first accepted row or leaves the row counter at the table size |
| TierCat.GetTierCat | outlook.py:258-334 | the loops with their row counter, rescans and early returns compute exactly the classification |
| TierCat.HostMatchWins | outlook.py:272-284 | when some row matches the link's host, the result is the first row that matches, whatever the later passes would find |
| TierCat.NameMatchSecond | outlook.py:286-299 | when no row matches the host and some row matches the space-free publication, the result is the first row matching the name |
| TierCat.LaterPasses | outlook.py:301-334 | after passes 1 and 2 fail, the first word decides, then its letters (skipped when empty), and the result is ("N/A", "N/A") when all fail |
| TierCat.ClassifyErrors | outlook.py:277-278 | with a non-empty list, no link raises IndexError and a first link without a host raises AttributeError |
| Dates.DaysInMonth | outlook.py:83 | month lengths are 28 to 31 days |
| Dates.MonthPrefix | outlook.py:83 | the month found is the first month whose name starts the text, case-insensitively; None means no month name does |
| Dates.AfterDay | outlook.py:83 | a parsed date is a valid calendar date with the given day |
| Dates.ParseDate | outlook.py:83 | `strptime("%d %B %Y")` accepts only valid calendar dates |
| Dates.FormatShort | outlook.py:83 | `strftime("%d/%m/%y")` is eight characters with '/' at positions 2 and 5; positions 0-1, 3-4 and 6-7 are two decimal digits reading back the day, the month and the year modulo 100 |
| Dates.FirstNamedAttachment | outlook.py:211-217 | the result is the first attachment whose name contains the publication case-insensitively; None means no attachment does |
| Dates.AttachmentDate | outlook.py:216 | the date text is a hyphen-free head followed by the first four characters of the send time; a filename without a hyphen is kept whole |
| Dates.AttachmentDateHead | outlook.py:216 | for a filename `head-rest` with no hyphen in `head`, the date text is `head` followed by the year |
| Dates.LookupDate | outlook.py:204-255 | no attachments exactly when the message has none; a date from an attachment exactly when some filename contains the publication, and then the text is the FIRST such file's part before '-' with the sent year; the TypeError only with two or more words; otherwise the nine-character send-date prefix |
| Dates.GetDate | outlook.py:204-255 | the two loops with their early returns compute exactly the lookup: no attachments, the matching filename's date, the logging TypeError, or the send-date prefix |
| Dates.NextDate | outlook.py:81-91 | once bound, `date` stays bound; a changed value is a dd/mm/yy text; no attachments or the TypeError give the send date |
| Dates.DigitsNeverParse | outlook.py:254 | text that starts with three digits, as `str(SentOn)` does, never parses as a date |
| Dates.FallbackKeepsPreviousDate | outlook.py:90-91 | with no matching attachment and at most one word, `date` keeps the value from the entry before (or stays unbound) |
| Dates.BadAttachmentDateKeepsPrevious | outlook.py:81-91 | when the first matching attachment's date text does not parse, `date` keeps the previous entry's value (or stays unbound); the send date is not used |
| Dates.SendDateFallbacks | outlook.py:86-87 | with no attachments, or with no exact match and two or more words, the entry gets the send date as dd/mm/yy |
| Dates.ParseWrittenDate | outlook.py:83 | "12 March 2021" parses back to the date it names |
| Dates.NamedAttachmentDate | outlook.py:214-216 | a matching filename "12 March -..." in a message sent in 2021 dates the entry 12/03/21, whatever `date` held before |
| Store.Insert | outlook.py:104-106 | an existing title is an IntegrityError and nothing changes; otherwise the article is appended under the next id |
| Store.IdOf | outlook.py:119-121 | an id is found exactly when the title is stored, and it is the id of an article with that title |
| Store.InsertKeepsConsistent | setup_db.py:9-17 | a successful insert keeps the titles unique and the ids fresh, and the new title maps to the new id |
| Store.Slots | outlook.py:114-127 | the side rows and slot updates fail exactly when the platforms or links exceed the slot count, and name the first missing column |
| Store.StoredArticleRows | outlook.py:114-127 | a new article gets one row in each side table with value `i` in slot `i` and NULL after the last; nothing else changes |
| Store.ArticleStore.constructor | setup_db.py:68-73 | the coverage parser's store starts with empty tables and the previous run's next id, while the committed tables are still the previous run's |
| Store.ArticleStore.Emptied | Demo/s_parser.py:113-118 | the demo's store starts with empty tables and the first id, and that is what is committed |
| Store.ArticleStore.InsertArticle | outlook.py:105-106 | the insert into `articles`, as Insert |
| Store.ArticleStore.AddSlotRow | outlook.py:115-116 | appends an all-NULL row for the article's id |
| Store.ArticleStore.SetSlot | outlook.py:124 | writes slot `i` of the article's row, or raises "no such column" for `i` past the last slot, leaving the tables unchanged |
| Store.ArticleStore.FillSlots | outlook.py:123-127 | the update loop puts value `i` in slot `i`; past the last slot it raises after filling the earlier slots |
| Store.ArticleStore.StoreSlots | outlook.py:115-127 | the side rows and updates leave exactly what Slots describes, or raise its error |
| Store.ArticleStore.Commit | outlook.py:129 | the committed tables become the current ones |
| Outlook.StoredTitle | outlook.py:104-112 | an article is stored under its own title, or under the title with "(2)" when its own is taken; both must be free of the table |
| Outlook.StoreEntry | outlook.py:104-127 | the store fails exactly when both titles are taken or a side table runs out of slots, with IntegrityError or "no such column"; otherwise one article is appended under the title (or the title with "(2)" when it was taken), the next id, and the id counter advances |
| Outlook.Step | outlook.py:71-127 | UnboundLocalError only while `date` is unbound; a handled entry binds `date` and appends one article, keeping the earlier ones |
| Outlook.Run | outlook.py:71-129 | a completed run stores one article per entry after the earlier ones, and `date` is bound exactly when there was an entry |
| Outlook.RunErrorSticks | outlook.py:71-127 | once an entry raises, the run ends with that exception |
| Outlook.FreshTitleKept | outlook.py:105-106 | a fresh title is stored unchanged |
| Outlook.DuplicateTitleRetried | outlook.py:108-112 | a taken title is stored as title + "(2)"; if that is taken too, the IntegrityError ends the run |
| Outlook.StoreEntryContents | outlook.py:104-127 | a stored article gets the next id, its date, tier and category, and its platforms and links in slots 0.. with NULL after them |
| Outlook.TooManySlots | outlook.py:123-127 | a sixth platform, or a sixth link, raises "no such column platform5" or "link5" |
| Outlook.StoreEntryConsistent | outlook.py:104-127 | a successful store keeps the tables consistent |
| Outlook.FirstEntryUnboundDate | outlook.py:81-91 | a first entry whose date falls back to the unparseable send-date prefix raises UnboundLocalError |
| Outlook.FirstEntryBadAttachmentDate | outlook.py:81-102 | a first entry whose matching attachment gives an unparseable date text raises UnboundLocalError once its classification succeeds |
| Outlook.LaterEntryKeepsDate | outlook.py:81-91 | a later entry in that case is stored under the previous entry's date |
| Outlook.ClassifyErrorFirst | outlook.py:94 | a classification error ends the run before the date is used |
| Outlook.RunConsistent | outlook.py:71-129 | every run that completes leaves the tables consistent |
| Outlook.StoreArticle | outlook.py:104-127 | the store steps, with the retry, give exactly the title and tables of StoreEntry, or its error |
| Outlook.ProcessEntry | outlook.py:71-127 | one pass of the entry loop leaves exactly the tables and `date` of Step, or raises its exception, with the committed tables untouched |
| Outlook.ProcessEntries | outlook.py:71-129 | the loop leaves the tables of Run and commits them; an exception leaves the earlier commit |
| Report.ScanRow | excel.py:155-172 | a row yields a list exactly when it holds a NULL, and the list is shorter than the row |
| Report.ScanRowMeaning | excel.py:155-172 | a row is read exactly when it holds a NULL, and the read gives the texts before the first NULL, skipping the id |
| Report.ReadBackStored | excel.py:155-192 | a stored side row reads back its values when a slot is left empty; a full row is passed over |
| Report.NextList | excel.py:155-192 | a read advances the cursor, past at least one row when it finds a list |
| Report.NextListReadable | excel.py:155-192 | each read gives the next row holding a NULL; a cursor that runs out has no such row left |
| Report.ReadablePrefix | excel.py:155-192 | the lists read so far are a prefix of all the lists the cursor gives |
| Report.ReadAdvance | excel.py:155-192 | after `k` reads the next read gives the `k`-th readable row, or None exactly when all have been read |
| Report.ReadSide | excel.py:155-172 | the cell loop returns the counter and list of the next readable row, with the counter equal to the list's length, or None when the rows run out |
| Report.ExtraRows | excel.py:132-152 | the extra-row count plus one is the larger of the link and platform counts |
| Report.ExtraCount | excel.py:58 | the number of extra lines plus one is the larger of the link and platform counts (zero extra lines when both are empty) |
| Report.ArticleLines | excel.py:44-88 | no link or no platform raises IndexError; otherwise the lines are the primary line, then one extra line per extra row |
| Report.PrimaryLine | excel.py:44-56 | the first line shows the date, the title linked to link 0, and the publication with platform 0 |
| Report.ExtraLine | excel.py:58-88 | extra line `i` shows the date and the title, linked exactly when link `i+1` exists and then to it; the publication with platform `i+1`, or platform 0 when there is none |
| Report.ArticleLinesCover | excel.py:44-88 | an article takes as many lines as its longer list; line `i` links link `i` while links last and is plain after, and shows platform `i` while platforms last and platform 0 after, so every link and every platform appears on the line of its own index |
| Report.Layout | excel.py:30-91 | a failed layout raises TypeError or IndexError; a finished one has one start per article, at least one line per article, a readable row pair for each, and a link and a platform for each |
| Report.LayoutShape | excel.py:30-91 | each article starts at the total span of the articles before it, its lines are there, and the final row counter is the total span |
| Report.PlacedAppend | excel.py:38-91 | one more article keeps the earlier articles where they were and places its own lines right after them, at the total span so far |
| Report.LayoutLines | excel.py:44-88 | each laid-out article had a link and a platform; its first line links link 0 with platform 0; extra line `i` has link `i+1` (or the plain title) and platform `i+1` (or platform 0) |
| Report.LayoutErrorSticks | excel.py:30-91 | once an article fails, the layout fails with the same exception |
| Report.LayoutStep | excel.py:38-91 | one more article appends its lines, or fails with TypeError when a read has run out |
| Report.FlagColumns | excel.py:93-122 | an article writes at most two flags |
| Report.FlagColumnsMeaning | excel.py:97-122 | a column is flagged exactly when it is D/E/F for tier 1/2/3, or G-L for the six category names |
| Report.Flags | excel.py:93-122 | at most two flags per article, all below the header row |
| Report.FlagsOfMeaning | excel.py:93-122 | an article's flags are its columns, in Excel row 2 + its start |
| Report.FlagsSound | excel.py:93-122 | every flag written belongs to some article's row and to its tier or category |
| Report.FlagsComplete | excel.py:93-122 | every tier or category column of an article is flagged in that article's row |
| Report.FlagsMeaning | excel.py:93-122 | a flag is written exactly in an article's row, in a column of its tier or category |
| Report.HighlightMissesLastLine | excel.py:124-127 | the range A1:C{row_counter} covers every data line except the last |
| Report.BuildSheet | excel.py:30-127 | a sheet has one start per article, the first at line 0 and each before the last line, and its highlight range ends at the row counter, the number of lines; failures are TypeError or IndexError |
| Report.LayoutStarts | excel.py:30-42 | the first article starts on the first line and every article starts before the end |
| Report.WriteArticle | excel.py:44-88 | the writes for one article give exactly its lines, or IndexError |
| Report.WriteFlags | excel.py:93-122 | the second loop writes exactly the flags of every article in its row |
| Report.WriteReport | excel.py:8-127 | main's loops, reading through the two cursors, build the sheet of the readable rows, or raise its error |
| Demo.DemoTitlePub | Demo/s_parser.py:40-44 | a header text without an en dash raises IndexError; otherwise the title and publication are stripped |
| Demo.DashSplit | Demo/s_parser.py:41-44 | the title is the text before the first en dash and the publication the text up to the next one, stripped; later parts are ignored |
| Demo.DemoEntryOf | Demo/s_parser.py:35-53 | the platforms are exactly the vocabulary names occurring in the header, in vocabulary order; the links are the href values |
| Demo.DemoStore | Demo/s_parser.py:58-78 | the store fails exactly when the title is taken or a side table runs out of its three slots; otherwise one article with that title is appended under the next id |
| Demo.DemoStep | Demo/s_parser.py:35-80 | a stored entry had an en dash and appends one article under its parsed title, keeping the earlier ones |
| Demo.DemoRun | Demo/s_parser.py:34-80 | a run keeps the articles it started with and adds at most one per entry |
| Demo.NoDashIndexError | Demo/s_parser.py:44 | a header text without an en dash raises IndexError: no hyphen fallback and no "N/A" |
| Demo.DuplicateRejected | Demo/s_parser.py:60-61 | a stored title is an IntegrityError, with no retry |
| Demo.FourthSlotMissing | Demo/s_parser.py:73-111 | a fourth platform, or a fourth link, names a column the demo's tables lack |
| Demo.DemoStoreContents | Demo/s_parser.py:58-78 | a new article gets the next id with no date, tier or category, and its values in slots 0-2 with NULL after them |
| Demo.DemoStoreKeeps | Demo/s_parser.py:58-80 | a store keeps the tables consistent and the ids gapless |
| Demo.DemoRunKeeps | Demo/s_parser.py:113-118 | from the emptied tables, the committed articles are numbered 1, 2, ... in processing order, and the tables stay consistent |
| Demo.CrashKeepsCommitted | Demo/s_parser.py:80 | once an entry raises, the committed tables are those of the entries before it |
| Demo.CleanRunStoresAll | Demo/s_parser.py:35-80 | a run without exceptions adds one article per entry and keeps the earlier ones |
| Demo.DemoRunStep | Demo/s_parser.py:35-80 | each entry after a clean prefix either extends the committed tables or stops the run with its exception |
| Demo.SqlInsert | Demo/s_parser.py:58-80 | sql_insert leaves and commits exactly DemoStore's tables, or raises its error and keeps the last commit |
| Demo.ProcessDemo | Demo/s_parser.py:34-55 | the loop over the entries leaves committed exactly the tables of DemoRun, and raises its exception |

## Left out

- Outlook and MAPI access, the tkinter folder dialog, the directory listing and the per-email driver loop are I/O. The entries of all messages come as one sequence.
- The regexes that locate the body, the list entries and the header text (outlook.py:51-57 and 137, Demo/s_parser.py:27-38) are not modelled, and neither is `html.unescape`. Their results are inputs. In particular, a search that finds no header text (`AttributeError` at `.group()`) is not modelled.
- The anchor texts found by the regex at outlook.py:157, and their unescaping, are a given sequence. The href `findall` is modelled.
- Patterns built from publication text are read as plain text. Regex metacharacters (for example `C++`, which raises `re.error`) are not modelled. `re.I` and `\b` are ASCII-only here.
- `strptime` and `strftime` use an English month table, ASCII digits and the C locale. Month names in other locales are not modelled.
- setup_db.py's DDL, CSV bootstrap and `exit(1)` are left out. Only the slot counts, the UNIQUE title and the id counter are used. The media list is a given sequence.
- Store: SQLite type affinity, the rowid order of `SELECT`, and the `PRIMARY KEY(article_id)` conflict of a side-table row are not modelled. Ids are always fresh, so that conflict cannot arise in the modelled runs.
- AUTOINCREMENT is modelled as a counter that only grows. The first id is a parameter, because the coverage parser's reset keeps `sqlite_sequence`.
- Logging and `print` output are left out, except the logging `TypeError` that changes control flow.
- xlsxwriter formats, the individual cell writes, the conditional-format rules and the COM autofit are left out. The sheet is modelled as its data lines, the `og_rows` list, the flags and the last row of the highlight range.
- xlsxwriter's treatment of the range `A1:C0` that an empty report produces is not modelled.
- The unused `link_id`/`type_id` values read by get_extra_rows are not returned. The mismatch message of get_extra_rows is only printed and is left out.
- Words: its own contract states only that every element is a word; that the result is all the maximal non-whitespace runs, in order, is stated by WordsOfWord and WordsSpaceSplit.
- RemoveSpaces: its own contract states what is kept, by count; the order of the kept characters is stated by RemoveSpacesAppend.
- LettersOnly: its own contract states what is kept, by count; the order of the kept letters is stated by LettersOnlyAppend.
- In the report, the two `SELECT` cursors over `articles` are given as one sequence of rows, in id order.
