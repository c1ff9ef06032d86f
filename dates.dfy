/** Attachment date resolution (outlook.py, get_date) and the date handling around it in
    main (outlook.py:81-91): the lookup in the attachment filenames, Python's
    `strptime(text, "%d %B %Y")` with the English month names, and
    `strftime("%d/%m/%y")`. */
module Dates {
  import opened Common
  import opened Text

  /** A calendar date. */
  datatype CalDate = CalDate(day: nat, month: nat, year: nat)

  /** A message as get_date and main read it: the attachment filenames in index order,
      the send time as a date, and `str(msg.SentOn)`. The two send-time fields are given
      together by the caller, who supplies a consistent pair: `sentText` begins with the
      four-digit year of `sentOn`, as `str` of a datetime does. */
  datatype Message = Message(attachments: seq<string>, sentOn: CalDate, sentText: string)

  /** What get_date returns, or raises. */
  datatype DateLookup =
    | NoAttachments                 // the function ends without a return: None
    | FromAttachment(text: string)  // filename.split('-')[0] + str(SentOn)[0:4]
    | DebugTypeError                // logging.debug(..., end=" ") raises at outlook.py:228
    | SendPrefix(text: string)      // str(SentOn)[0:9]

  /** `strptime`'s `%B` names, compared case-insensitively, in month order. */
  const MonthNames: seq<string> :=
    ["january", "february", "march", "april", "may", "june", "july", "august",
     "september", "october", "november", "december"]

  predicate IsDigit(c: char) {
    '0' <= c <= '9'
  }

  function DigitValue(c: char): (v: nat)
    requires IsDigit(c)
    ensures v < 10
  {
    c as int - '0' as int
  }

  function DigitChar(v: nat): (c: char)
    requires v < 10
    ensures IsDigit(c) && DigitValue(c) == v
  {
    ('0' as int + v) as char
  }

  predicate IsLeapYear(y: nat) {
    (y % 4 == 0 && y % 100 != 0) || y % 400 == 0
  }

  function DaysInMonth(month: nat, year: nat): (n: nat)
    ensures 28 <= n <= 31
  {
    if month == 2 then (if IsLeapYear(year) then 29 else 28)
    else if month == 4 || month == 6 || month == 9 || month == 11 then 30
    else 31
  }

  /** The dates Python's `datetime` accepts. */
  predicate ValidDate(d: CalDate) {
    1 <= d.year <= 9999 && 1 <= d.month <= 12 && 1 <= d.day <= DaysInMonth(d.month, d.year)
  }

  /** `u` starts with the name of month `m`, compared case-insensitively. */
  predicate NameStarts(u: string, m: nat)
    requires 1 <= m <= 12
  {
    |MonthNames[m - 1]| <= |u| && Lower(u[..|MonthNames[m - 1]|]) == MonthNames[m - 1]
  }

  /** The first month, from `m` on, whose name starts `u`. */
  function MonthPrefix(u: string, m: nat): (r: Option<nat>)
    requires 1 <= m
    ensures r.Some? ==> m <= r.value <= 12 && NameStarts(u, r.value)
    ensures r.None? ==> forall k :: m <= k <= 12 ==> !NameStarts(u, k)
    decreases 13 - m
  {
    if m > 12 then None
    else if NameStarts(u, m) then Some(m)
    else MonthPrefix(u, m + 1)
  }

  predicate AllDigits(s: string) {
    forall i :: 0 <= i < |s| ==> IsDigit(s[i])
  }

  /** The value of four ASCII digits. */
  function YearValue(w: string): nat
    requires |w| == 4 && AllDigits(w)
  {
    1000 * DigitValue(w[0]) + 100 * DigitValue(w[1]) + 10 * DigitValue(w[2]) + DigitValue(w[3])
  }

  /** After the day: `\s+`, a month name, `\s+`, four digits and nothing more, and then
      the calendar checks `datetime` makes. */
  function AfterDay(day: nat, t: string): (r: Option<CalDate>)
    ensures r.Some? ==> ValidDate(r.value) && r.value.day == day
  {
    var u := TrimStart(t);
    if |u| == |t| then None
    else
      var m := MonthPrefix(u, 1);
      if m.None? then None
      else
        var v := u[|MonthNames[m.value - 1]|..];
        var w := TrimStart(v);
        if |w| == |v| || |w| != 4 || !AllDigits(w) then None
        else
          var year := YearValue(w);
          if 1 <= year && 1 <= day <= DaysInMonth(m.value, year)
          then Some(CalDate(day, m.value, year)) else None
  }

  /** A two-digit day as the first three alternatives of `%d` accept it:
      `3[01]`, `[12]\d`, `0[1-9]`. */
  function TwoDigitDay(s: string): Option<nat> {
    if |s| >= 2 && IsDigit(s[0]) && IsDigit(s[1])
       && ((s[0] == '3' && (s[1] == '0' || s[1] == '1')) || s[0] == '1' || s[0] == '2'
           || (s[0] == '0' && s[1] != '0'))
    then Some(10 * DigitValue(s[0]) + DigitValue(s[1]))
    else None
  }

  /** `datetime.strptime(s, "%d %B %Y")`; None where it raises ValueError. The day
      alternatives are tried in the regex's order, `3[01]|[12]\d|0[1-9]|[1-9]| [1-9]`,
      each with the rest of the pattern, as the regex backtracks. */
  function ParseDate(s: string): (r: Option<CalDate>)
    ensures r.Some? ==> ValidDate(r.value)
  {
    var two := TwoDigitDay(s);
    var viaTwo := if two.Some? then AfterDay(two.value, s[2..]) else None;
    if viaTwo.Some? then viaTwo
    else
      var viaOne := if |s| >= 1 && '1' <= s[0] <= '9' then AfterDay(DigitValue(s[0]), s[1..])
                    else None;
      if viaOne.Some? then viaOne
      else if |s| >= 2 && s[0] == ' ' && '1' <= s[1] <= '9' then AfterDay(DigitValue(s[1]), s[2..])
      else None
  }

  /** The value of two ASCII digits. */
  function TwoDigitValue(w: string): nat
    requires |w| == 2 && AllDigits(w)
  {
    10 * DigitValue(w[0]) + DigitValue(w[1])
  }

  /** Two decimal digits that read back as `n` modulo 100. */
  function TwoDigits(n: nat): (s: string)
    ensures |s| == 2 && AllDigits(s) && TwoDigitValue(s) == n % 100
  {
    assert n % 100 == 10 * (n / 10 % 10) + n % 10;
    [DigitChar(n / 10 % 10), DigitChar(n % 10)]
  }

  /** `strftime("%d/%m/%y")`: the day, the month and the year modulo 100, each as two
      digits, separated by '/'. */
  function FormatShort(d: CalDate): (s: string)
    ensures |s| == 8 && s[2] == '/' && s[5] == '/'
    ensures AllDigits(s[0..2]) && AllDigits(s[3..5]) && AllDigits(s[6..8])
    ensures TwoDigitValue(s[0..2]) == d.day % 100 && TwoDigitValue(s[3..5]) == d.month % 100
    ensures TwoDigitValue(s[6..8]) == d.year % 100
    ensures ValidDate(d) ==> TwoDigitValue(s[0..2]) == d.day && TwoDigitValue(s[3..5]) == d.month
  {
    TwoDigits(d.day) + "/" + TwoDigits(d.month) + "/" + TwoDigits(d.year % 100)
  }

  /** The first attachment whose name holds the publication, case-insensitively
      (`re.search(f"^.*{publication}.*$", filename, flags=re.I)`). */
  function FirstNamedAttachment(files: seq<string>, publication: string, from: nat): (r: Option<nat>)
    ensures r.Some? ==> from <= r.value < |files| && CiContains(files[r.value], publication)
    ensures forall j :: from <= j < |files| && (r.None? || j < r.value)
                        ==> !CiContains(files[j], publication)
    decreases |files| - from
  {
    if from >= |files| then None
    else if CiContains(files[from], publication) then Some(from)
    else FirstNamedAttachment(files, publication, from + 1)
  }

  /** The date text taken from a matching filename: its part before the first hyphen
      followed by the first four characters of `str(SentOn)`. */
  function AttachmentDate(filename: string, sentText: string): (r: string)
    ensures var year := Take(sentText, 4);
            |year| <= |r| && r[|r| - |year|..] == year && !Contains(r[..|r| - |year|], "-")
    ensures !Contains(filename, "-") ==> r == filename + Take(sentText, 4)
  {
    var head := Split(filename, "-")[0];
    var r := head + Take(sentText, 4);
    assert r[..|head|] == head && r[|head|..] == Take(sentText, 4);
    r
  }

  /** The date text of a filename `head-rest` whose head has no hyphen is that head
      followed by the year. */
  lemma AttachmentDateHead(head: string, rest: string, sentText: string)
    requires !Contains(head, "-")
    ensures AttachmentDate(head + "-" + rest, sentText) == head + Take(sentText, 4)
  {
    assert Unbordered("-");
    NoEarlyOccurrence(head, "-", rest);
    SplitAfter(head, "-", rest);
  }

  /** What get_date returns or raises for a message, a publication and its words. */
  function LookupDate(msg: Message, publication: string, pubsplit: seq<string>): (r: DateLookup)
    ensures r.NoAttachments? <==> |msg.attachments| == 0
    ensures r.FromAttachment? <==>
              exists j :: 0 <= j < |msg.attachments| && CiContains(msg.attachments[j], publication)
    ensures r.FromAttachment? ==>
              exists j :: 0 <= j < |msg.attachments| && CiContains(msg.attachments[j], publication)
                          && r.text == AttachmentDate(msg.attachments[j], msg.sentText)
                          && forall l :: 0 <= l < j ==> !CiContains(msg.attachments[l], publication)
    ensures r.DebugTypeError? ==> |pubsplit| >= 2
    ensures r.SendPrefix? ==> |pubsplit| <= 1 && r.text == Take(msg.sentText, 9)
  {
    if |msg.attachments| == 0 then NoAttachments
    else
      var k := FirstNamedAttachment(msg.attachments, publication, 0);
      if k.Some? then FromAttachment(AttachmentDate(msg.attachments[k.value], msg.sentText))
      else if |pubsplit| >= 2 then DebugTypeError
      else SendPrefix(Take(msg.sentText, 9))
  }

  /** get_date (outlook.py:204-255) with its nested loops and early returns. */
  method GetDate(msg: Message, publication: string, pubsplit: seq<string>)
    returns (r: DateLookup)
    ensures r == LookupDate(msg, publication, pubsplit)
  {
    var count := |msg.attachments|;
    var year := Take(msg.sentText, 4);
    if count > 0 {
      // The exact match: the whole publication in the filename.
      for item := 0 to count
        invariant FirstNamedAttachment(msg.attachments, publication, 0)
                  == FirstNamedAttachment(msg.attachments, publication, item)
      {
        var filename := msg.attachments[item];
        if CiContains(filename, publication) {
          year := Take(msg.sentText, 4);
          return FromAttachment(Split(filename, "-")[0] + year);
        }
      }
      // The alternative match: its first statement, a logging.debug call with the
      // keyword `end`, raises TypeError as soon as the word loop runs once. So with two
      // or more words this loop ends in its first iteration, and with fewer it runs
      // through every attachment without doing anything.
      for item := 0 to count
        invariant item == 0 || |pubsplit| < 2
      {
        // The word loop, over range(len(pubsplit) - 1), raises on its first pass.
        if |pubsplit| - 1 > 0 {
          return DebugTypeError;
        }
      }
      return SendPrefix(Take(msg.sentText, 9));
    }
    return NoAttachments;
  }

  /** The value main's `date` variable holds after the try statement of
      outlook.py:81-91, given its value from the previous entry (None while unbound):
      None from get_date or the TypeError give the send date; a text `strptime` rejects
      leaves the variable as it was. */
  function NextDate(lookup: DateLookup, msg: Message, previous: Option<string>): (r: Option<string>)
    ensures r.None? ==> previous.None?
    ensures r != previous ==> r.Some? && |r.value| == 8 && r.value[2] == '/' && r.value[5] == '/'
    ensures lookup.NoAttachments? || lookup.DebugTypeError? ==> r == Some(FormatShort(msg.sentOn))
  {
    match lookup
    case NoAttachments => Some(FormatShort(msg.sentOn))
    case DebugTypeError => Some(FormatShort(msg.sentOn))
    case FromAttachment(t) =>
      var d := ParseDate(t);
      if d.Some? then Some(FormatShort(d.value)) else previous
    case SendPrefix(t) =>
      var d := ParseDate(t);
      if d.Some? then Some(FormatShort(d.value)) else previous
  }

  /** `str(SentOn)` starts with the year, so its nine-character prefix never parses. */
  lemma DigitsNeverParse(s: string)
    requires |s| >= 3 && IsDigit(s[0]) && IsDigit(s[1]) && IsDigit(s[2])
    ensures ParseDate(s) == None
  {
    assert TrimStart(s[2..]) == s[2..];
    assert TrimStart(s[1..]) == s[1..];
  }

  /** With attachments but none naming the publication, and a publication of at most
      one word, the fallback `str(SentOn)[0:9]` fails `strptime`, so the entry keeps
      the date of the entry before it (or none at all, for the first entry). */
  lemma FallbackKeepsPreviousDate(msg: Message, publication: string, pubsplit: seq<string>,
                                  previous: Option<string>)
    requires |msg.attachments| > 0 && |pubsplit| <= 1
    requires forall j :: 0 <= j < |msg.attachments| ==> !CiContains(msg.attachments[j], publication)
    requires |msg.sentText| >= 3 && IsDigit(msg.sentText[0]) && IsDigit(msg.sentText[1])
             && IsDigit(msg.sentText[2])
    ensures NextDate(LookupDate(msg, publication, pubsplit), msg, previous) == previous
  {
    assert FirstNamedAttachment(msg.attachments, publication, 0).None?;
    DigitsNeverParse(Take(msg.sentText, 9));
  }

  /** A matching attachment whose date text `strptime` rejects leaves `date` as it was:
      the ValueError is passed over, with no fall back to the send date. */
  lemma BadAttachmentDateKeepsPrevious(msg: Message, publication: string, pubsplit: seq<string>,
                                       previous: Option<string>)
    requires FirstNamedAttachment(msg.attachments, publication, 0).Some?
    requires ParseDate(AttachmentDate(msg.attachments[FirstNamedAttachment(msg.attachments, publication, 0).value],
                                      msg.sentText)).None?
    ensures NextDate(LookupDate(msg, publication, pubsplit), msg, previous) == previous
  {
  }

  /** With no attachments, or with attachments, no exact match and at least two words
      (the TypeError), the entry gets the message's send date as dd/mm/yy. */
  lemma SendDateFallbacks(msg: Message, publication: string, pubsplit: seq<string>,
                          previous: Option<string>)
    requires |msg.attachments| == 0
             || (|pubsplit| >= 2 && forall j :: 0 <= j < |msg.attachments|
                                                ==> !CiContains(msg.attachments[j], publication))
    ensures NextDate(LookupDate(msg, publication, pubsplit), msg, previous)
            == Some(FormatShort(msg.sentOn))
  {
    if |msg.attachments| > 0 {
      assert FirstNamedAttachment(msg.attachments, publication, 0).None?;
    }
  }

  /** The English month names with a capital initial, as filenames carry them. */
  const MonthTitles: seq<string> :=
    ["January", "February", "March", "April", "May", "June", "July", "August",
     "September", "October", "November", "December"]

  /** The day of the month without padding. */
  function DayText(day: nat): string
    requires 1 <= day <= 31
  {
    if day < 10 then [DigitChar(day)] else [DigitChar(day / 10), DigitChar(day % 10)]
  }

  function YearText(y: nat): (s: string)
    requires 1000 <= y <= 9999
    ensures |s| == 4 && AllDigits(s) && YearValue(s) == y
  {
    var r1 := y % 1000;
    var r2 := r1 % 100;
    assert y == 1000 * (y / 1000) + 100 * (r1 / 100) + 10 * (r2 / 10) + r2 % 10;
    [DigitChar(y / 1000), DigitChar(r1 / 100), DigitChar(r2 / 10), DigitChar(r2 % 10)]
  }

  /** No month name is the first three letters of another's. */
  lemma MonthsDiffer(k: nat, m: nat)
    requires 1 <= k < m <= 12
    ensures MonthNames[k - 1][..3] != MonthNames[m - 1][..3]
  {
    var a := MonthNames[k - 1];
    var b := MonthNames[m - 1];
    assert a[0] != b[0] || a[1] != b[1] || a[2] != b[2];
  }

  /** Lower-casing a month's title gives its `%B` name, and the title starts with a letter. */
  lemma TitleLower(m: nat)
    requires 1 <= m <= 12
    ensures Lower(MonthTitles[m - 1]) == MonthNames[m - 1]
    ensures |MonthTitles[m - 1]| > 0 && !IsSpace(MonthTitles[m - 1][0])
  {
    if m <= 6 {
      EarlyTitlesLower(m);
    } else {
      LateTitlesLower(m);
    }
  }

  lemma EarlyTitlesLower(m: nat)
    requires 1 <= m <= 6
    ensures Lower(MonthTitles[m - 1]) == MonthNames[m - 1]
    ensures |MonthTitles[m - 1]| > 0 && !IsSpace(MonthTitles[m - 1][0])
  {
  }

  lemma LateTitlesLower(m: nat)
    requires 7 <= m <= 12
    ensures Lower(MonthTitles[m - 1]) == MonthNames[m - 1]
    ensures |MonthTitles[m - 1]| > 0 && !IsSpace(MonthTitles[m - 1][0])
  {
  }

  lemma MonthTitleParses(m: nat, rest: string)
    requires 1 <= m <= 12
    ensures MonthPrefix(MonthTitles[m - 1] + rest, 1) == Some(m)
  {
    var u := MonthTitles[m - 1] + rest;
    var name := MonthNames[m - 1];
    assert u[..|name|] == MonthTitles[m - 1];
    TitleLower(m);
    forall k | 1 <= k < m
      ensures !NameStarts(u, k)
    {
      if NameStarts(u, k) {
        var a := MonthNames[k - 1];
        assert a[..3] == Lower(u[..3]) == name[..3];
        MonthsDiffer(k, m);
      }
    }
    MonthPrefixSkip(u, 1, m);
  }

  lemma {:induction false} MonthPrefixSkip(u: string, from: nat, m: nat)
    requires 1 <= from <= m <= 12
    requires forall k :: from <= k < m ==> !NameStarts(u, k)
    requires NameStarts(u, m)
    ensures MonthPrefix(u, from) == Some(m)
    decreases m - from
  {
    if from < m {
      MonthPrefixSkip(u, from + 1, m);
    }
  }

  /** The part after the day: " March 2021" for a valid date with a four-digit year. */
  lemma WrittenRestParses(d: CalDate)
    requires ValidDate(d) && 1000 <= d.year
    ensures AfterDay(d.day, " " + MonthTitles[d.month - 1] + " " + YearText(d.year)) == Some(d)
  {
    var y := YearText(d.year);
    var mt := MonthTitles[d.month - 1];
    var t := " " + mt + " " + y;
    var u := mt + (" " + y);
    assert t == " " + mt + (" " + y);
    TitleLower(d.month);
    assert |mt| == |MonthNames[d.month - 1]|;
    LeadingSpaceDropped(mt, " " + y);
    assert TrimStart(t) == u;
    MonthTitleParses(d.month, " " + y);
    var v := u[|mt|..];
    assert v == " " + y;
    YearAfterSpace(v, y);
    assert YearValue(TrimStart(v)) == d.year;
  }

  /** `lstrip` removes the one space before a word. */
  lemma LeadingSpaceDropped(mt: string, rest: string)
    requires |mt| > 0 && !IsSpace(mt[0])
    ensures TrimStart(" " + mt + rest) == mt + rest
  {
    assert " " + mt + rest == " " + (mt + rest);
    TrimStartOverSpaces(" ", mt + rest);
  }

  lemma YearAfterSpace(v: string, y: string)
    requires v == " " + y && |y| == 4 && AllDigits(y)
    ensures TrimStart(v) == y && |v| == 5
  {
    TrimStartOverSpaces(" ", y);
  }

  /** A date as "12 March 2021": unpadded day, capitalised month name, four-digit year. */
  function WrittenDate(d: CalDate): string
    requires ValidDate(d) && 1000 <= d.year
  {
    DayText(d.day) + WrittenRest(d)
  }

  function WrittenRest(d: CalDate): string
    requires ValidDate(d) && 1000 <= d.year
  {
    " " + MonthTitles[d.month - 1] + " " + YearText(d.year)
  }

  /** A date written as "12 March 2021", as a filename prefix joined to the year gives
      it, parses back to the date it names. */
  lemma ParseWrittenDate(d: CalDate)
    requires ValidDate(d) && 1000 <= d.year
    ensures ParseDate(WrittenDate(d)) == Some(d)
  {
    WrittenRestParses(d);
    assert 1 <= d.day <= 31;
    DayThenRest(d.day, WrittenRest(d), d);
  }

  /** The day alternatives of `%d` read back an unpadded day, followed by text starting
      with a space. */
  lemma DayThenRest(day: nat, tail: string, d: CalDate)
    requires 1 <= day <= 31 && |tail| > 0 && tail[0] == ' '
    requires AfterDay(day, tail) == Some(d)
    ensures ParseDate(DayText(day) + tail) == Some(d)
  {
    var s := DayText(day) + tail;
    if day < 10 {
      OneDigitDayText(day, tail);
      OneDigitDay(s, d);
    } else {
      TwoDigitDayText(day, tail);
      TwoDigitDayParses(s, d);
    }
  }

  lemma OneDigitDayText(day: nat, tail: string)
    requires 1 <= day < 10 && |tail| > 0 && tail[0] == ' '
    ensures var s := DayText(day) + tail;
            '1' <= s[0] <= '9' && DigitValue(s[0]) == day && TwoDigitDay(s) == None && s[1..] == tail
  {
    var s := DayText(day) + tail;
    assert s[0] == DigitChar(day) && s[1] == ' ';
    assert s[1..] == tail;
  }

  lemma TwoDigitDayText(day: nat, tail: string)
    requires 10 <= day <= 31
    ensures var s := DayText(day) + tail;
            |s| >= 2 && TwoDigitDay(s) == Some(day) && s[2..] == tail
  {
    var s := DayText(day) + tail;
    var hi := day / 10;
    var lo := day % 10;
    assert day == 10 * hi + lo;
    assert s[0] == DigitChar(hi) && s[1] == DigitChar(lo);
    assert DigitValue(s[0]) == hi && DigitValue(s[1]) == lo;
    assert 1 <= hi <= 3 && (hi == 3 ==> lo <= 1);
    assert s[0] == '1' || s[0] == '2' || (s[0] == '3' && (s[1] == '0' || s[1] == '1'));
    assert s[2..] == tail;
  }

  /** The single-digit alternative applies once the two-digit ones do not. */
  lemma OneDigitDay(s: string, d: CalDate)
    requires |s| >= 1 && '1' <= s[0] <= '9' && TwoDigitDay(s) == None
    requires AfterDay(DigitValue(s[0]), s[1..]) == Some(d)
    ensures ParseDate(s) == Some(d)
  {
  }

  lemma TwoDigitDayParses(s: string, d: CalDate)
    requires |s| >= 2 && TwoDigitDay(s).Some?
    requires AfterDay(TwoDigitDay(s).value, s[2..]) == Some(d)
    ensures ParseDate(s) == Some(d)
  {
  }

  /** No character of "12 March " is a hyphen. */
  lemma NoHyphenInDayMonth(d: CalDate)
    requires ValidDate(d)
    ensures var a := DayText(d.day) + " " + MonthTitles[d.month - 1] + " ";
            forall i :: 0 <= i < |a| ==> a[i] != '-'
  {
    var t := MonthTitles[d.month - 1];
    assert forall i :: 0 <= i < |t| ==> t[i] != '-';
  }

  /** The date text taken from a filename "12 March -..." with the year "2021" is
      "12 March 2021". */
  lemma AttachmentDateWritten(d: CalDate, rest: string, sentText: string)
    requires ValidDate(d) && 1000 <= d.year
    requires Take(sentText, 4) == YearText(d.year)
    ensures AttachmentDate(DayText(d.day) + " " + MonthTitles[d.month - 1] + " " + "-" + rest,
                           sentText) == WrittenDate(d)
  {
    var a := DayText(d.day) + " " + MonthTitles[d.month - 1] + " ";
    var f := a + "-" + rest;
    NoHyphenInDayMonth(d);
    forall j | 0 <= j < |a| ensures !OccursAt(f, "-", j) {
      assert f[j] == a[j] && a[j] != '-';
      assert f[j..j + 1][0] == f[j];
    }
    SplitAfter(a, "-", rest);
    assert Split(f, "-")[0] == a;
    Regroup(DayText(d.day), MonthTitles[d.month - 1], YearText(d.year));
  }

  lemma Regroup(day: string, month: string, year: string)
    ensures day + " " + month + " " + year == day + (" " + month + " " + year)
  {
  }

  /** A matching filename of the form "12 March -...", in a message whose `str(SentOn)`
      starts with "2021", dates the entry 12/03/21 whatever it held before. */
  lemma NamedAttachmentDate(msg: Message, publication: string, pubsplit: seq<string>,
                            d: CalDate, rest: string, previous: Option<string>)
    requires ValidDate(d) && 1000 <= d.year
    requires FirstNamedAttachment(msg.attachments, publication, 0).Some?
    requires msg.attachments[FirstNamedAttachment(msg.attachments, publication, 0).value]
             == DayText(d.day) + " " + MonthTitles[d.month - 1] + " " + "-" + rest
    requires Take(msg.sentText, 4) == YearText(d.year)
    ensures NextDate(LookupDate(msg, publication, pubsplit), msg, previous)
            == Some(FormatShort(d))
  {
    AttachmentDateWritten(d, rest, msg.sentText);
    ParseWrittenDate(d);
  }
}
