/** The Python string primitives the parser is built from: substring search (`in`,
    `str.find`), `str.split(sep)`, `str.split()`, `str.strip()`, `str.replace(" ", "")`,
    clamped slicing and ASCII case folding for `re.I` searches with plain-text patterns. */
module Text {
  import opened Common

  /** The characters for which Python's `str.isspace()` holds; `str.strip()` and
      `str.split()` remove exactly these. */
  predicate IsSpace(c: char) {
    c == ' ' || ('\t' <= c <= '\r') || ('\U{1C}' <= c <= '\U{1F}') || c == '\U{85}'
    || c == '\U{A0}' || c == '\U{1680}' || ('\U{2000}' <= c <= '\U{200A}')
    || c == '\U{2028}' || c == '\U{2029}' || c == '\U{202F}' || c == '\U{205F}'
    || c == '\U{3000}'
  }

  predicate AllSpace(s: string) {
    forall i :: 0 <= i < |s| ==> IsSpace(s[i])
  }

  predicate NoSpace(s: string) {
    forall i :: 0 <= i < |s| ==> !IsSpace(s[i])
  }

  /** `p` occurs in `s` starting at index `i`. */
  predicate OccursAt(s: string, p: string, i: nat) {
    i + |p| <= |s| && s[i..i + |p|] == p
  }

  /** The first index at or after `from` where `p` occurs in `s` (Python's `str.find`). */
  function IndexFrom(s: string, p: string, from: nat): (r: Option<nat>)
    ensures r.Some? ==> from <= r.value && OccursAt(s, p, r.value)
    ensures forall j :: from <= j && (r.None? || j < r.value) ==> !OccursAt(s, p, j)
    decreases |s| - from
  {
    if from + |p| > |s| then None
    else if s[from..from + |p|] == p then Some(from)
    else IndexFrom(s, p, from + 1)
  }

  function IndexOf(s: string, p: string): Option<nat> {
    IndexFrom(s, p, 0)
  }

  /** Python's `p in s`, equivalently `s.find(p) != -1`. */
  predicate Contains(s: string, p: string) {
    IndexOf(s, p).Some?
  }

  lemma OccursContains(s: string, p: string, i: nat)
    requires OccursAt(s, p, i)
    ensures Contains(s, p)
  {
  }

  /** The text before index `i` holds no occurrence when none starts before `i`. */
  lemma PrefixFree(s: string, p: string, i: nat)
    requires |p| > 0 && i <= |s|
    requires forall j :: 0 <= j < i ==> !OccursAt(s, p, j)
    ensures !Contains(s[..i], p)
  {
    if Contains(s[..i], p) {
      var j := IndexOf(s[..i], p).value;
      assert s[..i][j..j + |p|] == s[j..j + |p|];
      assert OccursAt(s, p, j);
    }
  }

  /** Python's `sep.join(parts)`. */
  function Join(parts: seq<string>, sep: string): string
    decreases |parts|
  {
    if |parts| == 0 then ""
    else if |parts| == 1 then parts[0]
    else parts[0] + sep + Join(parts[1..], sep)
  }

  /** Python's `s.split(sep)` for a non-empty separator: cut at every occurrence,
      scanning left to right. Joining the parts gives back `s`, and no part holds `sep`. */
  function Split(s: string, sep: string): (parts: seq<string>)
    requires |sep| > 0
    ensures |parts| >= 1
    ensures Join(parts, sep) == s
    ensures forall k :: 0 <= k < |parts| ==> !Contains(parts[k], sep)
    decreases |s|
  {
    match IndexOf(s, sep)
    case None => [s]
    case Some(i) =>
      PrefixFree(s, sep, i);
      var rest := Split(s[i + |sep|..], sep);
      assert s == s[..i] + sep + s[i + |sep|..];
      assert ([s[..i]] + rest)[1..] == rest;
      [s[..i]] + rest
  }

  lemma SplitNoSeparator(s: string, sep: string)
    requires |sep| > 0
    ensures |Split(s, sep)| < 2 <==> !Contains(s, sep)
    ensures !Contains(s, sep) ==> Split(s, sep) == [s]
  {
  }

  /** When the first occurrence of `sep` in `a + sep + b` is the one after `a`, the
      split yields `a` and then the split of `b`. */
  lemma SplitAfter(a: string, sep: string, b: string)
    requires |sep| > 0
    requires forall j :: 0 <= j < |a| ==> !OccursAt(a + sep + b, sep, j)
    ensures Split(a + sep + b, sep) == [a] + Split(b, sep)
  {
    var s := a + sep + b;
    assert s[|a|..|a| + |sep|] == sep;
    assert OccursAt(s, sep, |a|);
    assert IndexOf(s, sep) == Some(|a|);
    assert s[..|a|] == a;
    assert s[|a| + |sep|..] == b;
  }

  /** No proper prefix of `sep` is also a suffix of it, so two occurrences never overlap. */
  predicate Unbordered(sep: string) {
    forall m :: 0 < m < |sep| ==> sep[..m] != sep[|sep| - m..]
  }

  /** An occurrence that starts inside `a` and ends inside the following `sep`
      makes a proper prefix of `sep` equal to a suffix of it. */
  lemma OverlapIsBorder(a: string, sep: string, b: string, j: nat)
    requires j < |a| < j + |sep| && OccursAt(a + sep + b, sep, j)
    ensures var m := j + |sep| - |a|; 0 < m < |sep| && sep[..m] == sep[|sep| - m..]
  {
    var s := a + sep + b;
    var m := j + |sep| - |a|;
    assert sep[|sep| - m..] == s[|a|..j + |sep|];
    assert s[|a|..j + |sep|] == sep[..m];
  }

  /** For an unbordered separator, an `a` free of it leaves the first occurrence in
      `a + sep + b` right after `a`. */
  lemma NoEarlyOccurrence(a: string, sep: string, b: string)
    requires |sep| > 0 && Unbordered(sep) && !Contains(a, sep)
    ensures forall j :: 0 <= j < |a| ==> !OccursAt(a + sep + b, sep, j)
  {
    var s := a + sep + b;
    forall j | 0 <= j < |a| ensures !OccursAt(s, sep, j) {
      if OccursAt(s, sep, j) {
        if j + |sep| <= |a| {
          assert a[j..j + |sep|] == s[j..j + |sep|];
          OccursContains(a, sep, j);
        } else {
          OverlapIsBorder(a, sep, b, j);
          assert false;
        }
      }
    }
  }

  /** The index of the first non-whitespace character at or after `i`, or `|s|`. */
  function SkipSpace(s: string, i: nat): (n: nat)
    requires i <= |s|
    ensures i <= n <= |s| && (forall j :: i <= j < n ==> IsSpace(s[j]))
    ensures n < |s| ==> !IsSpace(s[n])
    decreases |s| - i
  {
    if i < |s| && IsSpace(s[i]) then SkipSpace(s, i + 1) else i
  }

  /** The index just after the last non-whitespace character before `e`, or 0. */
  function SkipSpaceBack(s: string, e: nat): (n: nat)
    requires e <= |s|
    ensures n <= e && (forall j :: n <= j < e ==> IsSpace(s[j]))
    ensures n > 0 ==> !IsSpace(s[n - 1])
    decreases e
  {
    if e > 0 && IsSpace(s[e - 1]) then SkipSpaceBack(s, e - 1) else e
  }

  /** Only one index ends a run of whitespace starting at `i`. */
  lemma SkipSpaceAt(s: string, i: nat, k: nat)
    requires i <= k <= |s| && (forall j :: i <= j < k ==> IsSpace(s[j]))
    requires k < |s| ==> !IsSpace(s[k])
    ensures SkipSpace(s, i) == k
  {
  }

  /** Only one index starts a run of whitespace ending at `e`. */
  lemma SkipSpaceBackAt(s: string, e: nat, k: nat)
    requires k <= e <= |s| && (forall j :: k <= j < e ==> IsSpace(s[j]))
    requires k > 0 ==> !IsSpace(s[k - 1])
    ensures SkipSpaceBack(s, e) == k
  {
  }

  /** Python's `s.lstrip()`: the suffix left after dropping leading whitespace. */
  function TrimStart(s: string): (r: string)
    ensures |r| <= |s| && r == s[|s| - |r|..] && AllSpace(s[..|s| - |r|])
    ensures |r| > 0 ==> !IsSpace(r[0])
  {
    s[SkipSpace(s, 0)..]
  }

  /** Python's `s.rstrip()`: the prefix left after dropping trailing whitespace. */
  function TrimEnd(s: string): (r: string)
    ensures |r| <= |s| && r == s[..|r|] && AllSpace(s[|r|..])
    ensures |r| > 0 ==> !IsSpace(r[|r| - 1])
  {
    s[..SkipSpaceBack(s, |s|)]
  }

  /** Python's `s.strip()`: the result sits in `s` right after its leading whitespace,
      only whitespace follows it, and it neither starts nor ends with whitespace. */
  function Strip(s: string): (r: string)
    ensures |r| <= |s|
    ensures |r| > 0 ==> !IsSpace(r[0]) && !IsSpace(r[|r| - 1])
    ensures var i := SkipSpace(s, 0);
              i + |r| <= |s| && s[i..i + |r|] == r && AllSpace(s[..i]) && AllSpace(s[i + |r|..])
  {
    var a := SkipSpace(s, 0);
    if a == |s| then ""
    else
      s[a..SkipSpaceBack(s, |s|)]
  }

  lemma TrimStartOverSpaces(a: string, t: string)
    requires AllSpace(a) && (|t| > 0 ==> !IsSpace(t[0]))
    ensures TrimStart(a + t) == t
  {
    var s := a + t;
    assert forall j :: 0 <= j < |a| ==> s[j] == a[j];
    assert |t| > 0 ==> s[|a|] == t[0];
    SkipSpaceAt(s, 0, |a|);
    assert s[|a|..] == t;
  }

  lemma TrimEndOverSpaces(t: string, c: string)
    requires AllSpace(c) && (|t| > 0 ==> !IsSpace(t[|t| - 1]))
    ensures TrimEnd(t + c) == t
  {
    var s := t + c;
    assert forall j :: |t| <= j < |s| ==> s[j] == c[j - |t|];
    assert |t| > 0 ==> s[|t| - 1] == t[|t| - 1];
    SkipSpaceBackAt(s, |s|, |t|);
    assert s[..|t|] == t;
  }

  /** `strip()` returns exactly the text between the surrounding whitespace. */
  lemma StripExact(a: string, b: string, c: string)
    requires AllSpace(a) && AllSpace(c)
    requires |b| > 0 ==> !IsSpace(b[0]) && !IsSpace(b[|b| - 1])
    ensures Strip(a + b + c) == b
  {
    var s := a + b + c;
    assert forall j :: 0 <= j < |a| ==> s[j] == a[j];
    assert forall j :: |a| + |b| <= j < |s| ==> s[j] == c[j - |a| - |b|];
    if |b| > 0 {
      assert s[|a|] == b[0] && s[|a| + |b| - 1] == b[|b| - 1];
      SkipSpaceAt(s, 0, |a|);
      SkipSpaceBackAt(s, |s|, |a| + |b|);
      assert s[|a|..|a| + |b|] == b;
    } else {
      SkipSpaceAt(s, 0, |s|);
    }
  }

  lemma StripIdempotent(s: string)
    ensures Strip(Strip(s)) == Strip(s)
  {
    var r := Strip(s);
    assert "" + r + "" == r;
    StripExact("", r, "");
  }

  /** Length of the run of non-whitespace characters at the start of `t`. */
  function WordLength(t: string): (n: nat)
    ensures n <= |t| && NoSpace(t[..n]) && (n < |t| ==> IsSpace(t[n]))
    ensures |t| > 0 && !IsSpace(t[0]) ==> n > 0
    decreases |t|
  {
    if |t| == 0 || IsSpace(t[0]) then 0
    else
      var n := 1 + WordLength(t[1..]);
      assert t[..n] == [t[0]] + t[1..][..n - 1];
      n
  }

  /** A word of `str.split()`: a non-empty run without whitespace. */
  predicate IsWord(w: string) {
    |w| > 0 && NoSpace(w)
  }

  /** Python's `s.split()` with no argument: the maximal runs of non-whitespace. */
  function Words(s: string): (ws: seq<string>)
    ensures forall k :: 0 <= k < |ws| ==> IsWord(ws[k])
    decreases |s|
  {
    if |s| == 0 then []
    else if IsSpace(s[0]) then Words(s[1..])
    else
      var n := WordLength(s);
      [s[..n]] + Words(s[n..])
  }

  lemma {:induction false} WordsEmpty(s: string)
    ensures Words(s) == [] <==> AllSpace(s)
    decreases |s|
  {
    if |s| > 0 && IsSpace(s[0]) {
      WordsEmpty(s[1..]);
      assert AllSpace(s) <==> AllSpace(s[1..]);
    }
  }

  /** Only one length ends the leading run of non-whitespace of `t`. */
  lemma {:induction false} WordLengthAt(t: string, k: nat)
    requires k <= |t| && NoSpace(t[..k]) && (k < |t| ==> IsSpace(t[k]))
    ensures WordLength(t) == k
    decreases |t|
  {
    if k > 0 {
      assert t[1..][..k - 1] == t[..k][1..];
      WordLengthAt(t[1..], k - 1);
    }
  }

  /** A word on its own splits to itself. */
  lemma WordsOfWord(w: string)
    requires IsWord(w)
    ensures Words(w) == [w]
  {
    assert w[..|w|] == w;
    WordLengthAt(w, |w|);
    assert w[|w|..] == [];
  }

  /** Whitespace separates words: the words of `a + [c] + b` for a whitespace `c` are
      those of `a` followed by those of `b`. With WordsOfWord and WordsEmpty this pins
      `str.split()` down to all the maximal non-whitespace runs, in order. */
  lemma {:induction false} WordsSpaceSplit(a: string, c: char, b: string)
    requires IsSpace(c)
    ensures Words(a + [c] + b) == Words(a) + Words(b)
    decreases |a|
  {
    var s := a + [c] + b;
    if |a| == 0 {
      assert s[1..] == b;
    } else if IsSpace(a[0]) {
      assert s[1..] == a[1..] + [c] + b;
      WordsSpaceSplit(a[1..], c, b);
    } else {
      var m := WordLength(a);
      assert s[..m] == a[..m];
      assert m < |a| ==> s[m] == a[m];
      assert m == |a| ==> s[m] == c;
      WordLengthAt(s, m);
      assert s[m..] == a[m..] + [c] + b;
      WordsSpaceSplit(a[m..], c, b);
    }
  }

  /** The first word of a text that starts with a non-space is its leading run. */
  lemma WordsFirst(s: string)
    requires |s| > 0 && !IsSpace(s[0])
    ensures |Words(s)| > 0 && Words(s)[0] == s[..WordLength(s)]
  {
  }

  /** ASCII lower-casing of one character. */
  function LowerChar(c: char): (d: char)
    ensures 'A' <= c <= 'Z' ==> d as int == c as int + 32
    ensures !('A' <= c <= 'Z') ==> d == c
  {
    if 'A' <= c <= 'Z' then (c as int + 32) as char else c
  }

  function Lower(s: string): (r: string)
    ensures |r| == |s| && forall i :: 0 <= i < |s| ==> r[i] == LowerChar(s[i])
  {
    seq(|s|, i requires 0 <= i < |s| => LowerChar(s[i]))
  }

  /** `re.search(p, s, re.I) != None` for a plain-text pattern `p` (ASCII case folding). */
  predicate CiContains(s: string, p: string) {
    Contains(Lower(s), Lower(p))
  }

  /** Python's `s.replace(" ", "")`: every character other than a space is kept, as
      often as it occurs; RemoveSpacesAppend adds that the order is kept. */
  function RemoveSpaces(s: string): (r: string)
    ensures |r| <= |s| && forall i :: 0 <= i < |r| ==> r[i] != ' '
    ensures multiset(r) == multiset(s)[' ' := 0]
    ensures (forall i :: 0 <= i < |s| ==> s[i] != ' ') ==> r == s
  {
    if |s| == 0 then ""
    else
      assert s == [s[0]] + s[1..];
      if s[0] == ' ' then RemoveSpaces(s[1..])
      else [s[0]] + RemoveSpaces(s[1..])
  }

  /** Removing the spaces works piece by piece, so the kept characters stay in order. */
  lemma {:induction false} RemoveSpacesAppend(a: string, b: string)
    ensures RemoveSpaces(a + b) == RemoveSpaces(a) + RemoveSpaces(b)
    decreases |a|
  {
    if |a| > 0 {
      assert (a + b)[1..] == a[1..] + b;
      RemoveSpacesAppend(a[1..], b);
    } else {
      assert a + b == b;
    }
  }

  predicate IsAsciiLetter(c: char) {
    'a' <= c <= 'z' || 'A' <= c <= 'Z'
  }

  /** `re.sub('[^a-zA-Z]', "", s)`: every ASCII letter is kept, as often as it occurs,
      and nothing else; LettersOnlyAppend adds that the order is kept. */
  function LettersOnly(s: string): (r: string)
    ensures |r| <= |s| && forall i :: 0 <= i < |r| ==> IsAsciiLetter(r[i])
    ensures forall c :: multiset(r)[c] == if IsAsciiLetter(c) then multiset(s)[c] else 0
    ensures (forall i :: 0 <= i < |s| ==> IsAsciiLetter(s[i])) ==> r == s
  {
    if |s| == 0 then ""
    else
      assert s == [s[0]] + s[1..];
      if IsAsciiLetter(s[0]) then [s[0]] + LettersOnly(s[1..])
      else LettersOnly(s[1..])
  }

  /** Removing the non-letters works piece by piece, so the letters stay in order. */
  lemma {:induction false} LettersOnlyAppend(a: string, b: string)
    ensures LettersOnly(a + b) == LettersOnly(a) + LettersOnly(b)
    decreases |a|
  {
    if |a| > 0 {
      assert (a + b)[1..] == a[1..] + b;
      LettersOnlyAppend(a[1..], b);
    } else {
      assert a + b == b;
    }
  }

  /** Python's slice `s[0:n]`, which is clamped to the length of `s`. */
  function Take(s: string, n: nat): (r: string)
    ensures |r| == if |s| < n then |s| else n
    ensures r == s[..|r|]
  {
    if |s| <= n then s else s[..n]
  }
}
