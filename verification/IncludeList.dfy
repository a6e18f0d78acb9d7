/**
 The include list at the end of the package `__init__`: one router per line, kept
 sorted. A text is its list of lines, newlines left off.
 */
module IncludeList {
  import opened Options
  import opened Orders

  datatype Entry = Entry(alias: string, order: nat)

  // ------------------------------------------------------------ one include line

  const OPEN := "router.include_router("
  const CLOSE := ")  # ops_split order="

  predicate IsDigit(c: char) { '0' <= c <= '9' }

  predicate IsWordChar(c: char) { 'a' <= c <= 'z' || 'A' <= c <= 'Z' || IsDigit(c) || c == '_' }

  predicate IsWord(s: string) { s != "" && forall i :: 0 <= i < |s| ==> IsWordChar(s[i]) }

  function Digit(n: nat): char
    requires n < 10
  {
    "0123456789"[n]
  }

  function Decimal(n: nat): string {
    if n < 10 then [Digit(n)] else Decimal(n / 10) + [Digit(n % 10)]
  }

  function Value(digits: string): nat
    requires forall i :: 0 <= i < |digits| ==> IsDigit(digits[i])
  {
    if digits == "" then 0
    else
      assert IsDigit(digits[|digits| - 1]);
      Value(digits[..|digits| - 1]) * 10 + (digits[|digits| - 1] as int - '0' as int)
  }

  lemma {:induction false} DecimalValue(n: nat)
    ensures Decimal(n) != "" && (forall i :: 0 <= i < |Decimal(n)| ==> IsDigit(Decimal(n)[i])) && Value(Decimal(n)) == n
  {
    if n >= 10 {
      DecimalValue(n / 10);
      assert Decimal(n)[..|Decimal(n)| - 1] == Decimal(n / 10);
    } else {
      assert Decimal(n)[..0] == "";
    }
  }

  function Render(e: Entry): string { OPEN + (e.alias + (CLOSE + Decimal(e.order))) }

  /** Length of the run of word characters at the front. */
  function WordRun(s: string): (n: nat)
    ensures n <= |s| && (n < |s| ==> !IsWordChar(s[n])) && forall i :: 0 <= i < n ==> IsWordChar(s[i])
  {
    if s == "" || !IsWordChar(s[0]) then 0 else 1 + WordRun(s[1..])
  }

  /** What follows `prefix`, if `s` starts with it. */
  function After(s: string, prefix: string): Option<string> {
    if prefix <= s then Some(s[|prefix|..]) else None
  }

  /** `^router\.include_router\((\w+)\)  # ops_split order=(\d+)$` */
  function Parse(line: string): (r: Option<Entry>)
    ensures r.Some? ==> IsWord(r.value.alias)
  {
    match After(line, OPEN)
    case None => None
    case Some(rest) =>
      var n := WordRun(rest);
      match After(rest[n..], CLOSE)
      case None => None
      case Some(digits) =>
        if n > 0 && digits != "" && forall i :: 0 <= i < |digits| ==> IsDigit(digits[i])
        then Some(Entry(rest[..n], Value(digits)))
        else None
  }

  lemma {:induction false} WordRunIs(s: string, n: nat)
    requires n <= |s| && (forall i :: 0 <= i < n ==> IsWordChar(s[i])) && (n < |s| ==> !IsWordChar(s[n]))
    ensures WordRun(s) == n
  {
  }

  lemma AfterConcat(prefix: string, rest: string)
    ensures After(prefix + rest, prefix) == Some(rest)
  {
  }

  /** Reading a written line gives the entry back. */
  lemma ParseRender(e: Entry)
    requires IsWord(e.alias)
    ensures Parse(Render(e)) == Some(e)
  {
    var tail := CLOSE + Decimal(e.order);
    AfterConcat(OPEN, e.alias + tail);
    assert tail[0] == ')';
    WordRunIs(e.alias + tail, |e.alias|);
    assert (e.alias + tail)[|e.alias|..] == tail && (e.alias + tail)[..|e.alias|] == e.alias;
    AfterConcat(CLOSE, Decimal(e.order));
    DecimalValue(e.order);
  }

  // ------------------------------------------------------------------ the entries

  /** The lines that are not include lines. */
  function Kept(lines: seq<string>): seq<string> {
    if lines == [] then []
    else Kept(lines[..|lines| - 1]) + (if Parse(lines[|lines| - 1]).Some? then [] else [lines[|lines| - 1]])
  }

  /** The entries the include lines hold; a later line for the same alias wins. */
  function Listed(lines: seq<string>): map<string, nat> {
    if lines == [] then map[]
    else
      var before := Listed(lines[..|lines| - 1]);
      match Parse(lines[|lines| - 1])
      case Some(e) => before[e.alias := e.order]
      case None => before
  }

  /** An entry that is already listed keeps its order. */
  function Entries(lines: seq<string>, alias: string, order: nat): map<string, nat> {
    map[alias := order] + Listed(lines)
  }

  predicate Less(a: Entry, b: Entry) { a.order < b.order || (a.order == b.order && Before(a.alias, b.alias)) }

  /** `es` lists the entries of `m`, sorted by order and then by alias. */
  ghost predicate Listing(es: seq<Entry>, m: map<string, nat>) {
    (forall i, j :: 0 <= i < j < |es| ==> Less(es[i], es[j]))
    && (forall e :: e in es <==> e.alias in m && m[e.alias] == e.order)
  }

  function Insert(es: seq<Entry>, e: Entry): seq<Entry> {
    if es == [] || Less(e, es[0]) then [e] + es else [es[0]] + Insert(es[1..], e)
  }

  lemma LessTotal(a: Entry, b: Entry)
    ensures a == b || Less(a, b) || Less(b, a)
    ensures !(Less(a, b) && Less(b, a)) && (a == b ==> !Less(a, b))
  {
    BeforeTotal(a.alias, b.alias);
  }

  lemma LessTransitive(a: Entry, b: Entry, c: Entry)
    requires Less(a, b) && Less(b, c)
    ensures Less(a, c)
  {
    if a.order == b.order == c.order {
      BeforeTransitive(a.alias, b.alias, c.alias);
    }
  }

  ghost predicate Ascending(es: seq<Entry>) {
    forall i, j :: 0 <= i < j < |es| ==> Less(es[i], es[j])
  }

  lemma {:induction false} InsertAscending(es: seq<Entry>, e: Entry)
    requires Ascending(es) && e !in es
    ensures Ascending(Insert(es, e)) && forall x :: x in Insert(es, e) <==> x == e || x in es
  {
    if es != [] {
      if Less(e, es[0]) {
        forall j | 0 <= j < |es| ensures Less(e, es[j]) {
          if j > 0 {
            LessTransitive(e, es[0], es[j]);
          }
        }
      } else {
        LessTotal(e, es[0]);
        InsertAscending(es[1..], e);
        var rest := Insert(es[1..], e);
        forall x | x in rest ensures Less(es[0], x) {
          if x != e {
            var j :| 0 <= j < |es[1..]| && es[1..][j] == x;
            assert es[j + 1] == x;
          }
        }
      }
      assert es == [es[0]] + es[1..];
    }
  }

  lemma FirstLeast(es: seq<Entry>, e: Entry)
    requires Ascending(es) && e in es
    ensures e == es[0] || Less(es[0], e)
  {
    var i :| 0 <= i < |es| && es[i] == e;
  }

  lemma TailSame(a: seq<Entry>, b: seq<Entry>)
    requires Ascending(a) && Ascending(b) && (forall e :: e in a <==> e in b) && a != [] && b != [] && a[0] == b[0]
    ensures forall e :: e in a[1..] <==> e in b[1..]
  {
    forall e ensures e in a[1..] <==> e in b[1..] {
      TailMember(a, e);
      TailMember(b, e);
    }
  }

  lemma TailMember(a: seq<Entry>, e: Entry)
    requires Ascending(a) && a != []
    ensures e in a[1..] <==> e in a && e != a[0]
  {
    if e in a[1..] {
      var i :| 0 <= i < |a[1..]| && a[1..][i] == e;
      assert a[i + 1] == e;
      LessTotal(a[0], e);
    }
    assert a == [a[0]] + a[1..];
  }

  lemma SameEmptiness(a: seq<Entry>, b: seq<Entry>)
    requires forall e :: e in a <==> e in b
    ensures a == [] <==> b == []
  {
    assert a != [] ==> a[0] in a;
    assert b != [] ==> b[0] in b;
  }

  lemma {:induction false} AscendingUnique(a: seq<Entry>, b: seq<Entry>)
    requires Ascending(a) && Ascending(b) && forall e :: e in a <==> e in b
    ensures a == b
  {
    SameEmptiness(a, b);
    if a != [] {
      assert a[0] in b;
      assert b[0] in a;
      FirstLeast(b, a[0]);
      FirstLeast(a, b[0]);
      LessTotal(a[0], b[0]);
      TailSame(a, b);
      AscendingUnique(a[1..], b[1..]);
      assert a == [a[0]] + a[1..] && b == [b[0]] + b[1..];
    }
  }

  /** Sorting the entries of a dictionary. */
  method SortEntries(m: map<string, nat>) returns (es: seq<Entry>)
    ensures Listing(es, m)
  {
    es := [];
    var left := m.Keys;
    while left != {}
      invariant left <= m.Keys && Ascending(es)
      invariant forall e :: e in es <==> e.alias in m.Keys - left && m[e.alias] == e.order
    {
      var alias :| alias in left;
      var e := Entry(alias, m[alias]);
      InsertAscending(es, e);
      es := Insert(es, e);
      left := left - {alias};
    }
  }

  ghost function Sorted(m: map<string, nat>): (es: seq<Entry>)
    ensures Listing(es, m)
  {
    SortedExists(m);
    var es :| Listing(es, m);
    es
  }

  lemma {:induction false} SortedExists(m: map<string, nat>)
    ensures exists es :: Listing(es, m)
    decreases |m|
  {
    if m == map[] {
      assert Listing([], m);
    } else {
      var alias :| alias in m;
      var rest := m - {alias};
      assert rest.Keys == m.Keys - {alias};
      SortedExists(rest);
      var es :| Listing(es, rest);
      InsertAscending(es, Entry(alias, m[alias]));
      assert Listing(Insert(es, Entry(alias, m[alias])), m);
    }
  }

  // ----------------------------------------------------------------- the new text

  const HEADER_1 := "# ops_split include list (D2): one domain router per line, ordered by the"
  const HEADER_2 := "# domain's first route line. Managed by backend/restructure/ops_split.py."

  /** Removing every occurrence of the two header lines, from the front. */
  function WithoutHeader(lines: seq<string>): seq<string> {
    if lines == [] then []
    else if |lines| > 1 && lines[0] == HEADER_1 && lines[1] == HEADER_2 then WithoutHeader(lines[2..])
    else [lines[0]] + WithoutHeader(lines[1..])
  }

  function TrimEnd(lines: seq<string>): seq<string> {
    if lines != [] && lines[|lines| - 1] == "" then TrimEnd(lines[..|lines| - 1]) else lines
  }

  /** The text above the include list: trailing blank lines cut, one line at least. */
  function Body(lines: seq<string>): seq<string> {
    var trimmed := TrimEnd(WithoutHeader(Kept(lines)));
    if trimmed == [] then [""] else trimmed
  }

  function RenderAll(es: seq<Entry>): seq<string> {
    if es == [] then [] else RenderAll(es[..|es| - 1]) + [Render(es[|es| - 1])]
  }

  const GAP := ["", "", HEADER_1, HEADER_2]

  ghost function Rewritten(lines: seq<string>, alias: string, order: nat): seq<string> {
    Body(lines) + GAP + RenderAll(Sorted(Entries(lines, alias, order)))
  }

  lemma OneMore(lines: seq<string>, n: nat, alias: string, order: nat)
    requires n < |lines|
    ensures Kept(lines[..n + 1]) == Kept(lines[..n]) + (if Parse(lines[n]).Some? then [] else [lines[n]])
    ensures Entries(lines[..n + 1], alias, order) == match Parse(lines[n])
      case Some(e) => Entries(lines[..n], alias, order)[e.alias := e.order]
      case None => Entries(lines[..n], alias, order)
  {
    hide Parse;
    assert lines[..n + 1][..n] == lines[..n];
  }

  method RewriteIncludeList(lines: seq<string>, alias: string, order: nat) returns (text: seq<string>)
    ensures text == Rewritten(lines, alias, order)
  {
    hide Parse, Kept, Listed, WithoutHeader, TrimEnd, RenderAll, Sorted;
    NoLines(alias, order);
    var entries := map[alias := order];
    var kept: seq<string> := [];
    for n := 0 to |lines|
      invariant entries == Entries(lines[..n], alias, order) && kept == Kept(lines[..n])
    {
      OneMore(lines, n, alias, order);
      match Parse(lines[n]) {
        case Some(e) => entries := entries[e.alias := e.order];
        case None => kept := kept + [lines[n]];
      }
    }
    assert lines[..|lines|] == lines;
    var trimmed := TrimEnd(WithoutHeader(kept));
    var es := SortEntries(entries);
    AscendingUnique(es, Sorted(entries));
    text := (if trimmed == [] then [""] else trimmed) + GAP + RenderAll(es);
  }

  lemma NoLines(alias: string, order: nat)
    ensures Kept([]) == [] && Entries([], alias, order) == map[alias := order]
  {
  }

  // --------------------------------------------------------- reading it back

  lemma KeptSnoc(front: seq<string>, line: string)
    ensures Kept(front + [line]) == Kept(front) + (if Parse(line).Some? then [] else [line])
    ensures Listed(front + [line]) == match Parse(line)
      case Some(e) => Listed(front)[e.alias := e.order]
      case None => Listed(front)
  {
    hide Parse;
    assert (front + [line])[..|front|] == front;
  }

  lemma Associate(a: seq<string>, b: seq<string>, c: seq<string>)
    ensures (a + b) + c == a + (b + c)
  {
  }

  lemma AssociateMaps(a: map<string, nat>, b: map<string, nat>, k: string, v: nat)
    ensures (a + b)[k := v] == a + b[k := v]
  {
  }

  lemma {:induction false} KeptConcat(a: seq<string>, b: seq<string>)
    ensures Kept(a + b) == Kept(a) + Kept(b) && Listed(a + b) == Listed(a) + Listed(b)
  {
    if b == [] {
      assert a + b == a;
    } else {
      hide Parse, Kept, Listed;
      var n := |b| - 1;
      KeptConcat(a, b[..n]);
      assert a + b == (a + b[..n]) + [b[n]] && b == b[..n] + [b[n]];
      KeptSnoc(a + b[..n], b[n]);
      KeptSnoc(b[..n], b[n]);
      Associate(Kept(a), Kept(b[..n]), if Parse(b[n]).Some? then [] else [b[n]]);
      if Parse(b[n]).Some? {
        AssociateMaps(Listed(a), Listed(b[..n]), Parse(b[n]).value.alias, Parse(b[n]).value.order);
      }
    }
  }

  lemma {:induction false} KeptPlain(lines: seq<string>)
    requires forall line :: line in lines ==> Parse(line).None?
    ensures Kept(lines) == lines && Listed(lines) == map[]
  {
    hide Parse;
    if lines != [] {
      KeptPlain(lines[..|lines| - 1]);
      assert lines[|lines| - 1] in lines;
    }
  }

  lemma {:induction false} KeptNotEntries(lines: seq<string>)
    ensures forall line :: line in Kept(lines) ==> Parse(line).None?
  {
    hide Parse;
    if lines != [] {
      KeptNotEntries(lines[..|lines| - 1]);
    }
  }

  lemma {:induction false} RenderedRead(es: seq<Entry>)
    requires Ascending(es) && (forall e :: e in es ==> IsWord(e.alias))
    requires forall i, j :: 0 <= i < j < |es| ==> es[i].alias != es[j].alias
    ensures Kept(RenderAll(es)) == []
    ensures forall alias :: alias in Listed(RenderAll(es)) <==> exists e :: e in es && e.alias == alias
    ensures forall e :: e in es ==> e.alias in Listed(RenderAll(es)) && Listed(RenderAll(es))[e.alias] == e.order
  {
    if es != [] {
      var n := |es| - 1;
      RenderedRead(es[..n]);
      ParseRender(es[n]);
      hide Parse, Render;
      assert es == es[..n] + [es[n]];
      var lines := RenderAll(es);
      assert lines[..|lines| - 1] == RenderAll(es[..n]) && lines[|lines| - 1] == Render(es[n]);
    }
  }

  lemma {:induction false} ListedWords(lines: seq<string>)
    ensures forall alias :: alias in Listed(lines) ==> IsWord(alias)
  {
    hide Parse, IsWord;
    if lines != [] {
      ListedWords(lines[..|lines| - 1]);
    }
  }

  lemma ListingDistinct(es: seq<Entry>, m: map<string, nat>)
    requires Listing(es, m)
    ensures forall i, j :: 0 <= i < j < |es| ==> es[i].alias != es[j].alias
  {
    forall i, j | 0 <= i < j < |es| ensures es[i].alias != es[j].alias {
      LessTotal(es[i], es[j]);
      assert es[i] in es && es[j] in es;
    }
  }

  lemma {:induction false} WithoutHeaderIn(lines: seq<string>)
    ensures forall line :: line in WithoutHeader(lines) ==> line in lines
    ensures |WithoutHeader(lines)| <= |lines|
  {
    if lines == [] {
    } else if |lines| > 1 && lines[0] == HEADER_1 && lines[1] == HEADER_2 {
      WithoutHeaderIn(lines[2..]);
    } else {
      WithoutHeaderIn(lines[1..]);
    }
  }

  lemma {:induction false} TrimEndPrefix(lines: seq<string>)
    ensures TrimEnd(lines) <= lines
    ensures TrimEnd(lines) != [] ==> TrimEnd(lines)[|TrimEnd(lines)| - 1] != ""
  {
    if lines != [] && lines[|lines| - 1] == "" {
      TrimEndPrefix(lines[..|lines| - 1]);
    }
  }

  /** An include line ends in a digit. */
  lemma ParsedEnds(line: string)
    ensures Parse(line).Some? ==> line != "" && IsDigit(line[|line| - 1])
  {
    if Parse(line).Some? {
      var rest := line[|OPEN|..];
      var tail := rest[WordRun(rest)..];
      var digits := tail[|CLOSE|..];
      assert digits[|digits| - 1] == line[|line| - 1];
    }
  }

  lemma PlainHeader()
    ensures Parse(HEADER_1).None? && Parse(HEADER_2).None? && Parse("").None?
  {
    assert !IsDigit(HEADER_1[|HEADER_1| - 1]) && !IsDigit(HEADER_2[|HEADER_2| - 1]);
    ParsedEnds(HEADER_1);
    ParsedEnds(HEADER_2);
    ParsedEnds("");
  }

  lemma BodyPlain(lines: seq<string>)
    ensures forall line :: line in Body(lines) + GAP ==> Parse(line).None?
  {
    hide Parse, WithoutHeader, TrimEnd, Kept;
    KeptNotEntries(lines);
    WithoutHeaderIn(Kept(lines));
    TrimEndPrefix(WithoutHeader(Kept(lines)));
    PlainHeader();
    forall line | line in Body(lines) + GAP ensures Parse(line).None? {
      if line in Body(lines) && line != "" {
        assert line in TrimEnd(WithoutHeader(Kept(lines)));
      }
    }
  }

  /**
   Canonical: the rewritten text holds, read back, exactly the entries there were
   and the new one, none lost, in their sorted order and with nothing between them;
   what is above the list is the body and the header.
   */
  lemma RewrittenRead(lines: seq<string>, alias: string, order: nat)
    requires IsWord(alias)
    ensures Listed(Rewritten(lines, alias, order)) == Entries(lines, alias, order)
    ensures Kept(Rewritten(lines, alias, order)) == Body(lines) + GAP
    ensures exists es :: Listing(es, Entries(lines, alias, order)) && Rewritten(lines, alias, order) == Body(lines) + GAP + RenderAll(es)
  {
    hide Parse, Kept, Listed, Body, RenderAll, Sorted, IsWord;
    var m := Entries(lines, alias, order);
    var es := Sorted(m);
    BodyPlain(lines);
    KeptPlain(Body(lines) + GAP);
    ListedWords(lines);
    ListingDistinct(es, m);
    RenderedRead(es);
    KeptConcat(Body(lines) + GAP, RenderAll(es));
    assert Listed(RenderAll(es)) == m by {
      forall alias ensures alias in Listed(RenderAll(es)) <==> alias in m
        ensures alias in m ==> Listed(RenderAll(es))[alias] == m[alias]
      {
        if alias in m {
          assert Entry(alias, m[alias]) in es;
        }
      }
    }
    assert map[] + m == m;
  }

  // ----------------------------------------------------------------- main results

  ghost predicate HasHeader(lines: seq<string>) {
    exists i, j :: 0 <= i < j < |lines| && j == i + 1 && lines[i] == HEADER_1 && lines[j] == HEADER_2
  }

  lemma {:induction false} NoHeaderKept(lines: seq<string>)
    ensures WithoutHeader(lines) == lines <==> !HasHeader(lines)
    ensures HasHeader(lines) ==> |WithoutHeader(lines)| < |lines|
  {
    WithoutHeaderIn(lines);
    if lines == [] {
    } else if |lines| > 1 && lines[0] == HEADER_1 && lines[1] == HEADER_2 {
      WithoutHeaderIn(lines[2..]);
    } else {
      NoHeaderKept(lines[1..]);
      if HasHeader(lines) {
        var i, j :| 0 <= i < j < |lines| && j == i + 1 && lines[i] == HEADER_1 && lines[j] == HEADER_2;
        assert i > 0 && lines[1..][i - 1] == HEADER_1 && lines[1..][j - 1] == HEADER_2;
      }
      if HasHeader(lines[1..]) {
        var i, j :| 0 <= i < j < |lines[1..]| && j == i + 1 && lines[1..][i] == HEADER_1 && lines[1..][j] == HEADER_2;
        assert lines[i + 1] == HEADER_1 && lines[j + 1] == HEADER_2;
      }
    }
  }

  /** A blank line keeps header removal on either side apart. */
  lemma {:induction false} HeaderSplit(a: seq<string>, b: seq<string>)
    ensures WithoutHeader(a + [""] + b) == WithoutHeader(a) + [""] + WithoutHeader(b)
  {
    var s := a + [""] + b;
    if a == [] {
      assert s == [""] + b && s[1..] == b;
    } else if |a| > 1 && a[0] == HEADER_1 && a[1] == HEADER_2 {
      HeaderSplit(a[2..], b);
      assert s[2..] == a[2..] + [""] + b;
    } else {
      HeaderSplit(a[1..], b);
      assert s[1..] == a[1..] + [""] + b;
      assert |a| == 1 ==> s[1] == "";
    }
  }

  lemma HeaderOfGap(body: seq<string>)
    ensures WithoutHeader(body + GAP) == WithoutHeader(body) + ["", ""]
  {
    var header := [HEADER_1, HEADER_2];
    assert GAP == [""] + ([""] + header);
    assert body + GAP == body + [""] + ([""] + header);
    HeaderSplit(body, [""] + header);
    assert [""] + header == [] + [""] + header;
    HeaderSplit([], header);
    assert header[2..] == [];
  }

  lemma TrimBlank(lines: seq<string>)
    ensures TrimEnd(lines + ["", ""]) == TrimEnd(lines)
  {
    assert (lines + ["", ""])[..|lines| + 1] == lines + [""];
    assert (lines + [""])[..|lines|] == lines;
  }

  lemma TrimTwice(lines: seq<string>)
    ensures TrimEnd(TrimEnd(lines)) == TrimEnd(lines)
  {
    TrimEndPrefix(lines);
  }

  /** The body of a rewritten text. */
  lemma BodyAgain(lines: seq<string>, alias: string, order: nat)
    requires IsWord(alias)
    ensures var again := TrimEnd(WithoutHeader(Body(lines)));
      Body(Rewritten(lines, alias, order)) == if again == [] then [""] else again
  {
    hide Parse, Kept, Listed, Rewritten, Entries, WithoutHeader, TrimEnd;
    RewrittenRead(lines, alias, order);
    HeaderOfGap(Body(lines));
    TrimBlank(WithoutHeader(Body(lines)));
  }

  lemma {:induction false} TrimHasHeader(lines: seq<string>)
    requires HasHeader(lines)
    ensures HasHeader(TrimEnd(lines))
  {
    if lines != [] && lines[|lines| - 1] == "" {
      var i, j :| 0 <= i < j < |lines| && j == i + 1 && lines[i] == HEADER_1 && lines[j] == HEADER_2;
      assert |HEADER_2| > 0;
      var front := lines[..|lines| - 1];
      assert front[i] == HEADER_1 && front[j] == HEADER_2;
      TrimHasHeader(front);
    }
  }

  lemma HeaderBeforeTrim(lines: seq<string>)
    requires HasHeader(TrimEnd(lines))
    ensures HasHeader(lines)
  {
    TrimEndPrefix(lines);
    var t := TrimEnd(lines);
    var i, j :| 0 <= i < j < |t| && j == i + 1 && t[i] == HEADER_1 && t[j] == HEADER_2;
    assert lines[i] == HEADER_1 && lines[j] == HEADER_2;
  }

  lemma EntriesAgain(lines: seq<string>, alias: string, order: nat, other: nat)
    requires IsWord(alias)
    ensures Entries(Rewritten(lines, alias, order), alias, other) == Entries(lines, alias, order)
  {
    hide Parse, Kept, Listed, Rewritten;
    RewrittenRead(lines, alias, order);
  }

  lemma BodyStable(lines: seq<string>)
    ensures var again := TrimEnd(WithoutHeader(Body(lines)));
      (if again == [] then [""] else again) == Body(lines) <==> !HasHeader(WithoutHeader(Kept(lines)))
  {
    hide Parse, Kept;
    var w := WithoutHeader(Kept(lines));
    var t := TrimEnd(w);
    TrimEndPrefix(w);
    if t == [] {
      assert WithoutHeader([""]) == [""] && TrimEnd([""]) == [] by { assert [""][..0] == [] && [""][1..] == []; }
      if HasHeader(w) {
        TrimHasHeader(w);
      }
    } else {
      NoHeaderKept(t);
      if HasHeader(w) {
        TrimHasHeader(w);
        TrimEndPrefix(WithoutHeader(t));
        assert |TrimEnd(WithoutHeader(t))| < |t|;
        assert |t| > 1;
      } else {
        if HasHeader(t) {
          HeaderBeforeTrim(w);
        }
        TrimTwice(w);
      }
    }
  }

  /**
   Adding an alias that is already there changes nothing, whatever the order given,
   if and only if no header is left above the list once the headers were removed.
   */
  lemma AddingAgain(lines: seq<string>, alias: string, order: nat, other: nat)
    requires IsWord(alias)
    ensures Rewritten(Rewritten(lines, alias, order), alias, other) == Rewritten(lines, alias, order)
            <==> !HasHeader(WithoutHeader(Kept(lines)))
  {
    hide Parse, Kept, Listed, Body, WithoutHeader, TrimEnd, Entries, HasHeader, RenderAll;
    var text := Rewritten(lines, alias, order);
    BodyAgain(lines, alias, order);
    BodyStable(lines);
    EntriesAgain(lines, alias, order, other);
    var tail := GAP + RenderAll(Sorted(Entries(lines, alias, order)));
    assert text == Body(lines) + tail;
    assert Rewritten(text, alias, other) == Body(text) + tail;
    if Body(text) + tail == Body(lines) + tail {
      assert |Body(text)| == |Body(lines)|;
      assert Body(text) == (Body(text) + tail)[..|Body(text)|];
      assert Body(lines) == (Body(lines) + tail)[..|Body(lines)|];
    }
  }

  /** Two header starts before two header ends: removing the inner pair brings an outer one together. */
  lemma HeaderComesTogether(order: nat, other: nat)
    ensures var lines := [HEADER_1, HEADER_1, HEADER_2, HEADER_2];
      Rewritten(Rewritten(lines, "a", order), "a", other) != Rewritten(lines, "a", order)
  {
    var lines := [HEADER_1, HEADER_1, HEADER_2, HEADER_2];
    HeadersDiffer();
    PlainHeader();
    KeptPlain(lines);
    hide Parse, HEADER_1, HEADER_2;
    OuterHeader(lines);
    assert IsWord("a");
    var left := WithoutHeader(lines);
    assert left[0] == HEADER_1 && left[1] == HEADER_2;
    assert HasHeader(left);
    hide *;
    AddingAgain(lines, "a", order, other);
  }

  lemma HeadersDiffer()
    ensures HEADER_1 != HEADER_2
  {
  }

  lemma OuterHeader(lines: seq<string>)
    requires lines == [HEADER_1, HEADER_1, HEADER_2, HEADER_2] && HEADER_1 != HEADER_2
    ensures WithoutHeader(lines) == [HEADER_1, HEADER_2]
  {
    assert lines[1..] == [HEADER_1, HEADER_2, HEADER_2];
    assert lines[1..][2..] == [HEADER_2] && [HEADER_2][1..] == [];
    assert WithoutHeader([HEADER_2]) == [HEADER_2];
  }

  /** Two domains added in either order give the same text. */
  lemma AddingCommutes(lines: seq<string>, a: string, m: nat, b: string, n: nat)
    requires IsWord(a) && IsWord(b) && a != b
    ensures Rewritten(Rewritten(lines, a, m), b, n) == Rewritten(Rewritten(lines, b, n), a, m)
  {
    hide Parse, Kept, Listed, Body, WithoutHeader, TrimEnd, RenderAll;
    RewrittenRead(lines, a, m);
    RewrittenRead(lines, b, n);
    BodyAgain(lines, a, m);
    BodyAgain(lines, b, n);
    assert Entries(Rewritten(lines, a, m), b, n) == Entries(Rewritten(lines, b, n), a, m);
  }
}
