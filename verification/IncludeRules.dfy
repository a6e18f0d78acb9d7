/** What the rewriting of the include list reads, keeps, orders and cuts, line by line. */
module IncludeRules {
  import opened Options
  import opened Orders
  import opened Sublists
  import opened IncludeList

  // ---------------------------------------------------------------------- one line

  ghost predicate AllDigits(s: string) { s != "" && forall i :: 0 <= i < |s| ==> '0' <= s[i] <= '9' }

  /** `s` spells `n` in decimal digits, leading zeros allowed. */
  ghost predicate Spells(s: string, n: nat)
    decreases |s|
  {
    if s == "" then n == 0
    else
      var last := |s| - 1;
      '0' <= s[last] <= '9' && n % 10 == s[last] as int - '0' as int && Spells(s[..last], n / 10)
  }

  lemma {:induction false} ValueSpells(digits: string, n: nat)
    requires forall i :: 0 <= i < |digits| ==> IsDigit(digits[i])
    ensures Value(digits) == n <==> Spells(digits, n)
  {
    if digits != "" {
      assert IsDigit(digits[|digits| - 1]);
      ValueSpells(digits[..|digits| - 1], n / 10);
    }
  }

  /** The line holds this router and this order. */
  ghost predicate IncludeLine(line: string, e: Entry) {
    IsWord(e.alias)
    && exists digits :: AllDigits(digits) && Spells(digits, e.order) && line == OPEN + e.alias + CLOSE + digits
  }

  /** A line is read as an entry exactly when it spells it. */
  lemma ParseExactly(line: string, e: Entry)
    ensures Parse(line) == Some(e) <==> IncludeLine(line, e)
  {
    if IncludeLine(line, e) {
      var digits :| AllDigits(digits) && Spells(digits, e.order) && line == OPEN + e.alias + CLOSE + digits;
      ReadSpelt(line, e, digits);
    }
    if Parse(line) == Some(e) {
      SpeltRead(line, e);
    }
  }

  lemma SpeltRead(line: string, e: Entry)
    requires Parse(line) == Some(e)
    ensures IncludeLine(line, e)
  {
    hide OPEN, CLOSE, Value, Spells;
    var rest := After(line, OPEN).value;
    var n := WordRun(rest);
    var digits := After(rest[n..], CLOSE).value;
    ValueSpells(digits, e.order);
    assert AllDigits(digits);
    hide AllDigits, Parse, WordRun;
    AfterMeans(line, OPEN);
    AfterMeans(rest[n..], CLOSE);
    assert rest == e.alias + rest[n..];
    assert line == OPEN + e.alias + CLOSE + digits;
  }

  lemma AfterMeans(s: string, prefix: string)
    ensures After(s, prefix).Some? ==> s == prefix + After(s, prefix).value
  {
  }

  lemma ReadSpelt(line: string, e: Entry, digits: string)
    requires IsWord(e.alias) && AllDigits(digits) && Spells(digits, e.order) && line == OPEN + e.alias + CLOSE + digits
    ensures Parse(line) == Some(e)
  {
    var tail := CLOSE + digits;
    assert tail[0] == ')';
    ValueSpells(digits, e.order);
    hide Spells, Value;
    assert line == OPEN + (e.alias + tail);
    AfterConcat(OPEN, e.alias + tail);
    WordRunIs(e.alias + tail, |e.alias|);
    assert (e.alias + tail)[|e.alias|..] == tail && (e.alias + tail)[..|e.alias|] == e.alias;
    AfterConcat(CLOSE, digits);
  }

  /** The digits of `n` without leading zeros. */
  ghost predicate Canonical(digits: string, n: nat) {
    AllDigits(digits) && Spells(digits, n) && (if n > 0 then digits[0] != '0' else |digits| == 1)
  }

  lemma {:induction false} DecimalSpells(n: nat)
    ensures Canonical(Decimal(n), n)
  {
    if n >= 10 {
      DecimalSpells(n / 10);
      assert Decimal(n)[..|Decimal(n)| - 1] == Decimal(n / 10);
    } else {
      assert Decimal(n)[..0] == "";
    }
  }

  /** A line is written without leading zeros. */
  lemma RenderExactly(e: Entry)
    ensures exists digits :: Canonical(digits, e.order) && Render(e) == OPEN + e.alias + CLOSE + digits
  {
    hide OPEN, CLOSE, Canonical;
    DecimalSpells(e.order);
    assert Render(e) == OPEN + e.alias + CLOSE + Decimal(e.order);
  }

  /** The lines are written in the order of the entries. */
  lemma {:induction false} RenderAllAt(es: seq<Entry>, k: nat)
    requires k < |es|
    ensures |RenderAll(es)| == |es| && RenderAll(es)[k] == Render(es[k])
  {
    hide Render;
    if |es| > 1 {
      RenderAllAt(es[..|es| - 1], if k < |es| - 1 then k else 0);
    } else {
      assert RenderAll(es[..0]) == [];
    }
  }

  // ------------------------------------------------------------------- the entries

  /** The last include line for the alias says `n`. */
  ghost predicate LastSays(lines: seq<string>, alias: string, n: nat) {
    exists i :: 0 <= i < |lines| && Parse(lines[i]) == Some(Entry(alias, n))
      && forall j :: i < j < |lines| && Parse(lines[j]).Some? ==> Parse(lines[j]).value.alias != alias
  }

  lemma LastSaysStep(lines: seq<string>, alias: string, n: nat)
    requires lines != []
    ensures var front, last := lines[..|lines| - 1], lines[|lines| - 1];
      LastSays(lines, alias, n)
      <==> if Parse(last).Some? && Parse(last).value.alias == alias then Parse(last).value.order == n else LastSays(front, alias, n)
  {
    hide Parse;
    var front, k := lines[..|lines| - 1], |lines| - 1;
    if LastSays(lines, alias, n) {
      var i :| 0 <= i < |lines| && Parse(lines[i]) == Some(Entry(alias, n))
        && forall j :: i < j < |lines| && Parse(lines[j]).Some? ==> Parse(lines[j]).value.alias != alias;
      assert i < k ==> front[i] == lines[i];
    }
    if LastSays(front, alias, n) {
      var i :| 0 <= i < |front| && Parse(front[i]) == Some(Entry(alias, n))
        && forall j :: i < j < |front| && Parse(front[j]).Some? ==> Parse(front[j]).value.alias != alias;
      assert front[i] == lines[i];
      forall j | i < j < k && Parse(lines[j]).Some? ensures Parse(lines[j]).value.alias != alias {
        assert front[j] == lines[j];
      }
    }
    if Parse(lines[k]) == Some(Entry(alias, n)) {
      assert LastSays(lines, alias, n);
    }
  }

  /** The last include line for an alias gives its order. */
  lemma {:induction false} ListedExactly(lines: seq<string>, alias: string, n: nat)
    ensures alias in Listed(lines) && Listed(lines)[alias] == n <==> LastSays(lines, alias, n)
  {
    hide Parse;
    if lines != [] {
      var front, last := lines[..|lines| - 1], lines[|lines| - 1];
      ListedExactly(front, alias, n);
      LastSaysStep(lines, alias, n);
    }
  }

  /** Adding a router gives it the order asked for only if no line gives it one. */
  lemma EntriesExactly(lines: seq<string>, alias: string, order: nat, other: string, n: nat)
    ensures var m := Entries(lines, alias, order);
      other in m && m[other] == n
      <==> LastSays(lines, other, n) || (other == alias && n == order && forall k :: !LastSays(lines, alias, k))
  {
    hide Listed, LastSays;
    ListedExactly(lines, other, n);
    if alias in Listed(lines) {
      ListedExactly(lines, alias, Listed(lines)[alias]);
    } else {
      forall k ensures !LastSays(lines, alias, k) {
        ListedExactly(lines, alias, k);
      }
    }
  }

  /** Smaller orders come first, and among equal ones the alias that precedes. */
  lemma ListingOrdered(es: seq<Entry>, m: map<string, nat>)
    requires Listing(es, m)
    ensures forall i, j :: 0 <= i < j < |es| ==>
      es[i].order < es[j].order
      || (es[i].order == es[j].order && exists k :: Precedes(es[i].alias, es[j].alias, k))
  {
    hide Before, Precedes;
    forall i, j | 0 <= i < j < |es|
      ensures es[i].order < es[j].order || (es[i].order == es[j].order && exists k :: Precedes(es[i].alias, es[j].alias, k))
    {
      assert Less(es[i], es[j]);
      BeforeExactly(es[i].alias, es[j].alias);
    }
  }

  // ---------------------------------------------------------------------- the text above

  ghost function PlainAt(lines: seq<string>): set<nat> { set p: nat | p < |lines| && Parse(lines[p]).None? }

  /** The lines kept are those that spell no entry, in their order. */
  lemma {:induction false} KeptPicks(lines: seq<string>)
    ensures Picks(Kept(lines), lines, PlainAt(lines))
  {
    hide Parse, Picks;
    if lines == [] {
      PicksNone(lines);
      assert PlainAt(lines) == {};
    } else {
      var n := |lines| - 1;
      var front := lines[..n];
      KeptPicks(front);
      PicksSnoc(Kept(front), front, PlainAt(front), lines[n], Parse(lines[n]).None?);
      assert lines == front + [lines[n]];
      assert PlainAt(lines) == PlainAt(front) + (if Parse(lines[n]).None? then {n} else {});
    }
  }

  /** The two header lines stand at `p` and behind it. */
  ghost predicate HeaderAt(lines: seq<string>, p: int) {
    0 <= p < |lines| - 1 && lines[p] == HEADER_1 && lines[p + 1] == HEADER_2
  }

  ghost predicate InHeader(lines: seq<string>, p: nat) { HeaderAt(lines, p) || HeaderAt(lines, p - 1) }

  ghost function OutsideHeaders(lines: seq<string>): set<nat> {
    set p: nat | p < |lines| && !InHeader(lines, p)
  }

  lemma HeaderMoved(lines: seq<string>, n: nat, p: int)
    requires n <= |lines| && p >= 0
    ensures HeaderAt(lines[n..], p) <==> HeaderAt(lines, n + p)
  {
  }

  /** Every pair of header lines goes, and every other line stays. */
  lemma {:induction false} WithoutHeaderPicks(lines: seq<string>)
    ensures Picks(WithoutHeader(lines), lines, OutsideHeaders(lines))
  {
    hide Picks, HEADER_1, HEADER_2;
    if lines == [] {
      PicksNone(lines);
      assert OutsideHeaders(lines) == {};
    } else if HeaderAt(lines, 0) {
      HeadersApart();
      var rest := lines[2..];
      WithoutHeaderPicks(rest);
      var once := set p | p in OutsideHeaders(rest) :: p + 1;
      PicksCons(WithoutHeader(rest), rest, OutsideHeaders(rest), lines[1], false, once);
      assert [lines[1]] + rest == lines[1..];
      assert [] + WithoutHeader(rest) == WithoutHeader(rest);
      forall p: nat | p >= 1 ensures p in OutsideHeaders(lines) <==> p - 1 in once {
        BehindHeader(lines, p);
      }
      PicksCons(WithoutHeader(rest), lines[1..], once, lines[0], false, OutsideHeaders(lines));
      assert [lines[0]] + lines[1..] == lines;
    } else {
      var rest := lines[1..];
      WithoutHeaderPicks(rest);
      forall p: nat | p >= 1 ensures p in OutsideHeaders(lines) <==> p - 1 in OutsideHeaders(rest) {
        HeaderMoved(lines, 1, p - 1);
        if p >= 2 {
          HeaderMoved(lines, 1, p - 2);
        }
      }
      PicksCons(WithoutHeader(rest), rest, OutsideHeaders(rest), lines[0], true, OutsideHeaders(lines));
      assert [lines[0]] + rest == lines;
    }
  }

  lemma HeadersApart()
    ensures HEADER_1 != HEADER_2
  {
    HeadersDiffer();
  }

  lemma BehindHeader(lines: seq<string>, p: nat)
    requires HeaderAt(lines, 0) && p >= 1 && HEADER_1 != HEADER_2
    ensures var rest := lines[2..];
      p in OutsideHeaders(lines) <==> exists q :: q in OutsideHeaders(rest) && q + 1 == p - 1
  {
    hide HEADER_1, HEADER_2;
    var rest := lines[2..];
    if p >= 2 {
      HeaderMoved(lines, 2, p - 2);
      if p >= 3 {
        HeaderMoved(lines, 2, p - 3);
      }
      assert !HeaderAt(lines, 1);
      assert p in OutsideHeaders(lines) <==> p - 2 in OutsideHeaders(rest);
    }
  }

  /** What stands above the list is what is left of the lines, or one empty line. */
  lemma BodyExactly(lines: seq<string>, r: seq<string>)
    ensures var left := TrimEnd(WithoutHeader(Kept(lines)));
      r == Body(lines) <==> r != [] && (r == left || (left == [] && r == [""]))
  {
    hide TrimEnd, WithoutHeader, Kept;
  }

  /** Trimming cuts the empty lines at the end, all of them and nothing else. */
  lemma {:induction false} TrimExactly(lines: seq<string>, r: seq<string>)
    ensures r == TrimEnd(lines)
            <==> r <= lines && (r != [] ==> r[|r| - 1] != "") && forall i :: |r| <= i < |lines| ==> lines[i] == ""
  {
    if lines != [] && lines[|lines| - 1] == "" {
      var front := lines[..|lines| - 1];
      TrimExactly(front, r);
      if r <= lines && r != lines {
        assert r <= front;
      }
      if forall i :: |r| <= i < |front| ==> front[i] == "" {
        forall i | |r| <= i < |lines| ensures lines[i] == "" {
          assert i < |front| ==> front[i] == "";
        }
      }
    }
  }
}
