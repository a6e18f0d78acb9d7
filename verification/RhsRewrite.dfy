/** Rewriting a `down_revision` right-hand side and reading it back. */
module RhsRewrite {
  import opened Options
  import opened RhsTokens

  /** The scan arrives at offset `k` between two steps when it starts at `i`. */
  ghost predicate Boundary(s: string, i: nat, k: nat)
    requires k <= |s|
    decreases |s| - i
  {
    i == k || (i < k && Boundary(s, Next(s, i), k))
  }

  /** The literals the scan passes on its way from `i` to `k`. */
  ghost function RefsBetween(s: string, i: nat, k: nat): seq<string>
    requires k <= |s| && Boundary(s, i, k)
    decreases |s| - i
  {
    if i == k then [] else LiteralAt(s, i) + RefsBetween(s, Next(s, i), k)
  }

  lemma {:induction false} RefsSplit(s: string, i: nat, k: nat)
    requires k <= |s| && Boundary(s, i, k)
    ensures RefsFrom(s, i) == RefsBetween(s, i, k) + RefsFrom(s, k)
    decreases |s| - i
  {
    if i < k {
      hide MatchAt, LiteralAt, Next;
      var n := Next(s, i);
      RefsSplit(s, n, k);
      assert RefsFrom(s, i) == LiteralAt(s, i) + RefsFrom(s, n);
      assert RefsBetween(s, i, k) == LiteralAt(s, i) + RefsBetween(s, n, k);
    }
  }

  /** What a comment is: from a hash to the end of the line. */
  lemma CommentExactly(s: string, i: nat, end: nat)
    requires i < |s|
    ensures MatchAt(s, i) == Comment(end)
            <==> s[i] == '#' && i < end <= |s| && (end < |s| ==> s[end] == '\n') && forall x :: i < x < end ==> s[x] != '\n'
  {
    if s[i] == '#' {
      var e := LineEnd(s, i + 1);
      if i < end < e {
        assert s[end] != '\n';
      }
    }
  }

  /** What a literal is: at least one character between two quotes, none of them a quote or a newline. */
  lemma LiteralExactly(s: string, i: nat, end: nat)
    requires i < |s|
    ensures MatchAt(s, i) == Literal(end)
            <==> IsQuote(s[i]) && i + 2 < end <= |s| && IsQuote(s[end - 1]) && forall x :: i < x < end - 1 ==> InLiteral(s[x])
  {
    if IsQuote(s[i]) {
      var e := RunEnd(s, i + 1);
      if i + 2 < end <= e {
        assert InLiteral(s[end - 1]);
      }
    }
  }

  /** No comment starts on the way from `i` to `k`. */
  ghost predicate NoComment(s: string, i: nat, k: nat)
    requires k <= |s| && Boundary(s, i, k)
    decreases |s| - i
  {
    i == k || (!MatchAt(s, i).Comment? && NoComment(s, Next(s, i), k))
  }

  /** The comment found is the first one, and without one there is none up to the end. */
  lemma {:induction false} FindCommentSpec(s: string, i: nat)
    requires i <= |s|
    ensures var k := match FindComment(s, i) case Some(k) => k case None => |s|;
      Boundary(s, i, k) && NoComment(s, i, k) && (k < |s| ==> MatchAt(s, k).Comment?)
    decreases |s| - i
  {
    if i < |s| && !MatchAt(s, i).Comment? {
      FindCommentSpec(s, Next(s, i));
    }
  }

  // ------------------------------------------- scanning depends on the rest

  /** `s` from `i` on is the same text as `t` from `j` on. */
  ghost predicate SameText(s: string, i: nat, t: string, j: nat) {
    i <= |s| && j <= |t| && |s| - i == |t| - j
    && forall x :: i <= x < |s| ==> s[x] == t[x - i + j]
  }

  lemma LineEndIs(s: string, i: nat, e: nat)
    requires i <= e <= |s| && (forall x :: i <= x < e ==> s[x] != '\n') && (e < |s| ==> s[e] == '\n')
    ensures LineEnd(s, i) == e
  {
  }

  lemma RunEndIs(s: string, i: nat, e: nat)
    requires i <= e <= |s| && (forall x :: i <= x < e ==> InLiteral(s[x])) && (e < |s| ==> !InLiteral(s[e]))
    ensures RunEnd(s, i) == e
  {
  }

  /** A token only looks at its own characters and the rest of the text. */
  lemma MatchShift(s: string, i: nat, t: string, j: nat)
    requires SameText(s, i, t, j) && i < |s|
    ensures Next(t, j) - j == Next(s, i) - i && LiteralAt(t, j) == LiteralAt(s, i)
  {
    assert s[i] == t[j];
    if s[i] == '#' {
      var e := LineEnd(s, i + 1);
      forall x | j + 1 <= x < e - i + j ensures t[x] != '\n' {
        assert s[x - j + i] == t[x];
      }
      LineEndIs(t, j + 1, e - i + j);
    } else if IsQuote(s[i]) {
      var e := RunEnd(s, i + 1);
      forall x | j + 1 <= x < e - i + j ensures InLiteral(t[x]) {
        assert s[x - j + i] == t[x];
      }
      RunEndIs(t, j + 1, e - i + j);
      assert s[i + 1..e] == t[j + 1..e - i + j];
    }
  }

  lemma {:induction false} RefsShift(s: string, i: nat, t: string, j: nat)
    requires SameText(s, i, t, j)
    ensures RefsFrom(s, i) == RefsFrom(t, j)
    decreases |s| - i
  {
    if i < |s| {
      MatchShift(s, i, t, j);
      RefsShift(s, Next(s, i), t, Next(t, j));
    }
  }

  // ------------------------------------------------- changing the text after

  /** The scan from `i` to `k` passes no quote outside a token. */
  ghost predicate NoStrayQuote(s: string, i: nat, k: nat)
    requires k <= |s| && Boundary(s, i, k)
    decreases |s| - i
  {
    i == k || ((MatchAt(s, i) == NoMatch ==> !IsQuote(s[i])) && NoStrayQuote(s, Next(s, i), k))
  }

  /** Nothing left of `k` can reach over it, in `s` as well as in `t`. */
  ghost predicate Severed(s: string, t: string, i: nat, k: nat)
    requires k < |s| && k < |t| && Boundary(s, i, k)
  {
    s[k] != '\n' && t[k] != '\n'
    && (forall x :: 0 <= x < k ==> s[x] == t[x])
    && ((IsQuote(s[k]) && IsQuote(t[k])) || NoStrayQuote(s, i, k))
  }

  lemma SameMatch(s: string, t: string, i: nat, k: nat)
    requires i < k < |s| && k < |t| && Boundary(s, i, k) && Severed(s, t, i, k)
    ensures MatchAt(t, i) == MatchAt(s, i) && LiteralAt(t, i) == LiteralAt(s, i)
  {
    if s[i] == '#' {
      var e := LineEnd(s, i + 1);
      BoundaryOrder(s, Next(s, i), k);
      assert e < k;
      LineEndIs(t, i + 1, e);
    } else if IsQuote(s[i]) {
      BoundaryOrder(s, Next(s, i), k);
      var e := RunEnd(s, i + 1);
      if e < k {
        RunEndIs(t, i + 1, e);
        assert s[i + 1..e] == t[i + 1..e];
      } else {
        assert e == k == i + 1;
        RunEndIs(t, i + 1, e);
      }
    }
  }

  lemma BoundaryOrder(s: string, i: nat, k: nat)
    requires k <= |s| && Boundary(s, i, k)
    ensures i <= k
  {
  }

  /** What the scan reads before `k` does not depend on the text from `k` on. */
  lemma {:induction false} Splice(s: string, t: string, i: nat, k: nat)
    requires k < |s| && k < |t| && Boundary(s, i, k) && Severed(s, t, i, k)
    ensures Boundary(t, i, k) && RefsBetween(t, i, k) == RefsBetween(s, i, k)
    decreases |s| - i
  {
    if i < k {
      SameMatch(s, t, i, k);
      Splice(s, t, Next(s, i), k);
    }
  }

  /** A replacement leaves alone what the scan read before it. */
  lemma ReplaceHead(s: string, k: nat, end: nat, put: string)
    requires k < end <= |s| && Boundary(s, 0, k) && s[k] != '\n'
    requires put != "" && IsQuote(put[0]) && (IsQuote(s[k]) || NoStrayQuote(s, 0, k))
    ensures var t := Replace(s, k, end, put);
      Boundary(t, 0, k) && RefsBetween(t, 0, k) == RefsBetween(s, 0, k)
      && ParentRefs(t) == RefsBetween(s, 0, k) + RefsFrom(t, k)
  {
    var t := Replace(s, k, end, put);
    assert t[k] == put[0];
    Splice(s, t, 0, k);
    RefsSplit(t, 0, k);
  }

  /** A replacement leaves alone what the scan reads after it. */
  lemma ReplaceTail(s: string, k: nat, end: nat, put: string)
    requires k <= end <= |s|
    ensures RefsFrom(Replace(s, k, end, put), k + |put|) == RefsFrom(s, end)
  {
    RefsShift(s, end, Replace(s, k, end, put), k + |put|);
  }

  /** A quoted id put into a text is one literal there. */
  lemma ReplaceLiteral(s: string, k: nat, end: nat, q: char, id: string)
    requires k <= end <= |s| && IsQuote(q) && IsId(id)
    ensures var t := Replace(s, k, end, Quoted(q, id));
      MatchAt(t, k) == Literal(k + |id| + 2) && LiteralAt(t, k) == [id]
  {
    var t := Replace(s, k, end, Quoted(q, id));
    assert t[k + 1..k + 1 + |id|] == id;
    forall x | k + 1 <= x < k + 1 + |id| ensures InLiteral(t[x]) {
      assert t[x] == id[x - k - 1];
    }
    RunEndIs(t, k + 1, k + 1 + |id|);
  }

  /**
   A quoted id put in place of the characters from `k` to `end` is read as one
   literal between those before and those after.
   */
  lemma QuotedInPlace(s: string, k: nat, end: nat, q: char, id: string)
    requires k < end <= |s| && Boundary(s, 0, k) && s[k] != '\n' && IsQuote(q) && IsId(id)
    requires IsQuote(s[k]) || NoStrayQuote(s, 0, k)
    ensures var t := Replace(s, k, end, Quoted(q, id));
      ParentRefs(t) == RefsBetween(s, 0, k) + [id] + RefsFrom(s, end)
      && Boundary(t, 0, k) && RefsBetween(t, 0, k) == RefsBetween(s, 0, k)
  {
    hide *;
    QuotedSize(q, id);
    ReplaceHead(s, k, end, Quoted(q, id));
    ReplaceLiteral(s, k, end, q, id);
    ReplaceTail(s, k, end, Quoted(q, id));
    ReplacedSize(s, k, end, Quoted(q, id));
    LiteralFirst(Replace(s, k, end, Quoted(q, id)), k, id);
    Between(RefsBetween(s, 0, k), id, RefsFrom(s, end));
  }

  lemma LiteralFirst(t: string, k: nat, id: string)
    requires k < |t| && MatchAt(t, k) == Literal(k + |id| + 2) && LiteralAt(t, k) == [id]
    ensures RefsFrom(t, k) == [id] + RefsFrom(t, k + |id| + 2)
  {
    hide MatchAt, LiteralAt;
  }

  lemma ReplacedSize(s: string, k: nat, end: nat, put: string)
    requires k <= end <= |s|
    ensures |Replace(s, k, end, put)| == |s| - (end - k) + |put|
  {
  }

  lemma QuotedSize(q: char, id: string)
    ensures |Quoted(q, id)| == |id| + 2 && Quoted(q, id)[0] == q && (IsQuote(q) ==> q != '\n')
  {
  }

  lemma Between(a: seq<string>, id: string, b: seq<string>)
    ensures a + ([id] + b) == a + [id] + b
  {
  }

  // ------------------------------------------------------- the three branches

  lemma {:induction false} FindLiteralSpec(s: string, id: string, i: nat)
    requires i <= |s|
    ensures FindLiteral(s, id, i).Some? <==> id in RefsFrom(s, i)
    ensures FindLiteral(s, id, i).Some? ==>
      var k := FindLiteral(s, id, i).value;
      Boundary(s, i, k) && id !in RefsBetween(s, i, k) && LiteralAt(s, k) == [id]
    decreases |s| - i
  {
    if i < |s| && LiteralAt(s, i) != [id] {
      FindLiteralSpec(s, id, Next(s, i));
    }
  }

  /** Where the only literal of a text stands. */
  lemma OnlyLiteral(s: string)
    requires |ParentRefs(s)| == 1
    ensures var was := ParentRefs(s)[0];
      var r := FindLiteral(s, was, 0);
      r.Some? && Boundary(s, 0, r.value) && RefsBetween(s, 0, r.value) == []
      && RefsFrom(s, r.value + |was| + 2) == []
      && s[r.value + 1..r.value + 1 + |was|] == was && IsQuote(s[r.value]) && IsQuote(s[r.value + |was| + 1])
  {
    hide FindLiteral, MatchAt, LiteralAt, RefsFrom, RefsBetween, Boundary, IsQuote;
    var was := ParentRefs(s)[0];
    FindLiteralSpec(s, was, 0);
    var k := FindLiteral(s, was, 0).value;
    RefsSplit(s, 0, k);
    LiteralFirst(s, k, was);
    LiteralSpells(s, k, was);
    OneOnly(RefsBetween(s, 0, k), was, RefsFrom(s, k + |was| + 2));
  }

  lemma OneOnly(a: seq<string>, x: string, b: seq<string>)
    requires |a + ([x] + b)| == 1
    ensures a == [] && b == []
  {
  }

  lemma LiteralSpells(s: string, k: nat, id: string)
    requires k < |s| && MatchAt(s, k) == Literal(k + |id| + 2) && LiteralAt(s, k) == [id]
    ensures s[k + 1..k + 1 + |id|] == id && IsQuote(s[k]) && IsQuote(s[k + |id| + 1])
  {
    LiteralExactly(s, k, k + |id| + 2);
    hide MatchAt;
  }

  lemma LiteralRewrite(s: string, was: string, id: string)
    requires FindLiteral(s, was, 0).Some?
    ensures var k := FindLiteral(s, was, 0).value;
      Rewrite(s, Some(was), id) == Replace(s, k, k + |was| + 2, Quoted(s[k], id))
  {
    hide MatchAt, FindLiteral, Replace, Quoted;
  }

  lemma OldLiteral(s: string)
    requires |ParentRefs(s)| == 1
    ensures OldParent(s) == Some(ParentRefs(s)[0])
  {
    hide ParentRefs;
  }

  /** Replacing the only literal. */
  lemma LiteralBranch(s: string, id: string)
    requires |ParentRefs(s)| == 1 && IsId(id)
    ensures ParentRefs(Rewrite(s, OldParent(s), id)) == [id]
  {
    hide *;
    OnlyLiteral(s);
    var was := ParentRefs(s)[0];
    var k := FindLiteral(s, was, 0).value;
    OldLiteral(s);
    LiteralRewrite(s, was, id);
    QuotedSize(s[k], id);
    QuotedInPlace(s, k, k + |was| + 2, s[k], id);
  }

  /** A character the blanking leaves alone stands between tokens. */
  lemma {:induction false} BlankedBoundary(s: string, i: nat, k: nat)
    requires i <= k < |s| && Blanked(s, i)[k - i] != ' '
    ensures Boundary(s, i, k) && s[k] == Blanked(s, i)[k - i] && MatchAt(s, k) == NoMatch
    decreases |s| - i
  {
    if i < k || MatchAt(s, i) != NoMatch {
      var n := Next(s, i);
      assert n <= k;
      assert Blanked(s, i)[k - i] == Blanked(s, n)[k - n];
      BlankedBoundary(s, n, k);
    }
  }

  lemma {:induction false} BlankedStrayQuote(s: string, i: nat, k: nat)
    requires k <= |s| && Boundary(s, i, k)
    requires forall x :: 0 <= x < k - i ==> !IsQuote(Blanked(s, i)[x])
    ensures NoStrayQuote(s, i, k)
    decreases |s| - i
  {
    if i < k {
      var n := Next(s, i);
      BoundaryOrder(s, n, k);
      assert MatchAt(s, i) == NoMatch ==> Blanked(s, i)[0] == s[i];
      forall x | 0 <= x < k - n ensures !IsQuote(Blanked(s, n)[x]) {
        assert Blanked(s, i)[x + n - i] == Blanked(s, n)[x];
      }
      BlankedStrayQuote(s, n, k);
    }
  }

  /** In a text stripped down to None, the search finds that None. */
  lemma StrippedNone(b: string)
    requires StripsToNone(b)
    ensures SearchNone(b, 0) == Some(StripStart(b, 0)) && SpellsNone(b, StripStart(b, 0))
  {
    assert WordNoneAt(b, StripStart(b, 0));
  }

  lemma PlainStep(s: string, i: nat)
    requires i < |s| && MatchAt(s, i) == NoMatch
    ensures RefsFrom(s, i) == RefsFrom(s, i + 1)
  {
  }

  /** The None token of a chain root stands between tokens. */
  lemma NoneToken(s: string)
    requires RootNone(s).Some?
    ensures var k := RootNone(s).value;
      SpellsNone(s, k) && Boundary(s, 0, k) && NoStrayQuote(s, 0, k) && RefsFrom(s, k) == RefsFrom(s, k + 4)
  {
    hide MatchAt, Blanked, RefsFrom, Boundary, NoStrayQuote;
    var b := Blanked(s, 0);
    StrippedNone(b);
    var k := StripStart(b, 0);
    BlankedBoundary(s, 0, k);
    BlankedBoundary(s, 0, k + 1);
    BlankedBoundary(s, 0, k + 2);
    BlankedBoundary(s, 0, k + 3);
    PlainStep(s, k);
    PlainStep(s, k + 1);
    PlainStep(s, k + 2);
    PlainStep(s, k + 3);
    BlankedStrayQuote(s, 0, k);
  }

  /** Replacing the None token puts one parent between those already there. */
  lemma NoneBranch(s: string, id: string)
    requires RootNone(s).Some? && IsId(id)
    ensures var k := RootNone(s).value;
      SpellsNone(s, k) && Boundary(s, 0, k)
      && ParentRefs(s) == RefsBetween(s, 0, k) + RefsFrom(s, k + 4)
      && ParentRefs(Replace(s, k, k + 4, Quoted('"', id))) == RefsBetween(s, 0, k) + [id] + RefsFrom(s, k + 4)
  {
    hide MatchAt, RootNone;
    NoneToken(s);
    var k := RootNone(s).value;
    RefsSplit(s, 0, k);
    QuotedInPlace(s, k, k + 4, '"', id);
  }

  lemma {:induction false} FindCommentBoundary(s: string, i: nat)
    requires i <= |s|
    ensures FindComment(s, i).Some? ==> Boundary(s, i, FindComment(s, i).value)
    decreases |s| - i
  {
    if i < |s| && !MatchAt(s, i).Comment? {
      FindCommentBoundary(s, Next(s, i));
    }
  }

  lemma {:induction false} SkipSpace(s: string, i: nat, k: nat)
    requires i <= k <= |s| && forall x :: i <= x < k ==> IsSpace(s[x])
    ensures RefsFrom(s, i) == RefsFrom(s, k)
    decreases k - i
  {
    if i < k {
      PlainStep(s, i);
      SkipSpace(s, i + 1, k);
    }
  }

  /** The parents still declared when everything before the first comment is dropped. */
  function RefsBehindComment(s: string): seq<string> {
    match FindComment(s, 0)
    case Some(k) => RefsFrom(s, k)
    case None => []
  }

  /** Writing the target over a value that holds neither a parent to keep nor None. */
  lemma FallbackBranch(s: string, id: string)
    requires RootNone(s).None? && IsId(id)
    ensures ParentRefs(Rewrite(s, None, id)) == [id] + RefsBehindComment(s)
    ensures |RefsBehindComment(s)| <= |ParentRefs(s)|
  {
    hide MatchAt, FindComment, RootNone, RefsBetween, Boundary, IsSpace;
    var k := match FindComment(s, 0) case Some(k) => k case None => |s|;
    FindCommentBoundary(s, 0);
    if FindComment(s, 0).Some? {
      RefsSplit(s, 0, k);
    }
    var space := SpaceStart(s, k);
    SkipSpace(s, space, k);
    ReplaceLiteral(s, 0, space, '"', id);
    ReplaceTail(s, 0, space, Quoted('"', id));
  }

  // ------------------------------------------------------------- main results

  /**
   Reading back what the rewriting wrote. The new text declares exactly the new
   parent if and only if the old text declared at most one parent, or it was a
   tuple without a None token whose first comment has no literal behind it.
   */
  lemma RewriteThenParse(rhs: string, id: string)
    requires IsId(id)
    ensures ParentRefs(Rewrite(rhs, OldParent(rhs), id)) == [id]
            <==> |ParentRefs(rhs)| <= 1 || (RootNone(rhs).None? && RefsBehindComment(rhs) == [])
  {
    if |ParentRefs(rhs)| == 1 {
      LiteralBranch(rhs, id);
    } else if RootNone(rhs).Some? {
      NoneBranch(rhs, id);
    } else {
      FallbackBranch(rhs, id);
    }
  }

  /** `after` is `before` with the text `was` at `k` replaced by `now`, all else kept. */
  ghost predicate ReplacedAt(before: string, after: string, k: nat, was: string, now: string) {
    k + |was| <= |before| && before[k..k + |was|] == was && after == Replace(before, k, k + |was|, now)
  }

  lemma LiteralText(s: string, k: nat, was: string)
    requires k + |was| + 2 <= |s| && s[k + 1..k + 1 + |was|] == was
    ensures s[k..k + |was| + 2] == [s[k]] + was + [s[k + |was| + 1]]
  {
  }

  /** The literal branch changes the text between the quotes and at most the closing quote. */
  lemma LiteralFrame(rhs: string, id: string)
    requires |ParentRefs(rhs)| == 1 && IsId(id)
    ensures exists k: nat, open, close | IsQuote(open) && IsQuote(close) ::
      ReplacedAt(rhs, Rewrite(rhs, OldParent(rhs), id), k, [open] + ParentRefs(rhs)[0] + [close], Quoted(open, id))
  {
    hide *;
    OnlyLiteral(rhs);
    var was := ParentRefs(rhs)[0];
    var k := FindLiteral(rhs, was, 0).value;
    LiteralRewrite(rhs, was, id);
    LiteralText(rhs, k, was);
    SingleParent(rhs);
    ReplacedAtIs(rhs, k, [rhs[k]] + was + [rhs[k + |was| + 1]], Quoted(rhs[k], id));
  }

  lemma SingleParent(rhs: string)
    requires |ParentRefs(rhs)| == 1
    ensures OldParent(rhs) == Some(ParentRefs(rhs)[0])
  {
  }

  lemma ReplacedAtIs(before: string, k: nat, was: string, now: string)
    requires k + |was| <= |before| && before[k..k + |was|] == was
    ensures ReplacedAt(before, Replace(before, k, k + |was|, now), k, was, now)
  {
  }

  lemma NoneText(s: string, k: nat)
    requires SpellsNone(s, k)
    ensures s[k..k + 4] == "None"
  {
  }

  /** The None branch changes the word None and nothing else. */
  lemma NoneFrame(rhs: string, id: string)
    requires ParentRefs(rhs) == [] && RootNone(rhs).Some? && IsId(id)
    ensures exists k: nat :: ReplacedAt(rhs, Rewrite(rhs, OldParent(rhs), id), k, "None", Quoted('"', id))
  {
    hide RootNone, ParentRefs;
    NoneToken(rhs);
    var k := RootNone(rhs).value;
    NoneText(rhs, k);
    assert ReplacedAt(rhs, Rewrite(rhs, OldParent(rhs), id), k, "None", Quoted('"', id));
  }

  /** The fallback keeps the first comment and all that follows it. */
  lemma FallbackFrame(rhs: string, id: string)
    requires ParentRefs(rhs) == [] && RootNone(rhs).None? && FindComment(rhs, 0).Some?
    ensures var after := Rewrite(rhs, OldParent(rhs), id);
      var comment := rhs[FindComment(rhs, 0).value..];
      |comment| <= |after| && after[|after| - |comment|..] == comment
  {
  }

  /**
   Rewriting to a new parent and back again restores the text if and only if the
   old literal closed with the kind of quote it opened with.
   */
  lemma RewriteBack(rhs: string, id: string)
    requires |ParentRefs(rhs)| == 1 && IsId(id)
    ensures var was := ParentRefs(rhs)[0];
      var there := Rewrite(rhs, Some(was), id);
      var r := FindLiteral(rhs, was, 0);
      r.Some? && r.value + |was| + 1 < |rhs|
      && (Rewrite(there, Some(id), was) == rhs <==> rhs[r.value] == rhs[r.value + |was| + 1])
  {
    hide *;
    OnlyLiteral(rhs);
    var was := ParentRefs(rhs)[0];
    var k := FindLiteral(rhs, was, 0).value;
    var end := k + |was| + 2;
    var there := Replace(rhs, k, end, Quoted(rhs[k], id));
    LiteralRewrite(rhs, was, id);
    QuotedSize(rhs[k], id);
    QuotedInPlace(rhs, k, end, rhs[k], id);
    ReplaceLiteral(rhs, k, end, rhs[k], id);
    FirstLiteral(there, id, 0, k);
    LiteralRewrite(there, id, was);
    ReplaceTwice(rhs, k, end, Quoted(rhs[k], id), Quoted(rhs[k], was));
    LiteralText(rhs, k, was);
    QuotedText(rhs[k], was);
    QuotedText(rhs[k], id);
  }

  /** A literal that opens with one kind of quote and closes with the other is not restored. */
  lemma MixedQuotesLost()
    ensures var rhs := ['"', 'a', '\''];
      ParentRefs(rhs) == ["a"] && Rewrite(Rewrite(rhs, Some("a"), "b"), Some("b"), "a") != rhs
  {
    var rhs := ['"', 'a', '\''];
    assert RunEnd(rhs, 1) == 2;
    assert MatchAt(rhs, 0) == Literal(3) && rhs[1..2] == "a";
    assert RefsFrom(rhs, 3) == [];
    assert FindLiteral(rhs, "a", 0) == Some(0);
    hide *;
    SomeId();
    RewriteBack(rhs, "b");
  }

  lemma SomeId()
    ensures IsId("b")
  {
  }

  lemma QuotedText(quote: char, id: string)
    ensures Quoted(quote, id) == [quote] + id + [quote] && Quoted(quote, id)[0] == quote
    ensures forall close :: [quote] + id + [close] == Quoted(quote, id) <==> close == quote
  {
    forall close ensures [quote] + id + [close] == Quoted(quote, id) <==> close == quote {
      assert ([quote] + id + [close])[|id| + 1] == close;
      assert Quoted(quote, id)[|id| + 1] == quote;
    }
  }

  /** Undoing a replacement. */
  lemma ReplaceTwice(s: string, k: nat, end: nat, put: string, was: string)
    requires k <= end <= |s|
    ensures Replace(Replace(s, k, end, put), k, k + |put|, was) == Replace(s, k, end, was)
    ensures Replace(s, k, end, was) == s <==> s[k..end] == was
    ensures put != "" ==> Replace(s, k, end, put)[k] == put[0]
  {
    if Replace(s, k, end, was) == s {
      assert s[k..k + |was|] == was;
    }
  }

  lemma {:induction false} FirstLiteral(s: string, id: string, i: nat, k: nat)
    requires k < |s| && Boundary(s, i, k) && RefsBetween(s, i, k) == [] && LiteralAt(s, k) == [id]
    ensures FindLiteral(s, id, i) == Some(k)
    decreases |s| - i
  {
    if i < k {
      FirstLiteral(s, id, Next(s, i), k);
    }
  }
}
