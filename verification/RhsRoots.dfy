/** Which right-hand sides spell the root of a chain, and what the rewriting leaves of them. */
module RhsRoots {
  import opened Options
  import opened RhsTokens
  import opened RhsRewrite

  /** Offset `k` lies in a comment or a literal that a scan from `i` passes. */
  ghost predicate InToken(s: string, i: nat, k: nat)
    requires k < |s|
  {
    exists t: nat :: t <= k && Boundary(s, i, t) && MatchAt(s, t) != NoMatch && k < Next(s, t)
  }

  /** None stands at `k` outside every token, with blanks, parentheses and tokens around it and nothing else. */
  ghost predicate NoneAlone(s: string, k: nat) {
    k + 4 <= |s| && s[k..k + 4] == "None"
    && forall x :: 0 <= x < |s| ==>
      if k <= x < k + 4 then !InToken(s, 0, x) else InToken(s, 0, x) || s[x] in " \t\r\n()"
  }

  /** Blanking overwrites what lies in a token with spaces, and nothing else. */
  lemma {:induction false} BlankedExactly(s: string, i: nat, k: nat)
    requires i <= k < |s|
    ensures Blanked(s, i)[k - i] == if InToken(s, i, k) then ' ' else s[k]
    decreases |s| - i
  {
    hide MatchAt, Next;
    var n := Next(s, i);
    assert Boundary(s, i, i);
    if k < n {
      forall t: nat | i < t <= k ensures !Boundary(s, i, t) {
        if Boundary(s, i, t) {
          BoundaryOrder(s, n, t);
        }
      }
      PlainNext(s, i);
    } else {
      BlankedExactly(s, n, k);
      forall t: nat | t <= k && k < Next(s, t) ensures Boundary(s, i, t) <==> Boundary(s, n, t) {
        if Boundary(s, n, t) {
          BoundaryOrder(s, n, t);
        }
      }
      PlainNext(s, i);
      assert Blanked(s, i)[k - i] == Blanked(s, n)[k - n];
    }
  }

  lemma PlainNext(s: string, i: nat)
    requires i < |s|
    ensures MatchAt(s, i) == NoMatch ==> Next(s, i) == i + 1
  {
  }

  lemma StrippedExactly(b: string, k: nat)
    ensures StripsToNone(b) && SearchNone(b, 0) == Some(k)
            <==> SpellsNone(b, k) && forall x :: 0 <= x < |b| && !(k <= x < k + 4) ==> IsStripped(b[x])
  {
    if StripsToNone(b) {
      StrippedNone(b);
    }
    if SpellsNone(b, k) && forall x :: 0 <= x < |b| && !(k <= x < k + 4) ==> IsStripped(b[x]) {
      var start := StripStart(b, 0);
      assert start == k;
      assert StripEnd(b, start, |b|) == k + 4;
      StrippedNone(b);
    }
  }

  lemma StrippedChar(c: char)
    ensures IsStripped(c) <==> c in " \t\r\n()"
  {
  }

  lemma NoneSpelt(s: string, k: nat)
    requires k + 4 <= |s|
    ensures SpellsNone(s, k) <==> s[k..k + 4] == "None"
  {
  }

  lemma SameFour(s: string, b: string, k: nat)
    requires k + 4 <= |s| == |b| && b[k] != ' ' && b[k + 1] != ' ' && b[k + 2] != ' ' && b[k + 3] != ' '
    requires forall x :: 0 <= x < |s| ==> b[x] == if InToken(s, 0, x) then ' ' else s[x]
    ensures SpellsNone(b, k) <==> SpellsNone(s, k)
    ensures forall x :: k <= x < k + 4 ==> !InToken(s, 0, x)
  {
    hide InToken;
  }

  lemma BlankedNone(s: string, b: string, k: nat)
    requires |b| == |s| && forall x :: 0 <= x < |s| ==> b[x] == if InToken(s, 0, x) then ' ' else s[x]
    ensures SpellsNone(b, k) && (forall x :: 0 <= x < |b| && !(k <= x < k + 4) ==> IsStripped(b[x])) <==> NoneAlone(s, k)
  {
    hide InToken, IsStripped, SpellsNone;
    forall c ensures IsStripped(c) <==> c in " \t\r\n()" {
      StrippedChar(c);
    }
    if SpellsNone(b, k) {
      FourSpelt(b, k);
      SameFour(s, b, k);
      NoneSpelt(s, k);
    }
    if NoneAlone(s, k) {
      NoneSpelt(s, k);
      FourSpelt(s, k);
      SameFour(s, b, k);
    }
  }

  lemma FourSpelt(b: string, k: nat)
    requires SpellsNone(b, k)
    ensures k + 4 <= |b| && b[k] != ' ' && b[k + 1] != ' ' && b[k + 2] != ' ' && b[k + 3] != ' '
  {
  }

  /** The None token is found exactly where None stands alone. */
  lemma RootNoneExactly(s: string, k: nat)
    ensures RootNone(s) == Some(k) <==> NoneAlone(s, k)
  {
    hide Blanked, InToken, StripsToNone, SearchNone, NoneAlone, IsStripped, SpellsNone;
    var b := Blanked(s, 0);
    StrippedExactly(b, k);
    forall x | 0 <= x < |s| ensures b[x] == if InToken(s, 0, x) then ' ' else s[x] {
      BlankedExactly(s, 0, x);
    }
    BlankedNone(s, b, k);
  }

  /** A root's value keeps everything but the word None. */
  lemma RootRewritten(rhs: string, k: nat, id: string)
    requires ParentRefs(rhs) == [] && NoneAlone(rhs, k)
    ensures Rewrite(rhs, OldParent(rhs), id) == rhs[..k] + ['"'] + id + ['"'] + rhs[k + 4..]
  {
    hide NoneAlone, RootNone, ParentRefs;
    RootNoneExactly(rhs, k);
    assert Quoted('"', id) == ['"'] + id + ['"'];
  }

  /**
   Without a single parent and without a None that stands alone the target is written in
   front of the first comment, and of the white space before it.
   */
  lemma FallbackExactly(rhs: string, id: string)
    requires |ParentRefs(rhs)| != 1 && forall k :: !NoneAlone(rhs, k)
    ensures exists start: nat, k: nat ::
      start <= k <= |rhs| && Boundary(rhs, 0, k) && NoComment(rhs, 0, k) && (k < |rhs| ==> MatchAt(rhs, k).Comment?)
      && (forall x :: start <= x < k ==> IsSpace(rhs[x])) && (start > 0 ==> !IsSpace(rhs[start - 1]))
      && Rewrite(rhs, OldParent(rhs), id) == ['"'] + id + ['"'] + rhs[start..]
  {
    hide NoneAlone, RootNone, ParentRefs, IsSpace, MatchAt, Boundary, NoComment;
    if RootNone(rhs).Some? {
      RootNoneExactly(rhs, RootNone(rhs).value);
    }
    FindCommentSpec(rhs, 0);
    var k := match FindComment(rhs, 0) case Some(k) => k case None => |rhs|;
    var start := SpaceStart(rhs, k);
    assert rhs[..0] + Quoted('"', id) + rhs[start..] == ['"'] + id + ['"'] + rhs[start..];
  }
}
