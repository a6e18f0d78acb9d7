/** What giving the colliding spellings of a path one spelling does to the groups that are not reported. */
module CaseRenaming {
  import opened Options
  import opened CaseCollisions
  import opened ModuleStems

  predicate AtOrBelow(path: string, root: string) { path == root || Below(path, root) }

  /** The path once every spelling of `root` has become `to`. */
  function Respell(fold: Fold, root: string, to: string, path: string): string {
    if AtOrBelow(Folded(fold, path), root) then to + path[|root|..] else path
  }

  function RespellAll(fold: Fold, root: string, to: string, tracked: seq<string>): (r: seq<string>)
    ensures |r| == |tracked| && forall i :: 0 <= i < |r| ==> r[i] == Respell(fold, root, to, tracked[i])
  {
    seq(|tracked|, i requires 0 <= i < |tracked| => Respell(fold, root, to, tracked[i]))
  }

  lemma FoldedPrefix(fold: Fold, s: string, n: nat)
    requires n <= |s|
    ensures Folded(fold, s[..n]) == Folded(fold, s)[..n] && Folded(fold, s[n..]) == Folded(fold, s)[n..]
  {
  }

  lemma RespellFolds(fold: Fold, root: string, to: string, path: string)
    requires Folded(fold, to) == root
    ensures Folded(fold, Respell(fold, root, to, path)) == Folded(fold, path)
  {
    var folded, after := Folded(fold, path), Folded(fold, Respell(fold, root, to, path));
    if AtOrBelow(folded, root) {
      assert folded[..|root|] == root;
      forall i | 0 <= i < |path| ensures after[i] == folded[i] {
        assert i < |root| ==> after[i] == root[i] && folded[..|root|][i] == root[i];
      }
    }
  }

  // ------------------------------------------------------------- prefix groups

  lemma SlashKept(fold: Fold, s: string, k: nat)
    requires KeepsSlashes(fold) && k < |s|
    ensures Folded(fold, s)[k] == '/' <==> s[k] == '/'
  {
  }

  /** Cutting below `root` and respelling it commute. */
  lemma CutRespelled(fold: Fold, root: string, to: string, path: string, k: nat)
    requires KeepsSlashes(fold) && Folded(fold, to) == root && k <= |path| && Below(Folded(fold, path)[..k], root)
    ensures AtOrBelow(Folded(fold, path), root)
    ensures Respell(fold, root, to, path)[..k] == Respell(fold, root, to, path[..k])
  {
    FoldedPrefix(fold, path, k);
    var folded := Folded(fold, path);
    assert folded[..k][|root|] == folded[|root|] && folded[..k][..|root|] == folded[..|root|];
    assert (to + path[|root|..])[..k] == to + path[|root|..k];
    assert path[..k][|root|..] == path[|root|..k];
  }

  /** The prefixes afterwards with a fold below `root` are the prefixes before, respelled. */
  lemma PrefixesRespelled(fold: Fold, root: string, to: string, tracked: seq<string>, f: string, q: string)
    requires KeepsSlashes(fold) && Folded(fold, to) == root && Below(f, root)
    ensures TrackedPrefix(RespellAll(fold, root, to, tracked), q) && Folded(fold, q) == f
            <==> exists p :: TrackedPrefix(tracked, p) && Folded(fold, p) == f && q == Respell(fold, root, to, p)
  {
    var after := RespellAll(fold, root, to, tracked);
    if TrackedPrefix(after, q) && Folded(fold, q) == f {
      var i :| 0 <= i < |after| && IsPrefix(after[i], q);
      var k: nat :| PrefixAt(after[i], k, q);
      PrefixMoves(fold, root, to, tracked[i], k);
      FoldedPrefix(fold, after[i], k);
      RespellFolds(fold, root, to, tracked[i]);
      FoldedPrefix(fold, tracked[i], k);
      CutRespelled(fold, root, to, tracked[i], k);
      assert IsPrefix(tracked[i], tracked[i][..k]);
      assert TrackedPrefix(tracked, tracked[i][..k]);
    }
    if p :| TrackedPrefix(tracked, p) && Folded(fold, p) == f && q == Respell(fold, root, to, p) {
      var i :| 0 <= i < |tracked| && IsPrefix(tracked[i], p);
      var k: nat :| PrefixAt(tracked[i], k, p);
      PrefixMoves(fold, root, to, tracked[i], k);
      FoldedPrefix(fold, tracked[i], k);
      CutRespelled(fold, root, to, tracked[i], k);
      RespellFolds(fold, root, to, p);
      assert PrefixAt(after[i], k, q);
      assert IsPrefix(after[i], q);
    }
  }

  /** A path can be cut at the same places before and after. */
  lemma PrefixMoves(fold: Fold, root: string, to: string, path: string, k: nat)
    requires KeepsSlashes(fold) && Folded(fold, to) == root
    ensures var after := Respell(fold, root, to, path);
      |after| == |path| && (PrefixAt(path, k, path[..if k <= |path| then k else 0]) <==> PrefixAt(after, k, after[..if k <= |path| then k else 0]))
  {
    RespellFolds(fold, root, to, path);
    if k < |path| {
      SlashKept(fold, path, k);
      SlashKept(fold, Respell(fold, root, to, path), k);
    }
  }

  /** No two distinct prefixes of the tracked paths have this fold. */
  ghost predicate OneSpelling(fold: Fold, tracked: seq<string>, f: string) {
    forall p, q :: TrackedPrefix(tracked, p) && TrackedPrefix(tracked, q) && Folded(fold, p) == Folded(fold, q) == f ==> p == q
  }

  lemma SpellingsAre(fold: Fold, tracked: seq<string>, spellings: Spellings, f: string, p: string)
    requires Files(fold, spellings, Prefixes(tracked))
    ensures f in spellings && p in spellings[f] <==> TrackedPrefix(tracked, p) && Folded(fold, p) == f
  {
    assert p in Prefixes(tracked) <==> TrackedPrefix(tracked, p);
  }

  lemma FoldLength(fold: Fold, p: string)
    ensures |Folded(fold, p)| == |p|
  {
  }

  /** Two paths with the same fold below `root` are respelled alike exactly when they read the same behind it. */
  lemma RespelledAlike(fold: Fold, root: string, to: string, p: string, q: string)
    requires Folded(fold, to) == root && Folded(fold, p) == Folded(fold, q) && Below(Folded(fold, p), root)
    ensures Respell(fold, root, to, p) == Respell(fold, root, to, q) <==> p[|root| + 1..] == q[|root| + 1..] && p[|root|] == q[|root|]
  {
    var n := |root|;
    assert p[n..] == [p[n]] + p[n + 1..] && q[n..] == [q[n]] + q[n + 1..];
    assert (to + p[n..])[n..] == p[n..] && (to + q[n..])[n..] == q[n..];
  }

  /**
   Respelling a directory above a group leaves one spelling of the group if and
   only if its members read the same below that directory.
   */
  lemma RenamingFixes(fold: Fold, tracked: seq<string>, spellings: Spellings, f: string, root: string, to: string)
    requires KeepsSlashes(fold) && Files(fold, spellings, Prefixes(tracked))
    requires f in spellings && Below(f, root) && Folded(fold, to) == root
    ensures OneSpelling(fold, RespellAll(fold, root, to, tracked), f) <==> SameTail(spellings[f], |root| + 1)
  {
    hide *;
    var after := RespellAll(fold, root, to, tracked);
    var n := |root| + 1;
    if OneSpelling(fold, after, f) {
      forall p, q | p in spellings[f] && q in spellings[f] ensures n <= |p| && n <= |q| && p[n..] == q[n..] {
        SpellingsAre(fold, tracked, spellings, f, p);
        SpellingsAre(fold, tracked, spellings, f, q);
        PrefixesRespelled(fold, root, to, tracked, f, Respell(fold, root, to, p));
        PrefixesRespelled(fold, root, to, tracked, f, Respell(fold, root, to, q));
        OneSpellingSays(fold, after, f, Respell(fold, root, to, p), Respell(fold, root, to, q));
        FoldLength(fold, p);
        FoldLength(fold, q);
        BelowLonger(f, root);
        RespelledAlike(fold, root, to, p, q);
      }
      SameTailFrom(spellings[f], n);
    }
    if SameTail(spellings[f], n) {
      forall a, b | TrackedPrefix(after, a) && TrackedPrefix(after, b) && Folded(fold, a) == Folded(fold, b) == f ensures a == b {
        PrefixesRespelled(fold, root, to, tracked, f, a);
        PrefixesRespelled(fold, root, to, tracked, f, b);
        var p :| TrackedPrefix(tracked, p) && Folded(fold, p) == f && a == Respell(fold, root, to, p);
        var q :| TrackedPrefix(tracked, q) && Folded(fold, q) == f && b == Respell(fold, root, to, q);
        SpellingsAre(fold, tracked, spellings, f, p);
        SpellingsAre(fold, tracked, spellings, f, q);
        FoldLength(fold, p);
        FoldLength(fold, q);
        BelowLonger(f, root);
        SameTailSays(spellings[f], n, p, q);
        SlashAt(fold, f, root, p);
        SlashAt(fold, f, root, q);
        RespelledAlike(fold, root, to, p, q);
      }
      OneSpellingFrom(fold, after, f);
    }
  }

  lemma BelowLonger(f: string, root: string)
    requires Below(f, root)
    ensures |root| + 1 <= |f|
  {
  }

  lemma SlashAt(fold: Fold, f: string, root: string, p: string)
    requires KeepsSlashes(fold) && Below(f, root) && Folded(fold, p) == f
    ensures |root| < |p| && p[|root|] == '/'
  {
    SlashKept(fold, p, |root|);
  }

  lemma OneSpellingSays(fold: Fold, tracked: seq<string>, f: string, p: string, q: string)
    requires OneSpelling(fold, tracked, f)
    requires TrackedPrefix(tracked, p) && TrackedPrefix(tracked, q) && Folded(fold, p) == Folded(fold, q) == f
    ensures p == q
  {
  }

  lemma OneSpellingFrom(fold: Fold, tracked: seq<string>, f: string)
    requires forall p, q :: TrackedPrefix(tracked, p) && TrackedPrefix(tracked, q) && Folded(fold, p) == Folded(fold, q) == f ==> p == q
    ensures OneSpelling(fold, tracked, f)
  {
  }

  lemma SameTailSays(group: set<string>, n: nat, p: string, q: string)
    requires SameTail(group, n) && p in group && q in group && n <= |p| && n <= |q|
    ensures p[n..] == q[n..]
  {
  }

  lemma SameTailFrom(group: set<string>, n: nat)
    requires forall p, q :: p in group && q in group ==> n <= |p| && n <= |q| && p[n..] == q[n..]
    ensures SameTail(group, n)
  {
  }

  /** Respelling the directory, to any of its spellings, leaves one spelling of the group. */
  ghost predicate FixedByRenaming(fold: Fold, tracked: seq<string>, f: string, root: string) {
    forall to :: Folded(fold, to) == root ==> OneSpelling(fold, RespellAll(fold, root, to, tracked), f)
  }

  /**
   A colliding group is dropped from the report exactly when there is a reported
   directory above it whose renaming fixes the group as well.
   */
  lemma DroppedExactlyWhenFixed(fold: Fold, tracked: seq<string>, spellings: Spellings, f: string)
    requires KeepsSlashes(fold) && Files(fold, spellings, Prefixes(tracked)) && Collides(spellings, f)
    ensures f !in ShallowestOnly(spellings)
            <==> exists r :: r in ShallowestOnly(spellings) && Below(f, r) && FixedByRenaming(fold, tracked, f, r)
  {
    DroppedExactlyWhenExplained(fold, tracked, spellings, f);
    hide OneSpelling, Prefixes, Files, SameTail, Below, Folded, RespellAll;
    forall r | r in ShallowestOnly(spellings) && Below(f, r)
      ensures FixedByRenaming(fold, tracked, f, r) <==> SameTail(spellings[f], |r| + 1)
    {
      forall to | Folded(fold, to) == r
        ensures OneSpelling(fold, RespellAll(fold, r, to, tracked), f) <==> SameTail(spellings[f], |r| + 1)
      {
        RenamingFixes(fold, tracked, spellings, f, r, to);
      }
      var to :| to in spellings[r];
      SpellingsAre(fold, tracked, spellings, r, to);
    }
  }

  // --------------------------------------------------------------- stem groups

  lemma ExtensionShape(ext: string)
    requires ext in EXTENSIONS
    ensures ext != "" && ext[0] == '.' && forall i :: 0 <= i < |ext| ==> ext[i] != '/'
  {
  }

  lemma {:induction false} LastSlashFold(fold: Fold, path: string)
    requires KeepsSlashes(fold)
    ensures LastSlash(Folded(fold, path)) == LastSlash(path)
  {
    if path != "" {
      var n := |path| - 1;
      FoldedPrefix(fold, path, n);
      SlashKept(fold, path, n);
      LastSlashFold(fold, path[..n]);
    }
  }

  /** What a stem looks like inside the path that contributes it. */
  ghost predicate StemIn(fold: Fold, path: string, e: Entry) {
    var n := |e.stem|;
    n < |path| && e.stem == path[..n]
    && (forall i :: n < i < |path| ==> path[i] != '/')
    && ((e.member == path && Folded(fold, path)[n] == '.') || (e.member == path[..n] + "/" && path[n] == '/'))
  }

  /** The entry that another spelling of the path contributes instead. */
  function EntryIn(path: string, e: Entry, other: string): Entry
    requires |e.stem| <= |other|
  {
    Entry(other[..|e.stem|], if e.member == path then other else other[..|e.stem|] + "/")
  }

  lemma OwnStem(fold: Fold, path: string, other: string)
    requires Folded(fold, path) == Folded(fold, other) && KeepsSlashes(fold)
    ensures ModuleStem(fold, path).Some? ==>
      var stem := ModuleStem(fold, path).value;
      StemIn(fold, path, Entry(stem, path)) && ModuleStem(fold, other) == Some(other[..|stem|])
  {
    hide ExtensionOf;
    var folded := Folded(fold, path);
    var ext := ExtensionOf(folded, 0);
    if ModuleStem(fold, path).Some? {
      assert ext.value in EXTENSIONS;
      ExtensionShape(ext.value);
      var n := |path| - |ext.value|;
      assert folded[n..][0] == folded[n];
      forall i | n < i < |path| ensures path[i] != '/' {
        assert folded[n..][i - n] == folded[i];
        SlashKept(fold, path, i);
      }
      SlashKept(fold, path, n - 1);
      SlashKept(fold, other, n - 1);
      assert path[..n][n - 1] == path[n - 1] && other[..n][n - 1] == other[n - 1];
    }
  }

  /** A path with a module extension does not end in a slash. */
  lemma NoSlashAtEnd(fold: Fold, path: string)
    requires KeepsSlashes(fold) && ModuleStem(fold, path).Some?
    ensures path != "" && path[|path| - 1] != '/'
  {
    hide ExtensionOf;
    var folded := Folded(fold, path);
    var ext := ExtensionOf(folded, 0).value;
    ExtensionShape(ext);
    assert folded[|path| - |ext|..][|ext| - 1] == folded[|path| - 1];
    SlashKept(fold, path, |path| - 1);
  }

  lemma EntriesAre(fold: Fold, path: string)
    requires ModuleStem(fold, path).Some?
    ensures var own := Entry(ModuleStem(fold, path).value, path);
      own in EntriesOf(fold, path)
      && forall e :: e in EntriesOf(fold, path) && e != own ==> Indexed(fold, path, e)
    ensures forall e :: Indexed(fold, path, e) ==> e in EntriesOf(fold, path)
  {
    hide ModuleStem, IsIndex;
  }

  /** The entry of the directory that an index file stands in. */
  ghost predicate Indexed(fold: Fold, path: string, e: Entry) {
    LastSlash(path).Some?
    && var k := LastSlash(path).value;
       k > 0 && IsIndex(Folded(fold, path[k + 1..])) && e == Entry(path[..k], path[..k] + "/")
  }

  lemma IndexRespelled(fold: Fold, path: string, other: string, e: Entry)
    requires Folded(fold, path) == Folded(fold, other) && KeepsSlashes(fold) && Indexed(fold, path, e)
    requires path != "" && path[|path| - 1] != '/'
    ensures StemIn(fold, path, e) && |path| == |other| && Indexed(fold, other, EntryIn(path, e, other))
  {
    hide IsIndex;
    FoldLength(fold, path);
    FoldLength(fold, other);
    LastSlashFold(fold, path);
    LastSlashFold(fold, other);
    var k := LastSlash(path).value;
    FoldedPrefix(fold, path, k + 1);
    FoldedPrefix(fold, other, k + 1);
    assert (path[..k] + "/")[k] == '/' && |path[..k] + "/"| == k + 1;
  }

  /** Entries depend on the fold of a path but for their spelling. */
  lemma EntriesRespelled(fold: Fold, path: string, other: string, e: Entry)
    requires Folded(fold, path) == Folded(fold, other) && KeepsSlashes(fold) && e in EntriesOf(fold, path)
    ensures StemIn(fold, path, e) && |path| == |other|
    ensures EntryIn(path, e, other) in EntriesOf(fold, other)
    ensures Folded(fold, other[..|e.stem|]) == Folded(fold, e.stem)
  {
    SomeStem(fold, path, e);
    OwnStem(fold, path, other);
    NoSlashAtEnd(fold, path);
    EntriesAre(fold, path);
    EntriesAre(fold, other);
    FoldLength(fold, path);
    FoldLength(fold, other);
    hide ModuleStem, EntriesOf, Indexed, Folded;
    if e != Entry(ModuleStem(fold, path).value, path) {
      IndexRespelled(fold, path, other, e);
    }
    FoldedPrefix(fold, path, |e.stem|);
    FoldedPrefix(fold, other, |e.stem|);
  }

  lemma SomeStem(fold: Fold, path: string, e: Entry)
    requires e in EntriesOf(fold, path)
    ensures ModuleStem(fold, path).Some?
  {
    hide ModuleStem;
  }

  /** The path contributes a stem with this fold. */
  ghost predicate Stemmed(fold: Fold, path: string, f: string) {
    exists e :: e in EntriesOf(fold, path) && Folded(fold, e.stem) == f
  }

  /** No two distinct stems of the tracked paths have this fold. */
  ghost predicate OneStem(fold: Fold, tracked: seq<string>, f: string) {
    forall a, b :: TrackedStem(fold, tracked, a) && TrackedStem(fold, tracked, b) && Folded(fold, a.stem) == Folded(fold, b.stem) == f
      ==> a.stem == b.stem
  }

  /** The scan finds a stem group for this fold. */
  ghost predicate HasGroup(fold: Fold, tracked: seq<string>, f: string) {
    f in CollectStems(fold, tracked) && StemsDiffer(CollectStems(fold, tracked)[f])
  }

  /** There is one stem with this fold exactly when there is no stem group for it. */
  lemma OneStemMeans(fold: Fold, tracked: seq<string>, f: string)
    ensures OneStem(fold, tracked, f) <==> !HasGroup(fold, tracked, f)
  {
    hide CollectStems, TrackedStem, Folded;
    var stems := CollectStems(fold, tracked);
    forall e ensures f in stems && e in stems[f] <==> TrackedStem(fold, tracked, e) && Folded(fold, e.stem) == f {
      StemsCollected(fold, tracked, e, f);
    }
  }

  /** Whether a path contributes depends on its fold alone, and the stem is its beginning. */
  lemma StemmedByFold(fold: Fold, path: string, other: string, f: string)
    requires Folded(fold, path) == Folded(fold, other) && KeepsSlashes(fold) && Stemmed(fold, path, f)
    ensures Stemmed(fold, other, f) && |f| < |path| == |other|
  {
    hide EntriesOf;
    var e :| e in EntriesOf(fold, path) && Folded(fold, e.stem) == f;
    EntriesRespelled(fold, path, other, e);
    assert EntryIn(path, e, other).stem == other[..|e.stem|];
  }

  lemma StemIsPrefix(fold: Fold, path: string, e: Entry)
    requires KeepsSlashes(fold) && e in EntriesOf(fold, path)
    ensures StemIn(fold, path, e) && Folded(fold, path)[..|e.stem|] == Folded(fold, e.stem)
  {
    EntriesRespelled(fold, path, path, e);
    hide EntriesOf;
    FoldedPrefix(fold, path, |e.stem|);
  }

  /** All contributing paths begin alike. */
  ghost predicate SameStart(fold: Fold, tracked: seq<string>, f: string) {
    forall i, j :: 0 <= i < |tracked| && 0 <= j < |tracked| && Stemmed(fold, tracked[i], f) && Stemmed(fold, tracked[j], f) ==>
      |f| <= |tracked[i]| && |f| <= |tracked[j]| && tracked[i][..|f|] == tracked[j][..|f|]
  }

  lemma OneStemStarts(fold: Fold, tracked: seq<string>, f: string)
    requires KeepsSlashes(fold)
    ensures OneStem(fold, tracked, f) <==> SameStart(fold, tracked, f)
  {
    hide EntriesOf, Folded;
    if OneStem(fold, tracked, f) {
      forall i, j | 0 <= i < |tracked| && 0 <= j < |tracked| && Stemmed(fold, tracked[i], f) && Stemmed(fold, tracked[j], f)
        ensures |f| <= |tracked[i]| && |f| <= |tracked[j]| && tracked[i][..|f|] == tracked[j][..|f|]
      {
        var a :| a in EntriesOf(fold, tracked[i]) && Folded(fold, a.stem) == f;
        var b :| b in EntriesOf(fold, tracked[j]) && Folded(fold, b.stem) == f;
        StemIsPrefix(fold, tracked[i], a);
        StemIsPrefix(fold, tracked[j], b);
        assert TrackedStem(fold, tracked, a) && TrackedStem(fold, tracked, b);
      }
    }
    if SameStart(fold, tracked, f) {
      forall a, b | TrackedStem(fold, tracked, a) && TrackedStem(fold, tracked, b) && Folded(fold, a.stem) == Folded(fold, b.stem) == f
        ensures a.stem == b.stem
      {
        var i :| 0 <= i < |tracked| && a in EntriesOf(fold, tracked[i]);
        var j :| 0 <= j < |tracked| && b in EntriesOf(fold, tracked[j]);
        StemIsPrefix(fold, tracked[i], a);
        StemIsPrefix(fold, tracked[j], b);
        assert Stemmed(fold, tracked[i], f) && Stemmed(fold, tracked[j], f);
      }
    }
  }

  /** The start of a path after the renaming. */
  function StartAfter(fold: Fold, root: string, to: string, path: string, n: nat): string
    requires n <= |path| && Folded(fold, to) == root
  {
    RespellFolds(fold, root, to, path);
    FoldLength(fold, path);
    FoldLength(fold, Respell(fold, root, to, path));
    Respell(fold, root, to, path)[..n]
  }

  /** One stem is left after a renaming exactly when all contributing paths begin alike then. */
  lemma OneStemAfter(fold: Fold, root: string, to: string, tracked: seq<string>, f: string)
    requires KeepsSlashes(fold) && Folded(fold, to) == root
    ensures OneStem(fold, RespellAll(fold, root, to, tracked), f)
            <==> forall i, j :: 0 <= i < |tracked| && 0 <= j < |tracked| && Stemmed(fold, tracked[i], f) && Stemmed(fold, tracked[j], f) ==>
                   |f| <= |tracked[i]| && |f| <= |tracked[j]|
                   && StartAfter(fold, root, to, tracked[i], |f|) == StartAfter(fold, root, to, tracked[j], |f|)
  {
    hide Stemmed, Folded, Respell, OneStem;
    var after := RespellAll(fold, root, to, tracked);
    OneStemStarts(fold, after, f);
    forall i | 0 <= i < |tracked|
      ensures Stemmed(fold, tracked[i], f) <==> Stemmed(fold, after[i], f)
      ensures Stemmed(fold, tracked[i], f) ==> |f| < |tracked[i]| == |after[i]|
    {
      RespellFolds(fold, root, to, tracked[i]);
      if Stemmed(fold, tracked[i], f) {
        StemmedByFold(fold, tracked[i], after[i], f);
      }
      if Stemmed(fold, after[i], f) {
        StemmedByFold(fold, after[i], tracked[i], f);
      }
    }
  }

  // ---------------------------------------------------- the stem groups left out

  function StemsOf(entries: set<Entry>): set<string> { set e | e in entries :: e.stem }

  /** The start of a path, when the renaming is at or above its stem. */
  lemma StartBelow(fold: Fold, root: string, to: string, path: string, e: Entry)
    requires KeepsSlashes(fold) && Folded(fold, to) == root && e in EntriesOf(fold, path) && |root| <= |e.stem|
    ensures |e.stem| < |path|
    ensures StartAfter(fold, root, to, path, |e.stem|)
         == if Below(Folded(fold, e.member), root) then to + e.stem[|root|..] else e.stem
  {
    StemIsPrefix(fold, path, e);
    hide EntriesOf, Below, Folded;
    if e.member != path {
      MemberBelow(fold, path, e, root);
    }
    assert e.stem == path[..|e.stem|];
    hide StemIn;
    StartCut(fold, root, to, path, |e.stem|);
  }

  lemma StartCut(fold: Fold, root: string, to: string, path: string, n: nat)
    requires Folded(fold, to) == root && |root| <= n < |path|
    ensures StartAfter(fold, root, to, path, n) == if Below(Folded(fold, path), root) then to + path[..n][|root|..] else path[..n]
  {
    FoldLength(fold, path);
    FoldLength(fold, to);
    hide Folded, Below;
    assert (to + path[|root|..])[..n] == to + path[..n][|root|..];
  }

  lemma MemberBelow(fold: Fold, path: string, e: Entry, root: string)
    requires KeepsSlashes(fold) && StemIn(fold, path, e) && e.member == e.stem + "/" && path[|e.stem|] == '/' && |root| <= |e.stem|
    ensures Below(Folded(fold, e.member), root) <==> Below(Folded(fold, path), root)
  {
    var n := |e.stem| + 1;
    assert e.member == path[..n];
    FoldedPrefix(fold, path, n);
    var folded := Folded(fold, path);
    assert folded[..n][..|root|] == folded[..|root|] && folded[..n][|root|] == folded[|root|];
  }

  lemma NotBelow(fold: Fold, path: string, e: Entry, root: string)
    requires KeepsSlashes(fold) && StemIn(fold, path, e) && |e.stem| < |root|
    ensures !Below(Folded(fold, path), root)
  {
    if |root| < |path| {
      SlashKept(fold, path, |root|);
    }
  }

  /** The start of a path, when the renaming is of a file. */
  lemma StartAt(fold: Fold, root: string, to: string, path: string, e: Entry)
    requires KeepsSlashes(fold) && Folded(fold, to) == root && e in EntriesOf(fold, path)
    requires |e.stem| < |root| && root[|e.stem|] == '.' && root[|root| - 1] != '/'
    ensures |e.stem| < |path|
    ensures StartAfter(fold, root, to, path, |e.stem|) == if Folded(fold, e.member) == root then to[..|e.stem|] else e.stem
  {
    StemIsPrefix(fold, path, e);
    hide EntriesOf;
    var folded := Folded(fold, path);
    NotBelow(fold, path, e, root);
    if e.member != path {
      SlashKept(fold, path, |e.stem|);
      SlashKept(fold, e.member, |e.stem|);
      FoldLength(fold, e.member);
    }
    assert folded == root ==> path[|root|..] == [] && to + [] == to;
  }

  /** The entries under a fold, each with the path it comes from. */
  lemma EntryOrigin(fold: Fold, tracked: seq<string>, f: string, e: Entry)
    requires f in CollectStems(fold, tracked)
    ensures e in CollectStems(fold, tracked)[f]
            <==> exists i :: 0 <= i < |tracked| && e in EntriesOf(fold, tracked[i]) && Folded(fold, e.stem) == f
  {
    StemsCollected(fold, tracked, e, f);
  }

  /** What the stem of an entry becomes, as far as the renaming of `root` reaches it. */
  ghost predicate StemBecomes(fold: Fold, root: string, to: string, tracked: seq<string>, f: string, e: Entry, becomes: string) {
    forall i :: 0 <= i < |tracked| && e in EntriesOf(fold, tracked[i]) && Folded(fold, e.stem) == f && Folded(fold, to) == root ==>
      |f| <= |tracked[i]| && StartAfter(fold, root, to, tracked[i], |f|) == becomes
  }

  /** One stem is left exactly when all stems of the group become the same. */
  lemma OneStemBecomes(fold: Fold, root: string, to: string, tracked: seq<string>, f: string, becomes: map<Entry, string>)
    requires KeepsSlashes(fold) && Folded(fold, to) == root && f in CollectStems(fold, tracked)
    requires becomes.Keys == CollectStems(fold, tracked)[f]
    requires forall e :: e in becomes ==> StemBecomes(fold, root, to, tracked, f, e, becomes[e])
    ensures OneStem(fold, RespellAll(fold, root, to, tracked), f)
            <==> forall a, b :: a in becomes && b in becomes ==> becomes[a] == becomes[b]
  {
    hide CollectStems, EntriesOf, OneStem, StartAfter, RespellAll, Folded;
    OneStemAfter(fold, root, to, tracked, f);
    forall e ensures e in becomes <==>
      exists i :: 0 <= i < |tracked| && e in EntriesOf(fold, tracked[i]) && Folded(fold, e.stem) == f
    {
      EntryOrigin(fold, tracked, f, e);
    }
    if OneStem(fold, RespellAll(fold, root, to, tracked), f) {
      forall a, b | a in becomes && b in becomes ensures becomes[a] == becomes[b] {
        var i :| 0 <= i < |tracked| && a in EntriesOf(fold, tracked[i]) && Folded(fold, a.stem) == f;
        var j :| 0 <= j < |tracked| && b in EntriesOf(fold, tracked[j]) && Folded(fold, b.stem) == f;
        assert Stemmed(fold, tracked[i], f) && Stemmed(fold, tracked[j], f);
      }
    }
    if forall a, b :: a in becomes && b in becomes ==> becomes[a] == becomes[b] {
      forall i, j | 0 <= i < |tracked| && 0 <= j < |tracked| && Stemmed(fold, tracked[i], f) && Stemmed(fold, tracked[j], f)
        ensures |f| <= |tracked[i]| && |f| <= |tracked[j]|
        ensures StartAfter(fold, root, to, tracked[i], |f|) == StartAfter(fold, root, to, tracked[j], |f|)
      {
        var a :| a in EntriesOf(fold, tracked[i]) && Folded(fold, a.stem) == f;
        var b :| b in EntriesOf(fold, tracked[j]) && Folded(fold, b.stem) == f;
        assert a in becomes && b in becomes;
      }
    }
  }

  /**
   The first reason to leave a stem group out: a member lies below a colliding
   directory. Renaming the directory leaves one stem if and only if the stems read
   the same behind it, and those of files beside the directory begin with the new
   spelling.
   */
  lemma DirectoryRenaming(fold: Fold, tracked: seq<string>, f: string, root: string, to: string, member: Entry)
    requires KeepsSlashes(fold) && Folded(fold, to) == root && f in CollectStems(fold, tracked)
    requires member in CollectStems(fold, tracked)[f] && Below(Folded(fold, member.member), root)
    ensures var entries := CollectStems(fold, tracked)[f];
      !HasGroup(fold, RespellAll(fold, root, to, tracked), f)
      <==> SameTail(StemsOf(entries), |root|) && forall e :: e in entries ==> Below(Folded(fold, e.member), root) || to <= e.stem
  {
    hide CollectStems, EntriesOf, OneStem, RespellAll, StartAfter, StemBecomes, HasGroup;
    var entries := CollectStems(fold, tracked)[f];
    OneStemMeans(fold, RespellAll(fold, root, to, tracked), f);
    EntryFolds(fold, tracked, f);
    StemReaches(fold, tracked, f, root, member);
    var becomes := map e | e in entries && |root| <= |e.stem| ::
      if Below(Folded(fold, e.member), root) then to + e.stem[|root|..] else e.stem;
    forall e | e in entries ensures |root| <= |e.stem| && e in becomes && StemBecomes(fold, root, to, tracked, f, e, becomes[e]) {
      FoldLength(fold, e.stem);
      BecomesBelow(fold, root, to, tracked, f, e);
    }
    assert becomes.Keys == entries;
    OneStemBecomes(fold, root, to, tracked, f, becomes);
    FoldLength(fold, to);
    var moved := set e | e in entries && Below(Folded(fold, e.member), root);
    SameAfter(entries, |root|, to, becomes, moved, member);
  }

  lemma EntryFolds(fold: Fold, tracked: seq<string>, f: string)
    requires f in CollectStems(fold, tracked)
    ensures forall e :: e in CollectStems(fold, tracked)[f] ==> Folded(fold, e.stem) == f
  {
    hide CollectStems;
    forall e | e in CollectStems(fold, tracked)[f] ensures Folded(fold, e.stem) == f {
      EntryOrigin(fold, tracked, f, e);
    }
  }

  /** A member below the directory has a stem at least as long. */
  lemma StemReaches(fold: Fold, tracked: seq<string>, f: string, root: string, e: Entry)
    requires KeepsSlashes(fold) && f in CollectStems(fold, tracked) && e in CollectStems(fold, tracked)[f]
    requires Below(Folded(fold, e.member), root)
    ensures |root| <= |f|
  {
    hide CollectStems, EntriesOf;
    EntryOrigin(fold, tracked, f, e);
    var i :| 0 <= i < |tracked| && e in EntriesOf(fold, tracked[i]) && Folded(fold, e.stem) == f;
    StemIsPrefix(fold, tracked[i], e);
    FoldLength(fold, e.stem);
    FoldLength(fold, e.member);
    SlashKept(fold, e.member, |root|);
    SlashKept(fold, tracked[i], |e.stem|);
  }

  lemma BecomesBelow(fold: Fold, root: string, to: string, tracked: seq<string>, f: string, e: Entry)
    requires KeepsSlashes(fold) && Folded(fold, to) == root && |root| <= |e.stem|
    ensures StemBecomes(fold, root, to, tracked, f, e,
      if Below(Folded(fold, e.member), root) then to + e.stem[|root|..] else e.stem)
  {
    hide EntriesOf, StartAfter, Below;
    forall i | 0 <= i < |tracked| && e in EntriesOf(fold, tracked[i]) && Folded(fold, e.stem) == f
      ensures |f| <= |tracked[i]|
      ensures StartAfter(fold, root, to, tracked[i], |f|) == if Below(Folded(fold, e.member), root) then to + e.stem[|root|..] else e.stem
    {
      FoldLength(fold, e.stem);
      StartBelow(fold, root, to, tracked[i], e);
    }
  }

  /** Each stem is kept behind `n` characters, and those in `moved` get a new start. */
  ghost predicate Restarted(entries: set<Entry>, n: nat, to: string, becomes: map<Entry, string>, moved: set<Entry>) {
    becomes.Keys == entries && moved <= entries && |to| == n
    && forall e :: e in entries ==> n <= |e.stem| && becomes[e] == if e in moved then to + e.stem[n..] else e.stem
  }

  lemma RestartedOne(entries: set<Entry>, n: nat, to: string, becomes: map<Entry, string>, moved: set<Entry>, e: Entry)
    requires Restarted(entries, n, to, becomes, moved) && e in entries
    ensures n <= |e.stem| <= |becomes[e]| && becomes[e][n..] == e.stem[n..] && becomes[e] == becomes[e][..n] + e.stem[n..]
    ensures becomes[e][..n] == (if e in moved then to else e.stem[..n]) && (to <= e.stem <==> to == e.stem[..n])
  {
  }

  lemma SameAfter(entries: set<Entry>, n: nat, to: string, becomes: map<Entry, string>, moved: set<Entry>, member: Entry)
    requires Restarted(entries, n, to, becomes, moved) && member in moved
    ensures (forall a, b :: a in entries && b in entries ==> becomes[a] == becomes[b])
            <==> SameTail(StemsOf(entries), n) && forall e :: e in entries ==> e in moved || to <= e.stem
  {
    assert member in entries && becomes.Keys == entries;
    hide Restarted;
    if forall a, b :: a in entries && b in entries ==> becomes[a] == becomes[b] {
      forall p, q | p in StemsOf(entries) && q in StemsOf(entries) ensures p[n..] == q[n..] && n <= |p| && n <= |q| {
        var a :| a in entries && a.stem == p;
        var b :| b in entries && b.stem == q;
        RestartedOne(entries, n, to, becomes, moved, a);
        RestartedOne(entries, n, to, becomes, moved, b);
      }
      forall e | e in entries && e !in moved ensures to <= e.stem {
        RestartedOne(entries, n, to, becomes, moved, e);
        RestartedOne(entries, n, to, becomes, moved, member);
      }
    }
    if SameTail(StemsOf(entries), n) && forall e :: e in entries ==> e in moved || to <= e.stem {
      forall a, b | a in entries && b in entries ensures becomes[a] == becomes[b] {
        assert a.stem in StemsOf(entries) && b.stem in StemsOf(entries);
        RestartedOne(entries, n, to, becomes, moved, a);
        RestartedOne(entries, n, to, becomes, moved, b);
        SameTailSays(StemsOf(entries), n, a.stem, b.stem);
      }
    }
  }

  /**
   The second reason: a member is itself a reported path. Renaming the path leaves
   one stem if and only if the stems of all other members are that of the new
   spelling already.
   */
  lemma FileRenaming(fold: Fold, tracked: seq<string>, f: string, root: string, to: string, member: Entry)
    requires KeepsSlashes(fold) && Folded(fold, to) == root && f in CollectStems(fold, tracked)
    requires member in CollectStems(fold, tracked)[f] && Folded(fold, member.member) == root && root != "" && root[|root| - 1] != '/'
    ensures !HasGroup(fold, RespellAll(fold, root, to, tracked), f)
            <==> forall e :: e in CollectStems(fold, tracked)[f] ==> Folded(fold, e.member) == root || e.stem <= to
  {
    hide CollectStems, EntriesOf, OneStem, RespellAll, StartAfter, StemBecomes, HasGroup;
    var entries := CollectStems(fold, tracked)[f];
    OneStemMeans(fold, RespellAll(fold, root, to, tracked), f);
    EntryFolds(fold, tracked, f);
    StemOfFile(fold, tracked, f, root, member);
    FoldLength(fold, to);
    var becomes := map e | e in entries :: if Folded(fold, e.member) == root then to[..|f|] else e.stem;
    forall e | e in entries ensures |e.stem| == |f| && StemBecomes(fold, root, to, tracked, f, e, becomes[e]) {
      FoldLength(fold, e.stem);
      BecomesAt(fold, root, to, tracked, f, e);
    }
    OneStemBecomes(fold, root, to, tracked, f, becomes);
    assert becomes[member] == to[..|f|];
    assert forall e :: e in entries ==> (e.stem <= to <==> e.stem == to[..|f|]);
  }

  lemma StemOfFile(fold: Fold, tracked: seq<string>, f: string, root: string, e: Entry)
    requires KeepsSlashes(fold) && f in CollectStems(fold, tracked) && e in CollectStems(fold, tracked)[f]
    requires Folded(fold, e.member) == root && root != "" && root[|root| - 1] != '/'
    ensures |f| < |root| && root[|f|] == '.'
  {
    hide CollectStems, EntriesOf;
    EntryOrigin(fold, tracked, f, e);
    var i :| 0 <= i < |tracked| && e in EntriesOf(fold, tracked[i]) && Folded(fold, e.stem) == f;
    StemIsPrefix(fold, tracked[i], e);
    FoldLength(fold, e.stem);
    FoldLength(fold, e.member);
    SlashKept(fold, e.member, |e.member| - 1);
  }

  lemma BecomesAt(fold: Fold, root: string, to: string, tracked: seq<string>, f: string, e: Entry)
    requires KeepsSlashes(fold) && Folded(fold, to) == root && |e.stem| == |f| < |root| == |to|
    requires root[|f|] == '.' && root[|root| - 1] != '/'
    ensures StemBecomes(fold, root, to, tracked, f, e, if Folded(fold, e.member) == root then to[..|f|] else e.stem)
  {
    hide EntriesOf, StartAfter;
    forall i | 0 <= i < |tracked| && e in EntriesOf(fold, tracked[i]) && Folded(fold, e.stem) == f
      ensures |f| <= |tracked[i]|
      ensures StartAfter(fold, root, to, tracked[i], |f|) == if Folded(fold, e.member) == root then to[..|f|] else e.stem
    {
      StartAt(fold, root, to, tracked[i], e);
    }
  }

  /** A stem group is left out of the report for one of the two reasons. */
  lemma DroppedStems(fold: Fold, tracked: seq<string>, spellings: Spellings, f: string)
    requires Files(fold, spellings, Prefixes(tracked))
    requires HasGroup(fold, tracked, f)
    ensures var entries := CollectStems(fold, tracked)[f];
      var paths := ShallowestOnly(spellings);
      Members(entries) !in Outside(fold, StemCollisions(CollectStems(fold, tracked)), paths) ==>
        exists root, e :: root in paths && e in entries && (Below(Folded(fold, e.member), root) || Folded(fold, e.member) == root)
  {
    hide CollectStems;
    var stems := CollectStems(fold, tracked);
    var entries, paths := stems[f], ShallowestOnly(spellings);
    var group := Members(entries);
    if group !in Outside(fold, StemCollisions(stems), paths) {
      if root, first :| root in paths && first in group && IsFirst(group, first) && Below(Folded(fold, first), root) {
        var e :| e in entries && e.member == first;
      } else {
        var root :| root in paths && group * paths[root] != {};
        var m :| m in group * paths[root];
        var e :| e in entries && e.member == m;
        assert Folded(fold, m) == root;
      }
    }
  }
}
