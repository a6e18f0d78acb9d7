/** Module stems that differ only in case, and the verdict of the whole scan. */
module ModuleStems {
  import opened Options
  import opened Orders
  import opened CaseCollisions

  /** The module extensions, longest first. */
  const EXTENSIONS := [".d.mts", ".d.cts", ".d.ts", ".tsx", ".jsx", ".mts", ".cts", ".mjs", ".cjs", ".ts", ".js"]

  predicate EndsWith(s: string, suffix: string) {
    |suffix| <= |s| && s[|s| - |suffix|..] == suffix
  }

  /** The first of the extensions from `k` on that the folded path ends with. */
  function ExtensionOf(folded: string, k: nat): (r: Option<string>)
    requires k <= |EXTENSIONS|
    ensures r.Some? ==> EndsWith(folded, r.value) && r.value in EXTENSIONS
    decreases |EXTENSIONS| - k
  {
    if k == |EXTENSIONS| then None
    else if EndsWith(folded, EXTENSIONS[k]) then Some(EXTENSIONS[k])
    else ExtensionOf(folded, k + 1)
  }

  lemma {:induction false} FirstExtension(folded: string, k: nat, i: nat)
    requires k <= i < |EXTENSIONS| && EndsWith(folded, EXTENSIONS[i])
    ensures ExtensionOf(folded, k).Some? && |ExtensionOf(folded, k).value| >= |EXTENSIONS[i]|
    decreases i - k
  {
    hide EndsWith;
    if EndsWith(folded, EXTENSIONS[k]) {
      LongestFirst(k, i);
    } else {
      FirstExtension(folded, k + 1, i);
    }
  }

  lemma LongestFirst(i: nat, j: nat)
    requires i <= j < |EXTENSIONS|
    ensures |EXTENSIONS[i]| >= |EXTENSIONS[j]|
  {
  }

  /** The longest extension that the folded path ends with, if there is one at all. */
  lemma LongestExtension(folded: string, ext: string)
    ensures ExtensionOf(folded, 0) == Some(ext)
            <==> ext in EXTENSIONS && EndsWith(folded, ext)
                 && forall o :: o in EXTENSIONS && EndsWith(folded, o) ==> |o| <= |ext|
    ensures ExtensionOf(folded, 0) == None <==> forall o :: o in EXTENSIONS ==> !EndsWith(folded, o)
  {
    hide ExtensionOf, EXTENSIONS;
    forall o | o in EXTENSIONS && EndsWith(folded, o)
      ensures ExtensionOf(folded, 0).Some? && |o| <= |ExtensionOf(folded, 0).value|
    {
      var i :| 0 <= i < |EXTENSIONS| && EXTENSIONS[i] == o;
      FirstExtension(folded, 0, i);
    }
  }

  /** The path without its module extension; a bare extension has no stem. */
  function ModuleStem(fold: Fold, path: string): Option<string> {
    match ExtensionOf(Folded(fold, path), 0)
    case None => None
    case Some(ext) =>
      var stem := path[..|path| - |ext|];
      if stem != "" && stem[|stem| - 1] != '/' then Some(stem) else None
  }

  /** Where the last slash stands. */
  function LastSlash(path: string): (r: Option<nat>)
    ensures r.Some? ==> r.value < |path| && path[r.value] == '/'
    ensures forall i :: (if r.Some? then r.value + 1 else 0) <= i < |path| ==> path[i] != '/'
  {
    if path == "" then None
    else if path[|path| - 1] == '/' then Some(|path| - 1)
    else LastSlash(path[..|path| - 1])
  }

  predicate IsIndex(folded: string) {
    exists ext :: ext in EXTENSIONS && folded == "index" + ext
  }

  /** A stem and the path that is reported for it. */
  datatype Entry = Entry(stem: string, member: string)

  /** What one tracked path contributes: its own stem, and its directory if it is an index. */
  function EntriesOf(fold: Fold, path: string): set<Entry> {
    match ModuleStem(fold, path)
    case None => {}
    case Some(stem) =>
      {Entry(stem, path)}
      + match LastSlash(path)
        case None => {}
        case Some(k) =>
          if k > 0 && IsIndex(Folded(fold, path[k + 1..])) then {Entry(path[..k], path[..k] + "/")} else {}
  }

  type Stems = map<string, set<Entry>>

  function AddEntries(fold: Fold, stems: Stems, entries: set<Entry>): Stems {
    map f | f in stems.Keys + (set e | e in entries :: Folded(fold, e.stem)) ::
      (if f in stems then stems[f] else {}) + (set e | e in entries && Folded(fold, e.stem) == f)
  }

  function CollectStems(fold: Fold, tracked: seq<string>): Stems {
    if tracked == [] then map[]
    else AddEntries(fold, CollectStems(fold, tracked[..|tracked| - 1]), EntriesOf(fold, tracked[|tracked| - 1]))
  }

  predicate StemsDiffer(entries: set<Entry>) {
    exists a, b :: a in entries && b in entries && a.stem != b.stem
  }

  function Members(entries: set<Entry>): set<string> { set e | e in entries :: e.member }

  /** The groups of reported members, one per fold with two spellings of the stem. */
  function StemCollisions(stems: Stems): set<set<string>> {
    set f | f in stems && StemsDiffer(stems[f]) :: Members(stems[f])
  }

  predicate IsFirst(group: set<string>, first: string) {
    first in group && forall m :: m in group ==> m == first || Before(first, m)
  }

  /** The stem groups not put down to a colliding directory or to a reported path. */
  function Outside(fold: Fold, groups: set<set<string>>, paths: Spellings): set<set<string>> {
    set group | group in groups
      && !(exists root, first :: root in paths && first in group && IsFirst(group, first) && Below(Folded(fold, first), root))
      && !(exists root :: root in paths && group * paths[root] != {})
  }

  method ModuleStemCollisions(fold: Fold, tracked: seq<string>) returns (groups: set<set<string>>)
    ensures groups == StemCollisions(CollectStems(fold, tracked))
  {
    var stems: Stems := map[];
    for i := 0 to |tracked|
      invariant stems == CollectStems(fold, tracked[..i])
    {
      assert tracked[..i + 1][..i] == tracked[..i];
      stems := AddEntries(fold, stems, EntriesOf(fold, tracked[i]));
    }
    assert tracked[..|tracked|] == tracked;
    groups := StemCollisions(stems);
  }

  /** The scan passes. */
  method Scan(fold: Fold, tracked: seq<string>) returns (clean: bool)
    requires KeepsSlashes(fold)
    ensures clean <==> NoPrefixesFold(fold, tracked) && NoStemsFold(fold, tracked)
  {
    hide Folded, Below, ShallowestOnly, CollectStems;
    var paths := PathCollisions(fold, tracked);
    ghost var spellings :| Files(fold, spellings, Prefixes(tracked)) && paths == ShallowestOnly(spellings);
    var groups := ModuleStemCollisions(fold, tracked);
    EmptyReport(fold, tracked, spellings);
    NoStemGroups(fold, tracked);
    clean := paths == map[] && Outside(fold, groups, paths) == {};
    assert paths == map[] ==> Outside(fold, groups, paths) == groups;
  }

  ghost predicate NoPrefixesFold(fold: Fold, tracked: seq<string>) {
    forall p, q :: TrackedPrefix(tracked, p) && TrackedPrefix(tracked, q) && Folded(fold, p) == Folded(fold, q) ==> p == q
  }

  ghost predicate TrackedStem(fold: Fold, tracked: seq<string>, e: Entry) {
    exists i :: 0 <= i < |tracked| && e in EntriesOf(fold, tracked[i])
  }

  /** No two distinct stems of tracked files fold together. */
  ghost predicate NoStemsFold(fold: Fold, tracked: seq<string>) {
    forall a, b :: TrackedStem(fold, tracked, a) && TrackedStem(fold, tracked, b) && Folded(fold, a.stem) == Folded(fold, b.stem)
      ==> a.stem == b.stem
  }

  lemma EntriesAdded(fold: Fold, stems: Stems, entries: set<Entry>, e: Entry, f: string)
    ensures f in AddEntries(fold, stems, entries) && e in AddEntries(fold, stems, entries)[f]
            <==> (f in stems && e in stems[f]) || (e in entries && Folded(fold, e.stem) == f)
  {
  }

  lemma TrackedLast(fold: Fold, tracked: seq<string>, e: Entry)
    requires tracked != []
    ensures var n := |tracked| - 1;
      TrackedStem(fold, tracked, e) <==> TrackedStem(fold, tracked[..n], e) || e in EntriesOf(fold, tracked[n])
  {
    hide EntriesOf;
    var n := |tracked| - 1;
    if TrackedStem(fold, tracked[..n], e) {
      var i :| 0 <= i < n && e in EntriesOf(fold, tracked[..n][i]);
      assert e in EntriesOf(fold, tracked[i]);
    }
    if TrackedStem(fold, tracked, e) {
      var i :| 0 <= i < |tracked| && e in EntriesOf(fold, tracked[i]);
      assert i < n ==> e in EntriesOf(fold, tracked[..n][i]);
    }
  }

  lemma {:induction false} StemsCollected(fold: Fold, tracked: seq<string>, e: Entry, f: string)
    ensures f in CollectStems(fold, tracked) && e in CollectStems(fold, tracked)[f]
            <==> TrackedStem(fold, tracked, e) && Folded(fold, e.stem) == f
  {
    if tracked != [] {
      hide EntriesOf, AddEntries, TrackedStem, Folded;
      var n := |tracked| - 1;
      StemsCollected(fold, tracked[..n], e, f);
      EntriesAdded(fold, CollectStems(fold, tracked[..n]), EntriesOf(fold, tracked[n]), e, f);
      TrackedLast(fold, tracked, e);
    }
  }

  lemma NoStemGroups(fold: Fold, tracked: seq<string>)
    ensures StemCollisions(CollectStems(fold, tracked)) == {} <==> NoStemsFold(fold, tracked)
  {
    hide EntriesOf, CollectStems;
    var stems := CollectStems(fold, tracked);
    if group :| group in StemCollisions(stems) {
      var f :| f in stems && StemsDiffer(stems[f]) && group == Members(stems[f]);
      var a: Entry, b: Entry :| a in stems[f] && b in stems[f] && a.stem != b.stem;
      StemsCollected(fold, tracked, a, f);
      StemsCollected(fold, tracked, b, f);
    }
    if !NoStemsFold(fold, tracked) {
      var a, b :|
        TrackedStem(fold, tracked, a) && TrackedStem(fold, tracked, b) && Folded(fold, a.stem) == Folded(fold, b.stem) && a.stem != b.stem;
      var f := Folded(fold, a.stem);
      StemsCollected(fold, tracked, a, f);
      StemsCollected(fold, tracked, b, f);
      assert Members(stems[f]) in StemCollisions(stems);
    }
  }

  // ----------------------------------------------- a dropped group that is not fixed

  function Lower(c: char): char { if 'A' <= c <= 'Z' then (c as int + 32) as char else c }

  const BEFORE := ["F/x.ts", "f/X.js"]
  const RENAMED := ["f/x.ts", "f/X.js"]

  lemma LowerKeepsSlashes()
    ensures KeepsSlashes(Lower)
  {
  }

  /** A six-character path d/n.ts or d/n.js has the stem d/n. */
  lemma ShortStem(path: string, ext: string)
    requires |path| == 6 && path[1] == '/' && path[0] != '/' && path[0] != '.' && path[2] != '/' && path[2] != '.'
    requires path[3..] == ext && (ext == ".ts" || ext == ".js")
    ensures EntriesOf(Lower, path) == {Entry(path[..3], path)}
  {
    var folded := Folded(Lower, path);
    assert folded[3..] == ext by {
      forall i | 0 <= i < 3 ensures folded[3..][i] == ext[i] {
        assert ext[i] == path[3..][i];
      }
    }
    LongerExtensions(folded);
    assert ExtensionOf(folded, 9) == Some(ext) by {
      assert EXTENSIONS[9] == ".ts" && EXTENSIONS[10] == ".js";
      assert ext == ".js" ==> folded[3..][1] == 'j' && ".ts"[1] == 't';
    }
    assert path[..3][2] == path[2];
    NoIndex(path);
  }

  lemma LongerExtensions(folded: string)
    requires |folded| == 6 && folded[0] != '.' && folded[1] != '.' && folded[2] != '.'
    ensures ExtensionOf(folded, 0) == ExtensionOf(folded, 9)
  {
    forall k | 0 <= k < 9 ensures !EndsWith(folded, EXTENSIONS[k]) {
      var ext := EXTENSIONS[k];
      assert 4 <= |ext| <= 6 && ext[0] == '.';
      assert folded[6 - |ext|..][0] == folded[6 - |ext|];
    }
    SkipExtensions(folded, 0);
  }

  lemma {:induction false} SkipExtensions(folded: string, k: nat)
    requires k <= 9 && forall i :: k <= i < 9 ==> !EndsWith(folded, EXTENSIONS[i])
    ensures ExtensionOf(folded, k) == ExtensionOf(folded, 9)
    decreases 9 - k
  {
    if k < 9 {
      SkipExtensions(folded, k + 1);
    }
  }

  lemma NoIndex(path: string)
    requires |path| == 6 && path[1] == '/' && path[2] != '/'
    requires path[3..] == ".ts" || path[3..] == ".js"
    ensures LastSlash(path) == Some(1) && !IsIndex(Folded(Lower, path[2..]))
  {
    assert path[3] == path[3..][0] && path[4] == path[3..][1] && path[5] == path[3..][2];
    LastSlashStep(path, 6);
    LastSlashStep(path, 5);
    LastSlashStep(path, 4);
    LastSlashStep(path, 3);
    assert path[..6] == path;
    assert path[..2][1] == '/';
    forall ext | ext in EXTENSIONS ensures Folded(Lower, path[2..]) != "index" + ext {
      assert |Folded(Lower, path[2..])| == 4;
    }
  }

  lemma LastSlashStep(path: string, n: nat)
    requires 0 < n <= |path| && path[n - 1] != '/'
    ensures LastSlash(path[..n]) == LastSlash(path[..n - 1])
  {
    assert path[..n][..n - 1] == path[..n - 1];
  }

  lemma ShortPrefix(path: string, p: string)
    requires |path| == 6 && path[1] == '/' && path[0] != '/' && forall i :: 2 <= i < 6 ==> path[i] != '/'
    ensures IsPrefix(path, p) <==> p == path || p == path[..1]
  {
    assert PrefixAt(path, 6, path) && PrefixAt(path, 1, path[..1]);
    if IsPrefix(path, p) {
      var k: nat :| PrefixAt(path, k, p);
      assert k == 1 || k == 6;
    }
  }

  lemma TwoTracked(a: string, b: string, e: Entry)
    ensures TrackedStem(Lower, [a, b], e) <==> e in EntriesOf(Lower, a) || e in EntriesOf(Lower, b)
  {
    hide EntriesOf;
    var tracked := [a, b];
    assert tracked[0] == a && tracked[1] == b;
  }

  /** The stem of d/n.ts or d/n.js folds to the folded d/n. */
  lemma ShortFold(path: string)
    requires |path| == 6 && Lower(path[0]) == 'f' && path[1] == '/' && Lower(path[2]) == 'x'
    ensures Folded(Lower, path[..3]) == "f/x"
  {
    var folded := Folded(Lower, path[..3]);
    assert folded[0] == 'f' && folded[1] == '/' && folded[2] == 'x';
  }

  /** Two files d/n.ts and d'/N.js whose stems differ and fold together. */
  ghost predicate CrossedPair(a: string, b: string) {
    |a| == |b| == 6 && a[3..] == ".ts" && b[3..] == ".js" && a[1] == b[1] == '/' && a[2] == 'x' && b[2] == 'X'
    && (a[0] == 'f' || a[0] == 'F') && b[0] == 'f'
  }

  /** Such files are the members of one stem group. */
  lemma CrossedGroup(a: string, b: string)
    requires CrossedPair(a, b)
    ensures {a, b} in StemCollisions(CollectStems(Lower, [a, b]))
  {
    ShortStem(a, ".ts");
    ShortStem(b, ".js");
    ShortFold(a);
    ShortFold(b);
    assert a[..3][2] == 'x' && b[..3][2] == 'X';
    var x, y := Entry(a[..3], a), Entry(b[..3], b);
    GroupOfTwo(a, b, x, y, "f/x");
  }

  lemma GroupOfTwo(a: string, b: string, x: Entry, y: Entry, f: string)
    requires EntriesOf(Lower, a) == {x} && EntriesOf(Lower, b) == {y}
    requires Folded(Lower, x.stem) == Folded(Lower, y.stem) == f && x.stem != y.stem
    ensures {x.member, y.member} in StemCollisions(CollectStems(Lower, [a, b]))
  {
    hide EntriesOf, CollectStems, TrackedStem, Folded;
    var stems := CollectStems(Lower, [a, b]);
    forall e ensures f in stems && e in stems[f] <==> e == x || e == y {
      TwoTracked(a, b, e);
      StemsCollected(Lower, [a, b], e, f);
    }
    TwoTracked(a, b, x);
    StemsCollected(Lower, [a, b], x, f);
    assert stems[f] == {x, y};
    assert x in stems[f] && y in stems[f];
    assert Members({x, y}) == {x.member, y.member};
  }

  lemma ExampleCrossed()
    ensures CrossedPair(BEFORE[0], BEFORE[1]) && CrossedPair(RENAMED[0], RENAMED[1])
  {
  }

  lemma ExamplePrefixes(tracked: seq<string>, p: string)
    requires tracked == BEFORE || tracked == RENAMED
    ensures TrackedPrefix(tracked, p) <==> p == tracked[0] || p == tracked[0][..1] || p == tracked[1] || p == tracked[1][..1]
  {
    ShortPrefix(tracked[0], p);
    ShortPrefix(tracked[1], p);
    if IsPrefix(tracked[0], p) || IsPrefix(tracked[1], p) {
      assert TrackedPrefix(tracked, p);
    }
  }

  /**
   Before the renaming of F to f the directory is reported, and the stem group of
   the two files below it is not, although it collides.
   */
  lemma ExampleDropped(spellings: Spellings)
    requires Files(Lower, spellings, Prefixes(BEFORE))
    ensures "f" in ShallowestOnly(spellings) && {BEFORE[0], BEFORE[1]} in StemCollisions(CollectStems(Lower, BEFORE))
    ensures {BEFORE[0], BEFORE[1]} !in Outside(Lower, StemCollisions(CollectStems(Lower, BEFORE)), ShallowestOnly(spellings))
  {
    hide CollectStems, StemCollisions;
    ExamplePrefixes(BEFORE, "F");
    ExamplePrefixes(BEFORE, "f");
    assert BEFORE[0][..1] == "F" && BEFORE[1][..1] == "f";
    assert "F" in Prefixes(BEFORE) && "f" in Prefixes(BEFORE);
    assert Folded(Lower, "F") == "f" && Folded(Lower, "f") == "f";
    TwoMembers(spellings["f"]);
    assert !Explained(spellings, "f");
    var first := BEFORE[0];
    assert IsFirst({BEFORE[0], BEFORE[1]}, first);
    assert Folded(Lower, first)[..1] == "f" && Folded(Lower, first)[1] == '/';
    assert Below(Folded(Lower, first), "f");
    ExampleCrossed();
    CrossedGroup(BEFORE[0], BEFORE[1]);
    assert BEFORE == [BEFORE[0], BEFORE[1]];
  }

  /** After the renaming nothing collides as a path, and the stems still do. */
  lemma ExampleStays(spellings: Spellings)
    requires Files(Lower, spellings, Prefixes(RENAMED))
    ensures ShallowestOnly(spellings) == map[]
    ensures {RENAMED[0], RENAMED[1]} in Outside(Lower, StemCollisions(CollectStems(Lower, RENAMED)), map[])
  {
    hide CollectStems, StemCollisions;
    LowerKeepsSlashes();
    ExampleCrossed();
    CrossedGroup(RENAMED[0], RENAMED[1]);
    assert RENAMED == [RENAMED[0], RENAMED[1]];
    ExampleApart();
    hide Folded, TrackedPrefix, Prefixes, Files, ShallowestOnly;
    EmptyReport(Lower, RENAMED, spellings);
  }

  lemma ExampleApart()
    ensures NoPrefixesFold(Lower, RENAMED)
  {
    forall p, q | TrackedPrefix(RENAMED, p) && TrackedPrefix(RENAMED, q) && Folded(Lower, p) == Folded(Lower, q) ensures p == q {
      ExamplePrefixes(RENAMED, p);
      ExamplePrefixes(RENAMED, q);
      assert Folded(Lower, RENAMED[0])[4] == 't' && Folded(Lower, RENAMED[1])[4] == 'j';
    }
  }
}
