/** Which stems a tracked file contributes, and which groups are reported, in terms of the paths alone. */
module StemEntries {
  import opened Options
  import opened Orders
  import opened CaseCollisions
  import opened ModuleStems
  import opened CaseRenaming

  // ------------------------------------------------------------------ stems of one path

  /** The path is the stem followed by the longest module extension that it folds to. */
  ghost predicate OwnEntry(fold: Fold, path: string, e: Entry) {
    e.member == path && e.stem != "" && e.stem[|e.stem| - 1] != '/'
    && exists rest :: path == e.stem + rest && Folded(fold, rest) in EXTENSIONS
                      && forall ext :: ext in EXTENSIONS && EndsWith(Folded(fold, path), ext) ==> |ext| <= |rest|
  }

  /** The path is an index file, with any module extension, and the stem is its directory. */
  ghost predicate IndexOf(fold: Fold, path: string, e: Entry) {
    e.stem != "" && e.member == e.stem + "/"
    && exists base, ext :: path == e.stem + "/" + base && ext in EXTENSIONS && Folded(fold, base) == "index" + ext
  }

  lemma OwnExactly(fold: Fold, path: string, stem: string)
    ensures ModuleStem(fold, path) == Some(stem) <==> OwnEntry(fold, path, Entry(stem, path))
  {
    hide ModuleStem, EXTENSIONS, EndsWith;
    if ModuleStem(fold, path) == Some(stem) {
      OwnTo(fold, path, stem);
    }
    if OwnEntry(fold, path, Entry(stem, path)) {
      var rest :| path == stem + rest && Folded(fold, rest) in EXTENSIONS
        && forall ext :: ext in EXTENSIONS && EndsWith(Folded(fold, path), ext) ==> |ext| <= |rest|;
      OwnFrom(fold, path, stem, rest);
    }
  }

  lemma OwnTo(fold: Fold, path: string, stem: string)
    requires ModuleStem(fold, path) == Some(stem)
    ensures OwnEntry(fold, path, Entry(stem, path))
  {
    hide ExtensionOf, EXTENSIONS;
    var folded := Folded(fold, path);
    var ext := ExtensionOf(folded, 0).value;
    var n := |path| - |ext|;
    FoldedPrefix(fold, path, n);
    assert Folded(fold, path[n..]) == ext;
    hide EndsWith, Folded;
    LongestExtension(folded, ext);
    assert path == stem + path[n..];
  }

  lemma OwnFrom(fold: Fold, path: string, stem: string, rest: string)
    requires stem != "" && stem[|stem| - 1] != '/' && path == stem + rest && Folded(fold, rest) in EXTENSIONS
    requires forall ext :: ext in EXTENSIONS && EndsWith(Folded(fold, path), ext) ==> |ext| <= |rest|
    ensures ModuleStem(fold, path) == Some(stem)
  {
    hide ExtensionOf, EXTENSIONS;
    var folded, ext, n := Folded(fold, path), Folded(fold, rest), |stem|;
    FoldedPrefix(fold, path, n);
    assert path[n..] == rest && path[..n] == stem;
    assert EndsWith(folded, ext);
    hide EndsWith;
    LongestExtension(folded, ext);
  }

  lemma IndexedExactly(fold: Fold, path: string, e: Entry)
    requires KeepsSlashes(fold)
    ensures Indexed(fold, path, e) <==> IndexOf(fold, path, e)
  {
    hide EXTENSIONS, LastSlash;
    if Indexed(fold, path, e) {
      var k := LastSlash(path).value;
      var ext :| ext in EXTENSIONS && Folded(fold, path[k + 1..]) == "index" + ext;
      assert path == e.stem + "/" + path[k + 1..];
    }
    if IndexOf(fold, path, e) {
      var base, ext :| path == e.stem + "/" + base && ext in EXTENSIONS && Folded(fold, base) == "index" + ext;
      NoSlashIn(fold, base, ext);
      SlashBehind(path, e.stem, base);
    }
  }

  lemma SlashBehind(path: string, stem: string, base: string)
    requires path == stem + "/" + base && forall i :: 0 <= i < |base| ==> base[i] != '/'
    ensures LastSlash(path) == Some(|stem|) && path[|stem| + 1..] == base && path[..|stem|] == stem
  {
    hide LastSlash;
    var k := |stem|;
    assert path[k] == '/';
    forall i | k < i < |path| ensures path[i] != '/' {
      assert path[i] == base[i - k - 1];
    }
  }

  lemma NoSlashIn(fold: Fold, base: string, ext: string)
    requires KeepsSlashes(fold) && ext in EXTENSIONS && Folded(fold, base) == "index" + ext
    ensures forall i :: 0 <= i < |base| ==> base[i] != '/'
  {
    ExtensionShape(ext);
    hide EXTENSIONS;
    forall i | 0 <= i < |base| ensures base[i] != '/' {
      SlashKept(fold, base, i);
      assert Folded(fold, base)[i] == if i < 5 then "index"[i] else ext[i - 5];
    }
  }

  /** An extension does not reach back over the letter behind a slash. */
  lemma ExtensionBehind(folded: string, k: nat, ext: string)
    requires EndsWith(folded, ext) && ext != "" && ext[0] == '.' && forall i :: 0 <= i < |ext| ==> ext[i] != '/'
    requires 0 < k < |folded| && folded[k - 1] == '/' && folded[k] == 'i'
    ensures |folded| - |ext| > k
  {
    var n := |folded| - |ext|;
    assert folded[n..][0] == folded[n];
    forall i | n <= i < |folded| ensures folded[i] != '/' {
      assert folded[n..][i - n] == folded[i];
    }
  }

  lemma IndexFolded(folded: string, k: nat, ext: string)
    requires k <= |folded| && folded[k..] == "index" + ext
    ensures k < |folded| && folded[k] == 'i' && EndsWith(folded, ext)
  {
    assert folded[k..][0] == folded[k] && folded[k..][5..] == ext && folded[k + 5..] == ext;
  }

  /** An index file has a stem of its own. */
  lemma IndexHasStem(fold: Fold, path: string, e: Entry)
    requires KeepsSlashes(fold) && IndexOf(fold, path, e)
    ensures ModuleStem(fold, path).Some?
  {
    var base, ext :| path == e.stem + "/" + base && ext in EXTENSIONS && Folded(fold, base) == "index" + ext;
    hide ExtensionOf, EXTENSIONS, EndsWith, KeepsSlashes;
    var folded, k := Folded(fold, path), |e.stem| + 1;
    NoSlashIn(fold, base, ext);
    FoldedPrefix(fold, path, k);
    assert path[k..] == base;
    IndexFolded(folded, k, ext);
    LongestExtension(folded, ext);
    var longest := ExtensionOf(folded, 0).value;
    ExtensionShape(longest);
    SlashKept(fold, path, k - 1);
    ExtensionBehind(folded, k, longest);
    assert path[|path| - |longest| - 1] == base[|path| - |longest| - 1 - k];
    StemWhen(fold, path, longest);
  }

  lemma StemWhen(fold: Fold, path: string, ext: string)
    requires ExtensionOf(Folded(fold, path), 0) == Some(ext) && |ext| < |path| && path[|path| - |ext| - 1] != '/'
    ensures ModuleStem(fold, path).Some?
  {
    hide ExtensionOf, EXTENSIONS;
    var n := |path| - |ext|;
    assert path[..n][n - 1] == path[n - 1];
  }

  /** All that a path contributes: its stem, and its directory if it is an index file. */
  lemma EntriesExactly(fold: Fold, path: string, e: Entry)
    requires KeepsSlashes(fold)
    ensures e in EntriesOf(fold, path) <==> OwnEntry(fold, path, e) || IndexOf(fold, path, e)
  {
    OwnExactly(fold, path, e.stem);
    IndexedExactly(fold, path, e);
    if IndexOf(fold, path, e) {
      IndexHasStem(fold, path, e);
    }
    hide ModuleStem, IndexOf, IsIndex;
    if ModuleStem(fold, path).Some? {
      EntriesAre(fold, path);
      OwnExactly(fold, path, ModuleStem(fold, path).value);
    }
    hide OwnEntry, EntriesOf;
    EntriesNone(fold, path, e);
  }

  lemma EntriesNone(fold: Fold, path: string, e: Entry)
    ensures ModuleStem(fold, path).None? ==> e !in EntriesOf(fold, path)
  {
  }

  /** An index file files its directory, whatever the directory and the extension. */
  lemma IndexFiled(fold: Fold, d: string, base: string, ext: string)
    requires KeepsSlashes(fold) && d != "" && ext in EXTENSIONS && Folded(fold, base) == "index" + ext
    ensures Entry(d, d + "/") in EntriesOf(fold, d + "/" + base)
  {
    EntriesExactly(fold, d + "/" + base, Entry(d, d + "/"));
  }

  /** A directory with an index file collides with a stem that folds alike and differs. */
  lemma IndexCollides(fold: Fold, tracked: seq<string>, i: nat, d: string, base: string, ext: string, other: Entry)
    requires KeepsSlashes(fold) && d != "" && ext in EXTENSIONS && Folded(fold, base) == "index" + ext
    requires i < |tracked| && tracked[i] == d + "/" + base && TrackedStem(fold, tracked, other)
    requires Folded(fold, other.stem) == Folded(fold, d) && other.stem != d
    ensures !NoStemsFold(fold, tracked)
  {
    hide EntriesOf, EXTENSIONS;
    IndexFiled(fold, d, base, ext);
    assert TrackedStem(fold, tracked, Entry(d, d + "/"));
  }

  // -------------------------------------------------------------------------- the report

  /** A reported group is all the tracked prefixes of its fold. */
  lemma ReportMembers(fold: Fold, tracked: seq<string>, spellings: Spellings, f: string, p: string)
    requires Files(fold, spellings, Prefixes(tracked)) && f in ShallowestOnly(spellings)
    ensures p in ShallowestOnly(spellings)[f] <==> TrackedPrefix(tracked, p) && Folded(fold, p) == f
  {
    SpellingsAre(fold, tracked, spellings, f, p);
  }

  /** The members of two or more stems with this fold, and of all others with it. */
  ghost predicate IsStemGroup(fold: Fold, tracked: seq<string>, f: string, group: set<string>) {
    (exists a, b :: FoldsTo(fold, tracked, f, a) && FoldsTo(fold, tracked, f, b) && a.stem != b.stem)
    && forall m :: m in group <==> exists e :: FoldsTo(fold, tracked, f, e) && e.member == m
  }

  ghost predicate FoldsTo(fold: Fold, tracked: seq<string>, f: string, e: Entry) {
    TrackedStem(fold, tracked, e) && Folded(fold, e.stem) == f
  }

  lemma StemGroupExactly(fold: Fold, tracked: seq<string>, group: set<string>)
    ensures group in StemCollisions(CollectStems(fold, tracked)) <==> exists f :: IsStemGroup(fold, tracked, f, group)
  {
    hide CollectStems, TrackedStem, Folded;
    var stems := CollectStems(fold, tracked);
    forall f, e ensures f in stems && e in stems[f] <==> FoldsTo(fold, tracked, f, e) {
      StemsCollected(fold, tracked, e, f);
    }
    hide FoldsTo;
    forall f ensures IsStemGroup(fold, tracked, f, group) <==> f in stems && StemsDiffer(stems[f]) && group == Members(stems[f]) {
      GroupOf(fold, tracked, stems, f, group);
    }
    hide IsStemGroup, StemsDiffer, Members;
  }

  lemma GroupOf(fold: Fold, tracked: seq<string>, stems: Stems, f: string, group: set<string>)
    requires forall e :: f in stems && e in stems[f] <==> FoldsTo(fold, tracked, f, e)
    ensures IsStemGroup(fold, tracked, f, group) <==> f in stems && StemsDiffer(stems[f]) && group == Members(stems[f])
  {
    hide FoldsTo;
    if IsStemGroup(fold, tracked, f, group) {
      var a, b :| FoldsTo(fold, tracked, f, a) && FoldsTo(fold, tracked, f, b) && a.stem != b.stem;
      assert a in stems[f] && b in stems[f];
      assert group == Members(stems[f]);
    }
  }

  /** The first member in sorted order lies below a reported directory. */
  ghost predicate FirstBelow(fold: Fold, group: set<string>, reported: set<string>) {
    exists r, m :: r in reported && m in group && (forall o :: o in group ==> o == m || Before(m, o)) && Below(Folded(fold, m), r)
  }

  /** A member is itself a tracked path, or a directory on one, that is reported. */
  ghost predicate IsReported(fold: Fold, tracked: seq<string>, group: set<string>, reported: set<string>) {
    exists m :: m in group && TrackedPrefix(tracked, m) && Folded(fold, m) in reported
  }

  /** Which stem groups are reported beside the paths. */
  lemma OutsideExactly(fold: Fold, tracked: seq<string>, spellings: Spellings, group: set<string>)
    requires Files(fold, spellings, Prefixes(tracked))
    ensures var reported := ShallowestOnly(spellings).Keys;
      group in Outside(fold, StemCollisions(CollectStems(fold, tracked)), ShallowestOnly(spellings))
      <==> (exists f :: IsStemGroup(fold, tracked, f, group))
           && !FirstBelow(fold, group, reported) && !IsReported(fold, tracked, group, reported)
  {
    hide CollectStems, StemCollisions, TrackedPrefix, Folded, Below, IsStemGroup, ShallowestOnly;
    StemGroupExactly(fold, tracked, group);
    var paths := ShallowestOnly(spellings);
    forall f, p | f in paths ensures p in paths[f] <==> TrackedPrefix(tracked, p) && Folded(fold, p) == f {
      ReportMembers(fold, tracked, spellings, f, p);
    }
    if root :| root in paths && group * paths[root] != {} {
      var m :| m in group * paths[root];
    }
    if m :| m in group && TrackedPrefix(tracked, m) && Folded(fold, m) in paths {
      assert m in group * paths[Folded(fold, m)];
    }
  }
}
