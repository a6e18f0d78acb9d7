/** Scanning revision files into a revision graph, and grouping duplicated ids. */
module RevisionScan {
  import opened Options
  import opened Orders
  import opened RhsTokens

  /** One parsed file: the id it declares and the text of its `down_revision`. */
  datatype Declaration = Declaration(rev: string, down: string)

  /** A versions directory, in the order it is read. Files that declare no id hold `None`. */
  datatype Source = Source(path: string, parsed: Option<Declaration>)

  /** A file that declared an id already taken: the id, the previous holder, the file. */
  datatype Overwrite = Overwrite(rev: string, first: string, second: string)

  datatype Scan = Scan(
    fileCount: nat,
    revisions: map<string, string>,
    paths: map<string, string>,
    heads: seq<string>,
    parsedCount: nat,
    duplicates: seq<Overwrite>)

  /** The files that declare an id, in scan order. */
  function Parsed(sources: seq<Source>): (r: seq<Source>)
    ensures forall i :: 0 <= i < |r| ==> r[i].parsed.Some?
  {
    if sources == [] then []
    else
      var last := sources[|sources| - 1];
      Parsed(sources[..|sources| - 1]) + (if last.parsed.Some? then [last] else [])
  }

  /** The files that declare `rev`, in scan order. */
  function Declaring(sources: seq<Source>, rev: string): seq<string> {
    if sources == [] then []
    else
      var last := sources[|sources| - 1];
      Declaring(sources[..|sources| - 1], rev)
        + (if Declares(last, rev) then [last.path] else [])
  }

  ghost predicate Names(source: Source, rev: string) {
    source.parsed.Some? && rev in ParentRefs(source.parsed.value.down)
  }

  /** Some file, overwritten or not, names `rev` as a parent. */
  ghost predicate NamedBySome(sources: seq<Source>, rev: string) {
    exists i :: 0 <= i < |sources| && Names(sources[i], rev)
  }

  ghost predicate DistinctPaths(sources: seq<Source>) {
    forall i, j :: 0 <= i < j < |sources| ==> sources[i].path != sources[j].path
  }

  /** The duplicates that scanning `sources` records for `rev`: one per overwrite. */
  function OverwritesOf(declaring: seq<string>, rev: string): seq<Overwrite> {
    if |declaring| < 2 then []
    else OverwritesOf(declaring[..|declaring| - 1], rev)
         + [Overwrite(rev, declaring[|declaring| - 2], declaring[|declaring| - 1])]
  }

  function ForRevision(duplicates: seq<Overwrite>, rev: string): seq<Overwrite> {
    if duplicates == [] then []
    else
      var last := duplicates[|duplicates| - 1];
      ForRevision(duplicates[..|duplicates| - 1], rev) + (if last.rev == rev then [last] else [])
  }

  /** Inserting `x` into a sorted listing. */
  function Insert(s: seq<string>, x: string): seq<string> {
    if s == [] || Before(x, s[0]) then [x] + s
    else if x == s[0] then s
    else [s[0]] + Insert(s[1..], x)
  }

  lemma {:induction false} InsertLists(s: seq<string>, x: string, elements: set<string>)
    requires Lists(s, elements)
    ensures Lists(Insert(s, x), elements + {x})
  {
    var r := Insert(s, x);
    if s == [] || x == s[0] {
    } else if Before(x, s[0]) {
      forall j | 0 < j < |r| ensures Before(r[0], r[j]) {
        FirstIsLeast(s, s[j - 1]);
        if s[j - 1] != s[0] {
          BeforeTransitive(x, s[0], s[j - 1]);
        }
      }
    } else {
      TailLists(s, elements);
      InsertLists(s[1..], x, elements - {s[0]});
      var rest := Insert(s[1..], x);
      forall j | 0 <= j < |rest| ensures Before(s[0], rest[j]) {
        assert rest[j] in elements - {s[0]} + {x};
        if rest[j] == x {
          BeforeTotal(s[0], x);
        } else {
          assert rest[j] in s;
          FirstIsLeast(s, rest[j]);
        }
      }
      assert s == [s[0]] + s[1..];
      forall y ensures y in r <==> y in elements + {x} {
        assert y in r <==> y == s[0] || y in rest;
      }
    }
  }

  /** `sorted` over a set of ids. */
  method SortIds(ids: set<string>) returns (s: seq<string>)
    ensures Lists(s, ids)
  {
    s := [];
    var left := ids;
    while left != {}
      invariant left <= ids && Lists(s, ids - left)
    {
      var x :| x in left;
      InsertLists(s, x, ids - left);
      s := Insert(s, x);
      left := left - {x};
      assert ids - left == ids - (left + {x}) + {x};
    }
    assert ids - left == ids;
  }

  predicate Declares(source: Source, rev: string) {
    source.parsed.Some? && source.parsed.value.rev == rev
  }

  /** The last file that declares `rev`. */
  function LastDeclaring(sources: seq<Source>, rev: string): (r: Option<Source>)
    ensures r.Some? ==> r.value.parsed.Some?
  {
    if sources == [] then None
    else if Declares(sources[|sources| - 1], rev) then Some(sources[|sources| - 1])
    else LastDeclaring(sources[..|sources| - 1], rev)
  }

  lemma {:induction false} LastOfDeclaring(sources: seq<Source>, rev: string)
    ensures Declaring(sources, rev) == [] <==> LastDeclaring(sources, rev).None?
    ensures LastDeclaring(sources, rev).Some? ==>
      LastDeclaring(sources, rev).value.path == Declaring(sources, rev)[|Declaring(sources, rev)| - 1]
  {
    if sources != [] {
      LastOfDeclaring(sources[..|sources| - 1], rev);
    }
  }

  /** Both dictionaries hold exactly the declared ids, with what the last file of each says. */
  ghost predicate LastDeclarations(sources: seq<Source>, revisions: map<string, string>, paths: map<string, string>) {
    revisions.Keys == paths.Keys
    && (forall rev :: rev in revisions <==> LastDeclaring(sources, rev).Some?)
    && (forall rev :: rev in revisions ==>
          revisions[rev] == LastDeclaring(sources, rev).value.parsed.value.down && paths[rev] == LastDeclaring(sources, rev).value.path)
  }

  lemma DeclaringStep(sources: seq<Source>, n: nat, rev: string)
    requires n < |sources|
    ensures Declaring(sources[..n + 1], rev) == Declaring(sources[..n], rev)
      + (if Declares(sources[n], rev) then [sources[n].path] else [])
  {
    assert sources[..n + 1][..n] == sources[..n];
  }

  /** What one more file does to the last declarations. */
  lemma DeclareStep(sources: seq<Source>, n: nat, revisions: map<string, string>, paths: map<string, string>)
    requires n < |sources| && LastDeclarations(sources[..n], revisions, paths)
    ensures sources[n].parsed.None? ==> LastDeclarations(sources[..n + 1], revisions, paths)
    ensures sources[n].parsed.Some? ==>
      var d := sources[n].parsed.value;
      LastDeclarations(sources[..n + 1], revisions[d.rev := d.down], paths[d.rev := sources[n].path])
  {
    forall rev
      ensures LastDeclaring(sources[..n + 1], rev) == if Declares(sources[n], rev) then Some(sources[n]) else LastDeclaring(sources[..n], rev)
    {
      assert sources[..n + 1][..n] == sources[..n];
    }
  }

  ghost predicate DuplicatesKept(sources: seq<Source>, duplicates: seq<Overwrite>) {
    forall rev :: ForRevision(duplicates, rev) == OverwritesOf(Declaring(sources, rev), rev)
  }

  lemma ForRevisionStep(duplicates: seq<Overwrite>, entry: Overwrite, rev: string)
    ensures ForRevision(duplicates + [entry], rev)
         == ForRevision(duplicates, rev) + (if entry.rev == rev then [entry] else [])
  {
    assert (duplicates + [entry])[..|duplicates|] == duplicates;
  }

  lemma OverwritesStep(declaring: seq<string>, path: string, rev: string)
    ensures OverwritesOf(declaring + [path], rev) == OverwritesOf(declaring, rev)
      + (if declaring == [] then [] else [Overwrite(rev, declaring[|declaring| - 1], path)])
  {
    assert (declaring + [path])[..|declaring|] == declaring;
  }

  /** What one more file does to the recorded overwrites. */
  lemma OverwriteStep(sources: seq<Source>, n: nat, duplicates: seq<Overwrite>)
    requires n < |sources| && DuplicatesKept(sources[..n], duplicates)
    ensures sources[n].parsed.None? ==> DuplicatesKept(sources[..n + 1], duplicates)
    ensures sources[n].parsed.Some? ==>
      var holders := Declaring(sources[..n], sources[n].parsed.value.rev);
      DuplicatesKept(sources[..n + 1],
        if holders == [] then duplicates
        else duplicates + [Overwrite(sources[n].parsed.value.rev, holders[|holders| - 1], sources[n].path)])
  {
    forall rev
      ensures Declaring(sources[..n + 1], rev) == Declaring(sources[..n], rev)
        + (if Declares(sources[n], rev) then [sources[n].path] else [])
    {
      DeclaringStep(sources, n, rev);
    }
    if sources[n].parsed.None? {
      forall rev ensures ForRevision(duplicates, rev) == OverwritesOf(Declaring(sources[..n + 1], rev), rev) {
        assert Declaring(sources[..n], rev) + [] == Declaring(sources[..n], rev);
      }
    } else {
      var holder := sources[n].parsed.value.rev;
      var holders := Declaring(sources[..n], holder);
      var duplicates' := if holders == [] then duplicates
        else duplicates + [Overwrite(holder, holders[|holders| - 1], sources[n].path)];
      forall rev ensures ForRevision(duplicates', rev) == OverwritesOf(Declaring(sources[..n + 1], rev), rev) {
        OverwritesStep(Declaring(sources[..n], rev), sources[n].path, rev);
        assert Declaring(sources[..n], rev) + [] == Declaring(sources[..n], rev);
        if holders != [] {
          ForRevisionStep(duplicates, Overwrite(holder, holders[|holders| - 1], sources[n].path), rev);
        }
      }
    }
  }

  ghost predicate Collects(parents: set<string>, sources: seq<Source>) {
    forall rev :: rev in parents <==> NamedBySome(sources, rev)
  }

  function RefsOf(source: Source): (r: set<string>)
    ensures source.parsed.None? ==> r == {}
  {
    if source.parsed.None? then {} else set p | p in ParentRefs(source.parsed.value.down)
  }

  lemma NamedStep(sources: seq<Source>, n: nat, parents: set<string>)
    requires n < |sources| && Collects(parents, sources[..n])
    ensures Collects(parents + RefsOf(sources[n]), sources[..n + 1])
  {
    forall rev ensures rev in parents + RefsOf(sources[n]) <==> NamedBySome(sources[..n + 1], rev) {
      assert Names(sources[n], rev) <==> rev in RefsOf(sources[n]);
      if NamedBySome(sources[..n], rev) {
        var i :| 0 <= i < n && Names(sources[..n][i], rev);
        assert Names(sources[..n + 1][i], rev);
      }
      if Names(sources[n], rev) {
        assert Names(sources[..n + 1][n], rev);
      }
      if NamedBySome(sources[..n + 1], rev) {
        var i :| 0 <= i < n + 1 && Names(sources[..n + 1][i], rev);
        assert i < n ==> Names(sources[..n][i], rev);
      }
    }
  }

  lemma NothingScanned()
    ensures LastDeclarations([], map[], map[]) && Collects({}, []) && DuplicatesKept([], [])
  {
  }

  lemma Collected(sources: seq<Source>, parents: set<string>, revisions: map<string, string>)
    requires Collects(parents, sources)
    ensures (set rev | rev in revisions && rev !in parents) == set rev | rev in revisions && !NamedBySome(sources, rev)
  {
  }

  /**
   The scan. Heads are the declared ids that no parsed file names, files whose id
   was taken over by a later one included; every overwrite is recorded.
   */
  method ScanSources(sources: seq<Source>) returns (scan: Scan)
    ensures scan.fileCount == |sources| && scan.parsedCount == |Parsed(sources)|
    ensures LastDeclarations(sources, scan.revisions, scan.paths)
    ensures scan.parsedCount == |scan.revisions| + |scan.duplicates|
    ensures Lists(scan.heads, set rev | rev in scan.revisions && !NamedBySome(sources, rev))
    ensures DuplicatesKept(sources, scan.duplicates)
  {
    hide DuplicatesKept, Collects, NamedBySome, RefsOf, ParentRefs;
    NothingScanned();
    var revisions: map<string, string> := map[];
    var paths: map<string, string> := map[];
    var parents: set<string> := {};
    var duplicates: seq<Overwrite> := [];
    var parsedCount := 0;
    for n := 0 to |sources|
      invariant parsedCount == |Parsed(sources[..n])| == |revisions| + |duplicates|
      invariant LastDeclarations(sources[..n], revisions, paths)
      invariant Collects(parents, sources[..n])
      invariant DuplicatesKept(sources[..n], duplicates)
    {
      assert sources[..n + 1][..n] == sources[..n];
      NamedStep(sources, n, parents);
      DeclareStep(sources, n, revisions, paths);
      OverwriteStep(sources, n, duplicates);
      if sources[n].parsed.Some? {
        var rev, down := sources[n].parsed.value.rev, sources[n].parsed.value.down;
        LastOfDeclaring(sources[..n], rev);
        parsedCount := parsedCount + 1;
        if rev in revisions {
          duplicates := duplicates + [Overwrite(rev, paths[rev], sources[n].path)];
        }
        revisions := revisions[rev := down];
        paths := paths[rev := sources[n].path];
        parents := parents + RefsOf(sources[n]);
      } else {
        assert parents + RefsOf(sources[n]) == parents;
      }
    }
    assert sources[..|sources|] == sources;
    var heads := SortIds(set rev | rev in revisions && rev !in parents);
    Collected(sources, parents, revisions);
    scan := Scan(|sources|, revisions, paths, heads, parsedCount, duplicates);
  }

  // -------------------------------------------------------- duplicate groups

  /** What grouping leaves for `rev`: the first holder, then each later one once. */
  function Group(duplicates: seq<Overwrite>, rev: string): seq<string> {
    if duplicates == [] then []
    else
      var last := duplicates[|duplicates| - 1];
      var files := Group(duplicates[..|duplicates| - 1], rev);
      if last.rev != rev then files
      else
        var held := if files == [] then [last.first] else files;
        if last.second in held then held else held + [last.second]
  }

  method DuplicateGroups(duplicates: seq<Overwrite>) returns (groups: map<string, seq<string>>)
    ensures forall rev :: rev in groups <==> Group(duplicates, rev) != []
    ensures forall rev :: rev in groups ==> groups[rev] == Group(duplicates, rev)
  {
    groups := map[];
    for n := 0 to |duplicates|
      invariant forall rev :: rev in groups <==> Group(duplicates[..n], rev) != []
      invariant forall rev :: rev in groups ==> groups[rev] == Group(duplicates[..n], rev)
    {
      assert duplicates[..n + 1][..n] == duplicates[..n];
      var entry := duplicates[n];
      if entry.rev !in groups {
        groups := groups[entry.rev := [entry.first]];
      }
      var files := groups[entry.rev];
      if entry.second !in files {
        groups := groups[entry.rev := files + [entry.second]];
      }
    }
    assert duplicates[..|duplicates|] == duplicates;
  }

  ghost predicate NoRepeats(s: seq<string>) {
    forall i, j :: 0 <= i < j < |s| ==> s[i] != s[j]
  }

  /** A file listed by `Declaring` stands in the directory. */
  lemma {:induction false} DeclaringIn(sources: seq<Source>, rev: string, path: string)
    requires path in Declaring(sources, rev)
    ensures exists i :: 0 <= i < |sources| && sources[i].path == path
  {
    var n := |sources| - 1;
    if path == sources[n].path {
    } else {
      DeclaringIn(sources[..n], rev, path);
      var i :| 0 <= i < n && sources[..n][i].path == path;
      assert sources[i].path == path;
    }
  }

  lemma {:induction false} DeclaringDistinct(sources: seq<Source>, rev: string)
    requires DistinctPaths(sources)
    ensures NoRepeats(Declaring(sources, rev))
  {
    if sources != [] {
      var n := |sources| - 1;
      DeclaringDistinct(sources[..n], rev);
      if sources[n].path in Declaring(sources[..n], rev) {
        DeclaringIn(sources[..n], rev, sources[n].path);
      }
    }
  }

  lemma GroupStep(duplicates: seq<Overwrite>, entry: Overwrite, rev: string)
    ensures Group(duplicates + [entry], rev) ==
      var files := Group(duplicates, rev);
      if entry.rev != rev then files
      else
        var held := if files == [] then [entry.first] else files;
        if entry.second in held then held else held + [entry.second]
  {
    assert (duplicates + [entry])[..|duplicates|] == duplicates;
  }

  /** Other ids' overwrites do not matter to an id's group. */
  lemma {:induction false} GroupOnlyOwn(duplicates: seq<Overwrite>, rev: string)
    ensures Group(duplicates, rev) == Group(ForRevision(duplicates, rev), rev)
  {
    if duplicates != [] {
      var n := |duplicates| - 1;
      GroupOnlyOwn(duplicates[..n], rev);
      assert duplicates == duplicates[..n] + [duplicates[n]];
      GroupStep(duplicates[..n], duplicates[n], rev);
      GroupStep(ForRevision(duplicates[..n], rev), duplicates[n], rev);
      ForRevisionStep(duplicates[..n], duplicates[n], rev);
      assert ForRevision(duplicates[..n], rev) + [] == ForRevision(duplicates[..n], rev);
    }
  }

  lemma {:induction false} GroupOfOverwrites(declaring: seq<string>, rev: string)
    requires NoRepeats(declaring)
    ensures Group(OverwritesOf(declaring, rev), rev) == if |declaring| < 2 then [] else declaring
  {
    if |declaring| >= 2 {
      var n := |declaring| - 1;
      hide Group, OverwritesOf, NoRepeats;
      var front := declaring[..n];
      FrontDistinct(declaring);
      GroupOfOverwrites(front, rev);
      assert declaring == front + [declaring[n]];
      OverwritesStep(front, declaring[n], rev);
      GroupStep(OverwritesOf(front, rev), Overwrite(rev, front[n - 1], declaring[n]), rev);
      assert n == 1 ==> front == [declaring[0]];
    } else {
      NoGroup(declaring, rev);
    }
  }

  lemma FrontDistinct(s: seq<string>)
    requires NoRepeats(s) && s != []
    ensures NoRepeats(s[..|s| - 1]) && s[|s| - 1] !in s[..|s| - 1]
  {
  }

  lemma NoGroup(declaring: seq<string>, rev: string)
    requires |declaring| < 2
    ensures Group(OverwritesOf(declaring, rev), rev) == []
  {
  }

  /**
   The groups reported for a scan name exactly the ids declared by two files or
   more, each with every file that declares it, in scan order.
   */
  lemma GroupsListEveryFile(sources: seq<Source>, duplicates: seq<Overwrite>, rev: string)
    requires DistinctPaths(sources)
    requires ForRevision(duplicates, rev) == OverwritesOf(Declaring(sources, rev), rev)
    ensures Group(duplicates, rev) == if |Declaring(sources, rev)| < 2 then [] else Declaring(sources, rev)
  {
    DeclaringDistinct(sources, rev);
    GroupOnlyOwn(duplicates, rev);
    GroupOfOverwrites(Declaring(sources, rev), rev);
  }
}
