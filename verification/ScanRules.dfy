/** Which files declare an id, which of them counts, and what is recorded of the others. */
module ScanRules {
  import opened Options
  import opened Sublists
  import opened RevisionScan

  function Files(sources: seq<Source>): seq<string> {
    seq(|sources|, i requires 0 <= i < |sources| => sources[i].path)
  }

  ghost function DeclaringAt(sources: seq<Source>, rev: string): set<nat> {
    set p: nat | p < |sources| && sources[p].parsed.Some? && sources[p].parsed.value.rev == rev
  }

  /** The files that declare an id, in scan order. */
  lemma {:induction false} DeclaringPicks(sources: seq<Source>, rev: string)
    ensures Picks(Declaring(sources, rev), Files(sources), DeclaringAt(sources, rev))
  {
    hide Picks;
    if sources == [] {
      PicksNone(Files(sources));
      assert DeclaringAt(sources, rev) == {};
    } else {
      var n := |sources| - 1;
      var front := sources[..n];
      DeclaringPicks(front, rev);
      PicksSnoc(Declaring(front, rev), Files(front), DeclaringAt(front, rev), sources[n].path, Declares(sources[n], rev));
      assert Files(sources) == Files(front) + [sources[n].path];
      assert DeclaringAt(sources, rev) == DeclaringAt(front, rev) + (if Declares(sources[n], rev) then {n} else {});
    }
  }

  /** Of the files that declare an id the last one counts. */
  lemma {:induction false} LastDeclaringExactly(sources: seq<Source>, rev: string, s: Source)
    ensures LastDeclaring(sources, rev) == Some(s)
            <==> exists i :: i in DeclaringAt(sources, rev) && sources[i] == s && forall j :: j in DeclaringAt(sources, rev) ==> j <= i
  {
    if sources != [] {
      var n := |sources| - 1;
      var front := sources[..n];
      LastDeclaringExactly(front, rev, s);
      assert DeclaringAt(sources, rev) == DeclaringAt(front, rev) + (if Declares(sources[n], rev) then {n} else {});
    }
  }

  /** Each file but the first that declares an id is recorded together with the one before it. */
  lemma {:induction false} OverwritesExactly(declaring: seq<string>, rev: string, k: nat)
    requires k + 1 < |declaring|
    ensures |OverwritesOf(declaring, rev)| == |declaring| - 1
    ensures OverwritesOf(declaring, rev)[k] == Overwrite(rev, declaring[k], declaring[k + 1])
  {
    if |declaring| > 2 {
      var front := declaring[..|declaring| - 1];
      OverwritesExactly(front, rev, if k + 2 < |declaring| then k else k - 1);
    } else {
      assert OverwritesOf(declaring[..1], rev) == [];
    }
  }

  /** The files that count as parsed are those that declare some id. */
  lemma {:induction false} ParsedPicks(sources: seq<Source>)
    ensures Picks(Parsed(sources), sources, set p: nat | p < |sources| && sources[p].parsed.Some?)
  {
    hide Picks;
    if sources == [] {
      PicksNone(sources);
      NothingParsed(sources);
    } else {
      var n := |sources| - 1;
      var front := sources[..n];
      ParsedPicks(front);
      var before := set p: nat | p < |front| && front[p].parsed.Some?;
      PicksSnoc(Parsed(front), front, before, sources[n], sources[n].parsed.Some?);
      assert sources == front + [sources[n]];
      assert (set p: nat | p < |sources| && sources[p].parsed.Some?) == before + (if sources[n].parsed.Some? then {n} else {});
    }
  }

  lemma NothingParsed(sources: seq<Source>)
    requires |sources| == 0
    ensures (set p: nat | p < |sources| && sources[p].parsed.Some?) == {}
  {
  }
}
