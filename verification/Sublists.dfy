/** What is left of a list when only some positions stay, in their order. */
module Sublists {

  /** `at` goes through the chosen positions from left to right. */
  ghost predicate Places(at: seq<nat>, chosen: set<nat>) {
    (forall i, j :: 0 <= i < j < |at| ==> at[i] < at[j])
    && forall p :: p in at <==> p in chosen
  }

  ghost predicate ReadAt<T>(r: seq<T>, s: seq<T>, at: seq<nat>) {
    |r| == |at| && forall k :: 0 <= k < |at| ==> at[k] < |s| && r[k] == s[at[k]]
  }

  /** `r` is what stands at the chosen positions of `s`. */
  ghost predicate Picks<T>(r: seq<T>, s: seq<T>, chosen: set<nat>) {
    exists at :: Places(at, chosen) && ReadAt(r, s, at)
  }

  lemma PicksNone<T>(s: seq<T>)
    ensures Picks([], s, {})
  {
    assert Places([], {}) && ReadAt([], s, []);
  }

  lemma PicksBound<T>(r: seq<T>, s: seq<T>, chosen: set<nat>)
    requires Picks(r, s, chosen)
    ensures forall p :: p in chosen ==> p < |s| && s[p] in r
    ensures forall x :: x in r ==> exists p :: p in chosen && p < |s| && s[p] == x
  {
    var at :| Places(at, chosen) && ReadAt(r, s, at);
    forall p | p in chosen ensures p < |s| && s[p] in r {
      var k :| 0 <= k < |at| && at[k] == p;
      assert r[k] == s[p];
    }
    forall x | x in r ensures exists p :: p in chosen && p < |s| && s[p] == x {
      var k :| 0 <= k < |r| && r[k] == x;
      assert at[k] in at;
    }
  }

  /** One more element at the end. */
  lemma PicksSnoc<T>(r: seq<T>, s: seq<T>, chosen: set<nat>, x: T, keep: bool)
    requires Picks(r, s, chosen)
    ensures Picks(r + (if keep then [x] else []), s + [x], chosen + (if keep then {|s|} else {}))
  {
    var at :| Places(at, chosen) && ReadAt(r, s, at);
    var last: seq<nat> := if keep then [|s|] else [];
    PlacesSnoc(at, chosen, |s|, last, chosen + (if keep then {|s|} else {}));
    ReadSnoc(r, s, at, x, keep, last);
    hide Places, ReadAt;
  }

  lemma ReadSnoc<T>(r: seq<T>, s: seq<T>, at: seq<nat>, x: T, keep: bool, last: seq<nat>)
    requires ReadAt(r, s, at) && last == if keep then [|s|] else []
    ensures ReadAt(r + (if keep then [x] else []), s + [x], at + last)
  {
  }

  lemma PlacesSnoc(at: seq<nat>, chosen: set<nat>, n: nat, last: seq<nat>, all: set<nat>)
    requires Places(at, chosen) && (forall i :: 0 <= i < |at| ==> at[i] < n)
    requires (last == [n] && all == chosen + {n}) || (last == [] && all == chosen)
    ensures Places(at + last, all)
  {
    assert forall p :: p in at + last <==> p in at || p in last;
  }

  /** One more element in front moves the other positions by one. */
  lemma PicksCons<T>(r: seq<T>, s: seq<T>, chosen: set<nat>, x: T, keep: bool, all: set<nat>)
    requires Picks(r, s, chosen)
    requires (0 in all <==> keep) && forall p: nat :: p > 0 ==> (p in all <==> p - 1 in chosen)
    ensures Picks((if keep then [x] else []) + r, [x] + s, all)
  {
    var at :| Places(at, chosen) && ReadAt(r, s, at);
    var moved: seq<nat> := seq(|at|, i requires 0 <= i < |at| => at[i] + 1);
    var front: seq<nat> := if keep then [0] else [];
    PlacesCons(at, chosen, moved, front, all);
    hide Places;
    assert ReadAt((if keep then [x] else []) + r, [x] + s, front + moved);
  }

  lemma PlacesCons(at: seq<nat>, chosen: set<nat>, moved: seq<nat>, front: seq<nat>, all: set<nat>)
    requires Places(at, chosen) && |moved| == |at| && forall i :: 0 <= i < |at| ==> moved[i] == at[i] + 1
    requires front == if 0 in all then [0] else []
    requires forall p: nat :: p > 0 ==> (p in all <==> p - 1 in chosen)
    ensures Places(front + moved, all)
  {
    var whole := front + moved;
    forall p: nat ensures p in whole <==> p in all {
      assert p in whole <==> p in front || p in moved;
      Shifted(at, chosen, moved, p);
    }
    forall i, j | 0 <= i < j < |whole| ensures whole[i] < whole[j] {
      assert whole[j] == moved[j - |front|];
      assert i >= |front| ==> whole[i] == moved[i - |front|];
    }
  }

  lemma Shifted(at: seq<nat>, chosen: set<nat>, moved: seq<nat>, p: nat)
    requires Places(at, chosen) && |moved| == |at| && forall i :: 0 <= i < |at| ==> moved[i] == at[i] + 1
    ensures p in moved <==> p > 0 && p - 1 in chosen
  {
    if p in moved {
      var i :| 0 <= i < |moved| && moved[i] == p;
      assert at[i] in at;
    }
    if p > 0 && p - 1 in chosen {
      var i :| 0 <= i < |at| && at[i] == p - 1;
      assert moved[i] == p;
    }
  }
}
