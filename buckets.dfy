/** `get_locations_to_y_tIndex`: for the final fifth of the examples (the test
    split), the positions that carry a forebrain, hindbrain or limb annotation,
    and the positions with an annotation naming none of the three. */
module Buckets {
  import opened Text

  /** The dictionary of four index lists keyed 'forebrain', 'hindbrain',
      'limb' and 'rest'. */
  datatype Buckets = Buckets(forebrain: seq<nat>, hindbrain: seq<nat>, limb: seq<nat>, rest: seq<nat>)

  /** `(8 * len(locations)) / 10` in Python 2 integer division: the first
      position of the test split. */
  function Cutoff(n: nat): (c: nat)
    ensures c <= n
    ensures 10 * c <= 8 * n < 10 * c + 10
  {
    (8 * n) / 10
  }

  /** The annotation lists of `locations[cutoff:]`, re-indexed from 0. */
  function Tail<T>(locations: seq<(T, seq<string>)>): (ys: seq<seq<string>>)
    ensures |ys| == |locations| - Cutoff(|locations|)
    ensures forall i :: 0 <= i < |ys| ==> ys[i] == locations[Cutoff(|locations|) + i].1
  {
    var c := Cutoff(|locations|);
    seq(|locations| - c, i requires 0 <= i < |locations| - c => locations[c + i].1)
  }

  /** `index`, once for every annotation of `y` that contains `kw`. */
  function Matching(y: seq<string>, kw: string, index: nat): (r: seq<nat>)
    ensures forall k :: 0 <= k < |r| ==> r[k] == index
  {
    if y == [] then []
    else Matching(y[..|y| - 1], kw, index) + (if Contains(y[|y| - 1], kw) then [index] else [])
  }

  /** The list a keyword's bucket holds after the loop has seen `ys`. */
  function Hits(ys: seq<seq<string>>, kw: string): seq<nat>
  {
    if ys == [] then []
    else Hits(ys[..|ys| - 1], kw) + Matching(ys[|ys| - 1], kw, |ys| - 1)
  }

  /** An annotation naming none of the three bucketed regions. */
  predicate Other(location: string)
  {
    !Contains(location, "forebrain") && !Contains(location, "hindbrain") && !Contains(location, "limb")
  }

  /** Some annotation of `y` contains `kw`. */
  predicate Names(y: seq<string>, kw: string)
  {
    exists j :: 0 <= j < |y| && Contains(y[j], kw)
  }

  /** Some annotation of `y` names none of the three regions. */
  predicate HasOther(y: seq<string>)
  {
    exists j :: 0 <= j < |y| && Other(y[j])
  }

  /** The 'rest' list after the loop has seen `ys`: each position with some
      other annotation, once. */
  function RestOf(ys: seq<seq<string>>): seq<nat>
  {
    if ys == [] then []
    else RestOf(ys[..|ys| - 1]) + (if HasOther(ys[|ys| - 1]) then [|ys| - 1] else [])
  }

  /** `index` occurs in `Matching` exactly when some annotation contains `kw`. */
  lemma {:induction false} MatchingMember(y: seq<string>, kw: string, index: nat)
    ensures index in Matching(y, kw, index) <==> Names(y, kw)
  {
    if y != [] {
      var init := y[..|y| - 1];
      MatchingMember(init, kw, index);
      assert forall j :: 0 <= j < |init| ==> init[j] == y[j];
    }
  }

  /** Every bucket holds positions of `ys`, in non-decreasing order. */
  lemma {:induction false} HitsSorted(ys: seq<seq<string>>, kw: string)
    ensures forall k :: 0 <= k < |Hits(ys, kw)| ==> Hits(ys, kw)[k] < |ys|
    ensures forall a, b :: 0 <= a <= b < |Hits(ys, kw)| ==> Hits(ys, kw)[a] <= Hits(ys, kw)[b]
  {
    if ys != [] {
      HitsSorted(ys[..|ys| - 1], kw);
    }
  }

  /** A position is in a keyword's bucket exactly when one of its annotations
      contains the keyword. */
  lemma {:induction false} HitsMember(ys: seq<seq<string>>, kw: string, i: int)
    ensures i in Hits(ys, kw) <==> 0 <= i < |ys| && Names(ys[i], kw)
  {
    if ys != [] {
      var init := ys[..|ys| - 1];
      HitsMember(init, kw, i);
      HitsSorted(init, kw);
      MatchingMember(ys[|ys| - 1], kw, |ys| - 1);
      if 0 <= i < |init| {
        assert init[i] == ys[i];
        assert i !in Matching(ys[|ys| - 1], kw, |ys| - 1);
      }
    }
  }

  /** 'rest' holds positions of `ys` in strictly increasing order, so no
      position twice. */
  lemma {:induction false} RestSorted(ys: seq<seq<string>>)
    ensures forall k :: 0 <= k < |RestOf(ys)| ==> RestOf(ys)[k] < |ys|
    ensures forall a, b :: 0 <= a < b < |RestOf(ys)| ==> RestOf(ys)[a] < RestOf(ys)[b]
  {
    if ys != [] {
      RestSorted(ys[..|ys| - 1]);
    }
  }

  /** A position is in 'rest' exactly when one of its annotations names none of
      the three regions. */
  lemma {:induction false} RestMember(ys: seq<seq<string>>, i: int)
    ensures i in RestOf(ys) <==> 0 <= i < |ys| && HasOther(ys[i])
  {
    if ys != [] {
      var init := ys[..|ys| - 1];
      RestMember(init, i);
      if 0 <= i < |init| {
        assert init[i] == ys[i];
      }
    }
  }

  /** One more annotation: how a keyword's list for `y[..j + 1]` follows from
      its list for `y[..j]`. */
  lemma MatchingStep(y: seq<string>, j: nat, kw: string, index: nat)
    requires j < |y|
    ensures Matching(y[..j + 1], kw, index) ==
              Matching(y[..j], kw, index) + (if Contains(y[j], kw) then [index] else [])
  {
    assert y[..j + 1][..j] == y[..j];
  }

  /** One more annotation: how `HasOther` for `y[..j + 1]` follows from
      `HasOther` for `y[..j]`. */
  lemma HasOtherStep(y: seq<string>, j: nat)
    requires j < |y|
    ensures HasOther(y[..j + 1]) <==> HasOther(y[..j]) || Other(y[j])
  {
    assert forall k :: 0 <= k < j ==> y[..j + 1][k] == y[..j][k];
  }

  /** The inner loop of `get_locations_to_y_tIndex` over the annotations `y`
      of the example at position `index`. */
  method AddExample(forebrain: seq<nat>, hindbrain: seq<nat>, limb: seq<nat>, rest: seq<nat>,
                    y: seq<string>, index: nat)
    returns (forebrain': seq<nat>, hindbrain': seq<nat>, limb': seq<nat>, rest': seq<nat>)
    ensures forebrain' == forebrain + Matching(y, "forebrain", index)
    ensures hindbrain' == hindbrain + Matching(y, "hindbrain", index)
    ensures limb' == limb + Matching(y, "limb", index)
    ensures rest' == rest + (if HasOther(y) && index !in rest then [index] else [])
  {
    forebrain', hindbrain', limb', rest' := forebrain, hindbrain, limb, rest;
    for j := 0 to |y|
      invariant forebrain' == forebrain + Matching(y[..j], "forebrain", index)
      invariant hindbrain' == hindbrain + Matching(y[..j], "hindbrain", index)
      invariant limb' == limb + Matching(y[..j], "limb", index)
      invariant rest' == rest + (if HasOther(y[..j]) && index !in rest then [index] else [])
    {
      var location := y[j];
      MatchingStep(y, j, "forebrain", index);
      if Contains(location, "forebrain") {
        forebrain' := forebrain' + [index];
      }
      assert forebrain' == forebrain + Matching(y[..j + 1], "forebrain", index);
      MatchingStep(y, j, "hindbrain", index);
      if Contains(location, "hindbrain") {
        hindbrain' := hindbrain' + [index];
      }
      assert hindbrain' == hindbrain + Matching(y[..j + 1], "hindbrain", index);
      MatchingStep(y, j, "limb", index);
      if Contains(location, "limb") {
        limb' := limb' + [index];
      }
      assert limb' == limb + Matching(y[..j + 1], "limb", index);
      HasOtherStep(y, j);
      if !Contains(location, "forebrain") && !Contains(location, "hindbrain") && !Contains(location, "limb") {
        if index !in rest' {
          rest' := rest' + [index];
        }
      }
    }
    assert y[..|y|] == y;
  }

  /** One more example: how a keyword's list for `ys[..index + 1]` follows
      from its list for `ys[..index]`. */
  lemma HitsStep(ys: seq<seq<string>>, index: nat, kw: string)
    requires index < |ys|
    ensures Hits(ys[..index + 1], kw) == Hits(ys[..index], kw) + Matching(ys[index], kw, index)
  {
    assert ys[..index + 1][..index] == ys[..index];
  }

  /** One more example: how 'rest' for `ys[..index + 1]` follows from 'rest'
      for `ys[..index]`, which does not yet hold `index`. */
  lemma RestStep(ys: seq<seq<string>>, index: nat)
    requires index < |ys|
    ensures RestOf(ys[..index + 1]) == RestOf(ys[..index]) + (if HasOther(ys[index]) then [index] else [])
    ensures index !in RestOf(ys[..index])
  {
    assert ys[..index + 1][..index] == ys[..index];
    RestSorted(ys[..index]);
  }

  /** The loop of `get_locations_to_y_tIndex` over `locations[cutoff:]`. */
  method LocationBuckets<T>(locations: seq<(T, seq<string>)>) returns (b: Buckets)
    ensures var ys := Tail(locations);
      b == Buckets(Hits(ys, "forebrain"), Hits(ys, "hindbrain"), Hits(ys, "limb"), RestOf(ys))
  {
    ghost var ys := Tail(locations);
    var cutoff := (8 * |locations|) / 10;
    var forebrain, hindbrain, limb, rest := [], [], [], [];
    var index := 0;
    while index < |locations| - cutoff
      invariant 0 <= index <= |ys|
      invariant forebrain == Hits(ys[..index], "forebrain")
      invariant hindbrain == Hits(ys[..index], "hindbrain")
      invariant limb == Hits(ys[..index], "limb")
      invariant rest == RestOf(ys[..index])
    {
      var y := locations[cutoff + index].1;
      assert y == ys[index];
      HitsStep(ys, index, "forebrain");
      HitsStep(ys, index, "hindbrain");
      HitsStep(ys, index, "limb");
      RestStep(ys, index);
      if |y| > 0 {
        forebrain, hindbrain, limb, rest := AddExample(forebrain, hindbrain, limb, rest, y, index);
      }
      index := index + 1;
    }
    assert ys[..|ys|] == ys;
    b := Buckets(forebrain, hindbrain, limb, rest);
  }

  /** What the dictionary promises: every index lies in `[0, n - cutoff)`, the
      three region lists are non-decreasing, 'rest' has no duplicates, and each
      list holds exactly the positions with a matching annotation. */
  lemma BucketsProperties<T>(locations: seq<(T, seq<string>)>)
    ensures var ys := Tail(locations);
      var n := |locations| - Cutoff(|locations|);
      (forall kw, k :: kw in ["forebrain", "hindbrain", "limb"] && 0 <= k < |Hits(ys, kw)| ==>
         Hits(ys, kw)[k] < n) &&
      (forall kw, a, b :: kw in ["forebrain", "hindbrain", "limb"] && 0 <= a <= b < |Hits(ys, kw)| ==>
         Hits(ys, kw)[a] <= Hits(ys, kw)[b]) &&
      (forall k :: 0 <= k < |RestOf(ys)| ==> RestOf(ys)[k] < n) &&
      (forall a, b :: 0 <= a < b < |RestOf(ys)| ==> RestOf(ys)[a] != RestOf(ys)[b])
    ensures var ys := Tail(locations);
      forall kw, i :: kw in ["forebrain", "hindbrain", "limb"] ==>
        (i in Hits(ys, kw) <==> 0 <= i < |ys| && Names(ys[i], kw))
    ensures var ys := Tail(locations);
      forall i :: i in RestOf(ys) <==> 0 <= i < |ys| && HasOther(ys[i])
  {
    var ys := Tail(locations);
    forall kw | kw in ["forebrain", "hindbrain", "limb"] {
      HitsSorted(ys, kw);
    }
    RestSorted(ys);
    forall kw, i | kw in ["forebrain", "hindbrain", "limb"] {
      HitsMember(ys, kw, i);
    }
    forall i {
      RestMember(ys, i);
    }
  }
}
