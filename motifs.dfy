/** The two motif features appended to the k-mer counts: an E-box indicator
    (`re.search("ca[atcg]{2}tg", s)`) and a TAAT-core indicator
    (`re.match("^([atgc])+(taat)([atcg])+$", s)`), each 1.0 or 0.0. */
module Motifs {
  import opened Failures
  import opened Text
  import opened Strand

  /** The E-box pattern `ca[atcg]{2}tg` occurs at position `i`. */
  predicate EboxAt(s: string, i: int)
  {
    0 <= i && i + 6 <= |s| &&
    s[i] == 'c' && s[i + 1] == 'a' && s[i + 2] in "acgt" && s[i + 3] in "acgt" &&
    s[i + 4] == 't' && s[i + 5] == 'g'
  }

  /** The scan of `re.search` from position `i` onwards. */
  function EboxFrom(s: string, i: nat): (b: bool)
    requires i <= |s|
    ensures b <==> exists j :: i <= j && EboxAt(s, j)
    decreases |s| - i
  {
    if i + 6 > |s| then false
    else if EboxAt(s, i) then true
    else
      var b := EboxFrom(s, i + 1);
      assert (exists j :: i <= j && EboxAt(s, j)) ==> (exists j :: i + 1 <= j && EboxAt(s, j)) by {
        if exists j :: i <= j && EboxAt(s, j) {
          var j :| i <= j && EboxAt(s, j);
          assert j != i;
        }
      }
      b
  }

  /** `re.search("ca[atcg]{2}tg", s)` succeeds: the pattern occurs somewhere. */
  function HasEbox(s: string): (b: bool)
    ensures b <==> exists i :: EboxAt(s, i)
  {
    EboxFrom(s, 0)
  }

  /** The E-box indicator of one sequence. */
  function EboxIndicator(s: string): (r: real)
    ensures r == 0.0 || r == 1.0
    ensures r == 1.0 <==> exists i :: EboxAt(s, i)
  {
    if HasEbox(s) then 1.0 else 0.0
  }

  /** The regular expression `([atgc])+(taat)([atcg])+` read declaratively:
      `t` is a non-empty run of bases, then `taat`, then a non-empty run of
      bases, with the `taat` at position `i`. */
  predicate TaatSplitAt(t: string, i: int)
  {
    1 <= i && i + 5 <= |t| && IsLowerStrand(t[..i]) && t[i..i + 4] == "taat" && IsLowerStrand(t[i + 4..])
  }

  /** `re.match` with the anchors `^...$`: Python's `$` matches at the end of
      the string or just before a newline that ends it. */
  ghost predicate TaatMatches(s: string)
  {
    Splits(s) || (|s| > 0 && s[|s| - 1] == '\n' && Splits(s[..|s| - 1]))
  }

  /** Some split of `t` matches the unanchored pattern. */
  ghost predicate Splits(t: string)
  {
    exists i :: TaatSplitAt(t, i)
  }

  /** The text the pattern has to cover: the string without one trailing newline. */
  function Body(s: string): (t: string)
    ensures |t| <= |s| && t == s[..|t|]
  {
    if |s| > 0 && s[|s| - 1] == '\n' then s[..|s| - 1] else s
  }

  /** The TAAT test as a scan: the body is all bases and `taat` occurs with
      at least one base on either side. */
  function HasTaatCore(s: string): (b: bool)
  {
    var t := Body(s);
    |t| >= 6 && IsLowerStrand(t) && Contains(t[1..|t| - 1], "taat")
  }

  /** On an all-bases string, a split at `i` is an occurrence of `taat`
      strictly inside it, and conversely. */
  lemma TaatSplitIff(t: string)
    requires IsLowerStrand(t)
    ensures Splits(t) <==> |t| >= 6 && Contains(t[1..|t| - 1], "taat")
  {
    if |t| >= 2 {
      ContainsMeaning(t[1..|t| - 1], "taat");
    }
    if Splits(t) {
      var i :| TaatSplitAt(t, i);
      SliceOfSlice(t, 1, |t| - 1, i - 1, i + 3);
      assert OccursAt(t[1..|t| - 1], "taat", i - 1);
    }
    if |t| >= 6 && Contains(t[1..|t| - 1], "taat") {
      var j :| OccursAt(t[1..|t| - 1], "taat", j);
      SliceOfSlice(t, 1, |t| - 1, j, j + 4);
      LowerStrandSlice(t, 0, j + 1);
      LowerStrandSlice(t, j + 5, |t|);
      assert t[0..j + 1] == t[..j + 1] && t[j + 5..|t|] == t[j + 5..];
      assert TaatSplitAt(t, j + 1);
    }
  }

  /** A slice of a slice is a slice of the original. */
  lemma SliceOfSlice(t: string, a: int, b: int, c: int, d: int)
    requires 0 <= a <= b <= |t| && 0 <= c <= d <= b - a
    ensures t[a..b][c..d] == t[a + c..a + d]
  {
    forall k | 0 <= k < d - c
      ensures t[a..b][c..d][k] == t[a + c..a + d][k]
    {
      assert t[a..b][c..d][k] == t[a..b][c + k] == t[a + c + k];
    }
  }

  /** Every slice of an all-bases string is all bases. */
  lemma LowerStrandSlice(t: string, a: int, b: int)
    requires IsLowerStrand(t) && 0 <= a <= b <= |t|
    ensures IsLowerStrand(t[a..b])
  {
    forall k | 0 <= k < b - a
      ensures t[a..b][k] in "acgt"
    {
      assert t[a..b][k] == t[a + k];
    }
  }

  /** A split covers only bases, so the whole string is bases. */
  lemma SplitsOnlyBases(t: string)
    ensures Splits(t) ==> IsLowerStrand(t)
  {
    if |t| >= 2 {
      ContainsMeaning(t[1..|t| - 1], "taat");
    }
    if Splits(t) {
      var i :| TaatSplitAt(t, i);
      forall k | 0 <= k < |t|
        ensures t[k] in "acgt"
      {
        if k < i {
          assert t[..i][k] == t[k];
        } else if k < i + 4 {
          assert t[i..i + 4][k - i] == t[k];
        } else {
          assert t[i + 4..][k - i - 4] == t[k];
        }
      }
    }
  }

  /** The scan decides exactly the anchored regular expression. */
  lemma HasTaatCoreMeaning(s: string)
    ensures HasTaatCore(s) <==> TaatMatches(s)
  {
    var t := Body(s);
    SplitsOnlyBases(t);
    SplitsOnlyBases(s);
    if IsLowerStrand(t) {
      TaatSplitIff(t);
    }
    if |s| > 0 && s[|s| - 1] == '\n' {
      assert s[|s| - 1] !in "acgt";
    }
  }

  /** The TAAT-core indicator of one sequence. */
  function TaatIndicator(s: string): (r: real)
    ensures r == 0.0 || r == 1.0
  {
    if HasTaatCore(s) then 1.0 else 0.0
  }

  /** The indicator is 1.0 exactly when the anchored regular expression matches. */
  lemma TaatIndicatorMeaning(s: string)
    ensures TaatIndicator(s) == 1.0 <==> TaatMatches(s)
  {
    HasTaatCoreMeaning(s);
  }

  /** `get_Ebox_col` applied to the sequences themselves: one indicator per
      sequence, in order. */
  function EboxColumn(seqs: seq<string>): (col: seq<real>)
    ensures |col| == |seqs|
    ensures forall i :: 0 <= i < |seqs| ==> (col[i] == 1.0 <==> exists j :: EboxAt(seqs[i], j))
    ensures forall i :: 0 <= i < |seqs| ==> col[i] == 0.0 || col[i] == 1.0
  {
    seq(|seqs|, i requires 0 <= i < |seqs| => EboxIndicator(seqs[i]))
  }

  /** `get_TAAT_core_col` applied to the sequences themselves. */
  function TaatColumn(seqs: seq<string>): (col: seq<real>)
    ensures |col| == |seqs|
    ensures forall i :: 0 <= i < |seqs| ==> col[i] == TaatIndicator(seqs[i])
  {
    seq(|seqs|, i requires 0 <= i < |seqs| => TaatIndicator(seqs[i]))
  }

  /** Every entry of the TAAT column is 1.0 exactly when its sequence matches. */
  lemma TaatColumnMeaning(seqs: seq<string>)
    ensures forall i :: 0 <= i < |seqs| ==>
              (TaatColumn(seqs)[i] == 1.0 <==> TaatMatches(seqs[i])) &&
              (TaatColumn(seqs)[i] == 0.0 || TaatColumn(seqs)[i] == 1.0)
  {
    forall i | 0 <= i < |seqs| {
      TaatIndicatorMeaning(seqs[i]);
    }
  }

  /** `[x[1] for x in examples]`: the second character of every example, or
      the `IndexError` of an example shorter than two characters. */
  function SecondCharacters(examples: seq<string>): (r: Result<seq<string>>)
    ensures r.Err? <==> exists i :: 0 <= i < |examples| && |examples[i]| < 2
    ensures r.Err? ==> r.error == IndexError
    ensures r.Ok? ==> |r.value| == |examples|
    ensures r.Ok? ==> forall i :: 0 <= i < |examples| ==> r.value[i] == [examples[i][1]]
  {
    if exists i :: 0 <= i < |examples| && |examples[i]| < 2 then Err(IndexError)
    else Ok(seq(|examples|, i requires 0 <= i < |examples| => examples[i][1..2]))
  }

  /** `get_Ebox_col` as written: the pattern is searched in `x[1]`. */
  function EboxColumnAsWritten(examples: seq<string>): (r: Result<seq<real>>)
    ensures r.Err? <==> SecondCharacters(examples).Err?
  {
    match SecondCharacters(examples)
    case Err(e) => Err(e)
    case Ok(chars) => Ok(EboxColumn(chars))
  }

  /** `get_TAAT_core_col` as written: the pattern is matched against `x[1]`. */
  function TaatColumnAsWritten(examples: seq<string>): (r: Result<seq<real>>)
    ensures r.Err? <==> SecondCharacters(examples).Err?
  {
    match SecondCharacters(examples)
    case Err(e) => Err(e)
    case Ok(chars) => Ok(TaatColumn(chars))
  }

  /** A one-character string matches neither motif. */
  lemma NoMotifInOneCharacter(c: char)
    ensures EboxIndicator([c]) == 0.0
    ensures TaatIndicator([c]) == 0.0
  {
  }

  /** The as-written columns are constant: whenever they are computed, every
      entry is 0.0, whatever the sequences contain. */
  lemma MotifColumnsAsWrittenAreZero(examples: seq<string>)
    ensures EboxColumnAsWritten(examples).Ok? ==> forall i :: 0 <= i < |examples| ==> EboxColumnAsWritten(examples).value[i] == 0.0
    ensures TaatColumnAsWritten(examples).Ok? ==> forall i :: 0 <= i < |examples| ==> TaatColumnAsWritten(examples).value[i] == 0.0
  {
    if SecondCharacters(examples).Ok? {
      var chars := SecondCharacters(examples).value;
      forall i | 0 <= i < |examples| {
        NoMotifInOneCharacter(examples[i][1]);
      }
    }
  }

  /** A sequence with an E-box for which the as-written column reports none
      and the corrected column reports one. */
  lemma EboxColumnDiscrepancy()
    ensures EboxColumnAsWritten(["cacgtg"]) == Ok([0.0])
    ensures EboxColumn(["cacgtg"]) == [1.0]
  {
    var ex := ["cacgtg"];
    assert EboxAt(ex[0], 0);
    assert |ex[0]| == 6;
    assert SecondCharacters(ex).Ok?;
    MotifColumnsAsWrittenAreZero(ex);
    var col := EboxColumnAsWritten(ex).value;
    assert |col| == 1 && col[0] == 0.0;
    assert col == [0.0];
  }

  /** A sequence with a TAAT core for which the as-written column reports none
      and the corrected column reports one. */
  lemma TaatColumnDiscrepancy()
    ensures TaatColumnAsWritten(["ataatc"]) == Ok([0.0])
    ensures TaatColumn(["ataatc"]) == [1.0]
  {
    var ex := ["ataatc"];
    var t := ex[0];
    assert |t| == 6 && IsLowerStrand(t) && Body(t) == t;
    assert t[1..|t| - 1] == "taat";
    assert t[1..|t| - 1][..4] == "taat";
    assert Contains(t[1..|t| - 1], "taat");
    assert HasTaatCore(t);
    assert SecondCharacters(ex).Ok?;
    MotifColumnsAsWrittenAreZero(ex);
    var col := TaatColumnAsWritten(ex).value;
    assert |col| == 1 && col[0] == 0.0;
    assert col == [0.0];
  }
}
