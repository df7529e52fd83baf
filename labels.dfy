/** Labels read from a FASTA description `id|coords|name|positive-or-negative|
    annotation|annotation|...`: the enhancer sign, the tissue class and the
    brain-region class, the latter two chosen by the annotation with the largest
    count `name[count/total]`. */
module Labels {
  import opened Failures
  import opened Text

  /** `locfd`: the annotation fields, everything after the fourth `|`-field. */
  function Locations(description: string): (r: seq<string>)
    ensures var fields := Split(description, '|');
      (|fields| <= 4 ==> r == []) && (|fields| > 4 ==> fields == fields[..4] + r)
    ensures forall i :: 0 <= i < |r| ==> '|' !in r[i]
  {
    var fields := Split(description, '|');
    if |fields| <= 4 then []
    else
      assert fields == fields[..4] + fields[4..];
      fields[4..]
  }

  /** Annotation fields written into a description are read back unchanged. */
  lemma LocationsOfJoin(head: seq<string>, annotations: seq<string>)
    requires |head| == 4
    requires forall i :: 0 <= i < |head| ==> '|' !in head[i]
    requires forall i :: 0 <= i < |annotations| ==> '|' !in annotations[i]
    ensures Locations(Join(head + annotations, '|')) == annotations
  {
    SplitJoin(head + annotations, '|');
  }

  /** `lts`: the sign of a label. */
  function SignOf(name: string): (r: int)
    ensures r == 1 || r == -1
    ensures r == 1 <==> name == "positive"
  {
    if name == "positive" then 1 else -1
  }

  /** `lfd`: the sign of the stripped fourth field; fewer than four fields is the
      `IndexError` of `split("|")[3]`. */
  function BinaryLabel(description: string): (r: Result<int>)
    ensures r.Err? <==> |Split(description, '|')| < 4
    ensures r.Err? ==> r.error == IndexError
    ensures r.Ok? ==> (r.value == 1 || r.value == -1)
    ensures r.Ok? ==> (r.value == 1 <==> Strip(Split(description, '|')[3]) == "positive")
  {
    var fields := Split(description, '|');
    if |fields| < 4 then Err(IndexError) else Ok(SignOf(Strip(fields[3])))
  }

  /** The label of a description built from fields is the sign of its fourth field. */
  lemma BinaryLabelOfJoin(fields: seq<string>)
    requires |fields| >= 4
    requires forall i :: 0 <= i < |fields| ==> '|' !in fields[i]
    ensures BinaryLabel(Join(fields, '|')) == Ok(SignOf(Strip(fields[3])))
  {
    SplitJoin(fields, '|');
  }

  /** `iftl`: brain 1, limb 2, neural 3, anything else 0. */
  function TissueCode(name: string): (r: int)
    ensures 0 <= r <= 3
    ensures r == 1 <==> name == "brain"
    ensures r == 2 <==> name == "limb"
    ensures r == 3 <==> name == "neural"
  {
    if name == "brain" then 1
    else if name == "limb" then 2
    else if name == "neural" then 3
    else 0
  }

  /** `ifbd`: fore 1, mid 2, hind 3, anything else 0. */
  function BrainCode(name: string): (r: int)
    ensures 0 <= r <= 3
    ensures r == 1 <==> name == "fore"
    ensures r == 2 <==> name == "mid"
    ensures r == 3 <==> name == "hind"
  {
    if name == "fore" then 1
    else if name == "mid" then 2
    else if name == "hind" then 3
    else 0
  }

  // ---------------------------------------------------------------------------
  // The annotation pattern `([^\[]+)\[(\d+)\/(\d+)\]`, matched at the start of
  // a line: a non-empty name without `[`, then `[count/total]`.
  // ---------------------------------------------------------------------------

  /** The pattern matches `line` with the `[` at `p`, the `/` at `q` and the
      `]` at `e`; the count group is `line[p + 1..q]`. */
  predicate AnnotationAt(line: string, p: int, q: int, e: int)
  {
    0 < p < q < e < |line| &&
    (forall i :: 0 <= i < p ==> line[i] != '[') && line[p] == '[' &&
    p + 1 < q && DigitsIn(line, p + 1, q) && line[q] == '/' &&
    q + 1 < e && DigitsIn(line, q + 1, e) && line[e] == ']'
  }

  /** Position of the first `c` in `s`, or `|s|` when there is none. */
  function FirstIndex(s: string, c: char): (p: nat)
    ensures p <= |s| && (p < |s| ==> s[p] == c)
    ensures forall i :: 0 <= i < p ==> s[i] != c
  {
    if s == [] then 0
    else if s[0] == c then 0
    else 1 + FirstIndex(s[1..], c)
  }

  /** Length of the maximal run of digits starting at `i` (a greedy `\d+`). */
  function DigitRun(s: string, i: nat): (n: nat)
    requires i <= |s|
    ensures i + n <= |s| && DigitsIn(s, i, i + n)
    ensures i + n < |s| ==> !IsDigit(s[i + n])
    decreases |s| - i
  {
    if i < |s| && IsDigit(s[i]) then 1 + DigitRun(s, i + 1) else 0
  }

  /** Where a left-to-right match of the pattern expects the `/`: after the
      greedy `\d+` that follows the first `[`. */
  function SlashPos(line: string): (q: nat)
    ensures q <= |line|
  {
    var p := FirstIndex(line, '[');
    if p == |line| then p else p + 1 + DigitRun(line, p + 1)
  }

  /** Where a left-to-right match of the pattern expects the `]`: after the
      greedy `\d+` that follows the `/`. */
  function ClosePos(line: string): (e: nat)
    ensures e <= |line|
  {
    var q := SlashPos(line);
    if q == |line| then q else q + 1 + DigitRun(line, q + 1)
  }

  /** `re.match(regex, line)` reduced to the one group the code keeps: the
      count, as `int(count)`. */
  function ParseCount(line: string): Option<nat>
  {
    var p, q, e := FirstIndex(line, '['), SlashPos(line), ClosePos(line);
    if AnnotationAt(line, p, q, e) then Some(DecimalValue(line, p + 1, q)) else None
  }

  /** A greedy run of digits ends exactly where any other digit run followed
      by a non-digit ends. */
  lemma DigitRunEnd(s: string, i: nat, j: int)
    requires i <= j < |s| && DigitsIn(s, i, j) && !IsDigit(s[j])
    ensures i + DigitRun(s, i) == j
  {
  }

  /** The pattern can match in only one way: at the positions the greedy
      scan finds. */
  lemma AnnotationAtUnique(line: string, p: int, q: int, e: int)
    requires AnnotationAt(line, p, q, e)
    ensures FirstIndex(line, '[') == p && SlashPos(line) == q && ClosePos(line) == e
  {
    assert line[p] == '[' && !IsDigit(line[q]) && !IsDigit(line[e]);
    SlashPosAt(line, p, q);
    ClosePosAt(line, q, e);
  }

  /** The `/` position found after a `[` at `p`. */
  lemma SlashPosAt(line: string, p: nat, q: int)
    requires FirstIndex(line, '[') == p < q < |line|
    requires DigitsIn(line, p + 1, q) && !IsDigit(line[q])
    ensures SlashPos(line) == q
  {
    DigitRunEnd(line, p + 1, q);
  }

  /** The `]` position found after a `/` at `q`. */
  lemma ClosePosAt(line: string, q: nat, e: int)
    requires SlashPos(line) == q < e < |line|
    requires DigitsIn(line, q + 1, e) && !IsDigit(line[e])
    ensures ClosePos(line) == e
  {
    DigitRunEnd(line, q + 1, e);
  }

  /** A match at given positions is the one `ParseCount` reports. */
  lemma ParseCountAt(line: string, p: int, q: int, e: int)
    requires AnnotationAt(line, p, q, e)
    ensures ParseCount(line) == Some(DecimalValue(line, p + 1, q))
  {
    AnnotationAtUnique(line, p, q, e);
  }

  /** `ParseCount` succeeds exactly when the line has the annotation shape, and
      then yields the decimal value of the count group. */
  lemma ParseCountMeaning(line: string)
    ensures ParseCount(line).Some? <==> exists p, q, e :: AnnotationAt(line, p, q, e)
    ensures forall p, q, e :: AnnotationAt(line, p, q, e) ==>
              ParseCount(line) == Some(DecimalValue(line, p + 1, q))
  {
    forall p, q, e | AnnotationAt(line, p, q, e)
      ensures ParseCount(line) == Some(DecimalValue(line, p + 1, q))
    {
      ParseCountAt(line, p, q, e);
    }
    if ParseCount(line).Some? {
      assert AnnotationAt(line, FirstIndex(line, '['), SlashPos(line), ClosePos(line));
    }
  }

  // ---------------------------------------------------------------------------
  // Ranking the annotations.
  // ---------------------------------------------------------------------------

  /** One `(label, int(count))` entry of `ranks`. */
  datatype Rank = Rank(name: string, count: nat)

  /** A substring looked for in an annotation, and the label it votes for. */
  datatype Keyword = Keyword(word: string, name: string)

  /** The three tests of `lftd`, in the order the code makes them. */
  const TissueKeywords: seq<Keyword> :=
    [Keyword("brain", "brain"), Keyword("limb", "limb"), Keyword("neural", "neural")]

  /** The three tests of `lfbd`, in the order the code makes them. */
  const BrainKeywords: seq<Keyword> :=
    [Keyword("midbrain", "mid"), Keyword("forebrain", "fore"), Keyword("hindbrain", "hind")]

  /** Some keyword of the table occurs in the line. */
  predicate AnyKeyword(line: string, kws: seq<Keyword>)
  {
    exists j :: 0 <= j < |kws| && Contains(line, kws[j].word)
  }

  /** The annotation names a keyword but `re.match` finds no annotation shape
      in it, so `.groups()` raises. */
  predicate FieldFails(line: string, kws: seq<Keyword>)
  {
    AnyKeyword(line, kws) && ParseCount(line).None?
  }

  /** The entries one stripped annotation adds to `ranks`: one per keyword it
      contains, in table order, each carrying the parsed count. A keyword in a
      line that does not have the annotation shape is the `AttributeError` of
      `re.match(...).groups()` on `None`. */
  function FieldRanks(line: string, kws: seq<Keyword>): Result<seq<Rank>>
  {
    Ranked(line, kws, ParseCount(line))
  }

  /** The keyword tests of one annotation, given the outcome `m` of
      `re.match(regex, line)`. */
  function Ranked(line: string, kws: seq<Keyword>, m: Option<nat>): Result<seq<Rank>>
  {
    if kws == [] then Ok([])
    else
      var last := kws[|kws| - 1];
      match Ranked(line, kws[..|kws| - 1], m)
      case Err(e) => Err(e)
      case Ok(ranks) =>
        if !Contains(line, last.word) then Ok(ranks)
        else
          match m
          case None => Err(AttributeError(line))
          case Some(c) => Ok(ranks + [Rank(last.name, c)])
  }

  /** One annotation fails exactly when it contains a keyword but does not have
      the annotation shape; otherwise it contributes nothing exactly when it
      contains no keyword, and every entry it contributes carries its count. */
  lemma {:induction false} FieldRanksMeaning(line: string, kws: seq<Keyword>)
    ensures FieldRanks(line, kws).Err? <==> AnyKeyword(line, kws) && ParseCount(line).None?
    ensures FieldRanks(line, kws).Err? ==> FieldRanks(line, kws).error == AttributeError(line)
    ensures FieldRanks(line, kws) == Ok([]) <==> !AnyKeyword(line, kws)
    ensures FieldRanks(line, kws).Ok? ==> forall j :: 0 <= j < |FieldRanks(line, kws).value| ==>
              ParseCount(line) == Some(FieldRanks(line, kws).value[j].count)
  {
    if kws != [] {
      var init := kws[..|kws| - 1];
      FieldRanksMeaning(line, init);
      assert forall j :: 0 <= j < |init| ==> init[j] == kws[j];
      assert AnyKeyword(line, kws) <==> AnyKeyword(line, init) || Contains(line, kws[|kws| - 1].word);
    }
  }

  /** The keywords of the table that occur in the line, in table order. */
  function KeywordsIn(line: string, kws: seq<Keyword>): (r: seq<Keyword>)
    ensures |r| <= |kws|
  {
    if kws == [] then []
    else
      var last := kws[|kws| - 1];
      KeywordsIn(line, kws[..|kws| - 1]) + (if Contains(line, last.word) then [last] else [])
  }

  /** A keyword is listed exactly when it is in the table and occurs in the line. */
  lemma {:induction false} KeywordsInMember(line: string, kws: seq<Keyword>, kw: Keyword)
    ensures kw in KeywordsIn(line, kws) <==> kw in kws && Contains(line, kw.word)
  {
    if kws != [] {
      var init := kws[..|kws| - 1];
      KeywordsInMember(line, init, kw);
      assert kws == init + [kws[|kws| - 1]];
    }
  }

  /** The entries `Rank(name, count)` for the keywords `ks`, all with count `c`. */
  function Votes(ks: seq<Keyword>, c: nat): (r: seq<Rank>)
    ensures |r| == |ks|
    ensures forall t :: 0 <= t < |ks| ==> r[t] == Rank(ks[t].name, c)
  {
    seq(|ks|, t requires 0 <= t < |ks| => Rank(ks[t].name, c))
  }

  /** Exactly what one stripped annotation adds: with a parsed count `c`, one
      entry `Rank(name, c)` for every keyword it contains, in table order, so
      one annotation can add several entries; without the annotation shape,
      nothing when it contains no keyword and `AttributeError` otherwise. */
  lemma FieldRanksEntries(line: string, kws: seq<Keyword>)
    ensures ParseCount(line).Some? ==>
              FieldRanks(line, kws) == Ok(Votes(KeywordsIn(line, kws), ParseCount(line).value))
    ensures ParseCount(line).None? ==>
              FieldRanks(line, kws) == if KeywordsIn(line, kws) == [] then Ok([]) else Err(AttributeError(line))
  {
    RankedEntries(line, kws, ParseCount(line));
  }

  /** `FieldRanksEntries` for any outcome `m` of the match. */
  lemma {:induction false} RankedEntries(line: string, kws: seq<Keyword>, m: Option<nat>)
    ensures m.Some? ==> Ranked(line, kws, m) == Ok(Votes(KeywordsIn(line, kws), m.value))
    ensures m.None? ==>
              Ranked(line, kws, m) == if KeywordsIn(line, kws) == [] then Ok([]) else Err(AttributeError(line))
  {
    if kws != [] {
      var init := kws[..|kws| - 1];
      var last := kws[|kws| - 1];
      var ks := KeywordsIn(line, init);
      RankedEntries(line, init, m);
      if Contains(line, last.word) {
        assert KeywordsIn(line, kws) == ks + [last];
        if m.Some? {
          assert Votes(ks + [last], m.value) == Votes(ks, m.value) + [Rank(last.name, m.value)];
        }
      } else {
        assert KeywordsIn(line, kws) == ks;
      }
    }
  }

  /** What each stripped annotation contributes, field by field. */
  function FieldResults(fields: seq<string>, kws: seq<Keyword>): (rs: seq<Result<seq<Rank>>>)
    ensures |rs| == |fields|
    ensures forall i :: 0 <= i < |fields| ==> rs[i] == FieldRanks(Strip(fields[i]), kws)
  {
    if fields == [] then []
    else FieldResults(fields[..|fields| - 1], kws) + [FieldRanks(Strip(fields[|fields| - 1]), kws)]
  }

  /** The appends of the loop over the fields' contributions: the
      concatenation, or the first exception raised. */
  function Collect(rs: seq<Result<seq<Rank>>>): Result<seq<Rank>>
  {
    if rs == [] then Ok([])
    else
      match Collect(rs[..|rs| - 1])
      case Err(e) => Err(e)
      case Ok(ranks) =>
        match rs[|rs| - 1]
        case Err(e) => Err(e)
        case Ok(more) => Ok(ranks + more)
  }

  /** `ranks` after the loop has seen `fields`, or the exception it raised. */
  function RanksOf(fields: seq<string>, kws: seq<Keyword>): Result<seq<Rank>>
  {
    Collect(FieldResults(fields, kws))
  }

  /** The loop fails exactly when one contribution fails, and it then raises
      the exception of the first failing one. */
  lemma {:induction false} CollectErr(rs: seq<Result<seq<Rank>>>)
    ensures Collect(rs).Err? <==> exists i :: 0 <= i < |rs| && rs[i].Err?
    ensures Collect(rs).Err? ==>
              exists i :: 0 <= i < |rs| && rs[i] == Err(Collect(rs).error) &&
                forall j :: 0 <= j < i ==> rs[j].Ok?
  {
    if rs != [] {
      var init := rs[..|rs| - 1];
      CollectErr(init);
      assert forall i :: 0 <= i < |init| ==> init[i] == rs[i];
    }
  }

  /** `ranks` stays empty exactly when no contribution adds an entry. */
  lemma {:induction false} CollectEmpty(rs: seq<Result<seq<Rank>>>)
    ensures Collect(rs) == Ok([]) <==> forall i :: 0 <= i < |rs| ==> rs[i] == Ok([])
  {
    if rs != [] {
      var init := rs[..|rs| - 1];
      CollectEmpty(init);
      assert forall i :: 0 <= i < |init| ==> init[i] == rs[i];
      var last := rs[|rs| - 1];
      if Collect(init).Ok? && last.Ok? {
        var a, b := Collect(init).value, last.value;
        assert Collect(rs) == Ok(a + b);
        assert |a + b| == |a| + |b|;
        assert a + b == [] <==> a == [] && b == [];
      }
    }
  }

  /** One more contribution after a successful prefix. */
  lemma CollectStep(rs: seq<Result<seq<Rank>>>, i: nat, ranks: seq<Rank>)
    requires i < |rs| && Collect(rs[..i]) == Ok(ranks)
    ensures Collect(rs[..i + 1]) == if rs[i].Err? then Err(rs[i].error) else Ok(ranks + rs[i].value)
  {
    assert rs[..i + 1][..i] == rs[..i];
  }

  /** Once the loop has raised, later contributions change nothing. */
  lemma {:induction false} CollectPrefixErr(rs: seq<Result<seq<Rank>>>, n: nat)
    requires n <= |rs| && Collect(rs[..n]).Err?
    ensures Collect(rs) == Collect(rs[..n])
    decreases |rs| - n
  {
    if n < |rs| {
      assert rs[..n + 1][..n] == rs[..n];
      CollectPrefixErr(rs, n + 1);
    } else {
      assert rs[..n] == rs;
    }
  }

  /** The loop over annotations fails exactly when some stripped annotation
      names a keyword without having the annotation shape; the exception is the
      `AttributeError` of the first such annotation. */
  lemma RanksOfErr(fields: seq<string>, kws: seq<Keyword>)
    ensures RanksOf(fields, kws).Err? <==>
              exists i :: 0 <= i < |fields| && FieldFails(Strip(fields[i]), kws)
    ensures RanksOf(fields, kws).Err? ==>
              exists i :: 0 <= i < |fields| && FieldFails(Strip(fields[i]), kws) &&
                RanksOf(fields, kws).error == AttributeError(Strip(fields[i])) &&
                forall j :: 0 <= j < i ==> !FieldFails(Strip(fields[j]), kws)
  {
    var rs := FieldResults(fields, kws);
    CollectErr(rs);
    forall i | 0 <= i < |fields| {
      FieldRanksMeaning(Strip(fields[i]), kws);
    }
  }

  /** The line votes `r`: it contains the word of a keyword named `r.name`
      and its count group parses to `r.count`. */
  predicate VotesFor(line: string, kws: seq<Keyword>, r: Rank)
  {
    exists kw :: kw in kws && Contains(line, kw.word) && kw.name == r.name && ParseCount(line) == Some(r.count)
  }

  /** An entry is among one annotation's contributions exactly when the
      annotation votes for it. */
  lemma FieldRanksMember(line: string, kws: seq<Keyword>, r: Rank)
    requires FieldRanks(line, kws).Ok?
    ensures r in FieldRanks(line, kws).value <==> VotesFor(line, kws, r)
  {
    RankedMember(line, kws, ParseCount(line), r);
  }

  /** `FieldRanksMember` for any outcome `m` of the match. */
  lemma RankedMember(line: string, kws: seq<Keyword>, m: Option<nat>, r: Rank)
    requires Ranked(line, kws, m).Ok?
    ensures r in Ranked(line, kws, m).value <==>
              exists kw :: kw in kws && Contains(line, kw.word) && kw.name == r.name && m == Some(r.count)
  {
    RankedEntries(line, kws, m);
    var ks := KeywordsIn(line, kws);
    if m.Some? {
      var v := Votes(ks, m.value);
      if r in v {
        var t :| 0 <= t < |v| && v[t] == r;
        KeywordsInMember(line, kws, ks[t]);
        assert ks[t] in ks;
      }
      if exists kw :: kw in kws && Contains(line, kw.word) && kw.name == r.name && m == Some(r.count) {
        var kw :| kw in kws && Contains(line, kw.word) && kw.name == r.name && m == Some(r.count);
        KeywordsInMember(line, kws, kw);
        assert kw in ks;
        var t :| 0 <= t < |ks| && ks[t] == kw;
        assert v[t] == r;
      }
    }
  }

  /** An entry is in the concatenation exactly when some contribution holds it. */
  lemma {:induction false} CollectMember(rs: seq<Result<seq<Rank>>>, r: Rank)
    requires Collect(rs).Ok?
    ensures r in Collect(rs).value <==> exists i :: 0 <= i < |rs| && rs[i].Ok? && r in rs[i].value
  {
    if rs != [] {
      var init := rs[..|rs| - 1];
      CollectMember(init, r);
      assert forall i :: 0 <= i < |init| ==> init[i] == rs[i];
    }
  }

  /** `ranks` holds an entry exactly when some stripped annotation votes for
      it: names a keyword with that label and parses to that count. */
  lemma RanksOfMember(fields: seq<string>, kws: seq<Keyword>, r: Rank)
    requires RanksOf(fields, kws).Ok?
    ensures r in RanksOf(fields, kws).value <==>
              exists i :: 0 <= i < |fields| && VotesFor(Strip(fields[i]), kws, r)
  {
    var rs := FieldResults(fields, kws);
    CollectMember(rs, r);
    CollectErr(rs);
    forall i | 0 <= i < |fields| {
      FieldRanksMember(Strip(fields[i]), kws, r);
    }
  }

  /** `ranks` stays empty exactly when no stripped annotation names a keyword. */
  lemma RanksOfEmpty(fields: seq<string>, kws: seq<Keyword>)
    ensures RanksOf(fields, kws) == Ok([]) <==>
              forall i :: 0 <= i < |fields| ==> !AnyKeyword(Strip(fields[i]), kws)
  {
    CollectEmpty(FieldResults(fields, kws));
    forall i | 0 <= i < |fields| {
      FieldRanksMeaning(Strip(fields[i]), kws);
    }
  }

  /** `max(ranks, key=count)`: the position of the first entry with the
      largest count. */
  function FirstMaxIndex(ranks: seq<Rank>): (i: nat)
    requires |ranks| > 0
    ensures i < |ranks|
    ensures forall j :: 0 <= j < |ranks| ==> ranks[j].count <= ranks[i].count
    ensures forall j :: 0 <= j < i ==> ranks[j].count < ranks[i].count
  {
    if |ranks| == 1 then 0
    else
      var i := FirstMaxIndex(ranks[..|ranks| - 1]);
      if ranks[|ranks| - 1].count > ranks[i].count then |ranks| - 1 else i
  }

  /** The body of the loop of `lftd` and `lfbd` for one stripped annotation:
      one test per keyword, each appending an entry or raising. */
  method AnnotationRanks(line: string, kws: seq<Keyword>) returns (r: Result<seq<Rank>>)
    ensures r == FieldRanks(line, kws)
  {
    var ranks: seq<Rank> := [];
    for j := 0 to |kws|
      invariant FieldRanks(line, kws[..j]) == Ok(ranks)
    {
      assert kws[..j + 1][..j] == kws[..j];
      if Contains(line, kws[j].word) {
        var m := ParseCount(line);
        if m.None? {
          FieldRanksMeaning(line, kws);
          assert AnyKeyword(line, kws);
          return Err(AttributeError(line));
        }
        ranks := ranks + [Rank(kws[j].name, m.value)];
      }
    }
    assert kws[..|kws|] == kws;
    r := Ok(ranks);
  }

  /** The loop of `lftd` and `lfbd`: strips each annotation and appends its
      entries to `ranks`. */
  method CollectRanks(description: string, kws: seq<Keyword>) returns (r: Result<seq<Rank>>)
    ensures r == RanksOf(Locations(description), kws)
  {
    var fields := Locations(description);
    ghost var rs := FieldResults(fields, kws);
    var ranks: seq<Rank> := [];
    for i := 0 to |fields|
      invariant Collect(rs[..i]) == Ok(ranks)
    {
      CollectStep(rs, i, ranks);
      var more := AnnotationRanks(Strip(fields[i]), kws);
      if more.Err? {
        CollectPrefixErr(rs, i + 1);
        return more;
      }
      ranks := ranks + more.value;
    }
    assert rs[..|rs|] == rs;
    r := Ok(ranks);
  }

  /** `ranks` for the tissue labels of a description. */
  function TissueRanks(description: string): Result<seq<Rank>>
  {
    RanksOf(Locations(description), TissueKeywords)
  }

  /** `ranks` for the brain-region labels of a description. */
  function BrainRanks(description: string): Result<seq<Rank>>
  {
    RanksOf(Locations(description), BrainKeywords)
  }

  /** `lftd`: 0 when no annotation names a tissue, otherwise the code of the
      label of the first entry with the largest count. */
  method TissueLabel(description: string) returns (r: Result<int>)
    ensures TissueRanks(description).Err? <==> r.Err?
    ensures r.Err? ==> r.error == TissueRanks(description).error
    ensures TissueRanks(description) == Ok([]) ==> r == Ok(0)
    ensures TissueRanks(description).Ok? && |TissueRanks(description).value| > 0 ==>
              var ranks := TissueRanks(description).value;
              r == Ok(TissueCode(ranks[FirstMaxIndex(ranks)].name))
    ensures r.Ok? ==> 0 <= r.value <= 3
  {
    var ranks := CollectRanks(description, TissueKeywords);
    if ranks.Err? {
      return Err(ranks.error);
    }
    if |ranks.value| == 0 {
      return Ok(0);
    }
    var best := ranks.value[FirstMaxIndex(ranks.value)];
    r := Ok(TissueCode(best.name));
  }

  /** `lfbd` as it is meant to read: 0 when no annotation names a brain region,
      otherwise the code of the label of the first entry with the largest count. */
  method BrainLabel(description: string) returns (r: Result<int>)
    ensures BrainRanks(description).Err? <==> r.Err?
    ensures r.Err? ==> r.error == BrainRanks(description).error
    ensures BrainRanks(description) == Ok([]) ==> r == Ok(0)
    ensures BrainRanks(description).Ok? && |BrainRanks(description).value| > 0 ==>
              var ranks := BrainRanks(description).value;
              r == Ok(BrainCode(ranks[FirstMaxIndex(ranks)].name))
    ensures r.Ok? ==> 0 <= r.value <= 3
  {
    var ranks := CollectRanks(description, BrainKeywords);
    if ranks.Err? {
      return Err(ranks.error);
    }
    if |ranks.value| == 0 {
      return Ok(0);
    }
    var best := ranks.value[FirstMaxIndex(ranks.value)];
    r := Ok(BrainCode(best.name));
  }

  /** `lfbd` as written: its loop reads `descriptions`, a name defined nowhere,
      so every call raises `NameError` before the description is looked at. */
  function BrainLabelAsWritten(description: string): Result<int>
  {
    Err(NameError("descriptions"))
  }

  /** The discrepancy: a description without annotations fails as written,
      while the intended reading finds no ranks and hence label 0. */
  lemma BrainLabelAsWrittenFails(description: string)
    requires |Split(description, '|')| <= 4
    ensures BrainLabelAsWritten(description) == Err(NameError("descriptions"))
    ensures BrainRanks(description) == Ok([])
  {
  }
}
