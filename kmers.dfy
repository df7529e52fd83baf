/** K-mer features: the windows of a sequence, the k-mer column index and the
    strand-collapsed count row of one sequence. */
module Kmers {
  import opened Failures
  import opened Strand

  // ---------------------------------------------------------------------------
  // Windows
  // ---------------------------------------------------------------------------

  /** `GLOBAL_K`: the window length used by default throughout. */
  const GlobalK: nat := 6

  /** `gen_kmers`: every length-k window of `s`, left to right. A sequence
      shorter than k has none; for k = 0 there are |s| + 1 empty windows. */
  function GenKmers(s: string, k: nat): (ws: seq<string>)
    ensures |ws| == if |s| >= k then |s| - k + 1 else 0
    ensures forall i :: 0 <= i < |ws| ==> |ws[i]| == k && ws[i] == s[i..i + k]
    decreases |s|
  {
    if |s| < k then []
    else if s == [] then [s]
    else
      var rest := GenKmers(s[1..], k);
      assert forall i :: 0 <= i < |rest| ==> rest[i] == s[i + 1..i + 1 + k];
      [s[..k]] + rest
  }

  // ---------------------------------------------------------------------------
  // The k-mer index
  // ---------------------------------------------------------------------------

  predicate Distinct<T(==)>(s: seq<T>)
  {
    forall i, j :: 0 <= i < j < |s| ==> s[i] != s[j]
  }

  /** `make_index_dict_from_list`: `dict((x, i) for i, x in enumerate(l))`.
      Every element is a key, mapped to a position holding it; since later pairs
      overwrite earlier ones, that position is the element's last occurrence. */
  function IndexDict<T(==)>(l: seq<T>): (m: map<T, nat>)
    ensures m.Keys == set x | x in l
    ensures forall x :: x in m ==> m[x] < |l| && l[m[x]] == x
    ensures forall x, j :: x in m && m[x] < j < |l| ==> l[j] != x
  {
    if l == [] then map[]
    else
      var init := l[..|l| - 1];
      assert l == init + [l[|l| - 1]];
      SetOfSnoc(init, l[|l| - 1]);
      IndexDict(init)[l[|l| - 1] := |l| - 1]
  }

  lemma SetOfSnoc<T>(init: seq<T>, last: T)
    ensures (set x | x in init + [last]) == (set x | x in init) + {last}
  {
  }

  /** On a list without duplicates, each element is mapped to its own position. */
  lemma IndexDictOfDistinct<T>(l: seq<T>)
    requires Distinct(l)
    ensures forall i :: 0 <= i < |l| ==> l[i] in IndexDict(l) && IndexDict(l)[l[i]] == i
  {
    var m := IndexDict(l);
    forall i | 0 <= i < |l|
      ensures l[i] in m && m[l[i]] == i
    {
      assert l[i] in m.Keys;
      assert l[m[l[i]]] == l[i];
    }
  }

  /** On a list without duplicates the index dictionary is a bijection from
      the list's elements onto its positions. */
  lemma IndexDictBijection<T>(l: seq<T>)
    requires Distinct(l)
    ensures |IndexDict(l)| == |l|
    ensures forall i :: 0 <= i < |l| ==> i in IndexDict(l).Values
    ensures forall x1, x2 :: x1 in IndexDict(l) && x2 in IndexDict(l) && IndexDict(l)[x1] == IndexDict(l)[x2] ==> x1 == x2
  {
    var m := IndexDict(l);
    IndexDictOfDistinct(l);
    DistinctCard(l);
    assert |m| == |m.Keys|;
    forall i | 0 <= i < |l|
      ensures i in m.Values
    {
      assert l[i] in m && m[l[i]] == i;
    }
  }

  /** A list without duplicates has as many elements as its set. */
  lemma {:induction false} DistinctCard<T>(s: seq<T>)
    requires Distinct(s)
    ensures |set x | x in s| == |s|
  {
    if s != [] {
      var init := s[..|s| - 1];
      assert Distinct(init);
      DistinctCard(init);
      assert (set x | x in s) == (set x | x in init) + {s[|s| - 1]};
      assert s[|s| - 1] !in (set x | x in init);
    }
  }

  /** `order` lists the elements of `ws`, each once, in some order: what
      `list(set(ws))` yields, its order left unspecified. */
  ghost predicate IsListingOf(order: seq<string>, ws: seq<string>)
  {
    Distinct(order) && forall x :: x in order <==> x in ws
  }

  lemma ListingLength(order: seq<string>, ws: seq<string>)
    requires IsListingOf(order, ws) && Distinct(ws)
    ensures |order| == |ws|
  {
    DistinctCard(order);
    DistinctCard(ws);
    assert (set x | x in order) == (set x | x in ws);
  }

  function Pow4(k: nat): nat
  {
    if k == 0 then 1 else 4 * Pow4(k - 1)
  }

  /** The alphabet of the index, in the order `itertools.product` walks it. */
  const Bases: string := "atcg"

  /** Prepends the character `c` to every word. */
  function Prefixed(c: char, ws: seq<string>): (r: seq<string>)
    ensures |r| == |ws|
    ensures forall i :: 0 <= i < |ws| ==> r[i] == [c] + ws[i]
  {
    if ws == [] then [] else [[c] + ws[0]] + Prefixed(c, ws[1..])
  }

  /** One more position of the product: every character of `cs` in turn,
      followed by every word of `ws`. */
  function PrefixedAll(cs: string, ws: seq<string>): (r: seq<string>)
    ensures |r| == |cs| * |ws|
  {
    if cs == [] then [] else Prefixed(cs[0], ws) + PrefixedAll(cs[1..], ws)
  }

  /** The k-letter words of `itertools.product("atcg", repeat=k)`, joined into
      strings, in the order the product yields them (first letter slowest). */
  function Product(k: nat): (ws: seq<string>)
    ensures |ws| == Pow4(k)
  {
    if k == 0 then [""] else PrefixedAll(Bases, Product(k - 1))
  }

  lemma PrefixedMember(c: char, ws: seq<string>, x: string)
    ensures x in Prefixed(c, ws) <==> |x| > 0 && x[0] == c && x[1..] in ws
  {
    var r := Prefixed(c, ws);
    if x in r {
      var i :| 0 <= i < |r| && r[i] == x;
      assert x[1..] == ws[i];
    }
    if |x| > 0 && x[0] == c && x[1..] in ws {
      var i :| 0 <= i < |ws| && ws[i] == x[1..];
      assert r[i] == [x[0]] + x[1..] == x;
    }
  }

  lemma {:induction false} PrefixedAllMember(cs: string, ws: seq<string>, x: string)
    ensures x in PrefixedAll(cs, ws) <==> |x| > 0 && x[0] in cs && x[1..] in ws
  {
    if cs != [] {
      PrefixedMember(cs[0], ws, x);
      PrefixedAllMember(cs[1..], ws, x);
      assert |x| > 0 ==> (x[0] in cs <==> x[0] == cs[0] || x[0] in cs[1..]);
    }
  }

  lemma LowerStrandCons(w: string)
    requires |w| > 0
    ensures IsLowerStrand(w) <==> w[0] in "acgt" && IsLowerStrand(w[1..])
  {
    assert forall i :: 1 <= i < |w| ==> w[i] == w[1..][i - 1];
  }

  /** The product holds exactly the length-k strings over the four lower-case bases. */
  lemma {:induction false} ProductMember(k: nat, w: string)
    ensures w in Product(k) <==> |w| == k && IsLowerStrand(w)
  {
    if k == 0 {
      assert w in Product(0) <==> w == "";
    } else {
      PrefixedAllMember(Bases, Product(k - 1), w);
      if |w| > 0 {
        ProductMember(k - 1, w[1..]);
        LowerStrandCons(w);
        assert w[0] in Bases <==> w[0] in "acgt";
      }
    }
  }

  lemma ProductMembers(k: nat)
    ensures forall w :: w in Product(k) <==> |w| == k && IsLowerStrand(w)
  {
    forall w
      ensures w in Product(k) <==> |w| == k && IsLowerStrand(w)
    {
      ProductMember(k, w);
    }
  }

  lemma DistinctConcat<T>(a: seq<T>, b: seq<T>)
    requires Distinct(a) && Distinct(b)
    requires forall x :: x in a ==> x !in b
    ensures Distinct(a + b)
  {
    forall i, j | 0 <= i < j < |a + b|
      ensures (a + b)[i] != (a + b)[j]
    {
      if i < |a| && j >= |a| {
        assert (a + b)[i] in a && (a + b)[j] == b[j - |a|];
      }
    }
  }

  lemma PrefixedDistinct(c: char, ws: seq<string>)
    requires Distinct(ws)
    ensures Distinct(Prefixed(c, ws))
  {
    var r := Prefixed(c, ws);
    forall i, j | 0 <= i < j < |r|
      ensures r[i] != r[j]
    {
      assert r[i][1..] == ws[i] && r[j][1..] == ws[j];
    }
  }

  lemma {:induction false} PrefixedAllDistinct(cs: string, ws: seq<string>)
    requires Distinct(cs) && Distinct(ws)
    ensures Distinct(PrefixedAll(cs, ws))
  {
    if cs != [] {
      PrefixedDistinct(cs[0], ws);
      assert Distinct(cs[1..]);
      PrefixedAllDistinct(cs[1..], ws);
      forall x | x in Prefixed(cs[0], ws)
        ensures x !in PrefixedAll(cs[1..], ws)
      {
        PrefixedMember(cs[0], ws, x);
        PrefixedAllMember(cs[1..], ws, x);
      }
      DistinctConcat(Prefixed(cs[0], ws), PrefixedAll(cs[1..], ws));
    }
  }

  /** The product never repeats a word, so `set(...)` removes nothing. */
  lemma {:induction false} ProductDistinct(k: nat)
    ensures Distinct(Product(k))
  {
    if k > 0 {
      ProductDistinct(k - 1);
      PrefixedAllDistinct(Bases, Product(k - 1));
    }
  }

  /** `get_kmers_index_lookup`: the index dictionary of the product, taken
      through a set whose iteration order is the parameter `order`. Whatever
      that order, the result is a bijection from the 4^k lower-case k-mers
      onto the columns 0 .. 4^k - 1. */
  function KmerIndexLookup(k: nat, order: seq<string>): (ref: map<string, nat>)
    requires IsListingOf(order, Product(k))
    ensures forall w :: w in ref <==> |w| == k && IsLowerStrand(w)
    ensures |ref| == Pow4(k)
    ensures forall w :: w in ref ==> ref[w] < Pow4(k)
    ensures forall w1, w2 :: w1 in ref && w2 in ref && ref[w1] == ref[w2] ==> w1 == w2
    ensures forall i :: 0 <= i < Pow4(k) ==> i in ref.Values
  {
    ProductMembers(k);
    ProductDistinct(k);
    ListingLength(order, Product(k));
    IndexDictBijection(order);
    IndexDict(order)
  }

  // ---------------------------------------------------------------------------
  // The count row
  // ---------------------------------------------------------------------------

  /** The strand-collapse rule: a window is counted unless it equals its own
      reverse complement. */
  predicate Counted(w: string)
  {
    w != NegStrand(w)
  }

  /** A reference table whose columns all fall inside a row of its own size,
      as the index lookup yields. */
  predicate ValidRef(ref: map<string, nat>)
  {
    forall w :: w in ref ==> ref[w] < |ref|
  }

  function Zeros(n: nat): (z: seq<nat>)
    ensures |z| == n && forall i :: 0 <= i < n ==> z[i] == 0
  {
    seq(n, _ => 0)
  }

  /** The state of `get_kmer_counts` after scanning the windows `ws` in order:
      a row with one entry per column, or the KeyError of the first counted
      window that has no column. */
  function CountRow(ws: seq<string>, ref: map<string, nat>): (r: Result<seq<nat>>)
    requires ValidRef(ref)
    ensures r.Ok? ==> |r.value| == |ref|
  {
    if ws == [] then Ok(Zeros(|ref|))
    else
      var w := ws[|ws| - 1];
      match CountRow(ws[..|ws| - 1], ref)
      case Err(e) => Err(e)
      case Ok(row) =>
        if !Counted(w) then Ok(row)
        else if w !in ref then Err(KeyError(w))
        else Ok(row[ref[w] := row[ref[w]] + 1])
  }

  /** How many of the windows are counted. */
  function NumCounted(ws: seq<string>): nat
  {
    if ws == [] then 0
    else NumCounted(ws[..|ws| - 1]) + (if Counted(ws[|ws| - 1]) then 1 else 0)
  }

  /** How many of the windows are counted and have column `j`. */
  function ColumnHits(ws: seq<string>, ref: map<string, nat>, j: nat): nat
  {
    if ws == [] then 0
    else
      var w := ws[|ws| - 1];
      ColumnHits(ws[..|ws| - 1], ref, j) + (if Counted(w) && w in ref && ref[w] == j then 1 else 0)
  }

  function Sum(row: seq<nat>): nat
  {
    if row == [] then 0 else Sum(row[..|row| - 1]) + row[|row| - 1]
  }

  lemma {:induction false} SumZeros(n: nat)
    ensures Sum(Zeros(n)) == 0
  {
    if n > 0 {
      assert Zeros(n)[..n - 1] == Zeros(n - 1);
      SumZeros(n - 1);
    }
  }

  lemma {:induction false} SumIncrement(row: seq<nat>, j: nat)
    requires j < |row|
    ensures Sum(row[j := row[j] + 1]) == Sum(row) + 1
  {
    var n := |row|;
    var r' := row[j := row[j] + 1];
    if j < n - 1 {
      assert r'[..n - 1] == row[..n - 1][j := row[j] + 1];
      SumIncrement(row[..n - 1], j);
    } else {
      assert r'[..n - 1] == row[..n - 1];
    }
  }

  /** The scan succeeds exactly when every counted window has a column. */
  lemma {:induction false} CountRowOkIff(ws: seq<string>, ref: map<string, nat>)
    requires ValidRef(ref)
    ensures CountRow(ws, ref).Ok? <==>
            forall i :: 0 <= i < |ws| && Counted(ws[i]) ==> ws[i] in ref
  {
    if ws != [] {
      var init := ws[..|ws| - 1];
      CountRowOkIff(init, ref);
      assert forall i :: 0 <= i < |init| ==> init[i] == ws[i];
    }
  }

  /** A failed scan reports the first counted window that has no column. */
  lemma {:induction false} CountRowFirstMissing(ws: seq<string>, ref: map<string, nat>)
    requires ValidRef(ref)
    requires CountRow(ws, ref).Err?
    ensures exists i :: 0 <= i < |ws| && CountRow(ws, ref).error == KeyError(ws[i])
                        && Counted(ws[i]) && ws[i] !in ref
                        && forall i' :: 0 <= i' < i && Counted(ws[i']) ==> ws[i'] in ref
  {
    var init := ws[..|ws| - 1];
    assert forall i :: 0 <= i < |init| ==> init[i] == ws[i];
    if CountRow(init, ref).Err? {
      CountRowFirstMissing(init, ref);
    } else {
      CountRowOkIff(init, ref);
      assert CountRow(ws, ref).error == KeyError(ws[|ws| - 1]);
    }
  }

  /** Entry j of a successful row is the number of counted windows in column j. */
  lemma {:induction false} CountRowEntries(ws: seq<string>, ref: map<string, nat>)
    requires ValidRef(ref)
    requires CountRow(ws, ref).Ok?
    ensures forall j :: 0 <= j < |ref| ==> CountRow(ws, ref).value[j] == ColumnHits(ws, ref, j)
  {
    if ws != [] {
      CountRowEntries(ws[..|ws| - 1], ref);
    }
  }

  /** A successful row sums to the number of counted windows: self-complementary
      windows add nothing, every other window adds exactly one. */
  lemma {:induction false} CountRowTotal(ws: seq<string>, ref: map<string, nat>)
    requires ValidRef(ref)
    requires CountRow(ws, ref).Ok?
    ensures Sum(CountRow(ws, ref).value) == NumCounted(ws)
  {
    if ws == [] {
      SumZeros(|ref|);
    } else {
      var init := ws[..|ws| - 1];
      CountRowTotal(init, ref);
      var w := ws[|ws| - 1];
      if Counted(w) {
        SumIncrement(CountRow(init, ref).value, ref[w]);
      }
    }
  }

  /** Once the scan has failed on a prefix, the remaining windows change nothing. */
  lemma {:induction false} CountRowErrPersists(ws: seq<string>, n: nat, ref: map<string, nat>)
    requires ValidRef(ref)
    requires n <= |ws| && CountRow(ws[..n], ref).Err?
    ensures CountRow(ws, ref) == CountRow(ws[..n], ref)
    decreases |ws| - n
  {
    if n < |ws| {
      assert ws[..n + 1][..n] == ws[..n];
      CountRowErrPersists(ws, n + 1, ref);
    } else {
      assert ws[..n] == ws;
    }
  }

  /** `get_kmer_counts`: a zero row of one entry per column, incremented in
      place once for every window that differs from its reverse complement.
      A counted window missing from `ref` raises KeyError. The windows have the
      default length `GLOBAL_K`. */
  method KmerCounts(s: string, ref: map<string, nat>) returns (r: Result<seq<nat>>)
    requires ValidRef(ref)
    ensures r == CountRow(GenKmers(s, GlobalK), ref)
  {
    var windows := GenKmers(s, GlobalK);
    r := CountWindows(windows, ref);
  }

  /** The loop of `get_kmer_counts` over the windows, on an array row. */
  method CountWindows(windows: seq<string>, ref: map<string, nat>) returns (r: Result<seq<nat>>)
    requires ValidRef(ref)
    ensures r == CountRow(windows, ref)
  {
    var row := new nat[|ref|](_ => 0);
    assert row[..] == Zeros(|ref|);
    for i := 0 to |windows|
      invariant CountRow(windows[..i], ref) == Ok(row[..])
    {
      var kmer := windows[i];
      if Counted(kmer) {
        if kmer !in ref {
          CountRowMissing(windows, i, ref);
          return Err(KeyError(kmer));
        }
        var idx := ref[kmer];
        ghost var before := row[..];
        CountRowIncrement(windows, i, ref, before);
        row[idx] := row[idx] + 1;
        assert row[..] == before[idx := before[idx] + 1];
      } else {
        CountRowSkip(windows, i, ref, row[..]);
      }
    }
    assert windows[..|windows|] == windows;
    r := Ok(row[..]);
  }

  /** A sequence shorter than k has no windows and gets the all-zero row. */
  lemma ShortSequenceZeroRow(s: string, k: nat, ref: map<string, nat>)
    requires ValidRef(ref) && |s| < k
    ensures CountRow(GenKmers(s, k), ref) == Ok(Zeros(|ref|))
  {
  }

  /** One more window that is skipped leaves the row as it is. */
  lemma CountRowSkip(ws: seq<string>, i: nat, ref: map<string, nat>, row: seq<nat>)
    requires ValidRef(ref) && i < |ws| && CountRow(ws[..i], ref) == Ok(row)
    requires !Counted(ws[i])
    ensures CountRow(ws[..i + 1], ref) == Ok(row)
  {
    assert ws[..i + 1][..i] == ws[..i];
  }

  /** One more counted window with a column adds one to that column. */
  lemma CountRowIncrement(ws: seq<string>, i: nat, ref: map<string, nat>, row: seq<nat>)
    requires ValidRef(ref) && i < |ws| && CountRow(ws[..i], ref) == Ok(row)
    requires Counted(ws[i]) && ws[i] in ref
    ensures ref[ws[i]] < |row|
    ensures CountRow(ws[..i + 1], ref) == Ok(row[ref[ws[i]] := row[ref[ws[i]]] + 1])
  {
    assert ws[..i + 1][..i] == ws[..i];
  }

  /** A counted window without a column is the KeyError of the whole scan. */
  lemma CountRowMissing(ws: seq<string>, i: nat, ref: map<string, nat>)
    requires ValidRef(ref) && i < |ws| && CountRow(ws[..i], ref).Ok?
    requires Counted(ws[i]) && ws[i] !in ref
    ensures CountRow(ws, ref) == Err(KeyError(ws[i]))
  {
    assert ws[..i + 1][..i] == ws[..i];
    CountRowErrPersists(ws, i + 1, ref);
  }

  // ---------------------------------------------------------------------------
  // Putting the parts together on real input
  // ---------------------------------------------------------------------------

  /** When every window is counted and has a column, the scan succeeds and
      the row sums to the number of windows. */
  lemma {:induction false} AllWindowsCounted(ws: seq<string>, ref: map<string, nat>)
    requires ValidRef(ref)
    requires forall i :: 0 <= i < |ws| ==> Counted(ws[i]) && ws[i] in ref
    ensures CountRow(ws, ref).Ok? && Sum(CountRow(ws, ref).value) == |ws|
  {
    CountRowOkIff(ws, ref);
    CountRowTotal(ws, ref);
    AllCounted(ws);
  }

  /** On a lower-case sequence over the four bases, as the input files give
      after `.lower()`, with k >= 1: every window has a column of the index
      lookup, so no KeyError is raised, and because the complement table only
      knows upper-case bases no window is ever skipped — the row sums to the
      number of windows, palindromic ones included. */
  lemma LowerSequenceCountRow(s: string, k: nat, order: seq<string>)
    requires k >= 1 && IsLowerStrand(s)
    requires IsListingOf(order, Product(k))
    ensures ValidRef(KmerIndexLookup(k, order))
    ensures CountRow(GenKmers(s, k), KmerIndexLookup(k, order)).Ok?
    ensures Sum(CountRow(GenKmers(s, k), KmerIndexLookup(k, order)).value) == |GenKmers(s, k)|
  {
    var ref := KmerIndexLookup(k, order);
    var ws := GenKmers(s, k);
    forall i | 0 <= i < |ws|
      ensures Counted(ws[i]) && ws[i] in ref
    {
      LowerWindow(s, k, i);
      LowerStrandNeverSelfComplementary(ws[i]);
    }
    AllWindowsCounted(ws, ref);
  }

  /** Every window of a lower-case strand is a lower-case strand of length k. */
  lemma LowerWindow(s: string, k: nat, i: nat)
    requires IsLowerStrand(s) && i < |GenKmers(s, k)|
    ensures |GenKmers(s, k)[i]| == k && IsLowerStrand(GenKmers(s, k)[i])
  {
    assert forall j :: 0 <= j < k ==> GenKmers(s, k)[i][j] == s[i + j];
  }

  lemma {:induction false} AllCounted(ws: seq<string>)
    requires forall i :: 0 <= i < |ws| ==> Counted(ws[i])
    ensures NumCounted(ws) == |ws|
  {
    if ws != [] {
      AllCounted(ws[..|ws| - 1]);
    }
  }
}
