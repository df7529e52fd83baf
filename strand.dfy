/** Strand handling: the base-complement table, string reversal and the
    reverse complement (`neg_strand`) of a positive-strand sequence. */
module Strand {

  /** `cmpl_base_pair`: the Watson-Crick partner of an UPPER-case base; every
      other character, lower-case bases included, maps to the sentinel 'N'. */
  function Complement(x: char): (y: char)
    ensures x == 'A' ==> y == 'T'
    ensures x == 'C' ==> y == 'G'
    ensures x == 'T' ==> y == 'A'
    ensures x == 'G' ==> y == 'C'
    ensures y == 'N' <==> x !in "ACGT"
  {
    if x == 'A' then 'T'
    else if x == 'C' then 'G'
    else if x == 'T' then 'A'
    else if x == 'G' then 'C'
    else 'N'
  }

  /** On the four upper-case bases the table is a fixpoint-free involution. */
  lemma ComplementInvolution(x: char)
    requires x in "ACGT"
    ensures Complement(x) in "ACGT" && Complement(x) != x
    ensures Complement(Complement(x)) == x
  {
  }

  /** The reverse of a string. */
  function Reversed(s: string): (r: string)
    ensures |r| == |s|
  {
    if s == [] then [] else Reversed(s[1..]) + [s[0]]
  }

  /** Reversal, element by element: position `i` holds the element `i` places
      from the end. */
  lemma {:induction false} ReversedAt(s: string)
    ensures forall i :: 0 <= i < |s| ==> Reversed(s)[i] == s[|s| - 1 - i]
  {
    if s != [] {
      ReversedAt(s[1..]);
    }
  }

  /** Python's `list.reverse()`: reverses the list in place by swapping
      mirrored positions. */
  method ReverseInPlace(a: array<char>)
    modifies a
    ensures a[..] == Reversed(old(a[..]))
  {
    ghost var s := a[..];
    var lo, hi := 0, a.Length;
    while lo + 1 < hi
      invariant 0 <= lo <= hi && lo + hi == a.Length
      invariant forall i :: 0 <= i < lo ==> a[i] == s[a.Length - 1 - i]
      invariant forall i :: hi <= i < a.Length ==> a[i] == s[a.Length - 1 - i]
      invariant forall i :: lo <= i < hi ==> a[i] == s[i]
    {
      a[lo], a[hi - 1] := a[hi - 1], a[lo];
      lo, hi := lo + 1, hi - 1;
    }
    ReversedAt(s);
  }

  /** `reverse`: copies the string into a list, reverses that list in place and
      returns it. */
  method Reverse(s: string) returns (r: seq<char>)
    ensures r == Reversed(s)
  {
    var listForm := new char[|s|](i requires 0 <= i < |s| => s[i]);
    assert listForm[..] == s;
    ReverseInPlace(listForm);
    r := listForm[..];
  }

  /** `map(cmpl_base_pair, ...)` joined back into a string. */
  function ComplementAll(s: string): (r: string)
    ensures |r| == |s|
  {
    if s == [] then [] else [Complement(s[0])] + ComplementAll(s[1..])
  }

  /** The complement is taken character by character. */
  lemma {:induction false} ComplementAllAt(s: string)
    ensures forall i :: 0 <= i < |s| ==> ComplementAll(s)[i] == Complement(s[i])
  {
    if s != [] {
      ComplementAllAt(s[1..]);
    }
  }

  /** `neg_strand`: the reverse complement, read 5' to 3' on the other strand. */
  function NegStrand(s: string): (r: string)
    ensures |r| == |s|
  {
    ComplementAll(Reversed(s))
  }

  /** Position `i` of the reverse complement is the complement of the base `i`
      places from the end. */
  lemma NegStrandAt(s: string)
    ensures forall i :: 0 <= i < |s| ==> NegStrand(s)[i] == Complement(s[|s| - 1 - i])
  {
    ReversedAt(s);
    ComplementAllAt(Reversed(s));
  }

  /** Every character is one of the upper-case bases the table knows. */
  predicate IsUpperStrand(s: string)
  {
    forall i :: 0 <= i < |s| ==> s[i] in "ACGT"
  }

  /** Every character is a lower-case base, as the sequences read from the
      input files are after `.lower()`. */
  predicate IsLowerStrand(s: string)
  {
    forall i :: 0 <= i < |s| ==> s[i] in "acgt"
  }

  /** On upper-case strands the reverse complement is an involution. */
  lemma NegStrandInvolution(s: string)
    requires IsUpperStrand(s)
    ensures IsUpperStrand(NegStrand(s))
    ensures NegStrand(NegStrand(s)) == s
  {
    var n := NegStrand(s);
    NegStrandAt(s);
    NegStrandAt(n);
    forall i | 0 <= i < |s|
      ensures n[i] in "ACGT" && NegStrand(n)[i] == s[i]
    {
      ComplementInvolution(s[|s| - 1 - i]);
    }
  }

  /** A string with no upper-case base has an all-'N' reverse complement. */
  lemma NegStrandWithoutUpperBases(s: string)
    requires forall i :: 0 <= i < |s| ==> s[i] !in "ACGT"
    ensures forall i :: 0 <= i < |s| ==> NegStrand(s)[i] == 'N'
  {
    NegStrandAt(s);
  }

  /** Consequence for real input: no non-empty lower-case strand equals its own
      reverse complement, so the palindrome test of the k-mer counter never fires. */
  lemma LowerStrandNeverSelfComplementary(s: string)
    requires |s| > 0 && IsLowerStrand(s)
    ensures s != NegStrand(s)
  {
    NegStrandAt(s);
    assert NegStrand(s)[0] == 'N';
  }
}
