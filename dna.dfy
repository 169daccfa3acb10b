/**
 * Nucleotide strings and their reverse complement (get_promoter.py:15-17).
 * The translation table swaps A with T and C with G; every character the
 * table does not list (N, lower-case bases, IUPAC codes, newlines) passes
 * through unchanged, and the translated string is then reversed.
 */
module Dna {

  /** The translation table of `str.maketrans('ACGT', 'TGCA')`, applied to one character. */
  function Complement(c: char): char
  {
    match c
    case 'A' => 'T'
    case 'C' => 'G'
    case 'G' => 'C'
    case 'T' => 'A'
    case _ => c
  }

  lemma ComplementInvolution(c: char)
    ensures Complement(Complement(c)) == c
  {
  }

  /** `seq.translate(table)`: the complement of every character, in the same order. */
  function Translate(s: string): (t: string)
    ensures |t| == |s|
    ensures forall i :: 0 <= i < |s| ==> t[i] == Complement(s[i])
  {
    if s == [] then [] else [Complement(s[0])] + Translate(s[1..])
  }

  /** The slice `s[::-1]`. */
  function Reverse(s: string): (r: string)
    ensures |r| == |s|
    ensures forall i :: 0 <= i < |s| ==> r[i] == s[|s| - 1 - i]
  {
    if s == [] then [] else [s[|s| - 1]] + Reverse(s[..|s| - 1])
  }

  /** `reverse_complement(seq)`. */
  function ReverseComplement(s: string): (r: string)
    ensures |r| == |s|
    ensures forall i :: 0 <= i < |s| ==> r[i] == Complement(s[|s| - 1 - i])
  {
    Reverse(Translate(s))
  }

  /** Taking the reverse complement twice gives back any string, not only one over ACGT. */
  lemma {:induction false} ReverseComplementInvolution(s: string)
    ensures ReverseComplement(ReverseComplement(s)) == s
  {
    var t := ReverseComplement(ReverseComplement(s));
    forall i | 0 <= i < |s|
      ensures t[i] == s[i]
    {
      ComplementInvolution(s[|s| - 1 - (|s| - 1 - i)]);
    }
  }

  /** A character outside ACGT occurs in the reverse complement exactly when it occurs in the input. */
  lemma {:induction false} ReverseComplementKeepsOthers(s: string, c: char)
    requires c !in "ACGT"
    ensures c in ReverseComplement(s) <==> c in s
  {
    var r := ReverseComplement(s);
    assert Complement(c) == c;
    if c in s {
      var i :| 0 <= i < |s| && s[i] == c;
      var k := |s| - 1 - i;
      assert s[|s| - 1 - k] == c;
      assert r[k] == c;
    }
    if c in r {
      var k :| 0 <= k < |r| && r[k] == c;
      var i := |s| - 1 - k;
      ComplementInvolution(s[i]);
      assert Complement(s[i]) == c;
      assert s[i] == c;
    }
  }

  /** Worked values: a palindromic site maps to itself, other characters pass through. */
  lemma ReverseComplementExamples()
    ensures ReverseComplement("ACGT") == "ACGT"
    ensures ReverseComplement("ANGn") == "nCNT"
  {
    var r := ReverseComplement("ACGT");
    assert r[0] == 'A' && r[1] == 'C' && r[2] == 'G' && r[3] == 'T';
    var q := ReverseComplement("ANGn");
    assert q[0] == 'n' && q[1] == 'C' && q[2] == 'N' && q[3] == 'T';
  }
}
