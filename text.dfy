/**
 * The Python string operations the core relies on: `split(sep, 1)`,
 * `replace(c, '')`, `sep.join(...)` and, to read a written file back,
 * `split(sep)`.
 */
module Text {
  import opened Wrappers

  /** The index of the first occurrence of `c` in `s`, if any. */
  function FindFirst(s: string, c: char): (r: Option<nat>)
    ensures r.None? <==> c !in s
    ensures r.Some? ==> r.value < |s| && s[r.value] == c && c !in s[..r.value]
  {
    if s == [] then None
    else if s[0] == c then Some(0)
    else match FindFirst(s[1..], c)
      case None => None
      case Some(i) => Some(i + 1)
  }

  /** `s.split(sep, 1)`: the whole string when `sep` does not occur, else the parts before and after its first occurrence. */
  function SplitOnce(s: string, sep: char): (parts: seq<string>)
    ensures |parts| == 1 <==> sep !in s
    ensures |parts| == 1 ==> parts[0] == s
    ensures |parts| != 1 ==> |parts| == 2 && s == parts[0] + [sep] + parts[1] && sep !in parts[0]
  {
    match FindFirst(s, sep)
    case None => [s]
    case Some(i) => [s[..i], s[i + 1..]]
  }

  /** `s.replace(c, '')`: `s` with every occurrence of `c` deleted. */
  function RemoveAll(s: string, c: char): (r: string)
    ensures c !in r && |r| <= |s|
  {
    if s == [] then [] else (if s[0] == c then [] else [s[0]]) + RemoveAll(s[1..], c)
  }

  /** Every other character keeps its number of occurrences. */
  lemma {:induction false} RemoveAllKeepsOthers(s: string, c: char, d: char)
    requires d != c
    ensures multiset(RemoveAll(s, c))[d] == multiset(s)[d]
  {
    if s != [] {
      RemoveAllKeepsOthers(s[1..], c, d);
      assert s == [s[0]] + s[1..];
    }
  }

  /** Deleting a character from a concatenation deletes it from each part. */
  lemma {:induction false} RemoveAllAppend(a: string, b: string, c: char)
    ensures RemoveAll(a + b, c) == RemoveAll(a, c) + RemoveAll(b, c)
  {
    if a != [] {
      assert (a + b)[1..] == a[1..] + b;
      RemoveAllAppend(a[1..], b, c);
    } else {
      assert a + b == b;
    }
  }

  /** A string without `c` is left as it is. */
  lemma {:induction false} RemoveAllAbsent(s: string, c: char)
    requires c !in s
    ensures RemoveAll(s, c) == s
  {
    if s != [] {
      RemoveAllAbsent(s[1..], c);
    }
  }

  /** `sep.join(xs)`. */
  function Join(xs: seq<string>, sep: string): string
  {
    if xs == [] then ""
    else if |xs| == 1 then xs[0]
    else xs[0] + sep + Join(xs[1..], sep)
  }

  /** `s.split('\n')`: the lines of a text, the last one possibly empty. */
  function Lines(s: string): (ls: seq<string>)
    ensures |ls| >= 1
    ensures forall i :: 0 <= i < |ls| ==> '\n' !in ls[i]
    decreases |s|
  {
    match FindFirst(s, '\n')
    case None => [s]
    case Some(i) => [s[..i]] + Lines(s[i + 1..])
  }

  /** In `x + [c] + rest` with `c` not in `x`, the first `c` is the one right after `x`. */
  lemma FindFirstAfter(x: string, c: char, rest: string)
    requires c !in x
    ensures FindFirst(x + [c] + rest, c) == Some(|x|)
  {
    var s := x + [c] + rest;
    var j := FindFirst(s, c).value;
    assert forall k :: 0 <= k < |x| ==> s[k] == x[k];
    assert s[|x|] == c;
    assert forall k :: 0 <= k < j ==> s[..j][k] == s[k];
  }

  /** A line followed by a newline splits off as the first line. */
  lemma LinesCons(x: string, rest: string)
    requires '\n' !in x
    ensures Lines(x + "\n" + rest) == [x] + Lines(rest)
  {
    var s := x + "\n" + rest;
    FindFirstAfter(x, '\n', rest);
    assert s[..|x|] == x;
    assert s[|x| + 1..] == rest;
  }

  /** Lines without newlines, joined with newlines, split back into the same lines. */
  lemma {:induction false} LinesOfJoin(xs: seq<string>)
    requires xs != []
    requires forall i :: 0 <= i < |xs| ==> '\n' !in xs[i]
    ensures Lines(Join(xs, "\n")) == xs
  {
    if |xs| > 1 {
      var rest := Join(xs[1..], "\n");
      assert Join(xs, "\n") == xs[0] + "\n" + rest;
      LinesCons(xs[0], rest);
      LinesOfJoin(xs[1..]);
      assert xs == [xs[0]] + xs[1..];
    }
  }

  /** `[a0, b0, a1, b1, ...]`. */
  function Interleave(as_: seq<string>, bs: seq<string>): (r: seq<string>)
    requires |as_| == |bs|
    ensures |r| == 2 * |as_|
    ensures forall i :: 0 <= i < |as_| ==> r[2 * i] == as_[i] && r[2 * i + 1] == bs[i]
  {
    if as_ == [] then [] else [as_[0], bs[0]] + Interleave(as_[1..], bs[1..])
  }

  /** Interleaving lines without `c` gives lines without `c`. */
  lemma {:induction false} InterleaveAvoids(as_: seq<string>, bs: seq<string>, c: char)
    requires |as_| == |bs|
    requires forall i :: 0 <= i < |as_| ==> c !in as_[i] && c !in bs[i]
    ensures forall j :: 0 <= j < 2 * |as_| ==> c !in Interleave(as_, bs)[j]
  {
    if as_ != [] {
      InterleaveAvoids(as_[1..], bs[1..], c);
      var il := Interleave(as_, bs);
      assert il == [as_[0], bs[0]] + Interleave(as_[1..], bs[1..]);
    }
  }

  /** Joining a line in front of a non-empty list puts one separator after it. */
  lemma JoinCons(x: string, xs: seq<string>, sep: string)
    requires xs != []
    ensures Join([x] + xs, sep) == x + sep + Join(xs, sep)
  {
    assert ([x] + xs)[1..] == xs;
  }

  /** Joining two-line records with newlines is joining all their lines with newlines. */
  lemma {:induction false} JoinPairs(recs: seq<string>, as_: seq<string>, bs: seq<string>)
    requires |recs| == |as_| == |bs|
    requires forall i :: 0 <= i < |recs| ==> recs[i] == as_[i] + "\n" + bs[i]
    ensures Join(recs, "\n") == Join(Interleave(as_, bs), "\n")
  {
    if |recs| == 1 {
      assert Interleave(as_, bs) == [as_[0]] + [bs[0]];
      JoinCons(as_[0], [bs[0]], "\n");
    } else if |recs| > 1 {
      var tail := Interleave(as_[1..], bs[1..]);
      JoinPairs(recs[1..], as_[1..], bs[1..]);
      assert Interleave(as_, bs) == [as_[0]] + ([bs[0]] + tail);
      JoinCons(bs[0], tail, "\n");
      JoinCons(as_[0], [bs[0]] + tail, "\n");
      assert recs == [recs[0]] + recs[1..];
      JoinCons(recs[0], recs[1..], "\n");
    }
  }
}
