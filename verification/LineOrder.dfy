/**
 Reassembly of a code widget's lines. The page may hold its line elements in any order; they are sorted by
 their line index, and the result is used only if the indices are contiguous from 0 or 1.
 */
module LineOrder {

  /** `Number(attribute)`: a safe integer, or anything else (not a number, a fraction, out of range). */
  datatype Index = Safe(n: int) | Unsafe(tag: nat)

  datatype Line = Line(index: Index, text: string)

  /**
   `sort` with the numeric comparator: some rearrangement of the input, in index order whenever all indices
   are numbers. Nothing is promised about the order otherwise.
   */
  ghost predicate SortedFrom(input: seq<Line>, output: seq<Line>) {
    && multiset(output) == multiset(input)
    && ((forall x | x in input :: x.index.Safe?) ==> Ascending(output))
  }

  ghost predicate Ascending(lines: seq<Line>) {
    && (forall x | x in lines :: x.index.Safe?)
    && forall i, j | 0 <= i < j < |lines| :: lines[i].index.n <= lines[j].index.n
  }

  /** The contiguity check on the sorted lines. */
  predicate IndicesValid(sorted: seq<Line>) {
    && |sorted| > 0
    && sorted[0].index.Safe?
    && (sorted[0].index.n == 0 || sorted[0].index.n == 1)
    && forall i | 0 <= i < |sorted| :: sorted[i].index == Safe(sorted[0].index.n + i)
  }

  function JoinLines(lines: seq<Line>): string {
    if lines == [] then ""
    else if |lines| == 1 then lines[0].text
    else lines[0].text + "\n" + JoinLines(lines[1..])
  }

  /** Positions holding equal lines in two arrangements of the same multiset. */
  lemma SameMembers(a: seq<Line>, b: seq<Line>)
    requires multiset(a) == multiset(b)
    ensures |a| == |b| && forall x :: x in a <==> x in b
  {
    assert |a| == |multiset(a)| == |multiset(b)| == |b|;
    forall x ensures x in a <==> x in b {
      assert x in a <==> x in multiset(a);
      assert x in b <==> x in multiset(b);
    }
  }

  lemma SuffixesAgree(a: seq<Line>, b: seq<Line>, k: nat)
    requires multiset(a) == multiset(b) && k <= |a| == |b| && a[..k] == b[..k]
    ensures multiset(a[k..]) == multiset(b[k..])
  {
    assert a == a[..k] + a[k..] && b == b[..k] + b[k..];
    assert multiset(a) == multiset(a[..k]) + multiset(a[k..]);
    assert multiset(b) == multiset(b[..k]) + multiset(b[k..]);
    assert multiset(a[k..]) == multiset(a) - multiset(a[..k]) == multiset(b[k..]);
  }

  /** A line at or after position `k` of one arrangement stands at or after `k` in the other. */
  lemma StaysBehind(a: seq<Line>, b: seq<Line>, k: nat) returns (p: nat)
    requires multiset(a) == multiset(b) && k < |a| == |b| && a[..k] == b[..k]
    ensures k <= p < |b| && b[p] == a[k]
  {
    SuffixesAgree(a, b, k);
    SameMembers(a[k..], b[k..]);
    assert a[k] == a[k..][0] && a[k] in b[k..];
    var i :| 0 <= i < |b[k..]| && b[k..][i] == a[k];
    p := k + i;
  }

  /** When two arrangements agree below `k`, the ordered one has the line of rank `k` at position `k`. */
  lemma NextLineAgrees(a: seq<Line>, b: seq<Line>, k: nat)
    requires multiset(a) == multiset(b) && IndicesValid(a) && Ascending(b)
    requires k < |a| == |b| && a[..k] == b[..k]
    ensures b[k] == a[k]
  {
    var p := StaysBehind(a, b, k);
    var q := StaysBehind(b, a, k);
  }

  lemma {:induction false} PrefixAgrees(a: seq<Line>, b: seq<Line>, k: nat)
    requires multiset(a) == multiset(b) && IndicesValid(a) && Ascending(b)
    requires k <= |a| && |a| == |b|
    ensures a[..k] == b[..k]
  {
    if k > 0 {
      PrefixAgrees(a, b, k - 1);
      NextLineAgrees(a, b, k - 1);
      assert a[..k] == a[..k - 1] + [a[k - 1]] && b[..k] == b[..k - 1] + [b[k - 1]];
    }
  }

  /** Contiguous, hence distinct, indices leave no choice to the sort. */
  lemma ValidOrderIsUnique(input: seq<Line>, a: seq<Line>, b: seq<Line>)
    requires SortedFrom(input, b) && multiset(a) == multiset(input) && IndicesValid(a)
    ensures a == b
  {
    SameMembers(a, b);
    SameMembers(a, input);
    PrefixAgrees(a, b, |a|);
    assert a[..|a|] == a && b[..|b|] == b;
  }

  /** The indices of the lines are exactly `base`, `base + 1`, ..., in any order. */
  ghost predicate Contiguous(lines: seq<Line>, base: int) {
    && (forall x | x in lines :: x.index.Safe? && base <= x.index.n < base + |lines|)
    && forall n | base <= n < base + |lines| :: OccursIn(lines, n)
  }

  ghost predicate OccursIn(lines: seq<Line>, n: int) {
    exists i :: 0 <= i < |lines| && lines[i].index == Safe(n)
  }

  lemma {:induction false} NoIndexTooLate(b: seq<Line>, base: int, k: nat)
    requires Ascending(b) && Contiguous(b, base) && k < |b|
    ensures forall i | 0 <= i <= k :: b[i].index.n <= base + i
  {
    if k > 0 { NoIndexTooLate(b, base, k - 1); }
    assert OccursIn(b, base + k);
    var p :| 0 <= p < |b| && b[p].index == Safe(base + k);
  }

  lemma {:induction false} NoIndexTooEarly(b: seq<Line>, base: int, k: nat)
    requires Ascending(b) && Contiguous(b, base) && k < |b|
    ensures forall i | k <= i < |b| :: b[i].index.n >= base + i
    decreases |b| - k
  {
    if k + 1 < |b| { NoIndexTooEarly(b, base, k + 1); }
    assert OccursIn(b, base + k);
    var p :| 0 <= p < |b| && b[p].index == Safe(base + k);
  }

  /** The check accepts exactly the non-empty sets of lines whose indices are 0..n-1 or 1..n. */
  lemma AcceptedExactlyWhenContiguous(dom: seq<Line>, sorted: seq<Line>)
    requires SortedFrom(dom, sorted)
    ensures IndicesValid(sorted) <==> |dom| > 0 && (Contiguous(dom, 0) || Contiguous(dom, 1))
  {
    SameMembers(dom, sorted);
    if IndicesValid(sorted) {
      var base := sorted[0].index.n;
      forall n | base <= n < base + |dom| ensures OccursIn(dom, n) {
        assert sorted[n - base] in dom;
      }
      assert Contiguous(dom, base);
    } else if |dom| > 0 && (Contiguous(dom, 0) || Contiguous(dom, 1)) {
      var base := if Contiguous(dom, 0) then 0 else 1;
      forall n | base <= n < base + |dom| ensures OccursIn(sorted, n) {
        assert OccursIn(dom, n);
        var i :| 0 <= i < |dom| && dom[i].index == Safe(n);
        assert dom[i] in sorted;
      }
      assert Contiguous(sorted, base);
      NoIndexTooLate(sorted, base, |sorted| - 1);
      NoIndexTooEarly(sorted, base, 0);
      assert false;
    }
  }

  /**
   Reconstruction is independent of the order of the DOM: when the check accepts one sorted arrangement of
   the lines, every sorted arrangement of every permutation of them is accepted and yields the same code.
   */
  lemma ReconstructionIgnoresDomOrder(dom1: seq<Line>, sorted1: seq<Line>, dom2: seq<Line>, sorted2: seq<Line>)
    requires multiset(dom1) == multiset(dom2)
    requires SortedFrom(dom1, sorted1) && SortedFrom(dom2, sorted2)
    requires IndicesValid(sorted1)
    ensures IndicesValid(sorted2) && JoinLines(sorted1) == JoinLines(sorted2)
  {
    ValidOrderIsUnique(dom2, sorted1, sorted2);
  }
}
