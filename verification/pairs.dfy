/** The order in which `update_simulation` (src-tauri/src/lib.rs) visits
    pairs of bodies: the outer loop runs `i` over `0..n`, the inner loop `j`
    over `i + 1..n`. */
module Pairs {

  /** A pair of body indices `(i, j)`. */
  type Pair = (int, int)

  /** Lexicographic order on pairs. */
  predicate LexLess(p: Pair, q: Pair) {
    p.0 < q.0 || (p.0 == q.0 && p.1 < q.1)
  }

  predicate StrictlyIncreasing(ps: seq<Pair>) {
    forall a, b :: 0 <= a < b < |ps| ==> LexLess(ps[a], ps[b])
  }

  /** Every pair is an `i < j` pair of indices below `n`. */
  predicate InRange(ps: seq<Pair>, n: int) {
    forall k :: 0 <= k < |ps| ==> 0 <= ps[k].0 < ps[k].1 < n
  }

  /** The pairs the inner loop visits for a fixed `i`. */
  function Row(i: nat, n: nat): seq<Pair> {
    seq(if i < n then n - i - 1 else 0, k => (i, i + 1 + k))
  }

  /** The pairs the outer loop has visited before it reaches `i`. */
  function PairsBefore(i: nat, n: nat): seq<Pair> {
    if i == 0 then [] else PairsBefore(i - 1, n) + Row(i - 1, n)
  }

  /** Every pair one step visits, in visiting order. */
  function AllPairs(n: nat): seq<Pair> {
    PairsBefore(n, n)
  }

  /** The inner loop at `j` has visited the first `j - i - 1` pairs of row
      `i`: none on entry, one more `(i, j)` per iteration, the whole row on
      exit. */
  lemma RowPrefix(i: nat, j: nat, n: nat)
    requires i < j <= n
    ensures Row(i, n)[..0] == []
    ensures InRange(Row(i, n)[..j - i - 1], n)
    ensures j < n ==> Row(i, n)[..j - i] == Row(i, n)[..j - i - 1] + [(i, j)]
    ensures j == n ==> Row(i, n)[..j - i - 1] == Row(i, n)
  {
  }

  /** The pairs visited before row `i` are exactly the `(p, q)` with
      `p < i` and `p < q < n`. */
  lemma {:induction false} PairsBeforeMembers(i: nat, n: nat)
    ensures forall p: Pair :: p in PairsBefore(i, n) <==> 0 <= p.0 < i && p.0 < p.1 < n
    ensures InRange(PairsBefore(i, n), n)
  {
    if i > 0 {
      PairsBeforeMembers(i - 1, n);
      forall p: Pair | 0 <= p.0 < i && p.0 < p.1 < n
        ensures p in PairsBefore(i, n)
      {
        if p.0 == i - 1 {
          assert Row(i - 1, n)[p.1 - i] == p;
        }
      }
    }
  }

  lemma ConcatIncreasing(s: seq<Pair>, t: seq<Pair>)
    requires StrictlyIncreasing(s) && StrictlyIncreasing(t)
    requires forall a, b :: 0 <= a < |s| && 0 <= b < |t| ==> LexLess(s[a], t[b])
    ensures StrictlyIncreasing(s + t)
  {
  }

  /** The visiting order is strictly increasing, so no pair is visited twice. */
  lemma {:induction false} PairsBeforeIncreasing(i: nat, n: nat)
    ensures StrictlyIncreasing(PairsBefore(i, n))
  {
    if i > 0 {
      PairsBeforeIncreasing(i - 1, n);
      PairsBeforeMembers(i - 1, n);
      var s, t := PairsBefore(i - 1, n), Row(i - 1, n);
      forall a, b | 0 <= a < |s| && 0 <= b < |t|
        ensures LexLess(s[a], t[b])
      {
        assert s[a] in s;
      }
      ConcatIncreasing(s, t);
    }
  }

  /** Twice the number of pairs visited before row `i` (for `i <= n`). */
  lemma {:induction false} PairsBeforeLength(i: nat, n: nat)
    requires i <= n
    ensures 2 * |PairsBefore(i, n)| == i * (2 * n - i - 1)
  {
    if i > 0 {
      PairsBeforeLength(i - 1, n);
      assert |Row(i - 1, n)| == n - i;
      assert i * (2 * n - i - 1) == (i - 1) * (2 * n - (i - 1) - 1) + 2 * (n - i);
    }
  }

  /** One step visits each unordered pair `i < j` of `n` bodies exactly once,
      in increasing lexicographic order: n(n-1)/2 pairs in all. */
  lemma AllPairsExactlyOnce(n: nat)
    ensures forall p: Pair :: p in AllPairs(n) <==> 0 <= p.0 < p.1 < n
    ensures StrictlyIncreasing(AllPairs(n))
    ensures forall a, b :: 0 <= a < b < |AllPairs(n)| ==> AllPairs(n)[a] != AllPairs(n)[b]
    ensures InRange(AllPairs(n), n)
    ensures 2 * |AllPairs(n)| == n * (n - 1)
  {
    PairsBeforeMembers(n, n);
    PairsBeforeIncreasing(n, n);
    PairsBeforeLength(n, n);
  }
}
