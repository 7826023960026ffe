/**
 * The randomised utilities of src/utils.js: randomInt, randomChoice and
 * shuffle. Each value of Math.random() is a real number `u` with
 * 0 <= u < 1; `Math.floor(Math.random() * n)` is `Draw(u, n)`. The pure
 * functions take their draw as a parameter; the shuffle loop draws a fresh
 * `u` on every iteration, and its contract holds whatever value it gets.
 */
module Random {
  import opened Wrappers

  /** `Math.floor(u * n)`: an index below `n` when there is one. */
  function Draw(u: real, n: nat): (k: int)
    requires 0.0 <= u < 1.0
    ensures n > 0 ==> 0 <= k < n
    ensures n == 0 ==> k == 0
  {
    assert 0.0 <= u * n as real <= 1.0 * n as real;
    assert n > 0 ==> u * n as real < n as real;
    (u * n as real).Floor
  }

  /** Every index below `n` is the draw of some value of Math.random(). */
  lemma DrawHits(k: nat, n: nat)
    requires k < n
    ensures 0.0 <= k as real / n as real < 1.0
    ensures Draw(k as real / n as real, n) == k
  {
    var u := k as real / n as real;
    assert u * n as real == k as real;
    assert u < 1.0 by {
      assert (1.0 - u) * n as real == (n - k) as real;
    }
  }

  // ---------------------------------------------------------------------------
  // randomInt
  // ---------------------------------------------------------------------------

  /** The RangeError randomInt throws. */
  datatype RangeError = RangeError(message: string)

  /**
   * randomInt(min, max) with the draw `u`: a RangeError when `min > max`,
   * otherwise an integer of the closed range `[min, max]`.
   */
  function RandomInt(min: int, max: int, u: real): (r: Result<int, RangeError>)
    requires 0.0 <= u < 1.0
    ensures r.Failure? <==> min > max
    ensures r.Success? ==> min <= r.value <= max
    ensures min == max ==> r == Success(min)
  {
    if min > max then Failure(RangeError("min must be less than or equal to max"))
    else Success(Draw(u, max - min + 1) + min)
  }

  /** No integer of `[min, max]` is out of reach. */
  lemma RandomIntCovers(min: int, max: int, x: int)
    requires min <= x <= max
    ensures exists u :: 0.0 <= u < 1.0 && RandomInt(min, max, u) == Success(x)
  {
    var n := max - min + 1;
    DrawHits(x - min, n);
    var u := (x - min) as real / n as real;
    assert RandomInt(min, max, u) == Success(x);
  }

  /**
   * randomInt as written, for bounds that are any finite numbers: it
   * never checks that they are integers.
   */
  function RandomIntAsWritten(min: real, max: real, u: real): (r: Result<real, RangeError>)
    requires 0.0 <= u < 1.0
    ensures r.Failure? <==> min > max
  {
    if min > max then Failure(RangeError("min must be less than or equal to max"))
    else Success((u * (max - min + 1.0)).Floor as real + min)
  }

  /** With integer bounds the code as written is RandomInt. */
  lemma RandomIntAsWrittenOnIntegers(min: int, max: int, u: real)
    requires 0.0 <= u < 1.0
    ensures RandomInt(min, max, u).Success? ==>
      RandomIntAsWritten(min as real, max as real, u) == Success(RandomInt(min, max, u).value as real)
    ensures RandomInt(min, max, u).Failure? ==> RandomIntAsWritten(min as real, max as real, u).Failure?
  {
    if min <= max {
      var n := max - min + 1;
      assert max as real - min as real + 1.0 == n as real;
      var k := Draw(u, n);
      assert (u * (max as real - min as real + 1.0)).Floor == k;
      assert k as real + min as real == (k + min) as real;
    }
  }

  /** randomInt(0, 0.5) can return 1, above max, and randomInt(0.5, 1) can return 1.5. */
  lemma RandomIntAsWrittenLeavesRange()
    ensures RandomIntAsWritten(0.0, 0.5, 0.75) == Success(1.0)
    ensures RandomIntAsWritten(0.5, 1.0, 0.75) == Success(1.5)
  {
    assert 0.75 * (0.5 - 0.0 + 1.0) == 1.125;
    assert 0.75 * (1.0 - 0.5 + 1.0) == 1.125;
    assert (1.125).Floor == 1;
  }

  // ---------------------------------------------------------------------------
  // randomChoice
  // ---------------------------------------------------------------------------

  /**
   * randomChoice(array) with the draw `u`: undefined for an empty array,
   * otherwise one of its elements; the only element of a singleton.
   */
  function RandomChoice<T>(a: seq<T>, u: real): (r: Option<T>)
    requires 0.0 <= u < 1.0
    ensures r.None? <==> |a| == 0
    ensures r.Some? ==> r.value in a
    ensures |a| == 1 ==> r == Some(a[0])
  {
    if |a| == 0 then None else Some(a[Draw(u, |a|)])
  }

  /** Every element of a non-empty array can be picked. */
  lemma RandomChoiceCovers<T>(a: seq<T>, k: nat)
    requires k < |a|
    ensures exists u :: 0.0 <= u < 1.0 && RandomChoice(a, u) == Some(a[k])
  {
    DrawHits(k, |a|);
    var u := k as real / |a| as real;
    assert RandomChoice(a, u) == Some(a[k]);
  }

  // ---------------------------------------------------------------------------
  // shuffle
  // ---------------------------------------------------------------------------

  /** The destructuring swap `[s[i], s[j]] = [s[j], s[i]]`. */
  function Swap<T>(s: seq<T>, i: nat, j: nat): (r: seq<T>)
    requires i < |s| && j < |s|
    ensures |r| == |s|
  {
    s[i := s[j]][j := s[i]]
  }

  /** A swap exchanges two places and leaves the others alone. */
  lemma SwapAt<T>(s: seq<T>, i: nat, j: nat)
    requires i < |s| && j < |s|
    ensures Swap(s, i, j)[i] == s[j] && Swap(s, i, j)[j] == s[i]
    ensures forall k :: 0 <= k < |s| && k != i && k != j ==> Swap(s, i, j)[k] == s[k]
  {
  }

  /** A swap keeps the multiset of elements. */
  lemma SwapPermutes<T>(s: seq<T>, i: nat, j: nat)
    requires i < |s| && j < |s|
    ensures multiset(Swap(s, i, j)) == multiset(s)
  {
    var t := s[i := s[j]];
    assert multiset(t) == multiset(s) - multiset{s[i]} + multiset{s[j]};
  }

  /** The indices `j` the shuffle loop has drawn so far, the latest outermost. */
  datatype Draws = NoDraws | Drew(earlier: Draws, j: nat)

  /** The number of iterations that made the draws. */
  function Count(d: Draws): nat
  {
    match d
    case NoDraws => 0
    case Drew(earlier, _) => Count(earlier) + 1
  }

  /**
   * Draws the shuffle loop can make on an array of `n` elements: at most
   * `n - 1` of them, and the one made at iteration `k` (from 1) is an index
   * `j` swapped with `i == n - k`, so `j <= i`.
   */
  predicate ValidDraws(n: nat, d: Draws)
  {
    match d
    case NoDraws => true
    case Drew(earlier, j) => Count(d) < n && j <= n - Count(d) && ValidDraws(n, earlier)
  }

  /** The array after the iterations of the shuffle loop that made the draws `d`. */
  function SwapDown<T>(s: seq<T>, d: Draws): (r: seq<T>)
    requires ValidDraws(|s|, d)
    ensures |r| == |s|
  {
    match d
    case NoDraws => s
    case Drew(earlier, j) => Swap(SwapDown(s, earlier), |s| - Count(d), j)
  }

  /** Whatever the draws, the swaps only reorder: the result is a permutation. */
  lemma {:induction false} SwapDownPermutes<T>(s: seq<T>, d: Draws)
    requires ValidDraws(|s|, d)
    ensures multiset(SwapDown(s, d)) == multiset(s)
  {
    match d
    case NoDraws =>
    case Drew(earlier, j) =>
      SwapDownPermutes(s, earlier);
      SwapPermutes(SwapDown(s, earlier), |s| - Count(d), j);
  }

  /** `e` is `d` or draws `d` was made from. */
  predicate Precedes(e: Draws, d: Draws)
  {
    e == d || (d.Drew? && Precedes(e, d.earlier))
  }

  /**
   * Once `i` has passed an index on its way down, that index is settled:
   * after the iterations that made the draws `e`, the last `Count(e)`
   * elements no longer move, whatever the later draws.
   */
  lemma {:induction false} SwapDownSettles<T>(s: seq<T>, e: Draws, d: Draws, k: nat)
    requires ValidDraws(|s|, d) && Precedes(e, d)
    requires |s| - Count(e) <= k < |s|
    ensures ValidDraws(|s|, e)
    ensures SwapDown(s, d)[k] == SwapDown(s, e)[k]
  {
    if e != d {
      SwapDownSettles(s, e, d.earlier, k);
      CountGrows(e, d.earlier);
      SwapAt(SwapDown(s, d.earlier), |s| - Count(d), d.j);
    }
  }

  /** Later draws are more draws. */
  lemma {:induction false} CountGrows(e: Draws, d: Draws)
    requires Precedes(e, d)
    ensures Count(e) <= Count(d)
  {
    if e != d {
      CountGrows(e, d.earlier);
    }
  }

  /** `r` is what the shuffle loop can leave after running to completion on `s`. */
  ghost predicate IsShuffleOutcome<T>(s: seq<T>, r: seq<T>)
  {
    exists d :: ValidDraws(|s|, d) && Count(d) == (if |s| == 0 then 0 else |s| - 1) && r == SwapDown(s, d)
  }

  /** A run of the loop to completion on `s` with valid draws `d` is a shuffle outcome. */
  lemma ShuffleOutcomeOf<T>(s: seq<T>, d: Draws)
    requires ValidDraws(|s|, d) && Count(d) == (if |s| == 0 then 0 else |s| - 1)
    ensures IsShuffleOutcome(s, SwapDown(s, d))
    ensures multiset(SwapDown(s, d)) == multiset(s)
    ensures |s| <= 1 ==> SwapDown(s, d) == s
  {
    SwapDownPermutes(s, d);
  }

  /** The spread copy `[...array]`. */
  method CopyOf<T>(a: array<T>) returns (copy: array<T>)
    ensures fresh(copy)
    ensures copy[..] == a[..]
  {
    copy := new T[a.Length](k requires 0 <= k < a.Length reads a => a[k]);
  }

  /** The destructuring swap `[a[i], a[j]] = [a[j], a[i]]`, in place. */
  method SwapInPlace<T>(a: array<T>, i: nat, j: nat)
    requires i < a.Length && j < a.Length
    modifies a
    ensures a[..] == Swap(old(a[..]), i, j)
  {
    a[i], a[j] := a[j], a[i];
  }

  /**
   * One iteration of the shuffle loop at index `i`: draw `j` in `[0, i]`
   * and swap the elements at `i` and `j`. The draws made so far, `d`,
   * become `d'`, one more.
   */
  method ShuffleStep<T>(a: array<T>, i: nat, ghost s: seq<T>, ghost d: Draws) returns (ghost d': Draws)
    requires a.Length == |s| && 0 < i == |s| - 1 - Count(d)
    requires ValidDraws(|s|, d) && a[..] == SwapDown(s, d)
    modifies a
    ensures d'.Drew? && d'.earlier == d
    ensures ValidDraws(|s|, d') && a[..] == SwapDown(s, d')
    ensures multiset(a[..]) == multiset(old(a[..]))
  {
    var u: real :| 0.0 <= u < 1.0;
    var j := Draw(u, i + 1);
    ghost var before := a[..];
    SwapInPlace(a, i, j);
    SwapPermutes(before, i, j);
    d' := Drew(d, j);
  }

  /**
   * shuffle(array): copy the array, then for `i` from `length - 1` down to 1
   * swap the element at `i` with the one at a drawn `j <= i`. The result is a
   * new array, a permutation of the input, and the input is left as it was.
   */
  method Shuffle<T>(input: array<T>) returns (shuffled: array<T>)
    ensures fresh(shuffled)
    ensures input[..] == old(input[..])
    ensures shuffled.Length == input.Length
    ensures IsShuffleOutcome(input[..], shuffled[..])
    ensures multiset(shuffled[..]) == multiset(input[..])
    ensures input.Length <= 1 ==> shuffled[..] == input[..]
  {
    shuffled := CopyOf(input);
    ghost var s := input[..];
    ghost var d := NoDraws;
    var i := shuffled.Length - 1;
    while i > 0
      invariant input[..] == s && shuffled.Length == |s|
      invariant -1 <= i == |s| - 1 - Count(d)
      invariant |s| == 0 ==> d == NoDraws
      invariant ValidDraws(|s|, d)
      invariant shuffled[..] == SwapDown(s, d)
      invariant multiset(shuffled[..]) == multiset(s)
    {
      d := ShuffleStep(shuffled, i, s, d);
      i := i - 1;
    }
    ShuffleOutcomeOf(s, d);
  }
}
