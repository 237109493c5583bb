/**
 * Choosing the best trading pair out of the pair records the price API returns
 * for a contract: keep the Solana pairs, order them by 24-hour volume and then by
 * USD liquidity, largest first, and take the head.
 */
module PairSelection {
  import opened Wrappers
  import opened Text

  /**
   * One pair record. `url` is "" when the record has none (absent and empty URLs
   * are treated alike everywhere). `priceUsd` is None when the price is absent or
   * not a decimal; the two sort fields are None when absent or not a number.
   */
  datatype Pair = Pair(
    chainId: string,
    url: string,
    priceUsd: Option<real>,
    volumeH24: Option<real>,
    liquidityUsd: Option<real>)

  /** A sort field, with -1 standing in for a missing or unreadable value. */
  function SortField(v: Option<real>): (r: real)
    ensures v.None? ==> r == -1.0
    ensures v.Some? ==> r == v.value
  {
    match v
    case Some(x) => x
    case None => -1.0
  }

  function VolKey(p: Pair): real { SortField(p.volumeH24) }

  function LiqKey(p: Pair): real { SortField(p.liquidityUsd) }

  /** The sort key `(volume.h24, liquidity.usd)` of `p` is lexicographically at least that of `q`. */
  predicate KeyGe(p: Pair, q: Pair)
  {
    VolKey(p) > VolKey(q) || (VolKey(p) == VolKey(q) && LiqKey(p) >= LiqKey(q))
  }

  /** The keys are totally preordered. */
  lemma KeyGeTotal(p: Pair, q: Pair)
    ensures KeyGe(p, q) || KeyGe(q, p)
  {
  }

  /** The pairs of `s` on the Solana chain, in their original order. */
  function SolanaPairs(s: seq<Pair>): (r: seq<Pair>)
    ensures |r| <= |s|
  {
    if s == [] then []
    else SolanaPairs(s[..|s| - 1]) + (if IsSolana(s[|s| - 1].chainId) then [s[|s| - 1]] else [])
  }

  /** The filtered list holds exactly the input's Solana pairs, and is empty iff there is none. */
  lemma {:induction false} SolanaPairsMembers(s: seq<Pair>)
    ensures forall p :: p in SolanaPairs(s) <==> p in s && IsSolana(p.chainId)
    ensures SolanaPairs(s) == [] <==> forall i :: 0 <= i < |s| ==> !IsSolana(s[i].chainId)
    decreases |s|
  {
    if s != [] {
      var n := |s| - 1;
      SolanaPairsMembers(s[..n]);
      assert s == s[..n] + [s[n]];
    }
  }

  /** Filtering a concatenation filters each part and keeps the parts in order. */
  lemma {:induction false} SolanaPairsAppend(a: seq<Pair>, b: seq<Pair>)
    ensures SolanaPairs(a + b) == SolanaPairs(a) + SolanaPairs(b)
    decreases |b|
  {
    if b != [] {
      var n := |b| - 1;
      assert (a + b)[..|a + b| - 1] == a + b[..n];
      SolanaPairsAppend(a, b[..n]);
    } else {
      assert a + b == a;
    }
  }

  /**
   * The k-th filtered pair sits at some index `i` of the input, and the filtered
   * prefix before `i` is exactly the first `k` filtered pairs: the filter keeps
   * input order.
   */
  lemma {:induction false} SolanaPairsIndex(s: seq<Pair>, k: int) returns (i: int)
    requires 0 <= k < |SolanaPairs(s)|
    ensures 0 <= i < |s| && s[i] == SolanaPairs(s)[k]
    ensures SolanaPairs(s[..i]) == SolanaPairs(s)[..k]
    decreases |s|
  {
    var n := |s| - 1;
    var front := SolanaPairs(s[..n]);
    var all := SolanaPairs(s);
    assert all == front + (if IsSolana(s[n].chainId) then [s[n]] else []);
    if k < |front| {
      var j := SolanaPairsIndex(s[..n], k);
      PrefixOfPrefix(s, n, j);
      assert all[..k] == front[..k];
      i := j;
    } else {
      i := n;
      assert all[..k] == front;
    }
  }

  lemma PrefixOfPrefix(s: seq<Pair>, n: int, j: int)
    requires 0 <= j < n <= |s|
    ensures s[..n][j] == s[j] && s[..n][..j] == s[..j]
  {
  }

  /**
   * Inserts `x` into a list already sorted largest key first, ahead of every element
   * whose key it equals: the step of a stable descending sort for an element that
   * came earlier in the input than all of `t`.
   */
  function InsertDesc(x: Pair, t: seq<Pair>): (r: seq<Pair>)
    ensures |r| == |t| + 1
    ensures multiset(r) == multiset(t) + multiset{x}
  {
    if t == [] || KeyGe(x, t[0]) then [x] + t
    else
      assert t == [t[0]] + t[1..];
      [t[0]] + InsertDesc(x, t[1..])
  }

  /**
   * What `list.sort(key=..., reverse=True)` leaves in the list: the elements ordered
   * by descending key, with elements of equal key kept in input order.
   */
  function SortDesc(s: seq<Pair>): (r: seq<Pair>)
    ensures |r| == |s|
  {
    if s == [] then [] else InsertDesc(s[0], SortDesc(s[1..]))
  }

  /** Each element's key is at least the next one's. */
  predicate SortedDesc(s: seq<Pair>)
  {
    forall i :: 0 <= i < |s| - 1 ==> KeyGe(s[i], s[i + 1])
  }

  lemma {:induction false} InsertDescSorted(x: Pair, t: seq<Pair>)
    requires SortedDesc(t)
    ensures SortedDesc(InsertDesc(x, t))
    ensures t != [] ==> InsertDesc(x, t)[0] == (if KeyGe(x, t[0]) then x else t[0])
  {
    if t == [] || KeyGe(x, t[0]) {
    } else {
      var rest := InsertDesc(x, t[1..]);
      InsertDescSorted(x, t[1..]);
      if |t| > 1 {
        assert rest[0] == x || rest[0] == t[1];
        assert KeyGe(t[0], x) by { KeyGeTotal(x, t[0]); }
      } else {
        assert rest == [x];
        KeyGeTotal(x, t[0]);
      }
      assert InsertDesc(x, t) == [t[0]] + rest;
    }
  }

  /** The sort result is a permutation of its input, ordered by descending key. */
  lemma {:induction false} SortDescCorrect(s: seq<Pair>)
    ensures multiset(SortDesc(s)) == multiset(s)
    ensures SortedDesc(SortDesc(s))
  {
    if s != [] {
      SortDescCorrect(s[1..]);
      InsertDescSorted(s[0], SortDesc(s[1..]));
      assert s == [s[0]] + s[1..];
    }
  }

  /** Index `k` holds a largest key of `s`, and every earlier element has a strictly smaller key. */
  predicate IsFirstMax(s: seq<Pair>, k: int)
  {
    0 <= k < |s| &&
    (forall j :: 0 <= j < |s| ==> KeyGe(s[k], s[j])) &&
    (forall j :: 0 <= j < k ==> !KeyGe(s[j], s[k]))
  }

  /** The head of the stable descending sort is the earliest element with a largest key. */
  lemma {:induction false} SortDescHead(s: seq<Pair>, k: int)
    requires IsFirstMax(s, k)
    ensures |SortDesc(s)| == |s| && SortDesc(s)[0] == s[k]
  {
    SortDescCorrect(s);
    assert |SortDesc(s)| == |multiset(s)| == |s|;
    var t := SortDesc(s[1..]);
    SortDescCorrect(s[1..]);
    if k == 0 {
      if t != [] {
        assert t[0] in multiset(s[1..]);
        assert t[0] in s;
        InsertDescSorted(s[0], t);
      }
    } else {
      var tail := s[1..];
      assert IsFirstMax(tail, k - 1) by {
        forall j | 0 <= j < |tail| ensures KeyGe(tail[k - 1], tail[j]) {
          assert tail[j] == s[j + 1];
        }
      }
      SortDescHead(tail, k - 1);
      InsertDescSorted(s[0], t);
      assert !KeyGe(s[0], s[k]);
    }
  }

  /** Filtering one more element of `s` extends the filtered prefix by at most that element. */
  lemma SolanaPairsStep(s: seq<Pair>, i: int)
    requires 0 <= i < |s|
    ensures SolanaPairs(s[..i + 1]) == SolanaPairs(s[..i]) + (if IsSolana(s[i].chainId) then [s[i]] else [])
  {
    assert s[..i + 1][..i] == s[..i];
  }

  /** The list comprehension of `pick_top_pair`: the Solana pairs, in input order. */
  method FilterSolana(pairs: seq<Pair>) returns (sol: seq<Pair>)
    ensures sol == SolanaPairs(pairs)
  {
    sol := [];
    var i := 0;
    while i < |pairs|
      invariant 0 <= i <= |pairs|
      invariant sol == SolanaPairs(pairs[..i])
    {
      SolanaPairsStep(pairs, i);
      if IsSolana(pairs[i].chainId) {
        sol := sol + [pairs[i]];
      }
      i := i + 1;
    }
    assert pairs[..i] == pairs;
  }

  /**
   * The position that sorting by descending key brings to the front: a scan that
   * moves the candidate only on a strictly larger key ends at the earliest largest key.
   */
  method FrontAfterSort(sol: seq<Pair>) returns (best: int)
    requires sol != []
    ensures IsFirstMax(sol, best)
  {
    best := 0;
    var j := 1;
    while j < |sol|
      invariant 1 <= j <= |sol|
      invariant 0 <= best < j
      invariant forall m :: 0 <= m < j ==> KeyGe(sol[best], sol[m])
      invariant forall m :: 0 <= m < best ==> !KeyGe(sol[m], sol[best])
    {
      if !KeyGe(sol[best], sol[j]) {
        KeyGeTotal(sol[best], sol[j]);
        best := j;
      }
      j := j + 1;
    }
  }

  /** A nonempty list has an earliest element with a largest key. */
  lemma {:induction false} FirstMaxExists(s: seq<Pair>) returns (k: int)
    requires s != []
    ensures IsFirstMax(s, k)
  {
    if |s| == 1 {
      k := 0;
    } else {
      var m := FirstMaxExists(s[..|s| - 1]);
      assert forall j :: 0 <= j < |s| - 1 ==> s[..|s| - 1][j] == s[j];
      KeyGeTotal(s[m], s[|s| - 1]);
      k := if KeyGe(s[m], s[|s| - 1]) then m else |s| - 1;
    }
  }

  /** What `pick_top_pair` returns: None without Solana pairs, else the head of the sorted Solana pairs. */
  function TopPair(pairs: seq<Pair>): (r: Option<Pair>)
    ensures r.None? <==> SolanaPairs(pairs) == []
  {
    var sol := SolanaPairs(pairs);
    if sol == [] then None else Some(SortDesc(sol)[0])
  }

  /**
   * The choice is None exactly when no pair is on Solana. Otherwise it is a Solana
   * pair of the input with a largest key, and the earliest such pair among the
   * Solana pairs in input order.
   */
  lemma TopPairIsEarliestBest(pairs: seq<Pair>)
    ensures TopPair(pairs).None? <==> forall i :: 0 <= i < |pairs| ==> !IsSolana(pairs[i].chainId)
    ensures TopPair(pairs).Some? ==>
      var p := TopPair(pairs).value;
      p in pairs && IsSolana(p.chainId) &&
      (forall q :: q in pairs && IsSolana(q.chainId) ==> KeyGe(p, q)) &&
      exists k :: IsFirstMax(SolanaPairs(pairs), k) && SolanaPairs(pairs)[k] == p
  {
    var sol := SolanaPairs(pairs);
    SolanaPairsMembers(pairs);
    if sol != [] {
      var k := FirstMaxExists(sol);
      SortDescHead(sol, k);
      assert sol[k] in sol;
      forall q | q in pairs && IsSolana(q.chainId) ensures KeyGe(sol[k], q) {
        var m :| 0 <= m < |sol| && sol[m] == q;
      }
    }
  }

  /**
   * Stated over the input itself: the chosen pair sits at an index of `pairs` such
   * that every earlier Solana pair has a strictly smaller key.
   */
  lemma TopPairEarliestInInput(pairs: seq<Pair>)
    requires TopPair(pairs).Some?
    ensures exists i ::
      && 0 <= i < |pairs| && pairs[i] == TopPair(pairs).value
      && forall j :: 0 <= j < i && IsSolana(pairs[j].chainId) ==> !KeyGe(pairs[j], pairs[i])
  {
    var sol := SolanaPairs(pairs);
    var k := FirstMaxExists(sol);
    SortDescHead(sol, k);
    var i := SolanaPairsIndex(pairs, k);
    forall j | 0 <= j < i && IsSolana(pairs[j].chainId) ensures !KeyGe(pairs[j], pairs[i]) {
      assert pairs[..i][j] == pairs[j];
      SolanaPairsMembers(pairs[..i]);
      assert pairs[j] in SolanaPairs(pairs[..i]);
      var m :| 0 <= m < k && sol[m] == pairs[j];
    }
  }

  /**
   * `pick_top_pair`: filter the Solana pairs, then take what the descending sort
   * puts first.
   */
  method PickTopPair(pairs: seq<Pair>) returns (r: Option<Pair>)
    ensures r == TopPair(pairs)
  {
    var sol := FilterSolana(pairs);
    if sol == [] {
      return None;
    }
    var best := FrontAfterSort(sol);
    SortDescHead(sol, best);
    r := Some(sol[best]);
  }
}
