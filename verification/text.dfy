/**
 * The two string helpers the bot relies on: lower-casing a chain id before it is
 * compared with "solana", and taking the last `/`-separated segment of a pair URL
 * as a token name (`split("/")[-1]`).
 */
module Text {

  /** Lower-cases one ASCII letter; every other character is returned as it is. */
  function LowerChar(c: char): (d: char)
    ensures 'A' <= c <= 'Z' ==> d as int == c as int + 32
    ensures !('A' <= c <= 'Z') ==> d == c
    ensures !('A' <= d <= 'Z')
  {
    if 'A' <= c <= 'Z' then (c as int + 32) as char else c
  }

  /** Lower-cases a string character by character. */
  function Lower(s: string): (r: string)
    ensures |r| == |s|
    ensures forall i :: 0 <= i < |s| ==> r[i] == LowerChar(s[i])
  {
    seq(|s|, i requires 0 <= i < |s| => LowerChar(s[i]))
  }

  /** The chain filter of the pair selection: the lower-cased chain id is exactly "solana". */
  predicate IsSolana(chainId: string)
  {
    Lower(chainId) == "solana"
  }

  /** A chain id passes the filter exactly when it spells "solana" in any mix of letter cases. */
  lemma IsSolanaCaseInsensitive(chainId: string)
    ensures IsSolana(chainId) <==>
      |chainId| == 6 &&
      chainId[0] in {'s', 'S'} && chainId[1] in {'o', 'O'} && chainId[2] in {'l', 'L'} &&
      chainId[3] in {'a', 'A'} && chainId[4] in {'n', 'N'} && chainId[5] in {'a', 'A'}
  {
    var r := Lower(chainId);
    if |chainId| == 6 {
      if chainId[0] in {'s', 'S'} && chainId[1] in {'o', 'O'} && chainId[2] in {'l', 'L'} &&
         chainId[3] in {'a', 'A'} && chainId[4] in {'n', 'N'} && chainId[5] in {'a', 'A'} {
        assert r == "solana";
      }
    }
  }

  /**
   * The text after the last '/' of `s`, or all of `s` when it holds no '/':
   * the last element of `s.split("/")`. The result is a '/'-free suffix of `s`
   * that is either all of `s` or is preceded by a '/'.
   */
  function LastSegment(s: string): (r: string)
    ensures |r| <= |s| && r == s[|s| - |r|..]
    ensures '/' !in r
    ensures |r| < |s| ==> s[|s| - |r| - 1] == '/'
  {
    if s == [] then []
    else if s[|s| - 1] == '/' then []
    else LastSegment(s[..|s| - 1]) + [s[|s| - 1]]
  }

  /** Splitting at a '/' whose tail holds no further '/' yields that tail. */
  lemma LastSegmentAfterSlash(prefix: string, tail: string)
    requires '/' !in tail
    ensures LastSegment(prefix + "/" + tail) == tail
  {
    var s := prefix + "/" + tail;
    var r := LastSegment(s);
    assert s[|s| - |tail| - 1] == '/';
    if |r| < |tail| {
      assert false;
    } else if |r| > |tail| {
      assert false;
    }
    assert s[|s| - |tail|..] == tail;
  }

  /** A string holding no '/' is its own last segment. */
  lemma LastSegmentNoSlash(s: string)
    requires '/' !in s
    ensures LastSegment(s) == s
  {
    var r := LastSegment(s);
    if |r| < |s| {
      assert false;
    }
  }
}
