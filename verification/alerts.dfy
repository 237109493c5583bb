/**
 * One watched token and the transition the alert loop applies to it once per
 * polling cycle: retire at two alerts, skip when there is no pair or no price,
 * otherwise classify the price and alert on a crossing from outside the band
 * into it.
 */
module Alerts {
  import opened Wrappers
  import opened Text
  import opened FibBand
  import opened PairSelection

  /** The record kept per contract in the watchlist. */
  datatype TokenState = TokenState(
    contract: string,
    lowUsd: real,
    highUsd: real,
    fib75Usd: real,
    bandMin: real,
    bandMax: real,
    alertsSent: int,
    prevPosition: PricePosition,
    tokenName: string,
    pairUrl: string)

  /**
   * The outcome of fetching the best pair for a contract: the request raised
   * (network error, a body that is not JSON or not a JSON object), it came back
   * without a usable Solana pair (non-200 status, no pairs or a `pairs` field that
   * is not a list, no Solana pair), or it produced one.
   */
  datatype Fetch = FetchRaised | NoPair | Best(pair: Pair)

  /**
   * What one cycle sees for one entry: the fetch, and whether delivering an alert
   * raises. `sendRaises` covers both the send itself and building the message text,
   * whose rounding to six places raises for amounts of 10^22 and more under the
   * 28-digit decimal context; such an entry never counts an alert.
   */
  datatype Observation = Observation(fetch: Fetch, sendRaises: bool)

  /** The entry after the transition, whether an alert was counted, and whether the entry leaves the watchlist. */
  datatype Eval = Eval(state: TokenState, alerted: bool, retire: bool)

  /** The token name and URL the add command takes from its preview fetch ("" when it found no pair). */
  function PreviewName(preview: Fetch): string
  {
    if preview.Best? && preview.pair.url != "" then LastSegment(preview.pair.url) else ""
  }

  /**
   * The entry the add command stores: the user's range, its band, no alerts sent,
   * no position observed yet, and the preview's name and URL.
   */
  function NewTokenState(contract: string, low: real, high: real, preview: Fetch): (st: TokenState)
    ensures st.contract == contract && st.lowUsd == low && st.highUsd == high
    ensures ComputeFibBand(low, high) == Band(st.fib75Usd, st.bandMin, st.bandMax)
    ensures st.alertsSent == 0 && st.prevPosition == Unknown
    ensures st.pairUrl == (if preview.Best? then preview.pair.url else "")
    ensures st.tokenName == if preview.Best? then LastSegment(preview.pair.url) else ""
  {
    var b := ComputeFibBand(low, high);
    TokenState(contract, low, high, b.fib, b.bandMin, b.bandMax, 0, Unknown,
      PreviewName(preview), if preview.Best? then preview.pair.url else "")
  }

  /** The observation carries a pair with a readable price. */
  predicate HasPrice(obs: Observation)
  {
    obs.fetch.Best? && obs.fetch.pair.priceUsd.Some?
  }

  /** The price of an observation that has one. */
  function PriceOf(obs: Observation): real
    requires HasPrice(obs)
  {
    obs.fetch.pair.priceUsd.value
  }

  /**
   * Keeps the stored token name once it is set, otherwise takes the pair URL's last
   * segment; a non-empty pair URL replaces the stored one.
   */
  function Named(st: TokenState, p: Pair): (r: TokenState)
    ensures r.(tokenName := st.tokenName, pairUrl := st.pairUrl) == st
    ensures r.tokenName == (if st.tokenName != "" then st.tokenName else LastSegment(p.url))
    ensures p.url != "" ==> r.pairUrl == p.url
    ensures p.url == "" ==> r.pairUrl == st.pairUrl
  {
    st.(tokenName := if st.tokenName != "" then st.tokenName else LastSegment(p.url),
        pairUrl := if p.url != "" then p.url else st.pairUrl)
  }

  /**
   * The alert condition: fewer than two alerts so far, a price was obtained, the
   * previous position was below or above the band and the new one is inside.
   */
  predicate Crossing(st: TokenState, obs: Observation)
  {
    st.alertsSent < 2 && HasPrice(obs) &&
    (st.prevPosition == Below || st.prevPosition == Above) &&
    Position(PriceOf(obs), st.bandMin, st.bandMax) == Inside
  }

  /**
   * The per-contract body of the alert loop. An alert is counted exactly on a
   * crossing whose message did not fail to send, and raises the counter by one.
   * The entry is retired when it already had two alerts or the alert just brought
   * it to two. Without a pair the entry is untouched; without a price, or when
   * sending raised, the counter and the previous position stay as they were;
   * otherwise the new position is recorded. The range and band never change.
   */
  function Evaluate(st: TokenState, obs: Observation): (e: Eval)
    ensures e.state.contract == st.contract && e.state.lowUsd == st.lowUsd && e.state.highUsd == st.highUsd
    ensures e.state.fib75Usd == st.fib75Usd && e.state.bandMin == st.bandMin && e.state.bandMax == st.bandMax
    ensures e.alerted <==> Crossing(st, obs) && !obs.sendRaises
    ensures e.alerted ==> e.state.alertsSent == st.alertsSent + 1 && e.state.prevPosition == Inside
    ensures !e.alerted ==> e.state.alertsSent == st.alertsSent
    ensures e.retire <==> st.alertsSent >= 2 || (e.alerted && e.state.alertsSent >= 2)
    ensures !e.retire ==> e.state.alertsSent < 2
    ensures !obs.fetch.Best? && !e.retire ==> e.state == st
    ensures obs.fetch.Best? && st.alertsSent < 2 ==>
      e.state.tokenName == Named(st, obs.fetch.pair).tokenName && e.state.pairUrl == Named(st, obs.fetch.pair).pairUrl
    ensures st.tokenName != "" ==> e.state.tokenName == st.tokenName
    ensures st.pairUrl != "" ==> e.state.pairUrl != ""
    ensures !HasPrice(obs) || (Crossing(st, obs) && obs.sendRaises) ==> e.state.prevPosition == st.prevPosition
    ensures HasPrice(obs) && !e.retire && !Crossing(st, obs) ==>
      e.state.prevPosition == Position(PriceOf(obs), st.bandMin, st.bandMax)
  {
    if st.alertsSent >= 2 then Eval(st, false, true)
    else match obs.fetch
      case FetchRaised => Eval(st, false, false)
      case NoPair => Eval(st, false, false)
      case Best(p) =>
        var named := Named(st, p);
        match p.priceUsd
        case None => Eval(named, false, false)
        case Some(price) =>
          var posNow := Position(price, st.bandMin, st.bandMax);
          if (st.prevPosition == Below || st.prevPosition == Above) && posNow == Inside && st.alertsSent < 2 then
            if obs.sendRaises then Eval(named, false, false)
            else
              var sent := st.alertsSent + 1;
              Eval(named.(alertsSent := sent, prevPosition := posNow), true, sent >= 2)
          else Eval(named.(prevPosition := posNow), false, false)
  }

  /** Alerts counted while one entry goes through successive cycles with the given observations. */
  function RunAlerts(st: TokenState, obs: seq<Observation>): nat
    decreases |obs|
  {
    if obs == [] then 0
    else
      var e := Evaluate(st, obs[0]);
      (if e.alerted then 1 else 0) + (if e.retire then 0 else RunAlerts(e.state, obs[1..]))
  }

  /** An entry receives at most two alerts over its whole life: it is retired at two. */
  lemma {:induction false} AlertCap(st: TokenState, obs: seq<Observation>)
    ensures st.alertsSent >= 2 ==> RunAlerts(st, obs) == 0
    ensures st.alertsSent < 2 ==> RunAlerts(st, obs) <= 2 - st.alertsSent
    decreases |obs|
  {
    if obs != [] {
      var e := Evaluate(st, obs[0]);
      if !e.retire {
        AlertCap(e.state, obs[1..]);
      }
    }
  }

  /** Every observation that has a price puts it inside the entry's band. */
  predicate AllInside(st: TokenState, obs: seq<Observation>)
  {
    forall i :: 0 <= i < |obs| && HasPrice(obs[i]) ==> st.bandMin <= PriceOf(obs[i]) <= st.bandMax
  }

  /**
   * While the price stays inside the band (cycles without a price in between),
   * the entry is alerted at most once, and not at all unless it was last seen
   * below or above the band.
   */
  lemma {:induction false} NoRealertWhileInside(st: TokenState, obs: seq<Observation>)
    requires AllInside(st, obs)
    ensures RunAlerts(st, obs) <= 1
    ensures st.prevPosition != Below && st.prevPosition != Above ==> RunAlerts(st, obs) == 0
    decreases |obs|
  {
    if obs != [] {
      var e := Evaluate(st, obs[0]);
      if !e.retire {
        assert AllInside(e.state, obs[1..]) by {
          forall i | 0 <= i < |obs[1..]| && HasPrice(obs[1..][i])
            ensures e.state.bandMin <= PriceOf(obs[1..][i]) <= e.state.bandMax
          {
            assert obs[1..][i] == obs[i + 1];
          }
        }
        NoRealertWhileInside(e.state, obs[1..]);
      }
    }
  }

  /**
   * A freshly added entry whose price is inside its band from the first
   * observation on is never alerted: its first position is `Unknown`, not below
   * or above.
   */
  lemma FreshEntryInsideNeverAlerts(contract: string, low: real, high: real, preview: Fetch, obs: seq<Observation>)
    requires AllInside(NewTokenState(contract, low, high, preview), obs)
    ensures RunAlerts(NewTokenState(contract, low, high, preview), obs) == 0
  {
    NoRealertWhileInside(NewTokenState(contract, low, high, preview), obs);
  }

  /** A pair on Solana with the given URL and price. */
  function PricedPair(url: string, price: real): Pair
  {
    Pair("solana", url, Some(price), None, None)
  }

  /**
   * The range 1.00..2.00 gives level 1.25 and band [1.225, 1.275]. Prices 1.30,
   * 1.26, 1.26, 1.30, 1.25 give: no alert, alert one, no alert, no alert, alert
   * two with the entry retired.
   */
  lemma Scenario()
    ensures var s0 := NewTokenState("TKN", 1.0, 2.0, NoPair);
      s0.fib75Usd == 1.25 && s0.bandMin == 1.225 && s0.bandMax == 1.275 &&
      var e1 := Evaluate(s0, Observation(Best(PricedPair("", 1.30)), false));
      !e1.alerted && !e1.retire && e1.state.prevPosition == Above &&
      var e2 := Evaluate(e1.state, Observation(Best(PricedPair("", 1.26)), false));
      e2.alerted && !e2.retire && e2.state.alertsSent == 1 &&
      var e3 := Evaluate(e2.state, Observation(Best(PricedPair("", 1.26)), false));
      !e3.alerted && !e3.retire &&
      var e4 := Evaluate(e3.state, Observation(Best(PricedPair("", 1.30)), false));
      !e4.alerted && !e4.retire && e4.state.prevPosition == Above &&
      var e5 := Evaluate(e4.state, Observation(Best(PricedPair("", 1.25)), false));
      e5.alerted && e5.retire
  {
    var s0 := NewTokenState("TKN", 1.0, 2.0, NoPair);
    assert s0.fib75Usd == 1.25 && s0.bandMin == 1.225 && s0.bandMax == 1.275;
    var e1 := Evaluate(s0, Observation(Best(PricedPair("", 1.30)), false));
    assert e1.state.prevPosition == Above && e1.state.alertsSent == 0;
    var e2 := Evaluate(e1.state, Observation(Best(PricedPair("", 1.26)), false));
    assert e2.alerted && e2.state.alertsSent == 1 && e2.state.prevPosition == Inside;
    var e3 := Evaluate(e2.state, Observation(Best(PricedPair("", 1.26)), false));
    assert e3.state.prevPosition == Inside && e3.state.alertsSent == 1;
    var e4 := Evaluate(e3.state, Observation(Best(PricedPair("", 1.30)), false));
    assert e4.state.prevPosition == Above && e4.state.alertsSent == 1;
  }
}
