/**
 * The in-memory watchlist: a dictionary from contract address to its token
 * state, kept together with the dictionary's insertion order (the order in which
 * the alert loop snapshots its keys). The commands add, remove and clear change
 * it, and so does each polling cycle of the alert loop.
 */
module Watchlist {
  import opened Text
  import opened FibBand
  import opened Alerts

  /** The dictionary's contents and its key order. */
  datatype Book = Book(entries: map<string, TokenState>, order: seq<string>)

  ghost predicate NoDup(s: seq<string>)
  {
    forall i, j :: 0 <= i < j < |s| ==> s[i] != s[j]
  }

  /** The order lists each key once, and each entry is stored under its own contract. */
  ghost predicate WellFormed(b: Book)
  {
    NoDup(b.order) &&
    (forall k :: k in b.entries <==> k in b.order) &&
    (forall k :: k in b.entries ==> b.entries[k].contract == k)
  }

  /** The key order after popping `k` from the dictionary (see `WithoutAppend` for the order kept). */
  function Without(s: seq<string>, k: string): (r: seq<string>)
    ensures forall x :: x in r <==> x in s && x != k
    ensures NoDup(s) ==> NoDup(r)
  {
    if s == [] then []
    else
      var rest := Without(s[1..], k);
      assert NoDup(s) ==> s[0] !in s[1..] && NoDup(s[1..]);
      if s[0] == k then rest
      else
        assert forall j :: 0 < j < |[s[0]] + rest| ==> ([s[0]] + rest)[j] == rest[j - 1];
        [s[0]] + rest
  }

  /** Popping distributes over concatenation: the remaining keys keep their relative order. */
  lemma {:induction false} WithoutAppend(a: seq<string>, b: seq<string>, k: string)
    ensures Without(a + b, k) == Without(a, k) + Without(b, k)
    decreases |a|
  {
    if a != [] {
      assert (a + b)[1..] == a[1..] + b;
      WithoutAppend(a[1..], b, k);
    } else {
      assert a + b == b;
    }
  }

  /** Popping a key that is absent leaves the order as it was. */
  lemma {:induction false} WithoutAbsent(s: seq<string>, k: string)
    requires k !in s
    ensures Without(s, k) == s
    decreases |s|
  {
    if s != [] {
      WithoutAbsent(s[1..], k);
      assert s == [s[0]] + s[1..];
    }
  }

  datatype AddResult = Added | InvalidRange | PreviewRaised

  datatype RemoveResult = Removed | NotTracking

  /**
   * The add command, after its three arguments parsed as decimals. A range that is
   * not `0 <= low < high` is refused, and so is an add whose preview fetch raised;
   * both leave the watchlist as it was. Otherwise `contract` maps to a fresh entry
   * (a re-add discards all earlier progress), every other entry is untouched, and a
   * new key goes to the end of the order while an existing one keeps its place.
   */
  function AddSpec(b: Book, contract: string, low: real, high: real, preview: Fetch): (r: (Book, AddResult))
    ensures r.1 == InvalidRange <==> !ValidRange(low, high)
    ensures r.1 == PreviewRaised <==> ValidRange(low, high) && preview.FetchRaised?
    ensures r.1 != Added ==> r.0 == b
    ensures r.1 == Added ==> r.0.entries.Keys == b.entries.Keys + {contract}
    ensures r.1 == Added ==> r.0.entries[contract] == NewTokenState(contract, low, high, preview)
    ensures r.1 == Added ==> r.0.entries[contract].alertsSent == 0 && r.0.entries[contract].prevPosition == Unknown
    ensures forall k :: k in b.entries && k != contract ==> r.0.entries[k] == b.entries[k]
    ensures r.1 == Added && contract in b.entries ==> r.0.order == b.order
    ensures r.1 == Added && contract !in b.entries ==> r.0.order == b.order + [contract]
    ensures WellFormed(b) ==> WellFormed(r.0)
  {
    if !ValidRange(low, high) then (b, InvalidRange)
    else if preview.FetchRaised? then (b, PreviewRaised)
    else
      var order := if contract in b.entries then b.order else b.order + [contract];
      (Book(b.entries[contract := NewTokenState(contract, low, high, preview)], order), Added)
  }

  /** The remove command: only `contract` goes, and the answer says whether it was tracked. */
  function RemoveSpec(b: Book, contract: string): (r: (Book, RemoveResult))
    ensures r.1 == Removed <==> contract in b.entries
    ensures r.0.entries.Keys == b.entries.Keys - {contract}
    ensures forall k :: k in r.0.entries ==> r.0.entries[k] == b.entries[k]
    ensures r.1 == NotTracking ==> r.0 == b
    ensures r.1 == Removed ==> r.0.order == Without(b.order, contract)
    ensures WellFormed(b) ==> WellFormed(r.0)
  {
    if contract in b.entries then (Book(b.entries - {contract}, Without(b.order, contract)), Removed)
    else (b, NotTracking)
  }

  /**
   * One iteration of the alert loop for the snapshotted key `contract`. A key that is
   * no longer present is skipped. Otherwise the entry goes through `Evaluate`: it is
   * retired or replaced by its new state. No other entry is touched, and the
   * stepped entry, if it remains, has fewer than two alerts.
   */
  function StepSpec(b: Book, contract: string, obs: Observation): (r: (Book, bool))
    ensures contract !in b.entries ==> r == (b, false)
    ensures r.0.entries.Keys <= b.entries.Keys
    ensures forall k :: k in b.entries && k != contract ==> k in r.0.entries && r.0.entries[k] == b.entries[k]
    ensures contract in r.0.entries ==> r.0.entries[contract].alertsSent < 2
    ensures contract in b.entries ==> r.1 == Evaluate(b.entries[contract], obs).alerted
    ensures contract in r.0.entries ==> r.0.entries[contract].alertsSent == b.entries[contract].alertsSent + (if r.1 then 1 else 0)
    ensures contract in b.entries ==> (contract in r.0.entries <==> !Evaluate(b.entries[contract], obs).retire)
    ensures contract in b.entries && contract in r.0.entries ==> r.0.entries[contract] == Evaluate(b.entries[contract], obs).state
    ensures contract in r.0.entries || contract !in b.entries ==> r.0.order == b.order
    ensures contract in b.entries && contract !in r.0.entries ==> r.0.order == Without(b.order, contract)
    ensures WellFormed(b) ==> WellFormed(r.0)
  {
    if contract !in b.entries then (b, false)
    else
      var e := Evaluate(b.entries[contract], obs);
      if e.retire then (Book(b.entries - {contract}, Without(b.order, contract)), e.alerted)
      else (Book(b.entries[contract := e.state], b.order), e.alerted)
  }

  /** A command handled while the alert loop is suspended on a network call. */
  datatype Command =
    | AddCmd(contract: string, low: real, high: real, preview: Fetch)
    | RemoveCmd(contract: string)
    | ClearCmd

  function ApplyCommand(b: Book, c: Command): (r: Book)
    ensures WellFormed(b) ==> WellFormed(r)
    ensures c.ClearCmd? ==> r.entries == map[]
  {
    match c
    case AddCmd(contract, low, high, preview) => AddSpec(b, contract, low, high, preview).0
    case RemoveCmd(contract) => RemoveSpec(b, contract).0
    case ClearCmd => Book(map[], [])
  }

  /** The watchlist after the given commands, in order. */
  function ApplyCommands(b: Book, cmds: seq<Command>): (r: Book)
    ensures WellFormed(b) ==> WellFormed(r)
  {
    if cmds == [] then b
    else ApplyCommand(ApplyCommands(b, cmds[..|cmds| - 1]), cmds[|cmds| - 1])
  }

  /** What one iteration of the loop sees: commands that ran before it, then its observation. */
  datatype Tick = Tick(before: seq<Command>, obs: Observation)

  /**
   * A polling cycle over the snapshotted keys, the i-th key meeting the i-th tick:
   * the watchlist afterwards, and the keys alerted, in order.
   */
  function CycleSpec(b: Book, snapshot: seq<string>, ticks: seq<Tick>): (r: (Book, seq<string>))
    requires |ticks| == |snapshot|
    ensures WellFormed(b) ==> WellFormed(r.0)
    ensures forall k :: k in r.1 ==> k in snapshot
  {
    if ticks == [] then (b, [])
    else
      var n := |ticks| - 1;
      var prev := CycleSpec(b, snapshot[..n], ticks[..n]);
      var step := StepSpec(ApplyCommands(prev.0, ticks[n].before), snapshot[n], ticks[n].obs);
      (step.0, prev.1 + if step.1 then [snapshot[n]] else [])
  }

  /** The cycle over the first `i + 1` snapshotted keys is the cycle over the first `i` followed by one more iteration. */
  lemma CycleSpecExtend(b: Book, snapshot: seq<string>, ticks: seq<Tick>, i: nat)
    requires |ticks| == |snapshot| && i < |ticks|
    ensures var prev := CycleSpec(b, snapshot[..i], ticks[..i]);
      var step := StepSpec(ApplyCommands(prev.0, ticks[i].before), snapshot[i], ticks[i].obs);
      CycleSpec(b, snapshot[..i + 1], ticks[..i + 1]) == (step.0, prev.1 + if step.1 then [snapshot[i]] else [])
  {
    assert snapshot[..i + 1][..i] == snapshot[..i];
    assert ticks[..i + 1][..i] == ticks[..i];
  }

  /** Commands never bring an entry to two alerts: they only delete entries or store fresh ones. */
  lemma {:induction false} CommandsKeepBelowTwo(b: Book, cmds: seq<Command>, pending: seq<string>)
    requires forall k :: k in b.entries ==> b.entries[k].alertsSent < 2 || k in pending
    ensures var r := ApplyCommands(b, cmds);
      forall k :: k in r.entries ==> r.entries[k].alertsSent < 2 || k in pending
  {
    if cmds != [] {
      CommandsKeepBelowTwo(b, cmds[..|cmds| - 1], pending);
    }
  }

  lemma {:induction false} CycleRetiresFrom(b: Book, snapshot: seq<string>, ticks: seq<Tick>, rest: seq<string>)
    requires |ticks| == |snapshot|
    requires forall k :: k in b.entries ==> b.entries[k].alertsSent < 2 || k in snapshot || k in rest
    ensures var r := CycleSpec(b, snapshot, ticks).0;
      forall k :: k in r.entries ==> r.entries[k].alertsSent < 2 || k in rest
  {
    if ticks != [] {
      var n := |ticks| - 1;
      var rest' := [snapshot[n]] + rest;
      forall k | k in b.entries
        ensures b.entries[k].alertsSent < 2 || k in snapshot[..n] || k in rest'
      {
        if k in snapshot {
          var i :| 0 <= i < |snapshot| && snapshot[i] == k;
          if i < n {
            assert snapshot[..n][i] == k;
          }
        }
      }
      CycleRetiresFrom(b, snapshot[..n], ticks[..n], rest');
      var prev := CycleSpec(b, snapshot[..n], ticks[..n]).0;
      CommandsKeepBelowTwo(prev, ticks[n].before, rest');
      var mid := ApplyCommands(prev, ticks[n].before);
      var after := StepSpec(mid, snapshot[n], ticks[n].obs).0;
      assert CycleSpec(b, snapshot, ticks).0 == after;
      forall k | k in after.entries
        ensures after.entries[k].alertsSent < 2 || k in rest
      {
        if k != snapshot[n] {
          assert k in mid.entries && after.entries[k] == mid.entries[k];
          assert k in rest' ==> k in rest;
        }
      }
    }
  }

  /**
   * After a cycle whose snapshot held every key, no entry has two or more alerts:
   * each snapshotted entry was retired on reaching two, and entries added during the
   * cycle start at zero.
   */
  lemma CycleRetires(b: Book, snapshot: seq<string>, ticks: seq<Tick>)
    requires |ticks| == |snapshot|
    requires forall k :: k in b.entries ==> k in snapshot
    ensures var r := CycleSpec(b, snapshot, ticks).0;
      forall k :: k in r.entries ==> r.entries[k].alertsSent < 2
  {
    CycleRetiresFrom(b, snapshot, ticks, []);
  }

  /** No command ran while the cycle was suspended. */
  ghost predicate NoCommands(ticks: seq<Tick>)
  {
    forall i :: 0 <= i < |ticks| ==> ticks[i].before == []
  }

  /**
   * Without commands interleaved, a cycle only removes entries, and the alert
   * counter of every remaining entry is at least what it was: counters never go down.
   */
  lemma {:induction false} CycleMonotone(b: Book, snapshot: seq<string>, ticks: seq<Tick>)
    requires |ticks| == |snapshot|
    requires NoCommands(ticks)
    ensures var r := CycleSpec(b, snapshot, ticks).0;
      r.entries.Keys <= b.entries.Keys &&
      forall k :: k in r.entries ==> r.entries[k].alertsSent >= b.entries[k].alertsSent
  {
    if ticks != [] {
      var n := |ticks| - 1;
      assert NoCommands(ticks[..n]) by {
        forall i | 0 <= i < n ensures ticks[..n][i].before == [] {
          assert ticks[..n][i] == ticks[i];
        }
      }
      CycleMonotone(b, snapshot[..n], ticks[..n]);
      assert ticks[n].before == [];
    }
  }

  /** The watchlist the bot keeps in memory. */
  class Watchlist {
    var entries: map<string, TokenState>
    var order: seq<string>

    ghost predicate Valid()
      reads this
    {
      WellFormed(Book(entries, order))
    }

    function Model(): Book
      reads this
    {
      Book(entries, order)
    }

    constructor ()
      ensures Valid() && entries == map[] && order == []
    {
      entries := map[];
      order := [];
    }

    /** `cmd_add` once its arguments are parsed; `preview` is the outcome of its one pair fetch. */
    method Add(contract: string, low: real, high: real, preview: Fetch) returns (res: AddResult)
      requires Valid()
      modifies this
      ensures Valid()
      ensures (Model(), res) == AddSpec(old(Model()), contract, low, high, preview)
    {
      if !(0.0 <= low < high) {
        return InvalidRange;
      }
      if preview.FetchRaised? {
        return PreviewRaised;
      }
      if contract !in entries {
        order := order + [contract];
      }
      entries := entries[contract := NewTokenState(contract, low, high, preview)];
      res := Added;
    }

    /** `cmd_remove`. */
    method Remove(contract: string) returns (res: RemoveResult)
      requires Valid()
      modifies this
      ensures Valid()
      ensures (Model(), res) == RemoveSpec(old(Model()), contract)
    {
      if contract in entries {
        entries := entries - {contract};
        order := Without(order, contract);
        res := Removed;
      } else {
        res := NotTracking;
      }
    }

    /** `cmd_clear`. */
    method Clear()
      requires Valid()
      modifies this
      ensures Valid()
      ensures entries == map[] && order == []
    {
      entries := map[];
      order := [];
    }

    method Apply(c: Command)
      requires Valid()
      modifies this
      ensures Valid()
      ensures Model() == ApplyCommand(old(Model()), c)
    {
      match c {
        case AddCmd(contract, low, high, preview) =>
          var _ := Add(contract, low, high, preview);
        case RemoveCmd(contract) =>
          var _ := Remove(contract);
        case ClearCmd =>
          Clear();
      }
    }

    /** The commands that ran while the loop was suspended, in order. */
    method ApplyAll(cmds: seq<Command>)
      requires Valid()
      modifies this
      ensures Valid()
      ensures Model() == ApplyCommands(old(Model()), cmds)
    {
      var j := 0;
      while j < |cmds|
        invariant 0 <= j <= |cmds|
        invariant Valid()
        invariant Model() == ApplyCommands(old(Model()), cmds[..j])
      {
        assert cmds[..j + 1][..j] == cmds[..j];
        Apply(cmds[j]);
        j := j + 1;
      }
      assert cmds[..j] == cmds;
    }

    /**
     * The body of the alert loop for one snapshotted key: look the entry up, retire
     * it at two alerts, take the pair's name and URL, classify the price, count an
     * alert on a crossing into the band, and record the new position.
     */
    method Step(contract: string, obs: Observation) returns (alerted: bool)
      requires Valid()
      modifies this
      ensures Valid()
      ensures (Model(), alerted) == StepSpec(old(Model()), contract, obs)
    {
      alerted := false;
      if contract !in entries {
        return;
      }
      var state := entries[contract];
      ghost var e := Evaluate(state, obs);
      if state.alertsSent >= 2 {
        assert e.retire && !e.alerted;
        Retire(contract);
        return;
      }
      if !obs.fetch.Best? {
        assert !e.retire && !e.alerted && e.state == state;
        assert old(entries)[contract := state] == old(entries);
        return;
      }
      var best := obs.fetch.pair;
      state := Named(state, best);
      if best.priceUsd.None? {
        assert !e.retire && !e.alerted && e.state == state;
        Store(state);
        return;
      }
      var price := best.priceUsd.value;
      var posNow := Position(price, state.bandMin, state.bandMax);
      if (state.prevPosition == Below || state.prevPosition == Above) && posNow == Inside && state.alertsSent < 2 {
        if obs.sendRaises {
          assert !e.retire && !e.alerted && e.state == state;
          Store(state);
          return;
        }
        state := state.(alertsSent := state.alertsSent + 1);
        alerted := true;
        if state.alertsSent >= 2 {
          assert e.retire && e.alerted;
          Retire(contract);
          return;
        }
      }
      state := state.(prevPosition := posNow);
      assert !e.retire && e.alerted == alerted && e.state == state;
      Store(state);
    }

    /** Writes back the entry of an existing key. */
    method Store(state: TokenState)
      requires Valid() && state.contract in entries
      modifies this
      ensures Valid()
      ensures entries == old(entries)[state.contract := state] && order == old(order)
    {
      entries := entries[state.contract := state];
    }

    /** Pops an existing key. */
    method Retire(contract: string)
      requires Valid() && contract in entries
      modifies this
      ensures Valid()
      ensures entries == old(entries) - {contract} && order == Without(old(order), contract)
    {
      entries := entries - {contract};
      order := Without(order, contract);
    }

    /**
     * One pass of the alert loop: snapshot the keys, then for each snapshotted key
     * let the commands that ran meanwhile take effect and step that key. Returns the
     * keys alerted, in order.
     */
    method Cycle(ticks: seq<Tick>) returns (alerts: seq<string>)
      requires Valid()
      requires |ticks| == |order|
      modifies this
      ensures Valid()
      ensures (Model(), alerts) == CycleSpec(old(Model()), old(order), ticks)
    {
      var contracts := order;
      ghost var b0 := Model();
      alerts := [];
      var i := 0;
      assert contracts[..0] == [] && ticks[..0] == [];
      while i < |contracts|
        invariant 0 <= i <= |contracts| == |ticks|
        invariant Valid()
        invariant Model() == CycleSpec(b0, contracts[..i], ticks[..i]).0
        invariant alerts == CycleSpec(b0, contracts[..i], ticks[..i]).1
      {
        ApplyAll(ticks[i].before);
        var alerted := Step(contracts[i], ticks[i].obs);
        CycleSpecExtend(b0, contracts, ticks, i);
        alerts := alerts + if alerted then [contracts[i]] else [];
        i := i + 1;
      }
      assert contracts[..i] == contracts;
      assert ticks[..i] == ticks;
    }
  }
}
