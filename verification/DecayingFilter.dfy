/**
 * The two-layer Bloom filter that suppresses duplicates, and exactly how long it
 * remembers. A layer is its set of bits; a value sets, and is looked for at, the
 * positions its hashes give.
 */
module DecayingFilter {
  import opened Bytes

  type Positions = seq<byte> -> set<nat>

  datatype Filter = Filter(current: set<nat>, previous: set<nat>)

  predicate Contains(pos: Positions, f: Filter, x: seq<byte>)
  {
    pos(x) <= f.current || pos(x) <= f.previous
  }

  /** `feed`, beside its answer `Contains`. */
  function Fed(pos: Positions, f: Filter, x: seq<byte>): (r: Filter)
    ensures Contains(pos, r, x) && f.current <= r.current && r.previous == f.previous
  {
    if Contains(pos, f, x) then f else f.(current := f.current + pos(x))
  }

  function Decayed(f: Filter): (r: Filter)
  {
    Filter({}, f.current)
  }

  class DecayingBloomFilter {
    const pos: Positions
    var current: set<nat>
    var previous: set<nat>

    constructor (pos: Positions)
      ensures this.pos == pos && Value() == Filter({}, {})
    {
      this.pos, current, previous := pos, {}, {};
    }

    ghost function Value(): (f: Filter)
      reads this
    {
      Filter(current, previous)
    }

    method Feed(bytes: seq<byte>) returns (present: bool)
      modifies this
      ensures present == Contains(pos, old(Value()), bytes)
      ensures Value() == Fed(pos, old(Value()), bytes)
    {
      if pos(bytes) <= current || pos(bytes) <= previous {
        return true;
      }
      current := current + pos(bytes);
      return false;
    }

    method Decay()
      modifies this
      ensures Value() == Decayed(old(Value()))
    {
      current, previous := previous, current;
      current := {};
    }
  }

  // ---------- runs ----------

  datatype FilterEvent = Feed(x: seq<byte>) | Decay

  function FilterRun(pos: Positions, events: seq<FilterEvent>): (f: Filter)
  {
    if events == [] then Filter({}, {})
    else
      var f := FilterRun(pos, events[..|events| - 1]);
      match events[|events| - 1]
      case Feed(x) => Fed(pos, f, x)
      case Decay => Decayed(f)
  }

  /** Event i feeds a value that was then taken for new. */
  predicate New(pos: Positions, events: seq<FilterEvent>, i: nat): (b: bool)
    requires i < |events|
    ensures b ==> events[i].Feed?
  {
    events[i].Feed? && !Contains(pos, FilterRun(pos, events[..i]), events[i].x)
  }

  /** The number of decays from event i up to event j. */
  function Decays(events: seq<FilterEvent>, i: nat, j: nat): (n: nat)
    requires i <= j <= |events|
    decreases j
  {
    if i == j then 0 else Decays(events, i, j - 1) + if events[j - 1].Decay? then 1 else 0
  }

  lemma RunStep(pos: Positions, events: seq<FilterEvent>, j: nat)
    requires 0 < j <= |events|
    ensures var f := FilterRun(pos, events[..j - 1]);
            FilterRun(pos, events[..j]) == match events[j - 1] case Feed(x) => Fed(pos, f, x) case Decay => Decayed(f)
  {
    assert events[..j][..j - 1] == events[..j - 1];
  }

  /** A value taken for new stays in the current layer until the first decay and in
      the previous one until the second. */
  lemma {:induction false} Remembered(pos: Positions, events: seq<FilterEvent>, i: nat, j: nat)
    requires i < j <= |events| && New(pos, events, i)
    ensures Decays(events, i, j) == 0 ==> pos(events[i].x) <= FilterRun(pos, events[..j]).current
    ensures Decays(events, i, j) == 1 ==> pos(events[i].x) <= FilterRun(pos, events[..j]).previous
    decreases j
  {
    RunStep(pos, events, j);
    if i + 1 < j {
      hide FilterRun;
      Remembered(pos, events, i, j - 1);
    } else {
      assert Decays(events, i, i) == 0;
    }
  }

  /** No false negatives within two decay periods, counted from when the value was
      taken for new: whenever a value is taken for new twice, at least two decays lie
      between. This holds whatever the hash functions. */
  lemma NewAgainAfterTwoDecays(pos: Positions, events: seq<FilterEvent>, i: nat, j: nat)
    requires i < j < |events| && New(pos, events, i) && New(pos, events, j) && events[i].x == events[j].x
    ensures Decays(events, i, j) >= 2
  {
    Remembered(pos, events, i, j);
  }

  // ---------- how long exactly ----------

  /** Some event took for new, exactly n decays ago, a value that sets bit b. */
  ghost predicate SetAgo(pos: Positions, events: seq<FilterEvent>, b: nat, n: nat)
  {
    exists i: nat :: i < |events| && SetsAgo(pos, events, b, n, i)
  }

  ghost predicate SetsAgo(pos: Positions, events: seq<FilterEvent>, b: nat, n: nat, i: nat)
    requires i < |events|
  {
    New(pos, events, i) && b in pos(events[i].x) && Decays(events, i, |events|) == n
  }

  lemma {:induction false} DecaysOfPrefix(events: seq<FilterEvent>, m: nat, i: nat, j: nat)
    requires i <= j <= m <= |events|
    ensures Decays(events[..m], i, j) == Decays(events, i, j)
    decreases j
  {
    if i < j { DecaysOfPrefix(events, m, i, j - 1); }
  }

  lemma NewOfPrefix(pos: Positions, events: seq<FilterEvent>, m: nat, i: nat)
    requires i < m <= |events|
    ensures New(pos, events[..m], i) == New(pos, events, i)
  {
    assert events[..m][..i] == events[..i];
  }

  /** Whether a bit was set n decays ago, told from one event earlier. */
  lemma SetAgoStep(pos: Positions, events: seq<FilterEvent>, b: nat, n: nat)
    requires events != []
    ensures var es, e := events[..|events| - 1], events[|events| - 1];
            SetAgo(pos, events, b, n) <==>
              match e
              case Decay => n > 0 && SetAgo(pos, es, b, n - 1)
              case Feed(y) => SetAgo(pos, es, b, n) || (n == 0 && b in pos(y) && New(pos, events, |events| - 1))
  {
    hide New;
    var m := |events| - 1;
    var es, e := events[..m], events[m];
    var d := if e.Decay? then 1 else 0;
    forall i: nat | i < m
      ensures d <= n ==> SetsAgo(pos, events, b, n, i) == SetsAgo(pos, es, b, n - d, i)
      ensures d > n ==> !SetsAgo(pos, events, b, n, i)
    {
      NewOfPrefix(pos, events, m, i);
      DecaysOfPrefix(events, m, i, m);
    }
    assert Decays(events, m, m) == 0;
    if SetAgo(pos, events, b, n) {
      var i: nat :| i < |events| && SetsAgo(pos, events, b, n, i);
      if i < m && d <= n { assert SetsAgo(pos, es, b, n - d, i); }
    }
    if d <= n && SetAgo(pos, es, b, n - d) {
      var i: nat :| i < |es| && SetsAgo(pos, es, b, n - d, i);
      assert SetsAgo(pos, events, b, n, i);
    }
    if n == 0 && e.Feed? && b in pos(e.x) && New(pos, events, m) {
      assert SetsAgo(pos, events, b, n, m);
    }
  }

  /** The bits of the two layers are those set no decay ago and one decay ago. */
  lemma {:induction false} LayerBits(pos: Positions, events: seq<FilterEvent>, b: nat)
    ensures b in FilterRun(pos, events).current <==> SetAgo(pos, events, b, 0)
    ensures b in FilterRun(pos, events).previous <==> SetAgo(pos, events, b, 1)
  {
    hide SetAgo, FilterRun, New;
    if events == [] {
      NothingSet(pos, b);
    } else {
      var m := |events| - 1;
      LayerBits(pos, events[..m], b);
      SetAgoStep(pos, events, b, 0);
      SetAgoStep(pos, events, b, 1);
      RunStep(pos, events, |events|);
      assert events[..|events|] == events;
      if events[m].Feed? { NewMeans(pos, events, m); }
    }
  }

  lemma NewMeans(pos: Positions, events: seq<FilterEvent>, i: nat)
    requires i < |events| && events[i].Feed?
    ensures New(pos, events, i) == !Contains(pos, FilterRun(pos, events[..i]), events[i].x)
  {}

  lemma NothingSet(pos: Positions, b: nat)
    ensures FilterRun(pos, []) == Filter({}, {}) && !SetAgo(pos, [], b, 0) && !SetAgo(pos, [], b, 1)
  {}

  /** What the filter recognises, whatever its hashes: exactly the values all of whose
      bits were set by values taken for new since the last decay, or all of whose bits
      were set by values taken for new in the period before it. */
  lemma RemembersExactly(pos: Positions, events: seq<FilterEvent>, x: seq<byte>)
    ensures Contains(pos, FilterRun(pos, events), x)
       <==> || (forall b :: b in pos(x) ==> SetAgo(pos, events, b, 0))
            || (forall b :: b in pos(x) ==> SetAgo(pos, events, b, 1))
  {
    hide SetAgo, FilterRun;
    forall b | b in pos(x)
      ensures b in FilterRun(pos, events).current <==> SetAgo(pos, events, b, 0)
      ensures b in FilterRun(pos, events).previous <==> SetAgo(pos, events, b, 1)
    {
      LayerBits(pos, events, b);
    }
  }

  /** Some event took x for new with exactly n decays since. */
  ghost predicate NewAgo(pos: Positions, events: seq<FilterEvent>, x: seq<byte>, n: nat)
  {
    exists i: nat :: i < |events| && IsNewAgo(pos, events, x, n, i)
  }

  ghost predicate IsNewAgo(pos: Positions, events: seq<FilterEvent>, x: seq<byte>, n: nat, i: nat)
    requires i < |events|
  {
    New(pos, events, i) && events[i].x == x && Decays(events, i, |events|) == n
  }

  /** A value with a bit that no other value fed shares is recognised exactly when it was
      itself taken for new fewer than two decays ago. */
  lemma RemembersOwn(pos: Positions, events: seq<FilterEvent>, x: seq<byte>, own: nat)
    requires own in pos(x)
    requires forall i :: 0 <= i < |events| && events[i].Feed? && own in pos(events[i].x) ==> events[i].x == x
    ensures Contains(pos, FilterRun(pos, events), x) <==> NewAgo(pos, events, x, 0) || NewAgo(pos, events, x, 1)
  {
    hide New, FilterRun;
    RemembersExactly(pos, events, x);
    forall n: nat ensures (forall b :: b in pos(x) ==> SetAgo(pos, events, b, n)) <==> NewAgo(pos, events, x, n) {
      if SetAgo(pos, events, own, n) {
        var i: nat :| i < |events| && SetsAgo(pos, events, own, n, i);
        assert IsNewAgo(pos, events, x, n, i);
      }
      if NewAgo(pos, events, x, n) {
        var i: nat :| i < |events| && IsNewAgo(pos, events, x, n, i);
        forall b | b in pos(x) ensures SetAgo(pos, events, b, n) { assert SetsAgo(pos, events, b, n, i); }
      }
    }
  }

  /** So having been seen within the last decay period is not enough: a value seen again
      and recognised is not entered again, and the next decay loses it. */
  lemma SeenYetForgotten(pos: Positions, x: seq<byte>)
    requires pos(x) != {}
    ensures var events := [Feed(x), Decay, Feed(x), Decay];
            && Decays(events, 2, 4) == 1
            && Contains(pos, FilterRun(pos, events[..2]), x)
            && !Contains(pos, FilterRun(pos, events), x)
  {
    var e := [Feed(x), Decay, Feed(x), Decay];
    assert e[..0] == [] && e[..4] == e;
    RunStep(pos, e, 1);
    RunStep(pos, e, 2);
    RunStep(pos, e, 3);
    RunStep(pos, e, 4);
    assert Decays(e, 2, 2) == 0 && Decays(e, 2, 3) == 0;
  }
}
