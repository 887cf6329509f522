/**
 * Looking up network database entries: peers are asked one after another, the one
 * nearest the routing key first, and the peers they name are asked in turn.
 */
module NetDbLookup {
  import opened Bytes

  type Hash = h: seq<byte> | |h| == 32 witness seq(32, _ => 0)

  datatype RouterInfo = RouterInfo(hash: Hash, floodfill: bool, networkOk: bool, signatureOk: bool, published: nat)

  // ---------- distance ----------

  /** The derived order of byte arrays. */
  predicate LexLess(a: seq<byte>, b: seq<byte>)
    requires |a| == |b|
  {
    a != [] && (a[0] < b[0] || (a[0] == b[0] && LexLess(a[1..], b[1..])))
  }

  /** The distance of a hash from a routing key, as a number. */
  function Metric(h: Hash, rk: Hash): (m: nat)
  {
    FromBE(XorBytes(h, rk))
  }

  lemma {:induction false} LexIsNumeric(a: seq<byte>, b: seq<byte>)
    requires |a| == |b|
    ensures LexLess(a, b) <==> FromBE(a) < FromBE(b)
  {
    hide FromBE, Pow;
    if a != [] {
      LexIsNumeric(a[1..], b[1..]);
      HeadFirst(a);
      HeadFirst(b);
      FromBEBound(a[1..]);
      FromBEBound(b[1..]);
      LeadingDigit(a[0], b[0], Pow(256, |a| - 1), FromBE(a[1..]), FromBE(b[1..]));
    }
  }

  lemma HeadFirst(a: seq<byte>)
    requires a != []
    ensures FromBE(a) == a[0] * Pow(256, |a| - 1) + FromBE(a[1..])
  {
    hide Pow;
    assert a == [a[0]] + a[1..];
    FromBEConcat([a[0]], a[1..]);
    assert [a[0]][..0] == [];
    assert FromBE([a[0]]) == a[0];
  }

  lemma LeadingDigit(x: nat, y: nat, p: nat, a: nat, b: nat)
    requires a < p && b < p
    ensures x * p + a < y * p + b <==> x < y || (x == y && a < b)
  {
    if x < y { assert (y - x) * p >= p by { MulGrows(p, y - x); } }
    if y < x { assert (x - y) * p >= p by { MulGrows(p, x - y); } }
  }

  /** The distances compare as the byte arrays do, and tell hashes apart. */
  lemma MetricOrder(h: Hash, g: Hash, rk: Hash)
    ensures LexLess(XorBytes(h, rk), XorBytes(g, rk)) <==> Metric(h, rk) < Metric(g, rk)
    ensures Metric(h, rk) == Metric(g, rk) ==> h == g
  {
    LexIsNumeric(XorBytes(h, rk), XorBytes(g, rk));
    if Metric(h, rk) == Metric(g, rk) {
      FromBEInjective(XorBytes(h, rk), XorBytes(g, rk));
      XorBytesUndo(h, rk);
      XorBytesUndo(g, rk);
    }
  }

  // ---------- the iterative lookup ----------

  /** What the peers a lookup asks would answer: the router infos taken from the reply
      of the peer asked n-th, none if it does not answer in time. */
  type Answers = (nat, Hash) -> seq<RouterInfo>

  function Hashes(ris: seq<RouterInfo>): (s: set<Hash>)
  {
    set i | 0 <= i < |ris| :: ris[i].hash
  }

  /** The peers known after some have been asked: the first, and all that were named. */
  function Known(first: Hash, answers: Answers, asked: seq<Hash>): (s: set<Hash>)
  {
    if asked == [] then {first}
    else
      var n := |asked| - 1;
      Known(first, answers, asked[..n]) + Hashes(answers(n, asked[n]))
  }

  function Asked(asked: seq<Hash>): (s: set<Hash>)
  {
    set i | 0 <= i < |asked| :: asked[i]
  }

  /** The smallest key of a sorted map. */
  method FirstKey(m: map<nat, RouterInfo>) returns (k: nat)
    requires m != map[]
    ensures k in m && forall j :: j in m ==> k <= j
  {
    var rest := m.Keys;
    assert m.Keys != {};
    k :| k in rest;
    while rest != {}
      invariant rest <= m.Keys && k in m
      invariant forall j :: j in m && j !in rest ==> k <= j
      decreases |rest|
    {
      var j :| j in rest;
      rest := rest - {j};
      if j < k { k := j; }
    }
  }

  class IterativeLookup {
    const rk: Hash
    var toTry: map<nat, RouterInfo>
    var tried: set<Hash>

    /** The peers still to try are filed under their distance and have not been tried. */
    ghost predicate Valid()
      reads this
    {
      forall m :: m in toTry ==> m == Metric(toTry[m].hash, rk) && toTry[m].hash !in tried
    }

    ghost predicate Waiting(h: Hash)
      reads this
    {
      Metric(h, rk) in toTry && toTry[Metric(h, rk)].hash == h
    }

    constructor (rk: Hash)
      ensures Valid() && this.rk == rk && tried == {} && toTry == map[]
    {
      this.rk, toTry, tried := rk, map[], {};
    }

    /** Files router infos of peers not yet tried. */
    method Add(ris: seq<RouterInfo>)
      requires Valid()
      modifies this`toTry
      ensures Valid()
      ensures forall h: Hash :: Waiting(h) <==> old(Waiting(h)) || (h in Hashes(ris) && h !in tried)
    {
      hide Metric;
      for i := 0 to |ris|
        invariant Valid()
        invariant forall h: Hash :: Waiting(h) <==> old(Waiting(h)) || (h in Hashes(ris[..i]) && h !in tried)
      {
        var ri := ris[i];
        assert Hashes(ris[..i + 1]) == Hashes(ris[..i]) + {ri.hash};
        if ri.hash !in tried {
          ghost var before := toTry;
          toTry := toTry[Metric(ri.hash, rk) := ri];
          forall h: Hash ensures h != ri.hash ==> Metric(h, rk) != Metric(ri.hash, rk) { MetricOrder(h, ri.hash, rk); }
        }
      }
      assert ris[..|ris|] == ris;
    }

    /** `process_peer`: marks the peer as tried and files what it names. */
    method ProcessPeer(peer: RouterInfo, named: seq<RouterInfo>)
      requires Valid() && !Waiting(peer.hash)
      modifies this
      ensures Valid() && tried == old(tried) + {peer.hash}
      ensures forall h: Hash :: Waiting(h) <==> old(Waiting(h)) || (h in Hashes(named) && h !in tried)
    {
      hide Metric;
      tried := tried + {peer.hash};
      Add(named);
    }

    /** `select_next_peer`: the nearest peer not yet tried, if any is known. */
    method SelectNextPeer() returns (next: Option<RouterInfo>)
      requires Valid()
      modifies this`toTry
      ensures Valid()
      ensures next.None? ==> toTry == old(toTry) == map[]
      ensures next.Some? ==> old(Waiting(next.value.hash)) && next.value.hash !in tried
      ensures next.Some? ==> forall h: Hash :: old(Waiting(h)) ==> Metric(next.value.hash, rk) <= Metric(h, rk)
      ensures next.Some? ==> forall h: Hash :: Waiting(h) <==> old(Waiting(h)) && h != next.value.hash
    {
      hide Metric;
      if toTry == map[] {
        return None;
      }
      var k := FirstKey(toTry);
      next := Some(toTry[k]);
      toTry := toTry - {k};
      forall h: Hash ensures h != next.value.hash ==> Metric(h, rk) != k { MetricOrder(h, next.value.hash, rk); }
    }
  }

  /** Peers asked in the right order: none twice, and each the nearest of those known
      and not yet asked. */
  ghost predicate NearestFirst(rk: Hash, first: Hash, answers: Answers, asked: seq<Hash>)
  {
    && (forall i, j :: 0 <= i < j < |asked| ==> asked[i] != asked[j])
    && (forall i :: 0 <= i < |asked| ==> asked[i] in Known(first, answers, asked[..i]))
    && (forall i, h: Hash :: 0 <= i < |asked| && h in Known(first, answers, asked[..i]) && h !in asked[..i]
                             ==> Metric(asked[i], rk) <= Metric(h, rk))
  }

  lemma NearestFirstStep(rk: Hash, first: Hash, answers: Answers, asked: seq<Hash>, next: Hash)
    requires NearestFirst(rk, first, answers, asked)
    requires next in Known(first, answers, asked) && next !in asked
    requires forall h: Hash :: h in Known(first, answers, asked) && h !in asked ==> Metric(next, rk) <= Metric(h, rk)
    ensures NearestFirst(rk, first, answers, asked + [next])
  {
    hide Metric, Known;
    var all := asked + [next];
    assert forall i :: 0 <= i <= |asked| ==> all[..i] == asked[..i];
    assert asked[..|asked|] == asked;
  }

  /** `iterative_lookup`. Whatever the peers answer, as long as there are finitely many
      of them to be named: it ends; it asks no peer twice; each peer asked is the nearest
      of those known and not yet asked; and when it ends every peer named has been asked. */
  method Lookup(rk: Hash, first: RouterInfo, answers: Answers, ghost universe: set<Hash>) returns (asked: seq<Hash>)
    requires first.hash in universe && forall n: nat, h: Hash :: Hashes(answers(n, h)) <= universe
    ensures NearestFirst(rk, first.hash, answers, asked)
    ensures Known(first.hash, answers, asked) == Asked(asked)
  {
    hide Metric, Known, Hashes, NearestFirst, Asked;
    var lookup := new IterativeLookup(rk);
    var peer := first;
    asked := [];
    LookupStart(rk, first.hash, answers);
    while true
      invariant lookup.Valid() && fresh(lookup) && lookup.rk == rk
      invariant lookup.tried == Asked(asked) <= universe && peer.hash in universe - Asked(asked)
      invariant Known(first.hash, answers, asked) <= universe
      invariant forall h: Hash :: h in Known(first.hash, answers, asked) <==>
            h in Asked(asked) || h == peer.hash || lookup.Waiting(h)
      invariant !lookup.Waiting(peer.hash)
      invariant forall h: Hash :: lookup.Waiting(h) ==> Metric(peer.hash, rk) <= Metric(h, rk)
      invariant NearestFirst(rk, first.hash, answers, asked)
      decreases universe - Asked(asked)
    {
      var named := answers(|asked|, peer.hash);
      lookup.ProcessPeer(peer, named);
      InAsked(asked);
      NearestFirstStep(rk, first.hash, answers, asked, peer.hash);
      KnownStep(first.hash, answers, asked, peer.hash);
      asked := asked + [peer.hash];
      var next := lookup.SelectNextPeer();
      if next.None? {
        break;
      }
      peer := next.value;
    }
  }

  lemma LookupStart(rk: Hash, first: Hash, answers: Answers)
    ensures Known(first, answers, []) == {first} && Asked([]) == {} && NearestFirst(rk, first, answers, [])
  {}

  lemma InAsked(asked: seq<Hash>)
    ensures forall h: Hash :: h in Asked(asked) <==> h in asked
  {}

  lemma KnownStep(first: Hash, answers: Answers, asked: seq<Hash>, h: Hash)
    ensures Known(first, answers, asked + [h]) == Known(first, answers, asked) + Hashes(answers(|asked|, h))
    ensures Asked(asked + [h]) == Asked(asked) + {h}
  {
    assert (asked + [h])[..|asked|] == asked;
    forall g: Hash | g in Asked(asked) + {h} ensures g in Asked(asked + [h]) {
      if g in Asked(asked) {
        var i :| 0 <= i < |asked| && asked[i] == g;
        assert (asked + [h])[i] == g;
      } else {
        assert (asked + [h])[|asked|] == g;
      }
    }
  }

  // ---------- collecting the peers a reply names ----------

  /** The lookups that succeeded, in the order they did. */
  function Successes(outcomes: seq<Option<RouterInfo>>): (ris: seq<RouterInfo>)
  {
    if outcomes == [] then []
    else
      var o := outcomes[|outcomes| - 1];
      Successes(outcomes[..|outcomes| - 1]) + if o.Some? then [o.value] else []
  }

  /** One `select_ok`: the first success among the outcomes from i on, or none if they all fail. */
  method SelectOk(outcomes: seq<Option<RouterInfo>>, i: nat) returns (k: nat)
    requires i <= |outcomes|
    ensures i <= k <= |outcomes| && (k < |outcomes| ==> outcomes[k].Some?)
    ensures forall j :: i <= j < k ==> outcomes[j].None?
  {
    k := i;
    while k < |outcomes| && outcomes[k].None?
      invariant i <= k <= |outcomes| && forall j :: i <= j < k ==> outcomes[j].None?
    {
      k := k + 1;
    }
  }

  lemma {:induction false} NoSuccesses(outcomes: seq<Option<RouterInfo>>, i: nat, k: nat)
    requires i <= k <= |outcomes| && forall j :: i <= j < k ==> outcomes[j].None?
    ensures Successes(outcomes[..k]) == Successes(outcomes[..i])
    decreases k
  {
    if i < k {
      NoSuccesses(outcomes, i, k - 1);
      assert outcomes[..k][..k - 1] == outcomes[..k - 1];
    }
  }

  /** The loop over `select_ok` in `process_dsr`, on the outcomes of the lookups in the
      order they come in. What it collects is all the successes, provided the last
      lookup to finish succeeds; if that one fails, everything collected is lost. */
  method Collect(outcomes: seq<Option<RouterInfo>>) returns (found: Option<seq<RouterInfo>>)
    requires outcomes != []
    ensures found == if outcomes[|outcomes| - 1].Some? then Some(Successes(outcomes)) else None
  {
    var got, i := [], 0;
    while true
      invariant i < |outcomes| && got == Successes(outcomes[..i])
      decreases |outcomes| - i
    {
      var k := SelectOk(outcomes, i);
      if k == |outcomes| {
        return None;
      }
      NoSuccesses(outcomes, i, k);
      assert outcomes[..k + 1][..k] == outcomes[..k];
      got := got + [outcomes[k].value];
      i := k + 1;
      if i == |outcomes| {
        assert outcomes[..i] == outcomes;
        return Some(got);
      }
    }
  }

  /** The reply of an asked peer: whether its own router info could be found, and how the
      lookups of the peers it names end, in the order they do. */
  datatype SearchReply = SearchReply(fromKnown: bool, outcomes: seq<Option<RouterInfo>>)

  /** Nothing that was found is lost with the rest of a reply. */
  predicate Kept(r: SearchReply)
  {
    r.fromKnown && r.outcomes != [] && r.outcomes[|r.outcomes| - 1].Some?
  }

  function Taken(r: SearchReply): (ris: seq<RouterInfo>)
  {
    if Kept(r) then Successes(r.outcomes) else []
  }

  /** The peers of a search reply that a lookup goes on with: none from a reply that
      names none or does not come from a peer we asked. */
  method ProcessSearchReply(tried: set<Hash>, from: Hash, peers: seq<Hash>, fromKnown: bool,
      outcomes: seq<Option<RouterInfo>>)
    returns (found: seq<RouterInfo>)
    requires |outcomes| == |peers|
    ensures found == if peers != [] && from in tried && fromKnown && outcomes[|outcomes| - 1].Some?
                     then Successes(outcomes) else []
    ensures found == if from in tried then Taken(SearchReply(fromKnown, outcomes)) else []
    ensures found == Successes(outcomes) <==>
          Successes(outcomes) == [] || (from in tried && fromKnown && outcomes[|outcomes| - 1].Some?)
  {
    if peers == [] || from !in tried || !fromKnown {
      return [];
    }
    var r := Collect(outcomes);
    match r {
      case None => return [];
      case Some(ris) => return ris;
    }
  }

  /** A reply naming two peers, one found and then one not: the one found is lost. */
  method FoundYetLost(from: Hash, ri: RouterInfo, other: Hash)
    returns (outcomes: seq<Option<RouterInfo>>, found: seq<RouterInfo>)
    ensures outcomes == [Some(ri), None] && Successes(outcomes) == [ri]
    ensures found == []
  {
    outcomes := [Some(ri), None];
    assert outcomes[..1] == [Some(ri)] && [Some(ri)][..0] == [];
    assert Successes([Some(ri)]) == Successes([]) + [ri];
    assert Successes(outcomes) == Successes([Some(ri)]) + [];
    found := ProcessSearchReply({from}, from, [ri.hash, other], true, outcomes);
  }

  /** What the peers asked say, as a lookup goes on with it. */
  function AnswersOf(replies: (nat, Hash) -> SearchReply): (a: Answers)
  {
    (n: nat, h: Hash) => Taken(replies(n, h))
  }

  /** A lookup whose answers come from search replies: it ends, nearest first, and a peer
      that some asked peer named, and that was found, goes unasked only if nothing was
      kept of each reply that named it. */
  method LookupByReplies(rk: Hash, first: RouterInfo, replies: (nat, Hash) -> SearchReply, ghost universe: set<Hash>)
    returns (asked: seq<Hash>)
    requires first.hash in universe
    requires forall n: nat, h: Hash :: Hashes(Taken(replies(n, h))) <= universe
    ensures NearestFirst(rk, first.hash, AnswersOf(replies), asked)
    ensures forall i, ri :: 0 <= i < |asked| && Kept(replies(i, asked[i]))
                            && ri in Successes(replies(i, asked[i]).outcomes)
                            ==> ri.hash in asked
    ensures forall h: Hash :: h in asked && h != first.hash
                              ==> exists i :: 0 <= i < |asked| && NamedBy(replies, asked, i, h)
  {
    hide NearestFirst, Successes, Metric;
    asked := Lookup(rk, first, AnswersOf(replies), universe);
    ghost var a := AnswersOf(replies);
    InAsked(asked);
    forall i, ri | 0 <= i < |asked| && ri in Successes(replies(i, asked[i]).outcomes) && Kept(replies(i, asked[i]))
      ensures ri.hash in asked
    {
      NamedIsKnown(first.hash, a, asked, i, ri);
    }
    forall h: Hash | h in asked && h != first.hash
      ensures exists i :: 0 <= i < |asked| && NamedBy(replies, asked, i, h)
    {
      var i := KnownIsNamed(first.hash, a, asked, h);
      assert NamedBy(replies, asked, i, h);
    }
  }

  /** Asked peer i sent a reply that was kept, in which h was found. */
  ghost predicate NamedBy(replies: (nat, Hash) -> SearchReply, asked: seq<Hash>, i: nat, h: Hash)
    requires i < |asked|
  {
    h in Hashes(Taken(replies(i, asked[i])))
  }

  lemma {:induction false} NamedIsKnown(first: Hash, answers: Answers, asked: seq<Hash>, i: nat, ri: RouterInfo)
    requires i < |asked| && ri in answers(i, asked[i])
    ensures ri.hash in Known(first, answers, asked)
    decreases |asked|
  {
    var n := |asked| - 1;
    if i == n {
      var k :| 0 <= k < |answers(n, asked[n])| && answers(n, asked[n])[k] == ri;
      assert ri.hash in Hashes(answers(n, asked[n]));
    } else {
      NamedIsKnown(first, answers, asked[..n], i, ri);
    }
  }

  lemma {:induction false} KnownIsNamed(first: Hash, answers: Answers, asked: seq<Hash>, h: Hash) returns (i: nat)
    requires h in Known(first, answers, asked) && h != first
    ensures i < |asked| && h in Hashes(answers(i, asked[i]))
    decreases |asked|
  {
    var n := |asked| - 1;
    if h in Known(first, answers, asked[..n]) {
      i := KnownIsNamed(first, answers, asked[..n], h);
    } else {
      i := n;
    }
  }
}
