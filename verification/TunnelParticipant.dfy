/**
 * The fast path for tunnels this router takes part in: which TunnelData messages it
 * passes on, to whom, and for how long. Times are in milliseconds.
 */
module TunnelParticipant {
  import opened Bytes
  import opened TunnelCrypto
  import opened DecayingFilter

  const TUNNEL_LIFETIME: nat := 600_000
  const EXPIRE_TUNNELS_INTERVAL: nat := 10_000

  type Ident = seq<byte>

  type TunnelBytes = d: seq<byte> | |d| == 1024 witness seq(1024, _ => 0)

  datatype HopData =
    | InboundGateway(next: Ident, nextTid: nat)
    | Intermediate(from: Ident, next: Ident, nextTid: nat)
    | OutboundEndpoint(from: Ident)

  datatype HopConfig = HopConfig(hopData: HopData, layer: LayerCipher, expires: nat)

  datatype Msg = Tunnelled(tid: nat, data: TunnelBytes) | Unexpected

  /** A tunnel to take part in, under the identifier messages for it will carry. */
  datatype NewTunnel = NewTunnel(tid: nat, config: HopConfig)

  datatype Outcome = Idle | Dropped | Spawned(tid: nat, config: HopConfig, data: TunnelBytes) | Unimplemented

  /** The participant's state. */
  datatype Hops = Hops(participating: map<nat, HopConfig>, filter: Filter, expireAt: nat, decayAt: nat)

  /** What duplicates are told by: the IV xor the first block. */
  function FilterValue(data: TunnelBytes): (v: seq<byte>)
  {
    XorBytes(data[..16], data[16..32])
  }

  function Joined(m: map<nat, HopConfig>, news: seq<NewTunnel>): (r: map<nat, HopConfig>)
    decreases |news|
  {
    if news == [] then m else Joined(m[news[0].tid := news[0].config], news[1..])
  }

  function Unexpired(m: map<nat, HopConfig>, now: nat): (r: map<nat, HopConfig>)
  {
    map tid | tid in m && m[tid].expires > now :: m[tid]
  }

  /** The periodic work that is due. */
  function Ticked(h: Hops, now: nat): (r: Hops)
  {
    var h1 := if now < h.expireAt then h
              else h.(participating := Unexpired(h.participating, now), expireAt := now + EXPIRE_TUNNELS_INTERVAL);
    if now < h1.decayAt then h1 else h1.(filter := Decayed(h1.filter), decayAt := now + TUNNEL_LIFETIME)
  }

  predicate WrongPeer(d: HopData, from: Ident)
  {
    match d
    case InboundGateway(_, _) => false
    case Intermediate(expected, _, _) => from != expected
    case OutboundEndpoint(expected) => from != expected
  }

  function Handled(pos: Positions, h: Hops, from: Ident, msg: Msg): (r: (Hops, Outcome))
  {
    if msg.Unexpected? || msg.tid !in h.participating then (h, Dropped)
    else
      var config := h.participating[msg.tid];
      if WrongPeer(config.hopData, from) || Contains(pos, h.filter, FilterValue(msg.data)) then (h, Dropped)
      else
        (h.(filter := Fed(pos, h.filter, FilterValue(msg.data))),
         if config.hopData.Intermediate? then Spawned(msg.tid, config, msg.data) else Unimplemented)
  }

  /** One turn of the participant's loop. */
  function Turn(pos: Positions, h: Hops, now: nat, news: seq<NewTunnel>,
      inbox: Option<(Ident, Msg)>): (r: (Hops, Outcome))
  {
    var h1 := Ticked(h.(participating := Joined(h.participating, news)), now);
    match inbox
    case None => (h1, Idle)
    case Some((from, msg)) => Handled(pos, h1, from, msg)
  }

  class Participant {
    var participating: map<nat, HopConfig>
    const filter: DecayingBloomFilter
    var expireAt: nat
    var decayAt: nat

    constructor (pos: Positions, now: nat)
      ensures State() == Start(now) && filter.pos == pos && fresh(filter)
    {
      participating := map[];
      filter := new DecayingBloomFilter(pos);
      expireAt, decayAt := now + EXPIRE_TUNNELS_INTERVAL, now + TUNNEL_LIFETIME;
    }

    ghost function State(): (h: Hops)
      reads this, filter
    {
      Hops(participating, filter.Value(), expireAt, decayAt)
    }

    /** One turn of the loop in `Participant::poll`. */
    method Poll(now: nat, news: seq<NewTunnel>, inbox: Option<(Ident, Msg)>) returns (r: Outcome)
      modifies this, filter
      ensures (State(), r) == Turn(filter.pos, old(State()), now, news, inbox)
    {
      var i := 0;
      while i < |news|
        modifies this`participating
        invariant 0 <= i <= |news|
        invariant Joined(participating, news[i..]) == Joined(old(participating), news)
      {
        assert news[i..][1..] == news[i + 1..];
        participating := participating[news[i].tid := news[i].config];
        i := i + 1;
      }
      if now >= expireAt {
        participating := map tid | tid in participating && participating[tid].expires > now :: participating[tid];
        expireAt := now + EXPIRE_TUNNELS_INTERVAL;
      }
      if now >= decayAt {
        filter.Decay();
        decayAt := now + TUNNEL_LIFETIME;
      }
      if inbox.None? {
        return Idle;
      }
      var (from, msg) := inbox.value;
      if msg.Unexpected? || msg.tid !in participating {
        return Dropped;
      }
      var config := participating[msg.tid];
      if WrongPeer(config.hopData, from) {
        return Dropped;
      }
      var present := filter.Feed(XorBytes(msg.data[..16], msg.data[16..32]));
      if present {
        return Dropped;
      }
      match config.hopData {
        case Intermediate(_, _, _) => return Spawned(msg.tid, config, msg.data);
        case _ => return Unimplemented;
      }
    }
  }

  /** `HopProcessor`: adds this hop's layer and readdresses the message, in place. */
  method ProcessHop(td: TunnelData, config: HopConfig)
    requires td.data.Length == 1024 && config.hopData.Intermediate?
    modifies td, td.data
    ensures td.data[..] == config.layer.Encrypted(old(td.data[..]))
    ensures td.tid == config.hopData.nextTid
  {
    config.layer.EncryptLayer(td);
    td.tid := config.hopData.nextTid;
  }

  // ---------- runs ----------

  datatype PollEvent = PollEvent(now: nat, news: seq<NewTunnel>, inbox: Option<(Ident, Msg)>)

  /** A message passed on: when, after how many decays and how many
      registrations, from whom, and for which hop. */
  datatype Forward = Forward(at: nat, epoch: nat, known: nat, from: Ident, tid: nat, config: HopConfig,
      data: TunnelBytes)

  /** The state, and what has happened so far. */
  datatype Trace = Trace(hops: Hops, now: nat, news: seq<NewTunnel>, decays: seq<nat>, forwards: seq<Forward>,
      panicked: bool)

  function Start(now: nat): (h: Hops)
  {
    Hops(map[], Filter({}, {}), now + EXPIRE_TUNNELS_INTERVAL, now + TUNNEL_LIFETIME)
  }

  function TraceStep(pos: Positions, t: Trace, e: PollEvent): (r: Trace)
  {
    var (h, o) := Turn(pos, t.hops, e.now, e.news, e.inbox);
    var decays := if e.now < t.hops.decayAt then t.decays else t.decays + [e.now];
    Trace(h, e.now, t.news + e.news, decays,
          if o.Spawned? && e.inbox.Some? then
            t.forwards + [Forward(e.now, |decays|, |t.news + e.news|, e.inbox.value.0, o.tid, o.config, o.data)]
          else t.forwards,
          t.panicked || o.Unimplemented?)
  }

  function TraceRun(pos: Positions, start: nat, events: seq<PollEvent>): (t: Trace)
  {
    if events == [] then Trace(Start(start), start, [], [], [], false)
    else TraceStep(pos, TraceRun(pos, start, events[..|events| - 1]), events[|events| - 1])
  }

  function Before(start: nat, events: seq<PollEvent>, i: nat): (now: nat)
    requires i <= |events|
  {
    if i == 0 then start else events[i - 1].now
  }

  /** The clock does not run backwards. */
  ghost predicate InOrder(start: nat, events: seq<PollEvent>)
  {
    forall i {:trigger Before(start, events, i)} :: 0 <= i < |events| ==> Before(start, events, i) <= events[i].now
  }

  lemma InOrderPrefix(start: nat, events: seq<PollEvent>)
    requires InOrder(start, events) && events != []
    ensures InOrder(start, events[..|events| - 1])
    ensures Before(start, events[..|events| - 1], |events| - 1) <= events[|events| - 1].now
  {
    var es := events[..|events| - 1];
    forall i | 0 <= i < |events| ensures Before(start, es, i) <= events[i].now {
      assert Before(start, es, i) == Before(start, events, i);
    }
  }

  lemma {:induction false} ClockIs(pos: Positions, start: nat, events: seq<PollEvent>)
    ensures TraceRun(pos, start, events).now == Before(start, events, |events|)
  {}

  // ---------- no message is passed on twice within a tunnel's lifetime ----------

  /** Decays are a lifetime apart, the next is due a lifetime after the last, and each
      value passed on is in the layer its age calls for. */
  ghost predicate FilterOk(pos: Positions, start: nat, t: Trace)
  {
    && (forall i :: 0 < i < |t.decays| ==> t.decays[i - 1] + TUNNEL_LIFETIME <= t.decays[i])
    && (t.decays != [] ==>
          t.decays[|t.decays| - 1] <= t.now && t.hops.decayAt == t.decays[|t.decays| - 1] + TUNNEL_LIFETIME)
    && forall f :: f in t.forwards ==> ForwardOk(pos, t.hops.filter, t.decays, t.now, f)
  }

  ghost predicate ForwardOk(pos: Positions, filter: Filter, decays: seq<nat>, now: nat, f: Forward)
  {
    && f.epoch <= |decays| && f.at <= (if f.epoch < |decays| then decays[f.epoch] else now)
    && (f.epoch == |decays| ==> pos(FilterValue(f.data)) <= filter.current)
    && (f.epoch + 1 == |decays| ==> pos(FilterValue(f.data)) <= filter.previous)
  }

  ghost predicate Apart(forwards: seq<Forward>)
  {
    forall i, j :: 0 <= i < j < |forwards| && FilterValue(forwards[i].data) == FilterValue(forwards[j].data)
                   ==> forwards[i].epoch + 2 <= forwards[j].epoch && forwards[i].at + TUNNEL_LIFETIME <= forwards[j].at
  }

  lemma DecayKeeps(pos: Positions, start: nat, t: Trace, e: PollEvent)
    requires FilterOk(pos, start, t) && t.now <= e.now
    ensures var h := Ticked(t.hops.(participating := Joined(t.hops.participating, e.news)), e.now);
            var decays := if e.now < t.hops.decayAt then t.decays else t.decays + [e.now];
            FilterOk(pos, start, t.(hops := h, now := e.now, decays := decays))
  {
    hide Joined, Unexpired, FilterValue;
    var h := Ticked(t.hops.(participating := Joined(t.hops.participating, e.news)), e.now);
    var decays := if e.now < t.hops.decayAt then t.decays else t.decays + [e.now];
    forall f | f in t.forwards ensures ForwardOk(pos, h.filter, decays, e.now, f) {
      assert ForwardOk(pos, t.hops.filter, t.decays, t.now, f);
    }
  }

  lemma OldEnough(pos: Positions, start: nat, t: Trace, f: Forward, v: seq<byte>)
    requires FilterOk(pos, start, t) && f in t.forwards && FilterValue(f.data) == v && !Contains(pos, t.hops.filter, v)
    ensures f.epoch + 2 <= |t.decays| && f.at + TUNNEL_LIFETIME <= t.now
  {
    hide FilterValue;
    assert ForwardOk(pos, t.hops.filter, t.decays, t.now, f);
    assert f.epoch + 1 < |t.decays|;
    DecaysGrow(t.decays, f.epoch + 1, |t.decays| - 1);
    assert t.decays[f.epoch + 1 - 1] + TUNNEL_LIFETIME <= t.decays[f.epoch + 1];
  }

  lemma {:induction false} DecaysGrow(d: seq<nat>, i: nat, j: nat)
    requires i <= j < |d| && forall k :: 0 < k < |d| ==> d[k - 1] + TUNNEL_LIFETIME <= d[k]
    ensures d[i] <= d[j]
    decreases j
  {
    if i < j {
      DecaysGrow(d, i, j - 1);
      assert d[j - 1] + TUNNEL_LIFETIME <= d[j];
    }
  }

  lemma TurnKeepsFilter(pos: Positions, start: nat, t: Trace, e: PollEvent)
    requires FilterOk(pos, start, t) && Apart(t.forwards) && t.now <= e.now
    ensures FilterOk(pos, start, TraceStep(pos, t, e)) && Apart(TraceStep(pos, t, e).forwards)
  {
    hide FilterValue, Joined, Ticked;
    DecayKeeps(pos, start, t, e);
    var h := Ticked(t.hops.(participating := Joined(t.hops.participating, e.news)), e.now);
    var decays := if e.now < t.hops.decayAt then t.decays else t.decays + [e.now];
    var mid := t.(hops := h, now := e.now, decays := decays);
    var r := TraceStep(pos, t, e);
    if r.forwards != t.forwards {
      var f := r.forwards[|t.forwards|];
      var v := FilterValue(f.data);
      forall i | 0 <= i < |t.forwards| && FilterValue(t.forwards[i].data) == v
        ensures t.forwards[i].epoch + 2 <= f.epoch && t.forwards[i].at + TUNNEL_LIFETIME <= f.at
      {
        OldEnough(pos, start, mid, t.forwards[i], v);
      }
    }
    forall f | f in r.forwards ensures ForwardOk(pos, r.hops.filter, r.decays, r.now, f) {
      if f in t.forwards { assert ForwardOk(pos, mid.hops.filter, mid.decays, mid.now, f); }
    }
  }

  lemma {:induction false} FilterInvariant(pos: Positions, start: nat, events: seq<PollEvent>)
    requires InOrder(start, events)
    ensures FilterOk(pos, start, TraceRun(pos, start, events)) && Apart(TraceRun(pos, start, events).forwards)
  {
    hide TraceStep;
    if events != [] {
      InOrderPrefix(start, events);
      FilterInvariant(pos, start, events[..|events| - 1]);
      ClockIs(pos, start, events[..|events| - 1]);
      TurnKeepsFilter(pos, start, TraceRun(pos, start, events[..|events| - 1]), events[|events| - 1]);
    }
  }

  /** Over every run, whatever the hash functions: between two messages passed on with
      the same IV and first block (xored), on whatever tunnels, lie at least two decays
      of the filter, and so at least a tunnel lifetime. */
  lemma NoReplays(pos: Positions, start: nat, events: seq<PollEvent>, i: nat, j: nat)
    requires InOrder(start, events)
    ensures var fs := TraceRun(pos, start, events).forwards;
            i < j < |fs| && FilterValue(fs[i].data) == FilterValue(fs[j].data) ==>
              fs[i].epoch + 2 <= fs[j].epoch && fs[i].at + 600_000 <= fs[j].at
  {
    hide TraceRun, FilterValue, InOrder;
    FilterInvariant(pos, start, events);
  }

  /** A message that is dropped, for whatever reason, leaves no trace; one that is let
      through changes the filter, only by its own value, and goes on as it came. */
  lemma DroppedLeavesNoTrace(pos: Positions, h: Hops, from: Ident, msg: Msg)
    ensures var (h', o) := Handled(pos, h, from, msg);
            && (o.Dropped? <==> h' == h)
            && (o.Spawned? ==>
                  && msg.Tunnelled? && msg.tid in h.participating
                  && o == Spawned(msg.tid, h.participating[msg.tid], msg.data))
            && (!o.Dropped? ==>
                  && msg.Tunnelled?
                  && h' == h.(filter := h.filter.(current := h.filter.current + pos(FilterValue(msg.data)))))
  {
    hide FilterValue;
    if msg.Tunnelled? && h.filter.current + pos(FilterValue(msg.data)) == h.filter.current {
      assert pos(FilterValue(msg.data)) <= h.filter.current;
    }
  }

  // ---------- what is passed on ----------

  /** The last tunnel registered under an identifier. */
  function LastNamed(news: seq<NewTunnel>, tid: nat): (r: Option<HopConfig>)
  {
    if news == [] then None
    else if news[|news| - 1].tid == tid then Some(news[|news| - 1].config)
    else LastNamed(news[..|news| - 1], tid)
  }

  lemma {:induction false} LastNamedAdds(a: seq<NewTunnel>, b: seq<NewTunnel>, tid: nat)
    ensures LastNamed(a + b, tid) == if LastNamed(b, tid).Some? then LastNamed(b, tid) else LastNamed(a, tid)
  {
    if b == [] {
      assert a + b == a;
    } else {
      assert (a + b)[..|a + b| - 1] == a + b[..|b| - 1];
      LastNamedAdds(a, b[..|b| - 1], tid);
    }
  }

  lemma {:induction false} JoinedIsLast(m: map<nat, HopConfig>, news: seq<NewTunnel>, tid: nat)
    ensures LastNamed(news, tid).Some? ==> tid in Joined(m, news) && Joined(m, news)[tid] == LastNamed(news, tid).value
    ensures LastNamed(news, tid).None? ==>
              (tid in Joined(m, news) <==> tid in m) && (tid in m ==> Joined(m, news)[tid] == m[tid])
    decreases |news|
  {
    if news != [] {
      JoinedIsLast(m[news[0].tid := news[0].config], news[1..], tid);
      assert news == [news[0]] + news[1..];
      LastNamedAdds([news[0]], news[1..], tid);
      assert [news[0]][..0] == [];
    }
  }

  /** Registrations reach the participant before they expire. */
  ghost predicate Prompt(e: PollEvent)
  {
    forall i :: 0 <= i < |e.news| ==> e.news[i].config.expires > e.now
  }

  ghost predicate AllPrompt(events: seq<PollEvent>)
  {
    forall i :: 0 <= i < |events| ==> Prompt(events[i])
  }

  /** Each hop held is the last registered under its identifier, and has not expired
      by the last sweep. */
  ghost predicate HopsOk(t: Trace, prompt: bool)
  {
    && EXPIRE_TUNNELS_INTERVAL <= t.hops.expireAt <= t.now + EXPIRE_TUNNELS_INTERVAL
    && forall tid :: tid in t.hops.participating ==> HopOk(t.hops, t.news, tid, prompt)
  }

  ghost predicate HopOk(h: Hops, news: seq<NewTunnel>, tid: nat, prompt: bool)
    requires tid in h.participating
  {
    && LastNamed(news, tid) == Some(h.participating[tid])
    && (prompt ==> h.participating[tid].expires + EXPIRE_TUNNELS_INTERVAL > h.expireAt)
  }

  /** What entitles a message to be passed on. */
  ghost predicate Vetted(news: seq<NewTunnel>, f: Forward, prompt: bool)
  {
    && f.config.hopData.Intermediate? && f.from == f.config.hopData.from
    && f.known <= |news| && LastNamed(news[..f.known], f.tid) == Some(f.config)
    && (prompt ==> f.at < f.config.expires + EXPIRE_TUNNELS_INTERVAL)
  }

  lemma JoinKeeps(t: Trace, e: PollEvent, prompt: bool)
    requires HopsOk(t, prompt) && t.now <= e.now && (prompt ==> Prompt(e))
    ensures HopsOk(t.(hops := t.hops.(participating := Joined(t.hops.participating, e.news)), now := e.now,
                      news := t.news + e.news), prompt)
  {
    var m := Joined(t.hops.participating, e.news);
    var h := t.hops.(participating := m);
    forall tid | tid in m ensures HopOk(h, t.news + e.news, tid, prompt) {
      JoinedIsLast(t.hops.participating, e.news, tid);
      LastNamedAdds(t.news, e.news, tid);
      if LastNamed(e.news, tid).Some? {
        var i := LastIndex(e.news, tid);
      } else {
        assert HopOk(t.hops, t.news, tid, prompt);
      }
    }
  }

  lemma {:induction false} LastIndex(news: seq<NewTunnel>, tid: nat) returns (i: nat)
    requires LastNamed(news, tid).Some?
    ensures i < |news| && news[i].config == LastNamed(news, tid).value
  {
    if news[|news| - 1].tid == tid {
      i := |news| - 1;
    } else {
      i := LastIndex(news[..|news| - 1], tid);
    }
  }

  lemma TickKeeps(t: Trace, prompt: bool)
    requires HopsOk(t, prompt)
    ensures HopsOk(t.(hops := Ticked(t.hops, t.now)), prompt) && t.now < Ticked(t.hops, t.now).expireAt
  {
    var h := Ticked(t.hops, t.now);
    forall tid | tid in h.participating ensures HopOk(h, t.news, tid, prompt) {
      assert HopOk(t.hops, t.news, tid, prompt);
    }
  }

  /** A turn leaves the hops in order; what it passes on is vetted; it panics only for a
      hop that is not an intermediate one. */
  lemma TurnVets(pos: Positions, t: Trace, e: PollEvent, prompt: bool)
    requires HopsOk(t, prompt) && t.now <= e.now && (prompt ==> Prompt(e))
    ensures var r := TraceStep(pos, t, e);
            && HopsOk(r, prompt)
            && (forall f :: f in r.forwards ==> f in t.forwards || Vetted(r.news, f, prompt))
            && (r.panicked && !t.panicked ==> exists i :: 0 <= i < |r.news| && !r.news[i].config.hopData.Intermediate?)
  {
    hide Joined, Ticked, FilterValue, LastNamed, Contains, Prompt;
    JoinKeeps(t, e, prompt);
    var t1 := t.(hops := t.hops.(participating := Joined(t.hops.participating, e.news)), now := e.now,
                 news := t.news + e.news);
    TickKeeps(t1, prompt);
    var h := Ticked(t1.hops, e.now);
    var r := TraceStep(pos, t, e);
    forall tid | tid in r.hops.participating ensures HopOk(r.hops, r.news, tid, prompt) {
      assert HopOk(h, t1.news, tid, prompt);
    }
    if e.inbox.Some? && e.inbox.value.1.Tunnelled? && e.inbox.value.1.tid in h.participating {
      var tid := e.inbox.value.1.tid;
      assert HopOk(h, t1.news, tid, prompt);
      var i := LastIndex(t1.news, tid);
      assert r.news[..|r.news|] == r.news;
    }
  }

  lemma {:induction false} VettedInvariant(pos: Positions, start: nat, events: seq<PollEvent>, prompt: bool)
    requires InOrder(start, events) && (prompt ==> AllPrompt(events))
    ensures var t := TraceRun(pos, start, events);
            && HopsOk(t, prompt)
            && (forall f :: f in t.forwards ==> Vetted(t.news, f, prompt))
            && (t.panicked ==> exists i :: 0 <= i < |t.news| && !t.news[i].config.hopData.Intermediate?)
  {
    hide TraceStep, HopsOk, LastNamed;
    if events == [] {
      StartOk(pos, start, prompt);
    } else {
      var es, e := events[..|events| - 1], events[|events| - 1];
      InOrderPrefix(start, events);
      assert prompt ==> AllPrompt(es) by {
        if prompt { forall i | 0 <= i < |es| ensures Prompt(es[i]) { assert es[i] == events[i]; } }
      }
      VettedInvariant(pos, start, es, prompt);
      ClockIs(pos, start, es);
      var t := TraceRun(pos, start, es);
      TurnVets(pos, t, e, prompt);
      var r := TraceStep(pos, t, e);
      NewsGrow(pos, t, e);
      if t.panicked {
        var i :| 0 <= i < |t.news| && !t.news[i].config.hopData.Intermediate?;
        assert r.news[i] == t.news[i];
      }
      forall f | f in r.forwards ensures Vetted(r.news, f, prompt) {
        if f in t.forwards {
          assert Vetted(t.news, f, prompt);
          assert r.news[..f.known] == t.news[..f.known];
        }
      }
    }
  }

  lemma NewsGrow(pos: Positions, t: Trace, e: PollEvent)
    ensures TraceStep(pos, t, e).news == t.news + e.news
  {}

  lemma StartOk(pos: Positions, start: nat, prompt: bool)
    ensures HopsOk(Trace(Start(start), start, [], [], [], false), prompt)
  {}

  /** Over every run: each message passed on was for the hop last registered under its
      identifier, an intermediate one, and came from the previous hop named in it; where
      registrations arrive before they expire it was never ten seconds or more past the hop's expiry; and the
      unimplemented cases are never reached if only intermediate hops are registered. */
  lemma OnlyVettedForwards(pos: Positions, start: nat, events: seq<PollEvent>)
    requires InOrder(start, events)
    ensures var t := TraceRun(pos, start, events);
            && (forall f :: f in t.forwards ==> Vetted(t.news, f, AllPrompt(events)))
            && ((forall i :: 0 <= i < |t.news| ==> t.news[i].config.hopData.Intermediate?) ==> !t.panicked)
  {
    hide TraceRun, InOrder, AllPrompt, Vetted;
    VettedInvariant(pos, start, events, AllPrompt(events));
  }

  // ---------- what is not refused ----------

  /** The hop last registered under an identifier is held if it has not expired. */
  ghost predicate LiveHeld(m: map<nat, HopConfig>, now: nat, news: seq<NewTunnel>, tid: nat)
  {
    var last := LastNamed(news, tid);
    last.Some? && last.value.expires > now ==> tid in m && m[tid] == last.value
  }

  lemma TurnHoldsLive(t: Trace, now: nat, news: seq<NewTunnel>, tid: nat)
    requires LiveHeld(t.hops.participating, t.now, t.news, tid) && t.now <= now
    ensures var h := Ticked(t.hops.(participating := Joined(t.hops.participating, news)), now);
            LiveHeld(h.participating, now, t.news + news, tid)
  {
    hide Joined, LastNamed;
    JoinedIsLast(t.hops.participating, news, tid);
    LastNamedAdds(t.news, news, tid);
  }

  /** Over every run: a tunnel is not forgotten before it expires. */
  lemma {:induction false} LiveHopsAreKept(pos: Positions, start: nat, events: seq<PollEvent>, tid: nat)
    requires InOrder(start, events)
    ensures var t := TraceRun(pos, start, events);
            var last := LastNamed(t.news, tid);
            last.Some? && last.value.expires > t.now ==>
              tid in t.hops.participating && t.hops.participating[tid] == last.value
  {
    hide Joined, Ticked, FilterValue, LastNamed, Contains;
    if events == [] {
      assert LastNamed([], tid).None? by { NoneNamed(tid); }
    } else {
      var es, e := events[..|events| - 1], events[|events| - 1];
      InOrderPrefix(start, events);
      LiveHopsAreKept(pos, start, es, tid);
      ClockIs(pos, start, es);
      TurnHoldsLive(TraceRun(pos, start, es), e.now, e.news, tid);
    }
  }

  lemma NoneNamed(tid: nat)
    ensures LastNamed([], tid) == None
  {}

  /** The bits set by the messages passed on after exactly n decays. */
  ghost function Marks(pos: Positions, forwards: seq<Forward>, n: int): (bits: set<nat>)
  {
    set f, b | f in forwards && f.epoch == n && b in pos(XorBytes(f.data[..16], f.data[16..32])) :: b
  }

  lemma MarksAdd(pos: Positions, forwards: seq<Forward>, f: Forward, n: int)
    ensures Marks(pos, forwards + [f], n)
         == Marks(pos, forwards, n) + if f.epoch == n then pos(XorBytes(f.data[..16], f.data[16..32])) else {}
  {
    var v := XorBytes(f.data[..16], f.data[16..32]);
    var a, b := Marks(pos, forwards + [f], n), Marks(pos, forwards, n) + if f.epoch == n then pos(v) else {};
    forall x | x in b ensures x in a {
      if f.epoch == n && x in pos(v) { assert f in forwards + [f]; }
    }
  }

  /** The filter holds what was passed on since the last decay, and in the period before. */
  ghost predicate FilterIs(pos: Positions, h: Hops, forwards: seq<Forward>, n: nat)
  {
    h.filter == Filter(Marks(pos, forwards, n), Marks(pos, forwards, n - 1))
  }

  lemma NothingLater(pos: Positions, forwards: seq<Forward>, n: int)
    requires forall f :: f in forwards ==> f.epoch < n
    ensures Marks(pos, forwards, n) == {}
  {}

  lemma TickMarks(pos: Positions, t: Trace, now: nat, news: seq<NewTunnel>)
    requires FilterIs(pos, t.hops, t.forwards, |t.decays|)
    requires forall f :: f in t.forwards ==> f.epoch <= |t.decays|
    ensures var n := if now < t.hops.decayAt then |t.decays| else |t.decays| + 1;
            FilterIs(pos, Ticked(t.hops.(participating := Joined(t.hops.participating, news)), now), t.forwards, n)
  {
    hide Joined, Unexpired, Marks;
    NothingLater(pos, t.forwards, |t.decays| + 1);
  }

  lemma HandledMarks(pos: Positions, h: Hops, from: Ident, msg: Msg, forwards: seq<Forward>, f: Forward, n: nat)
    requires FilterIs(pos, h, forwards, n)
    requires Handled(pos, h, from, msg).1.Spawned? && f.epoch == n && f.data == Handled(pos, h, from, msg).1.data
    ensures FilterIs(pos, Handled(pos, h, from, msg).0, forwards + [f], n)
  {
    hide Marks;
    MarksAdd(pos, forwards, f, n);
    MarksAdd(pos, forwards, f, n - 1);
  }

  lemma TurnMarks(pos: Positions, start: nat, t: Trace, e: PollEvent)
    requires FilterOk(pos, start, t) && FilterIs(pos, t.hops, t.forwards, |t.decays|)
    ensures var r := TraceStep(pos, t, e);
            r.panicked || FilterIs(pos, r.hops, r.forwards, |r.decays|)
  {
    hide Joined, Ticked, Marks, FilterValue, FilterIs;
    forall f | f in t.forwards ensures f.epoch <= |t.decays| {
      assert ForwardOk(pos, t.hops.filter, t.decays, t.now, f);
    }
    TickMarks(pos, t, e.now, e.news);
    var h := Ticked(t.hops.(participating := Joined(t.hops.participating, e.news)), e.now);
    var r := TraceStep(pos, t, e);
    if e.inbox.Some? {
      var (from, msg) := e.inbox.value;
      if Handled(pos, h, from, msg).1.Spawned? {
        HandledMarks(pos, h, from, msg, t.forwards, r.forwards[|t.forwards|], |r.decays|);
      }
    }
  }

  lemma TurnSetsDecay(pos: Positions, start: nat, t: Trace, e: PollEvent)
    requires t.hops.decayAt == LastDecay(start, t.decays) + TUNNEL_LIFETIME
    ensures var r := TraceStep(pos, t, e);
            r.hops.decayAt == LastDecay(start, r.decays) + TUNNEL_LIFETIME && (t.panicked ==> r.panicked)
  {
    hide Joined, Unexpired, FilterValue, Contains;
  }

  function LastDecay(start: nat, decays: seq<nat>): (at: nat)
  {
    if decays == [] then start else decays[|decays| - 1]
  }

  /** Over every run without a panic, the filter is exactly the history, and the next
      decay is due a lifetime after the last. */
  lemma {:induction false} FilterIsHistory(pos: Positions, start: nat, events: seq<PollEvent>)
    requires InOrder(start, events)
    ensures var t := TraceRun(pos, start, events);
            && (t.panicked || t.hops.filter == Filter(Marks(pos, t.forwards, |t.decays|),
                                                      Marks(pos, t.forwards, |t.decays| - 1)))
            && t.hops.decayAt == (if t.decays == [] then start else t.decays[|t.decays| - 1]) + 600_000
  {
    hide Marks, TraceStep, FilterOk;
    if events == [] {
      StartMarks(pos, start);
    } else {
      var es, e := events[..|events| - 1], events[|events| - 1];
      InOrderPrefix(start, events);
      FilterIsHistory(pos, start, es);
      FilterInvariant(pos, start, es);
      var t := TraceRun(pos, start, es);
      TurnSetsDecay(pos, start, t, e);
      if !t.panicked { TurnMarks(pos, start, t, e); }
    }
  }

  lemma StartMarks(pos: Positions, start: nat)
    ensures FilterIs(pos, Start(start), [], 0)
  {}

  /** The filter after a decay that is due. */
  lemma TickDecays(h: Hops, now: nat, news: seq<NewTunnel>)
    ensures Ticked(h.(participating := Joined(h.participating, news)), now).filter
         == if now < h.decayAt then h.filter else Filter({}, h.filter.current)
  {}

  /** After every run, a message for a live intermediate hop, from that hop's previous one,
      is passed on, with the hop as registered and the data as it came, if and only if its
      IV xor first block has a bit missing in each layer of the filter, after the decay
      that may be due. If nothing has panicked those layers are the bits of the messages
      passed on since the last decay, and of those passed on in the period before. */
  lemma LiveMessagePasses(pos: Positions, start: nat, events: seq<PollEvent>, now: nat, news: seq<NewTunnel>,
      from: Ident, tid: nat, data: TunnelBytes)
    requires InOrder(start, events) && Before(start, events, |events|) <= now
    ensures var t := TraceRun(pos, start, events);
            var last := LastNamed(t.news + news, tid);
            var filter := if now < t.hops.decayAt then t.hops.filter else Filter({}, t.hops.filter.current);
            var n := if now < t.hops.decayAt then |t.decays| else |t.decays| + 1;
            var bits := pos(XorBytes(data[..16], data[16..32]));
            var r := Turn(pos, t.hops, now, news, Some((from, Tunnelled(tid, data)))).1;
            && (last.Some? && last.value.expires > now && last.value.hopData.Intermediate?
                && from == last.value.hopData.from ==>
                  r == if bits <= filter.current || bits <= filter.previous then Dropped
                       else Spawned(tid, last.value, data))
            && (t.panicked || filter == Filter(Marks(pos, t.forwards, n), Marks(pos, t.forwards, n - 1)))
  {
    hide TraceRun, Joined, Ticked, LastNamed, Marks;
    var t := TraceRun(pos, start, events);
    ClockIs(pos, start, events);
    LiveHopsAreKept(pos, start, events, tid);
    TurnHoldsLive(t, now, news, tid);
    TickDecays(t.hops, now, news);
    FilterIsHistory(pos, start, events);
    FilterInvariant(pos, start, events);
    forall f | f in t.forwards ensures f.epoch <= |t.decays| {
      assert ForwardOk(pos, t.hops.filter, t.decays, t.now, f);
    }
    if !t.panicked { TickMarks(pos, t, now, news); }
  }
}
