/**
 * The table of sessions of a transport: frames for a peer go to its session, or wait
 * while a connection is made. A session is known here by the channel its frames are
 * queued on; channels are numbered as they are made.
 */
module SessionTable {
  import opened Bytes
  import opened NetDbLookup

  datatype Channel<F> = Channel(peer: Hash, frames: seq<F>, closed: bool)

  datatype Shared<F> = Shared(sessions: map<Hash, nat>, pending: map<Hash, seq<F>>, channels: seq<Channel<F>>)

  datatype SendResult = Sent | Refused

  // ---------- the operations ----------

  function Queue<F>(channels: seq<Channel<F>>, c: nat, fs: seq<F>): (r: seq<Channel<F>>)
    requires c < |channels|
    ensures |r| == |channels|
  {
    channels[c := channels[c].(frames := channels[c].frames + fs)]
  }

  /** Every session is a channel that was made for its peer. */
  ghost predicate Backed<F>(s: Shared<F>)
  {
    forall h :: h in s.sessions ==> s.sessions[h] < |s.channels| && s.channels[s.sessions[h]].peer == h
  }

  /** `SessionState::send`; also whether it asked for a connection to be made. */
  function SendTo<F>(s: Shared<F>, h: Hash, f: F): (r: (Shared<F>, SendResult, bool))
    requires Backed(s)
  {
    if h in s.sessions then
      if s.channels[s.sessions[h]].closed then (s, Refused, false)
      else (s.(channels := Queue(s.channels, s.sessions[h], [f])), Sent, false)
    else if h in s.pending then (s.(pending := s.pending[h := s.pending[h] + [f]]), Sent, false)
    else (s.(pending := s.pending[h := [f]]), Sent, true)
  }

  function Waiting<F>(s: Shared<F>, h: Hash): (fs: seq<F>)
  {
    if h in s.pending then s.pending[h] else []
  }

  /** `SessionContext::new`: the frames that waited come first. */
  function Open<F>(s: Shared<F>, h: Hash): (r: Shared<F>)
  {
    Shared(s.sessions[h := |s.channels|], s.pending - {h}, s.channels + [Channel(h, Waiting(s, h), false)])
  }

  /** Dropping the context of channel c: the entry of its peer goes, whichever session
      that is by then. */
  function DropContext<F>(s: Shared<F>, c: nat): (r: Shared<F>)
    requires c < |s.channels|
  {
    s.(sessions := s.sessions - {s.channels[c].peer})
  }

  function CloseChannel<F>(s: Shared<F>, c: nat): (r: Shared<F>)
    requires c < |s.channels|
  {
    s.(channels := s.channels[c := s.channels[c].(closed := true)])
  }

  class SessionState<F> {
    var sessions: map<Hash, nat>
    var pendingSessions: map<Hash, seq<F>>
    var channels: seq<Channel<F>>

    constructor ()
      ensures State() == Shared(map[], map[], [])
    {
      sessions, pendingSessions, channels := map[], map[], [];
    }

    ghost function State(): (s: Shared<F>)
      reads this
    {
      Shared(sessions, pendingSessions, channels)
    }

    method Send(h: Hash, frame: F) returns (r: SendResult, connect: bool)
      requires Backed(State())
      modifies this
      ensures (State(), r, connect) == SendTo(old(State()), h, frame)
    {
      connect := false;
      if h in sessions {
        var c := sessions[h];
        if channels[c].closed {
          return Refused, false;
        }
        channels := channels[c := channels[c].(frames := channels[c].frames + [frame])];
      } else {
        var before := pendingSessions;
        if h !in pendingSessions {
          connect := true;
          pendingSessions := pendingSessions[h := []];
        }
        pendingSessions := pendingSessions[h := pendingSessions[h] + [frame]];
        assert [] + [frame] == [frame];
        assert connect ==> pendingSessions == before[h := [frame]];
      }
      r := Sent;
    }

    method NewContext(h: Hash) returns (c: nat)
      modifies this
      ensures State() == Open(old(State()), h) && c == |old(channels)|
    {
      c := |channels|;
      channels := channels + [Channel(h, [], false)];
      if h in pendingSessions {
        var msgs := pendingSessions[h];
        pendingSessions := pendingSessions - {h};
        for i := 0 to |msgs|
          modifies this`channels
          invariant channels == old(channels) + [Channel(h, msgs[..i], false)]
        {
          channels := channels[c := channels[c].(frames := channels[c].frames + [msgs[i]])];
          assert msgs[..i + 1] == msgs[..i] + [msgs[i]];
        }
        assert msgs[..|msgs|] == msgs;
      }
      assert pendingSessions == old(pendingSessions) - {h};
      sessions := sessions[h := c];
    }

    method DropSession(c: nat)
      requires c < |channels|
      modifies this
      ensures State() == DropContext(old(State()), c)
    {
      sessions := sessions - {channels[c].peer};
    }
  }

  // ---------- runs ----------

  /** A frame is sent, a session is set up, the context of session c is dropped, or its
      receiving end is. */
  datatype TableEvent<F> = SendFrame(h: Hash, f: F) | NewSession(peer: Hash) | DropCtx(c: nat) | CloseRx(rx: nat)

  /** The table with what has happened: the frames taken, the connections asked for, the
      sessions that found frames waiting, and the sessions whose contexts are not dropped. */
  datatype Log<F> = Log(
    s: Shared<F>, taken: seq<(Hash, F)>, connects: multiset<Hash>, answered: multiset<Hash>, live: set<nat>)

  function LogStep<F>(l: Log<F>, e: TableEvent<F>): (r: Log<F>)
    requires Backed(l.s)
    ensures Backed(r.s)
  {
    match e
    case SendFrame(h, f) =>
      var (s, k, connect) := SendTo(l.s, h, f);
      Log(s, if k == Sent then l.taken + [(h, f)] else l.taken,
          if connect then l.connects + multiset{h} else l.connects, l.answered, l.live)
    case NewSession(h) =>
      l.(s := Open(l.s, h), answered := if h in l.s.pending then l.answered + multiset{h} else l.answered,
         live := l.live + {|l.s.channels|})
    case DropCtx(c) =>
      if c in l.live && c < |l.s.channels| then l.(s := DropContext(l.s, c), live := l.live - {c}) else l
    case CloseRx(c) => if c < |l.s.channels| then l.(s := CloseChannel(l.s, c)) else l
  }

  function LogRun<F>(events: seq<TableEvent<F>>): (l: Log<F>)
    ensures Backed(l.s)
  {
    if events == [] then Log(Shared(map[], map[], []), [], multiset{}, multiset{}, {})
    else LogStep(LogRun(events[..|events| - 1]), events[|events| - 1])
  }

  /** The frames taken for a peer. */
  function For<F>(h: Hash, taken: seq<(Hash, F)>): (fs: seq<F>)
  {
    if taken == [] then []
    else
      var last := taken[|taken| - 1];
      For(h, taken[..|taken| - 1]) + if last.0 == h then [last.1] else []
  }

  /** The frames on all the channels a peer has had, oldest channel first. */
  function OnChannels<F>(h: Hash, channels: seq<Channel<F>>): (fs: seq<F>)
  {
    if channels == [] then []
    else
      var last := channels[|channels| - 1];
      OnChannels(h, channels[..|channels| - 1]) + if last.peer == h then last.frames else []
  }

  /** A peer's session is its newest channel. */
  ghost predicate Newest<F>(s: Shared<F>)
  {
    forall h, c :: h in s.sessions && s.sessions[h] < c < |s.channels| ==> s.channels[c].peer != h
  }

  /** Each peer has a session or frames waiting, not both; and the connections asked for
      are those answered and at most one more. */
  ghost predicate Connecting<F>(l: Log<F>)
  {
    && (forall h :: h in l.s.sessions ==> h !in l.s.pending)
    && (forall h :: l.connects[h] == l.answered[h] + if h in l.s.pending then 1 else 0)
  }

  /** Every frame taken is on a channel of its peer or waiting, in order. */
  ghost predicate Conserved<F(!new)>(l: Log<F>)
  {
    forall h :: For(h, l.taken) == OnChannels(h, l.s.channels) + Waiting(l.s, h)
  }

  ghost predicate TableOk<F(!new)>(l: Log<F>)
  {
    Backed(l.s) && Newest(l.s) && Connecting(l) && Conserved(l)
  }

  lemma {:induction false} QueueAppends<F>(h: Hash, channels: seq<Channel<F>>, c: nat, f: F)
    requires c < |channels| && forall d :: c < d < |channels| ==> channels[d].peer != channels[c].peer
    ensures OnChannels(h, Queue(channels, c, [f]))
         == OnChannels(h, channels) + if channels[c].peer == h then [f] else []
  {
    var n := |channels| - 1;
    var q := Queue(channels, c, [f]);
    if c == n {
      assert q[..n] == channels[..n];
    } else {
      assert q[..n] == Queue(channels[..n], c, [f]);
      QueueAppends(h, channels[..n], c, f);
    }
  }

  lemma {:induction false} ClosingKeepsFrames<F>(h: Hash, channels: seq<Channel<F>>, c: nat)
    requires c < |channels|
    ensures OnChannels(h, channels[c := channels[c].(closed := true)]) == OnChannels(h, channels)
  {
    var n := |channels| - 1;
    var q := channels[c := channels[c].(closed := true)];
    if c == n {
      assert q[..n] == channels[..n];
    } else {
      assert q[..n] == channels[..n][c := channels[..n][c].(closed := true)];
      ClosingKeepsFrames(h, channels[..n], c);
    }
  }

  lemma SendConserves<F(!new)>(l: Log<F>, h: Hash, f: F)
    requires TableOk(l)
    ensures Conserved(LogStep(l, SendFrame(h, f)))
  {
    hide OnChannels, For;
    var (s, k, connect) := SendTo(l.s, h, f);
    var r := LogStep(l, SendFrame(h, f));
    forall g ensures k == Sent ==> For(g, r.taken) == OnChannels(g, s.channels) + Waiting(s, g) {
      TakenOne(g, l.taken, h, f);
      assert For(g, l.taken) == OnChannels(g, l.s.channels) + Waiting(l.s, g);
      if h in l.s.sessions {
        QueueAppends(g, l.s.channels, l.s.sessions[h], f);
        if g == h { assert Waiting(l.s, h) == []; }
      } else {
        Assoc(OnChannels(g, l.s.channels), Waiting(l.s, g), [f]);
      }
    }
  }

  lemma SendKeeps<F(!new)>(l: Log<F>, h: Hash, f: F)
    requires TableOk(l)
    ensures TableOk(LogStep(l, SendFrame(h, f)))
  {
    hide Conserved;
    SendConserves(l, h, f);
  }

  lemma TakenOne<F>(g: Hash, taken: seq<(Hash, F)>, h: Hash, f: F)
    ensures For(g, taken + [(h, f)]) == For(g, taken) + if g == h then [f] else []
  {
    assert (taken + [(h, f)])[..|taken|] == taken;
  }

  lemma OpenConserves<F(!new)>(l: Log<F>, h: Hash)
    requires Conserved(l)
    ensures Conserved(l.(s := Open(l.s, h)))
  {
    hide For;
    var s := Open(l.s, h);
    forall g ensures For(g, l.taken) == OnChannels(g, s.channels) + Waiting(s, g) {
      assert For(g, l.taken) == OnChannels(g, l.s.channels) + Waiting(l.s, g);
      assert s.channels[..|l.s.channels|] == l.s.channels;
    }
  }

  lemma OpenKeeps<F(!new)>(l: Log<F>, h: Hash)
    requires TableOk(l)
    ensures TableOk(LogStep(l, NewSession(h)))
  {
    hide Conserved;
    OpenConserves(l, h);
    SameFrames(l.(s := Open(l.s, h)), LogStep(l, NewSession(h)));
  }

  lemma SameFrames<F(!new)>(a: Log<F>, b: Log<F>)
    requires Conserved(a) && a.taken == b.taken && a.s.channels == b.s.channels && a.s.pending == b.s.pending
    ensures Conserved(b)
  {
    hide OnChannels, For;
    forall h ensures For(h, b.taken) == OnChannels(h, b.s.channels) + Waiting(b.s, h) {
      assert For(h, a.taken) == OnChannels(h, a.s.channels) + Waiting(a.s, h);
    }
  }

  lemma CloseConserves<F(!new)>(l: Log<F>, c: nat)
    requires Conserved(l) && c < |l.s.channels|
    ensures Conserved(l.(s := CloseChannel(l.s, c)))
  {
    hide OnChannels, For;
    var s := CloseChannel(l.s, c);
    forall h ensures For(h, l.taken) == OnChannels(h, s.channels) + Waiting(s, h) {
      ClosingKeepsFrames(h, l.s.channels, c);
      assert For(h, l.taken) == OnChannels(h, l.s.channels) + Waiting(l.s, h);
    }
  }

  lemma CloseKeeps<F(!new)>(l: Log<F>, c: nat)
    requires TableOk(l) && c < |l.s.channels|
    ensures TableOk(l.(s := CloseChannel(l.s, c)))
  {
    hide Conserved;
    CloseConserves(l, c);
  }

  lemma DropKeeps<F(!new)>(l: Log<F>, c: nat)
    requires TableOk(l) && c < |l.s.channels|
    ensures TableOk(l.(s := DropContext(l.s, c), live := l.live - {c}))
  {
    hide Conserved;
    SameFrames(l, l.(s := DropContext(l.s, c), live := l.live - {c}));
  }

  lemma EmptyTable<F(!new)>()
    ensures TableOk(LogRun<F>([]))
  {}

  lemma {:induction false} TableInvariant<F(!new)>(events: seq<TableEvent<F>>)
    ensures TableOk(LogRun(events))
  {
    hide SendTo, Open, DropContext, CloseChannel, TableOk;
    if events == [] {
      EmptyTable<F>();
    } else {
      var es, e := events[..|events| - 1], events[|events| - 1];
      TableInvariant(es);
      var l := LogRun(es);
      match e
      case SendFrame(h, f) => SendKeeps(l, h, f);
      case NewSession(h) => OpenKeeps(l, h);
      case DropCtx(c) => if c in l.live && c < |l.s.channels| { DropKeeps(l, c); }
      case CloseRx(c) => if c < |l.s.channels| { CloseKeeps(l, c); }
    }
  }

  /** Over every run, for every peer: the frames taken for it are exactly the frames on
      the channels it has had, oldest channel first, followed by those still waiting for
      a session, in order; it never has both a session and frames waiting; and each
      connection asked for was answered by a session that found frames waiting, except
      for at most one still being made. */
  lemma FramesInOrder<F(!new)>(events: seq<TableEvent<F>>, h: Hash)
    ensures var l := LogRun(events);
            && For(h, l.taken) == OnChannels(h, l.s.channels) + Waiting(l.s, h)
            && !(h in l.s.sessions && h in l.s.pending)
            && l.connects[h] == l.answered[h] + if h in l.s.pending then 1 else 0
  {
    hide LogRun, For, OnChannels;
    TableInvariant(events);
  }

  /** After any run a frame is taken, unless the receiving end of its peer's session has
      gone. */
  lemma TakenUnlessClosed<F(!new)>(events: seq<TableEvent<F>>, h: Hash, f: F)
    ensures var l := LogRun(events);
            var closed := h in l.s.sessions && l.s.channels[l.s.sessions[h]].closed;
            var r := LogRun(events + [SendFrame(h, f)]);
            if closed then r == l else For(h, r.taken) == For(h, l.taken) + [f]
  {
    hide For;
    var all := events + [SendFrame(h, f)];
    assert all[..|all| - 1] == events;
    var l := LogRun(events);
    ForAdds(h, l.taken, f);
  }

  lemma ForAdds<F>(h: Hash, taken: seq<(Hash, F)>, f: F)
    ensures For(h, taken + [(h, f)]) == For(h, taken) + [f]
  {
    assert (taken + [(h, f)])[..|taken|] == taken;
  }

  /** Dropping a context leaves every other session in place exactly when the entry of
      its peer is its own or already gone. */
  lemma DropEndsOwnSession<F>(s: Shared<F>, c: nat)
    requires Backed(s) && c < |s.channels|
    ensures var h := s.channels[c].peer;
            (forall g :: g in s.sessions && s.sessions[g] != c ==>
                  g in DropContext(s, c).sessions && DropContext(s, c).sessions[g] == s.sessions[g])
            <==> (h in s.sessions ==> s.sessions[h] == c)
  {
    var h := s.channels[c].peer;
    if h in s.sessions && s.sessions[h] != c {
      assert h !in DropContext(s, c).sessions;
    }
  }

  /** Every session whose context is not dropped is its peer's entry in the table. */
  ghost predicate AllReachable<F>(l: Log<F>)
  {
    forall c: nat :: c in l.live ==>
          c < |l.s.channels| && l.s.channels[c].peer in l.s.sessions && l.s.sessions[l.s.channels[c].peer] == c
  }

  /** A session is set up for a peer that has one already. */
  ghost predicate Doubles<F>(l: Log<F>, e: TableEvent<F>)
  {
    e.NewSession? && exists c: nat :: c in l.live && c < |l.s.channels| && l.s.channels[c].peer == e.peer
  }

  /** One step keeps every live session reachable exactly when it does not double one. */
  lemma ReachableStep<F>(l: Log<F>, e: TableEvent<F>)
    requires Backed(l.s) && AllReachable(l)
    ensures AllReachable(LogStep(l, e)) <==> !Doubles(l, e)
  {
    var r := LogStep(l, e);
    match e
    case NewSession(h) =>
      if Doubles(l, e) {
        var c: nat :| c in l.live && c < |l.s.channels| && l.s.channels[c].peer == h;
        assert c in r.live && r.s.sessions[r.s.channels[c].peer] != c;
      } else {
        forall c: nat | c in r.live
          ensures c < |r.s.channels| && r.s.channels[c].peer in r.s.sessions && r.s.sessions[r.s.channels[c].peer] == c
        {
          if c < |l.s.channels| { assert c in l.live && l.s.channels[c].peer != h; }
        }
      }
    case DropCtx(c) =>
      forall d: nat | d in r.live
        ensures d < |r.s.channels| && r.s.channels[d].peer in r.s.sessions && r.s.sessions[r.s.channels[d].peer] == d
      {
        assert d in l.live;
      }
    case SendFrame(_, _) =>
    case CloseRx(_) =>
  }

  ghost predicate AlwaysReachable<F>(events: seq<TableEvent<F>>)
  {
    forall i :: 0 <= i <= |events| ==> AllReachable(LogRun(events[..i]))
  }

  ghost predicate NeverDoubles<F>(events: seq<TableEvent<F>>)
  {
    forall i :: 0 <= i < |events| ==> !Doubles(LogRun(events[..i]), events[i])
  }

  lemma LastEvent<F>(events: seq<TableEvent<F>>)
    requires events != []
    ensures var es, e := events[..|events| - 1], events[|events| - 1];
            && LogRun(events) == LogStep(LogRun(es), e)
            && (AlwaysReachable(events) <==> AlwaysReachable(es) && AllReachable(LogRun(events)))
            && (NeverDoubles(events) <==> NeverDoubles(es) && !Doubles(LogRun(es), e))
            && (AlwaysReachable(es) ==> AllReachable(LogRun(es)))
  {
    hide LogStep, AllReachable, Doubles;
    var m := |events| - 1;
    var es := events[..m];
    assert es[..m] == es && events[..|events|] == events;
    forall i | 0 <= i <= m ensures es[..i] == events[..i] {}
    if AlwaysReachable(events) {
      forall i | 0 <= i <= m ensures AllReachable(LogRun(es[..i])) { assert es[..i] == events[..i]; }
      assert AllReachable(LogRun(events[..|events|]));
    }
    if NeverDoubles(events) {
      forall i | 0 <= i < m ensures !Doubles(LogRun(es[..i]), es[i]) { assert es[..i] == events[..i]; }
      assert !Doubles(LogRun(events[..m]), events[m]);
    }
  }

  /** Over every run: at every point of it all live sessions are in the table if and only
      if no session was set up for a peer that still had one. */
  lemma {:induction false} ReachableUnlessDoubled<F>(events: seq<TableEvent<F>>)
    ensures AlwaysReachable(events) <==> NeverDoubles(events)
  {
    if events == [] {
      assert events[..0] == [];
      NoneLive<F>();
    } else {
      hide AlwaysReachable, NeverDoubles, LogRun, LogStep, AllReachable, Doubles;
      var es := events[..|events| - 1];
      ReachableUnlessDoubled(es);
      LastEvent(events);
      if AlwaysReachable(es) { ReachableStep(LogRun(es), events[|events| - 1]); }
    }
  }

  lemma NoneLive<F>()
    ensures AllReachable(LogRun<F>([]))
  {}

  /** So when a peer connects twice and the first connection ends, the second, still up,
      is forgotten, and the next frame for the peer asks for a third. */
  lemma NewerSessionForgotten<F(!new)>(h: Hash, f: F)
    ensures var l := LogRun<F>([NewSession(h), NewSession(h), DropCtx(0)]);
            && h !in l.s.sessions && |l.s.channels| == 2 && !l.s.channels[1].closed
            && LogStep(l, SendFrame(h, f)).connects[h] == 1
  {
    var e1: seq<TableEvent<F>> := [NewSession(h)];
    var e2: seq<TableEvent<F>> := [NewSession(h), NewSession(h)];
    var e3: seq<TableEvent<F>> := [NewSession(h), NewSession(h), DropCtx(0)];
    assert e1[..0] == [] && e2[..1] == e1 && e3[..2] == e2;
    var l1, l2, l3 := LogRun(e1), LogRun(e2), LogRun(e3);
    assert l1 == LogStep(LogRun<F>([]), NewSession(h));
    assert l2 == LogStep(l1, NewSession(h));
    assert l3 == LogStep(l2, DropCtx(0));
  }
}
