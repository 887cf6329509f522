/**
 * An NTCP2 session: blocks queued for a peer are packed into frames under back
 * pressure from the connection, and the messages in received frames are handed on
 * one at a time. Nothing is lost, repeated or reordered on either side.
 */
module Ntcp2Session {
  import opened Bytes
  import opened I2np
  import opened Ntcp2Frame
  import opened Ntcp2Codec

  const BLOCKS_PER_FRAME: nat := 10

  /** How the connection answers an attempt to send a frame. */
  datatype Answer = Accept | Refuse | Break

  /** The answers the connection will give, by the number of the attempt and the frame,
      and whether its flushes succeed, by their number. */
  datatype Script = Script(offer: (nat, seq<Block>) -> Answer, flush: nat -> bool)

  datatype Sink = Ready | NotReady(block: Block) | Error

  /** The outgoing half of a session and the frames its connection has taken. */
  datatype Out = Out(cached: seq<Block>, attempts: nat, flushes: nat, sent: seq<seq<Block>>)

  /** `OutboundSession::start_send`. */
  function Sending(script: Script, o: Out, b: Block): (r: (Out, Sink))
  {
    var q := o.cached + [b];
    if |q| < BLOCKS_PER_FRAME then (o.(cached := q), Ready)
    else
      var next := o.(attempts := o.attempts + 1);
      match script.offer(o.attempts, q[..BLOCKS_PER_FRAME])
      case Accept => (next.(cached := q[BLOCKS_PER_FRAME..], sent := o.sent + [q[..BLOCKS_PER_FRAME]]), Ready)
      case Refuse => (next.(cached := q[..|q| - 1]), NotReady(q[|q| - 1]))
      case Break => (next.(cached := q[BLOCKS_PER_FRAME..]), Error)
  }

  /** `OutboundSession::poll_complete`; false on an error. A refusal ends it before the
      connection is flushed. */
  function Completing(script: Script, o: Out): (r: (Out, bool))
  {
    if o.cached == [] then (o.(flushes := o.flushes + 1), script.flush(o.flushes))
    else
      var next := o.(attempts := o.attempts + 1);
      match script.offer(o.attempts, o.cached)
      case Accept =>
        (next.(cached := [], sent := o.sent + [o.cached], flushes := o.flushes + 1), script.flush(o.flushes))
      case Refuse => (next, true)
      case Break => (next.(cached := []), false)
  }

  class OutboundSession {
    const script: Script
    var cachedBlocks: seq<Block>
    var attempts: nat
    var flushes: nat
    var sent: seq<seq<Block>>

    constructor (script: Script)
      ensures this.script == script && State() == Out([], 0, 0, [])
    {
      this.script, cachedBlocks, attempts, flushes, sent := script, [], 0, 0, [];
    }

    ghost function State(): (o: Out)
      reads this
    {
      Out(cachedBlocks, attempts, flushes, sent)
    }

    /** The connection's own `start_send`. */
    method Offer(frame: seq<Block>) returns (a: Answer)
      modifies this`attempts, this`sent
      ensures a == script.offer(old(attempts), frame) && attempts == old(attempts) + 1
      ensures sent == if a == Accept then old(sent) + [frame] else old(sent)
    {
      a := script.offer(attempts, frame);
      attempts := attempts + 1;
      if a == Accept { sent := sent + [frame]; }
    }

    method StartSend(b: Block) returns (r: Sink)
      modifies this
      ensures (State(), r) == Sending(script, old(State()), b)
    {
      cachedBlocks := cachedBlocks + [b];
      ghost var q := cachedBlocks;
      if |cachedBlocks| < BLOCKS_PER_FRAME {
        return Ready;
      }
      var frame := cachedBlocks[..BLOCKS_PER_FRAME];
      cachedBlocks := cachedBlocks[BLOCKS_PER_FRAME..];
      var a := Offer(frame);
      match a {
        case Accept => return Ready;
        case Break => return Error;
        case Refuse =>
          var i := |frame|;
          while i > 0
            modifies this`cachedBlocks
            invariant 0 <= i <= |frame|
            invariant cachedBlocks == q[i..]
          {
            i := i - 1;
            cachedBlocks := [frame[i]] + cachedBlocks;
          }
          assert cachedBlocks == q;
          var last := cachedBlocks[|cachedBlocks| - 1];
          cachedBlocks := cachedBlocks[..|cachedBlocks| - 1];
          return NotReady(last);
      }
    }

    method PollComplete() returns (ok: bool)
      modifies this
      ensures (State(), ok) == Completing(script, old(State()))
    {
      if cachedBlocks != [] {
        var frame := cachedBlocks;
        cachedBlocks := [];
        var a := Offer(frame);
        match a {
          case Accept =>
          case Break => return false;
          case Refuse =>
            cachedBlocks := cachedBlocks + frame;
            assert cachedBlocks == frame;
            return true;
        }
      }
      ok := script.flush(flushes);
      flushes := flushes + 1;
    }
  }

  // ---------- the sending half of the session ----------

  /** The outgoing half, the block it refused, the blocks queued for it, and whether
      the session has ended on an error. */
  datatype Sess = Sess(out: Out, cachedOb: Option<Block>, queue: seq<Block>, broken: bool)

  /** One block offered to the outgoing half. */
  function Offered(script: Script, s: Sess, b: Block): (r: Sess)
  {
    var (o, k) := Sending(script, s.out, b);
    match k
    case Ready => s.(out := o)
    case NotReady(back) => s.(out := o, cachedOb := Some(back))
    case Error => s.(out := o, broken := true)
  }

  /** The write loop: blocks are taken from the queue until one is refused. */
  function Drained(script: Script, s: Sess): (r: Sess)
    decreases |s.queue|
  {
    if s.cachedOb.Some? || s.broken || s.queue == [] then s
    else Drained(script, Offered(script, s.(queue := s.queue[1..]), s.queue[0]))
  }

  /** The writing part of `Session::poll`. */
  function PollWrites(script: Script, s: Sess): (r: Sess)
  {
    var s1 := if s.cachedOb.Some? then Offered(script, s.(cachedOb := None), s.cachedOb.value) else s;
    var s2 := Drained(script, s1);
    if s2.broken then s2
    else
      var (o, ok) := Completing(script, s2.out);
      s2.(out := o, broken := !ok)
  }

  class Session {
    const ob: OutboundSession
    var cachedObBlock: Option<Block>
    var outbound: seq<Block>

    constructor (ob: OutboundSession)
      ensures this.ob == ob && cachedObBlock == None && outbound == []
    {
      this.ob, cachedObBlock, outbound := ob, None, [];
    }

    ghost function State(): (s: Sess)
      reads this, ob
    {
      Sess(ob.State(), cachedObBlock, outbound, false)
    }

    /** The writing part of `Session::poll`; false on an error, which ends the session. */
    method Poll() returns (ok: bool)
      modifies this, ob
      ensures State().(broken := !ok) == PollWrites(ob.script, old(State()))
    {
      hide Sending, Completing;
      var writeReady := true;
      if cachedObBlock.Some? {
        var block := cachedObBlock.value;
        cachedObBlock := None;
        var k := ob.StartSend(block);
        match k {
          case Ready =>
          case Error => return false;
          case NotReady(back) =>
            cachedObBlock := Some(back);
            writeReady := false;
        }
      }
      ghost var s1 := State();
      while writeReady && outbound != []
        invariant writeReady <==> cachedObBlock.None?
        invariant Drained(ob.script, State()) == Drained(ob.script, s1)
        decreases |outbound|
      {
        var block := outbound[0];
        outbound := outbound[1..];
        var k := ob.StartSend(block);
        match k {
          case Ready =>
          case Error => return false;
          case NotReady(back) =>
            cachedObBlock := Some(back);
            writeReady := false;
        }
      }
      ok := ob.PollComplete();
    }
  }

  // ---------- nothing is lost on the way out ----------

  datatype SendEvent = Push(block: Block) | PollSession

  function SendStep(script: Script, s: Sess, e: SendEvent): (r: Sess)
  {
    match e
    case Push(b) => s.(queue := s.queue + [b])
    case PollSession => if s.broken then s else PollWrites(script, s)
  }

  function SendRun(script: Script, events: seq<SendEvent>): (s: Sess)
  {
    if events == [] then Sess(Out([], 0, 0, []), None, [], false)
    else SendStep(script, SendRun(script, events[..|events| - 1]), events[|events| - 1])
  }

  function Pushed(events: seq<SendEvent>): (bs: seq<Block>)
  {
    if events == [] then []
    else
      var e := events[|events| - 1];
      Pushed(events[..|events| - 1]) + if e.Push? then [e.block] else []
  }

  function Flatten<T>(xs: seq<seq<T>>): (r: seq<T>)
  {
    if xs == [] then [] else Flatten(xs[..|xs| - 1]) + xs[|xs| - 1]
  }

  lemma FlattenAdd<T>(xs: seq<seq<T>>, x: seq<T>)
    ensures Flatten(xs + [x]) == Flatten(xs) + x
  {
    assert (xs + [x])[..|xs|] == xs;
  }

  function Held(x: Option<Block>): (bs: seq<Block>) { if x.Some? then [x.value] else [] }

  /** Everything not yet sent, in the order it will be sent. */
  function Waiting(s: Sess): (bs: seq<Block>)
  {
    s.out.cached + Held(s.cachedOb) + s.queue
  }

  /** Frames sent have one to ten blocks, and at most nine wait to fill one. */
  ghost predicate Packed(s: Sess)
  {
    && (forall i :: 0 <= i < |s.out.sent| ==> 1 <= |s.out.sent[i]| <= BLOCKS_PER_FRAME)
    && |s.out.cached| < BLOCKS_PER_FRAME
  }

  /** The blocks accounted for are all the blocks there were. */
  ghost predicate Accounted(s: Sess, all: seq<Block>)
  {
    && Flatten(s.out.sent) <= all
    && (!s.broken ==> Flatten(s.out.sent) + Waiting(s) == all)
  }

  /** From some attempt on, the connection refuses nothing, or accepts everything. */
  ghost predicate NoRefusal(script: Script, from: nat)
  {
    forall n: nat, f: seq<Block> :: n >= from ==> script.offer(n, f) != Refuse
  }

  ghost predicate AcceptsFrom(script: Script, from: nat)
  {
    forall n: nat, f: seq<Block> :: n >= from ==> script.offer(n, f) == Accept
  }

  /** The connection breaks over no run of up to ten blocks of those given, nor over a
      flush. */
  ghost predicate Spares(script: Script, all: seq<Block>)
  {
    && (forall n: nat, i: nat, j: nat :: i <= j <= |all| && j <= i + BLOCKS_PER_FRAME ==>
          script.offer(n, all[i..j]) != Break)
    && (forall n: nat :: script.flush(n))
  }

  lemma Window(a: seq<Block>, b: seq<Block>, c: seq<Block>, all: seq<Block>)
    requires a + (b + c) == all
    ensures |a| + |b| <= |all| && all[|a|..|a| + |b|] == b
  {}

  /** A full frame is taken, refused, or lost with the session. */
  lemma FullFrame(script: Script, s: Sess, b: Block)
    requires |s.out.cached| == BLOCKS_PER_FRAME - 1
    ensures var q, r := s.out.cached + [b], Offered(script, s, b);
            && r.out.attempts == s.out.attempts + 1 && r.out.flushes == s.out.flushes
            && match script.offer(s.out.attempts, q)
               case Accept => r.out.cached == [] && r.out.sent == s.out.sent + [q] && r == s.(out := r.out)
               case Refuse =>
                 r.out.cached == s.out.cached && r.out.sent == s.out.sent && r == s.(out := r.out, cachedOb := Some(b))
               case Break =>
                 r.out.cached == [] && r.out.sent == s.out.sent && r == s.(out := r.out, broken := true)
  {
    var q := s.out.cached + [b];
    assert q[..BLOCKS_PER_FRAME] == q && q[BLOCKS_PER_FRAME..] == [] && q[..|q| - 1] == s.out.cached;
  }

  lemma OfferedKeeps(script: Script, s: Sess, b: Block, all: seq<Block>)
    requires Packed(s) && !s.broken && s.cachedOb.None?
    requires Flatten(s.out.sent) + (s.out.cached + [b] + s.queue) == all
    ensures Packed(Offered(script, s, b)) && Accounted(Offered(script, s, b), all)
    ensures Offered(script, s, b).queue == s.queue
    ensures Offered(script, s, b).out.attempts >= s.out.attempts && Offered(script, s, b).out.flushes == s.out.flushes
    ensures NoRefusal(script, s.out.attempts) ==> Offered(script, s, b).cachedOb.None?
    ensures AcceptsFrom(script, s.out.attempts) || Spares(script, all) ==> !Offered(script, s, b).broken
  {
    hide Flatten;
    var q, r := s.out.cached + [b], Offered(script, s, b);
    Assoc(Flatten(s.out.sent), q, s.queue);
    if |q| < BLOCKS_PER_FRAME {
      assert Waiting(r) == q + s.queue;
    } else {
      hide Offered;
      FullFrame(script, s, b);
      FlattenAdd(s.out.sent, q);
      Window(Flatten(s.out.sent), q, s.queue, all);
      var a := script.offer(s.out.attempts, q);
      assert a == Accept ==> Waiting(r) == s.queue;
      assert a == Refuse ==> Waiting(r) == q + s.queue;
    }
  }

  lemma {:induction false} DrainedKeeps(script: Script, s: Sess, all: seq<Block>)
    requires Packed(s) && Accounted(s, all)
    ensures Packed(Drained(script, s)) && Accounted(Drained(script, s), all)
    ensures Drained(script, s).out.attempts >= s.out.attempts && Drained(script, s).out.flushes == s.out.flushes
    ensures NoRefusal(script, s.out.attempts) && s.cachedOb.None? ==>
              var r := Drained(script, s); r.cachedOb.None? && (r.broken || r.queue == [])
    ensures (AcceptsFrom(script, s.out.attempts) || Spares(script, all)) && !s.broken ==> !Drained(script, s).broken
    decreases |s.queue|
  {
    hide Offered, Accounted, Packed, Spares;
    if !(s.cachedOb.Some? || s.broken || s.queue == []) {
      var next := s.(queue := s.queue[1..]);
      assert Packed(next) && Flatten(next.out.sent) + (next.out.cached + [s.queue[0]] + next.queue) == all by {
        TakeOne(s, all);
      }
      OfferedKeeps(script, next, s.queue[0], all);
      DrainedKeeps(script, Offered(script, next, s.queue[0]), all);
    }
  }

  lemma TakeOne(s: Sess, all: seq<Block>)
    requires Packed(s) && Accounted(s, all) && !s.broken && s.cachedOb.None? && s.queue != []
    ensures Packed(s.(queue := s.queue[1..]))
    ensures Flatten(s.out.sent) + (s.out.cached + [s.queue[0]] + s.queue[1..]) == all
  {
    assert s.queue == [s.queue[0]] + s.queue[1..];
    assert Waiting(s) == s.out.cached + [s.queue[0]] + s.queue[1..];
  }

  lemma CompleteKeeps(script: Script, s: Sess, all: seq<Block>)
    requires Packed(s) && Accounted(s, all) && !s.broken
    ensures var (o, ok) := Completing(script, s.out);
            && Packed(s.(out := o, broken := !ok)) && Accounted(s.(out := o, broken := !ok), all)
            && (NoRefusal(script, s.out.attempts) && ok ==> o.cached == [])
            && (AcceptsFrom(script, s.out.attempts) ==> o.cached == [] && ok == script.flush(s.out.flushes))
            && (AcceptsFrom(script, s.out.attempts) ==> Flatten(o.sent) == Flatten(s.out.sent) + s.out.cached)
            && (Spares(script, all) ==> ok)
  {
    hide Flatten;
    var (o, ok) := Completing(script, s.out);
    var r := s.(out := o, broken := !ok);
    var done, tail := Flatten(s.out.sent), Held(s.cachedOb) + s.queue;
    FlattenAdd(s.out.sent, s.out.cached);
    assert Waiting(s) == s.out.cached + tail;
    Window(done, s.out.cached, tail, all);
    Assoc(done, s.out.cached, tail);
    if o.cached == [] { assert Waiting(r) == tail; }
    if s.out.cached == [] { assert done + s.out.cached == done; }
  }

  lemma PollKeeps(script: Script, s: Sess, all: seq<Block>)
    requires Packed(s) && Accounted(s, all) && !s.broken
    ensures Packed(PollWrites(script, s)) && Accounted(PollWrites(script, s), all)
    ensures NoRefusal(script, s.out.attempts) ==>
              var r := PollWrites(script, s); r.broken || (Waiting(r) == [] && Flatten(r.out.sent) == all)
    ensures AcceptsFrom(script, s.out.attempts) ==>
              var r := PollWrites(script, s); Flatten(r.out.sent) == all && r.broken == !script.flush(s.out.flushes)
    ensures Spares(script, all) ==> !PollWrites(script, s).broken
  {
    hide Offered, Packed, Drained, Flatten, Spares;
    var s1 := if s.cachedOb.Some? then Offered(script, s.(cachedOb := None), s.cachedOb.value) else s;
    if s.cachedOb.Some? {
      assert Waiting(s) == s.out.cached + [s.cachedOb.value] + s.queue;
      assert Packed(s.(cachedOb := None)) by { HeldIrrelevant(s); }
      OfferedKeeps(script, s.(cachedOb := None), s.cachedOb.value, all);
    }
    DrainedKeeps(script, s1, all);
    var s2 := Drained(script, s1);
    if !s2.broken {
      CompleteKeeps(script, s2, all);
    }
  }

  lemma HeldIrrelevant(s: Sess)
    requires Packed(s)
    ensures Packed(s.(cachedOb := None))
  {}

  lemma {:induction false} SendInvariant(script: Script, events: seq<SendEvent>)
    ensures Packed(SendRun(script, events)) && Accounted(SendRun(script, events), Pushed(events))
  {
    if events != [] {
      var es, e := events[..|events| - 1], events[|events| - 1];
      SendInvariant(script, es);
      var s := SendRun(script, es);
      match e
      case Push(b) =>
        assert Waiting(s.(queue := s.queue + [b])) == Waiting(s) + [b];
        assert Flatten(s.out.sent) + Waiting(s) + [b] == Flatten(s.out.sent) + (Waiting(s) + [b]);
      case PollSession =>
        hide PollWrites, Packed, Accounted;
        assert Pushed(es) + [] == Pushed(es);
        if !s.broken { PollKeeps(script, s, Pushed(es)); }
    }
  }

  /** However the connection answers and however pushes and polls interleave: the
      blocks in the frames sent are, in order, the first blocks pushed; until an error
      ends the session the rest are all still held; every frame has one to ten blocks.
      Once the connection accepts, whatever it refused before, one poll sends everything
      and only a failed flush can end the session. */
  lemma BlocksInOrder(script: Script, events: seq<SendEvent>)
    ensures var s := SendRun(script, events);
            && Flatten(s.out.sent) <= Pushed(events)
            && (!s.broken ==> Flatten(s.out.sent) + Waiting(s) == Pushed(events))
            && (forall i :: 0 <= i < |s.out.sent| ==> 1 <= |s.out.sent[i]| <= 10)
            && (AcceptsFrom(script, s.out.attempts) && !s.broken ==>
                  var r := SendStep(script, s, PollSession);
                  Flatten(r.out.sent) == Pushed(events) && r.broken == !script.flush(s.out.flushes))
  {
    hide SendRun, Pushed, PollWrites, Waiting, Flatten, AcceptsFrom, Spares;
    SendInvariant(script, events);
    var s := SendRun(script, events);
    if !s.broken { PollKeeps(script, s, Pushed(events)); }
  }

  // ---------- when frames are too large ----------

  /** The bytes of a block and of a frame; padding counts by its size. */
  function BlockSize(sum: Checksum, b: Block): (n: nat)
  {
    3 + if b.Padding? then b.size else |Contents(sum, b, [])|
  }

  function FrameSize(sum: Checksum, bs: seq<Block>): (n: nat)
  {
    if bs == [] then 0 else BlockSize(sum, bs[0]) + FrameSize(sum, bs[1..])
  }

  lemma {:induction false} FrameSizeIsLength(sum: Checksum, bs: seq<Block>, pads: seq<seq<byte>>)
    requires |bs| == |pads| && forall i :: 0 <= i < |bs| && bs[i].Padding? ==> |pads[i]| == bs[i].size
    ensures |BlocksBytes(sum, bs, pads)| == FrameSize(sum, bs)
  {
    hide Ntcp2MessageBytes, ToBE;
    if bs != [] { FrameSizeIsLength(sum, bs[1..], pads[1..]); }
  }

  /** A frame of given blocks is sealed exactly when it has at most 65519 bytes, whatever
      the padding drawn: what a connection over this codec breaks at. */
  lemma SealedBySize(sum: Checksum, t: Transport, mask: Masker, tx: Tx, p: Packet)
    requires |p.blocks| == |p.pads|
    requires forall i :: 0 <= i < |p.blocks| && p.blocks[i].Padding? ==> |p.pads[i]| == p.blocks[i].size
    ensures EncodeStep(sum, t, mask, tx, p).2 == Sealed <==> FrameSize(sum, p.blocks) <= 65519
  {
    hide BlocksBytes, FrameSize;
    FrameSizeIsLength(sum, p.blocks, p.pads);
  }

  /** A connection that breaks over exactly the frames that cannot be sealed. */
  ghost predicate BreaksBySize(sum: Checksum, script: Script)
  {
    && (forall n: nat, f: seq<Block> :: script.offer(n, f) == Break <==> FrameSize(sum, f) > 65519)
    && (forall n: nat :: script.flush(n))
  }

  /** Any ten or fewer blocks in a row make a frame that can be sealed. */
  ghost predicate AllPackable(sum: Checksum, bs: seq<Block>)
  {
    forall i: nat, j: nat :: i <= j <= |bs| && j <= i + BLOCKS_PER_FRAME ==> FrameSize(sum, bs[i..j]) <= 65519
  }

  lemma SparesPrefix(script: Script, a: seq<Block>, b: seq<Block>)
    requires Spares(script, a + b)
    ensures Spares(script, a)
  {
    forall n: nat, i: nat, j: nat | i <= j <= |a| && j <= i + BLOCKS_PER_FRAME
      ensures script.offer(n, a[i..j]) != Break
    {
      assert (a + b)[i..j] == a[i..j];
    }
  }

  lemma {:induction false} SparedNeverBreaks(script: Script, events: seq<SendEvent>)
    requires Spares(script, Pushed(events))
    ensures !SendRun(script, events).broken
  {
    hide Spares, PollWrites, Packed, Accounted;
    if events != [] {
      var es, e := events[..|events| - 1], events[|events| - 1];
      SparesPrefix(script, Pushed(es), if e.Push? then [e.block] else []);
      SparedNeverBreaks(script, es);
      SendInvariant(script, es);
      if e.PollSession? { PollKeeps(script, SendRun(script, es), Pushed(es)); }
    }
  }

  function PushAll(bs: seq<Block>): (es: seq<SendEvent>)
    ensures |es| == |bs|
  {
    if bs == [] then [] else PushAll(bs[..|bs| - 1]) + [Push(bs[|bs| - 1])]
  }

  lemma RunPush(script: Script, es: seq<SendEvent>, b: Block)
    ensures SendRun(script, es + [Push(b)]) == SendRun(script, es).(queue := SendRun(script, es).queue + [b])
    ensures Pushed(es + [Push(b)]) == Pushed(es) + [b]
  {
    assert (es + [Push(b)])[..|es|] == es;
  }

  lemma {:induction false} PushedAll(script: Script, es: seq<SendEvent>, bs: seq<Block>)
    ensures Pushed(es + PushAll(bs)) == Pushed(es) + bs
    ensures SendRun(script, es + PushAll(bs)) == SendRun(script, es).(queue := SendRun(script, es).queue + bs)
    decreases |bs|
  {
    hide SendRun, Pushed;
    if bs == [] {
      assert es + PushAll(bs) == es;
    } else {
      var front, last := bs[..|bs| - 1], bs[|bs| - 1];
      PushedAll(script, es, front);
      RunPush(script, es + PushAll(front), last);
      Assoc(es, PushAll(front), [Push(last)]);
      Assoc(Pushed(es), front, [last]);
      Assoc(SendRun(script, es).queue, front, [last]);
      assert front + [last] == bs;
    }
  }

  /** With nothing else in the way, up to ten blocks that cannot be sealed together are
      offered together. */
  lemma {:induction false} DrainGathers(script: Script, s: Sess, window: seq<Block>)
    requires s.out.cached + s.queue == window && |window| <= BLOCKS_PER_FRAME && |s.out.cached| < BLOCKS_PER_FRAME
    requires s.cachedOb.None? && !s.broken && forall n: nat :: script.offer(n, window) == Break
    ensures var r := Drained(script, s);
            r.broken || (r.out.cached == window && r.queue == [] && r.cachedOb.None?)
    decreases |s.queue|
  {
    hide Offered;
    if s.queue != [] {
      var next := s.(queue := s.queue[1..]);
      var b := s.queue[0];
      assert s.queue == [b] + s.queue[1..];
      assert window == (s.out.cached + [b]) + s.queue[1..];
      if |s.out.cached| == BLOCKS_PER_FRAME - 1 {
        assert s.out.cached + [b] == window;
        FullFrame(script, next, b);
      } else {
        AddsOne(script, next, b);
        DrainGathers(script, Offered(script, next, b), window);
      }
    }
  }

  lemma AddsOne(script: Script, s: Sess, b: Block)
    requires |s.out.cached| < BLOCKS_PER_FRAME - 1
    ensures Offered(script, s, b) == s.(out := s.out.(cached := s.out.cached + [b]))
  {}

  lemma RunPoll(script: Script, es: seq<SendEvent>)
    ensures SendRun(script, es + [PollSession]) == SendStep(script, SendRun(script, es), PollSession)
    ensures Pushed(es + [PollSession]) == Pushed(es)
  {
    assert (es + [PollSession])[..|es|] == es;
    assert Pushed(es) + [] == Pushed(es);
  }

  /** The session has ended or holds nothing. */
  predicate EndedOrIdle(s: Sess)
  {
    s.broken || (s.out.cached == [] && s.cachedOb.None? && s.queue == [])
  }

  lemma PollEmpties(script: Script, es: seq<SendEvent>)
    requires NoRefusal(script, SendRun(script, es).out.attempts)
    ensures EndedOrIdle(SendRun(script, es + [PollSession]))
  {
    hide SendRun, Pushed, PollWrites, Packed, Accounted, Flatten, AcceptsFrom, Spares;
    RunPoll(script, es);
    SendInvariant(script, es);
    var s := SendRun(script, es);
    if !s.broken { PollKeeps(script, s, Pushed(es)); }
  }

  /** The write loop stops at an error, at a refusal, which leaves blocks cached, or with
      the queue empty. */
  lemma {:induction false} DrainedStops(script: Script, s: Sess)
    requires |s.out.cached| < BLOCKS_PER_FRAME && (s.cachedOb.Some? ==> s.out.cached != [])
    ensures var r := Drained(script, s);
            && r.out.attempts >= s.out.attempts
            && (r.broken || r.queue == [] || r.cachedOb.Some?)
            && (r.cachedOb.Some? ==> r.out.cached != [])
    decreases |s.queue|
  {
    hide Offered;
    if !(s.cachedOb.Some? || s.broken || s.queue == []) {
      var next, b := s.(queue := s.queue[1..]), s.queue[0];
      OfferedStops(script, next, b);
      DrainedStops(script, Offered(script, next, b));
    }
  }

  lemma OfferedStops(script: Script, s: Sess, b: Block)
    requires |s.out.cached| < BLOCKS_PER_FRAME && s.cachedOb.None?
    ensures var r := Offered(script, s, b);
            && r.out.attempts >= s.out.attempts && r.queue == s.queue && |r.out.cached| < BLOCKS_PER_FRAME
            && (r.cachedOb.Some? ==> r.out.cached != [])
  {
    if |s.out.cached| == BLOCKS_PER_FRAME - 1 { FullFrame(script, s, b); }
  }

  /** A poll ends the session, leaves it idle, or has made an attempt. */
  lemma PollAttempts(script: Script, s: Sess)
    requires !s.broken && |s.out.cached| < BLOCKS_PER_FRAME
    ensures var r := PollWrites(script, s); EndedOrIdle(r) || r.out.attempts > s.out.attempts
  {
    hide Offered, Drained;
    if s.cachedOb.Some? { OfferedStops(script, s.(cachedOb := None), s.cachedOb.value); }
    var s1 := if s.cachedOb.Some? then Offered(script, s.(cachedOb := None), s.cachedOb.value) else s;
    DrainedStops(script, s1);
  }

  /** Polled often enough, a session whose connection does not refuse for ever ends or
      comes to rest. */
  lemma {:induction false} EventuallyIdle(script: Script, es: seq<SendEvent>, from: nat) returns (more: seq<SendEvent>)
    requires NoRefusal(script, from)
    ensures EndedOrIdle(SendRun(script, es + more)) && Pushed(es + more) == Pushed(es)
    decreases from - SendRun(script, es).out.attempts
  {
    hide SendRun, Pushed, PollWrites, EndedOrIdle, Accounted;
    var s := SendRun(script, es);
    RunPoll(script, es);
    if EndedOrIdle(s) {
      more := [];
      assert es + more == es;
    } else if s.out.attempts >= from {
      PollEmpties(script, es);
      more := [PollSession];
    } else {
      SendInvariant(script, es);
      assert !s.broken by { NotEnded(s); }
      PollAttempts(script, s);
      var next := es + [PollSession];
      if EndedOrIdle(SendRun(script, next)) {
        more := [PollSession];
      } else {
        var later := EventuallyIdle(script, next, from);
        more := [PollSession] + later;
        Assoc(es, [PollSession], later);
      }
    }
  }

  lemma NotEnded(s: Sess)
    requires !EndedOrIdle(s)
    ensures !s.broken
  {}

  lemma WindowBreaks(script: Script, es: seq<SendEvent>, window: seq<Block>)
    requires EndedOrIdle(SendRun(script, es))
    requires 1 <= |window| <= BLOCKS_PER_FRAME && forall n: nat :: script.offer(n, window) == Break
    ensures SendRun(script, es + PushAll(window) + [PollSession]).broken
  {
    hide SendRun, Pushed, PollWrites, PushAll;
    PushedAll(script, es, window);
    RunPoll(script, es + PushAll(window));
    var s := SendRun(script, es + PushAll(window));
    if !s.broken {
      assert [] + window == window;
      GatheredBreaks(script, s, window);
    }
  }

  lemma OversizeBreaks(sum: Checksum, script: Script, from: nat, before: seq<Block>, window: seq<Block>)
    returns (es: seq<SendEvent>)
    requires BreaksBySize(sum, script) && NoRefusal(script, from)
    requires 1 <= |window| <= BLOCKS_PER_FRAME && FrameSize(sum, window) > 65519
    ensures Pushed(es) == before + window && SendRun(script, es).broken
  {
    hide FrameSize, SendRun, Pushed, PushAll, EndedOrIdle, NoRefusal;
    var e1 := PushAll(before);
    PushedAll(script, [], before);
    assert [] + e1 == e1;
    assert Pushed([]) + before == before by { NonePushed(before); }
    var more := EventuallyIdle(script, e1, from);
    var e2 := e1 + more;
    PushedAll(script, e2, window);
    RunPoll(script, e2 + PushAll(window));
    WindowBreaks(script, e2, window);
    es := e2 + PushAll(window) + [PollSession];
  }

  lemma NonePushed(bs: seq<Block>)
    ensures Pushed([]) + bs == bs
  {}

  lemma GatheredBreaks(script: Script, s: Sess, window: seq<Block>)
    requires s.out.cached == [] && s.cachedOb.None? && s.queue == window && !s.broken
    requires 1 <= |window| <= BLOCKS_PER_FRAME && forall n: nat :: script.offer(n, window) == Break
    ensures PollWrites(script, s).broken
  {
    hide Drained;
    assert s.out.cached + s.queue == window;
    DrainGathers(script, s, window);
  }

  /** A connection that breaks only over frames that cannot be sealed. */
  ghost predicate BreaksOnlyBySize(sum: Checksum, script: Script)
  {
    && (forall n: nat, f: seq<Block> :: script.offer(n, f) == Break ==> FrameSize(sum, f) > 65519)
    && (forall n: nat :: script.flush(n))
  }

  /** What a caller can rely on, under any back pressure: if any ten or fewer blocks in a
      row of those pushed have at most 65519 bytes, packing them never ends the session. */
  lemma PackableNeverEnds(sum: Checksum, script: Script, es: seq<SendEvent>)
    requires BreaksOnlyBySize(sum, script) && AllPackable(sum, Pushed(es))
    ensures !SendRun(script, es).broken
  {
    hide FrameSize, SendRun, Pushed;
    SparedNeverBreaks(script, es);
  }

  /** And no more than that: over a connection that breaks at frames that cannot be sealed
      and does not refuse for ever, for given blocks there is a way to push and poll that
      ends the session if and only if some ten or fewer of them in a row have more than
      65519 bytes. */
  lemma PackingEndsSession(sum: Checksum, script: Script, from: nat, bs: seq<Block>)
    requires BreaksBySize(sum, script) && NoRefusal(script, from)
    ensures (exists es :: Pushed(es) == bs && SendRun(script, es).broken) <==> !AllPackable(sum, bs)
  {
    hide FrameSize, SendRun, Pushed;
    if AllPackable(sum, bs) {
      forall es: seq<SendEvent> | Pushed(es) == bs ensures !SendRun(script, es).broken {
        PackableNeverEnds(sum, script, es);
      }
    } else {
      var i: nat, j: nat :| i <= j <= |bs| && j <= i + BLOCKS_PER_FRAME && FrameSize(sum, bs[i..j]) > 65519;
      Provoked(sum, script, from, bs, i, j);
    }
  }

  lemma Provoked(sum: Checksum, script: Script, from: nat, bs: seq<Block>, i: nat, j: nat)
    requires BreaksBySize(sum, script) && NoRefusal(script, from)
    requires i <= j <= |bs| && j <= i + BLOCKS_PER_FRAME && FrameSize(sum, bs[i..j]) > 65519
    ensures exists es :: Pushed(es) == bs && SendRun(script, es).broken
  {
    hide SendRun, Pushed, PushAll, NoRefusal;
    var es := OversizeBreaks(sum, script, from, bs[..i], bs[i..j]);
    var rest := PushAll(bs[j..]);
    PushedAll(script, es, bs[j..]);
    assert bs[..i] + bs[i..j] + bs[j..] == bs;
    assert Pushed(es + rest) == bs && SendRun(script, es + rest).broken;
  }

  /** An ordinary message of 40000 bytes. */
  function LongMessage(): (b: Block)
  {
    I2npMessage(Message(1, 0, Data(seq(40000, _ => 0))))
  }

  lemma LongMessageSizes(sum: Checksum)
    ensures FrameSize(sum, [LongMessage()]) == 40016 && FrameSize(sum, [LongMessage(), LongMessage()]) == 80032
  {
    hide ToBE;
    var b := LongMessage();
    assert [b][1..] == [] && [b, b][1..] == [b];
    assert BlockSize(sum, b) == 40016;
  }

  /** Two such messages: each can be sealed alone, and together they can end a session. */
  lemma TwoLongMessagesEndIt(sum: Checksum, script: Script, from: nat)
    requires BreaksBySize(sum, script) && NoRefusal(script, from)
    ensures FrameSize(sum, [LongMessage()]) <= 65519
    ensures exists es :: Pushed(es) == [LongMessage(), LongMessage()] && SendRun(script, es).broken
  {
    hide FrameSize, SendRun, Pushed, LongMessage, NoRefusal;
    var bs := [LongMessage(), LongMessage()];
    LongMessageSizes(sum);
    assert bs[0..2] == bs;
    Provoked(sum, script, from, bs, 0, 2);
  }

  // ---------- the receiving half ----------

  /** What a peer's block makes the router handle. */
  datatype Handed = FromPeer(msg: Message) | StoreInfo(info: seq<byte>)

  /** `InboundSession::handle_block`, for a peer of the given hash: messages pass, a
      router info passes if it is the peer's own, other blocks are dropped. */
  function HandleBlock(hashOf: seq<byte> -> seq<byte>, peer: seq<byte>, b: Block): (r: Option<Handed>)
  {
    match b
    case RouterInfo(info, _) => if hashOf(info) != peer then None else Some(StoreInfo(info))
    case I2npMessage(m) => Some(FromPeer(m))
    case _ => None
  }

  function HandledBlocks(hashOf: seq<byte> -> seq<byte>, peer: seq<byte>, bs: seq<Block>): (r: seq<Handed>)
  {
    if bs == [] then []
    else
      var h := HandleBlock(hashOf, peer, bs[|bs| - 1]);
      HandledBlocks(hashOf, peer, bs[..|bs| - 1]) + if h.Some? then [h.value] else []
  }

  lemma {:induction false} HandledConcat(hashOf: seq<byte> -> seq<byte>, peer: seq<byte>, a: seq<Block>, b: seq<Block>)
    ensures HandledBlocks(hashOf, peer, a + b) == HandledBlocks(hashOf, peer, a) + HandledBlocks(hashOf, peer, b)
  {
    if b == [] {
      assert a + b == a;
    } else {
      HandledConcat(hashOf, peer, a, b[..|b| - 1]);
      assert (a + b)[..|a + b| - 1] == a + b[..|b| - 1];
      var h := HandleBlock(hashOf, peer, b[|b| - 1]);
      var more := if h.Some? then [h.value] else [];
      Assoc(HandledBlocks(hashOf, peer, a), HandledBlocks(hashOf, peer, b[..|b| - 1]), more);
    }
  }

  /** What the router is handed for block i, in its place among the others: a message
      always, a router info if it is the peer's, and nothing else. */
  lemma BlockHanded(hashOf: seq<byte> -> seq<byte>, peer: seq<byte>, bs: seq<Block>, i: nat)
    requires i < |bs|
    ensures var now := if bs[i].I2npMessage? then [FromPeer(bs[i].msg)]
                       else if bs[i].RouterInfo? && hashOf(bs[i].info) == peer then [StoreInfo(bs[i].info)] else [];
            HandledBlocks(hashOf, peer, bs)
              == HandledBlocks(hashOf, peer, bs[..i]) + (now + HandledBlocks(hashOf, peer, bs[i + 1..]))
  {
    assert bs == bs[..i] + ([bs[i]] + bs[i + 1..]);
    HandledConcat(hashOf, peer, bs[..i], [bs[i]] + bs[i + 1..]);
    HandledConcat(hashOf, peer, [bs[i]], bs[i + 1..]);
    assert [bs[i]][..0] == [];
  }

  class InboundSession {
    const hashOf: seq<byte> -> seq<byte>
    const peer: seq<byte>
    var cachedMsgs: seq<Handed>
    var frames: seq<seq<Block>>

    constructor (hashOf: seq<byte> -> seq<byte>, peer: seq<byte>)
      ensures this.hashOf == hashOf && this.peer == peer && cachedMsgs == [] && frames == []
    {
      this.hashOf, this.peer, cachedMsgs, frames := hashOf, peer, [], [];
    }

    /** What this half has still to hand on. */
    ghost function Pending(): (r: seq<Handed>)
      reads this
    {
      cachedMsgs + HandledBlocks(hashOf, peer, Flatten(frames))
    }

    /** The loop over the blocks of a frame. */
    method HandleFrame(frame: seq<Block>) returns (msgs: seq<Handed>)
      ensures msgs == HandledBlocks(hashOf, peer, frame)
    {
      msgs := [];
      for i := 0 to |frame|
        invariant msgs == HandledBlocks(hashOf, peer, frame[..i])
      {
        assert frame[..i + 1][..i] == frame[..i];
        var h := HandleBlock(hashOf, peer, frame[i]);
        if h.Some? { msgs := msgs + [h.value]; }
      }
      assert frame[..|frame|] == frame;
    }

    /** `InboundSession::poll` over the frames that have been decoded: the next message
        in order, and none exactly when no block waiting carries one. */
    method Poll() returns (r: Option<Handed>)
      modifies this
      ensures r.None? ==> old(Pending()) == [] && Pending() == []
      ensures r.Some? ==> old(Pending()) == [r.value] + Pending()
    {
      while cachedMsgs == [] && frames != []
        invariant Pending() == old(Pending())
        decreases |frames|
      {
        FirstOut(hashOf, peer, frames);
        cachedMsgs := HandleFrame(frames[0]);
        frames := frames[1..];
      }
      if cachedMsgs == [] {
        return None;
      }
      var msg := cachedMsgs[0];
      cachedMsgs := cachedMsgs[1..];
      return Some(msg);
    }
  }

  lemma {:induction false} FlattenConcat<T>(a: seq<seq<T>>, b: seq<seq<T>>)
    ensures Flatten(a + b) == Flatten(a) + Flatten(b)
  {
    if b == [] {
      assert a + b == a;
    } else {
      var front, last := b[..|b| - 1], b[|b| - 1];
      FlattenConcat(a, front);
      assert a + b == (a + front) + [last] && b == front + [last];
      hide Flatten;
      FlattenAdd(a + front, last);
      FlattenAdd(front, last);
      Assoc(Flatten(a), Flatten(front), last);
    }
  }

  lemma FirstOut(hashOf: seq<byte> -> seq<byte>, peer: seq<byte>, frames: seq<seq<Block>>)
    requires frames != []
    ensures HandledBlocks(hashOf, peer, Flatten(frames))
         == HandledBlocks(hashOf, peer, frames[0]) + HandledBlocks(hashOf, peer, Flatten(frames[1..]))
  {
    assert frames == [frames[0]] + frames[1..];
    FlattenConcat([frames[0]], frames[1..]);
    assert [frames[0]][..0] == [];
    assert Flatten([frames[0]]) == [] + frames[0] == frames[0];
    HandledConcat(hashOf, peer, frames[0], Flatten(frames[1..]));
  }

  // ---------- from queue to router ----------

  function PacketBlocks(ps: seq<Packet>): (fs: seq<seq<Block>>)
    ensures |fs| == |ps| && forall i :: 0 <= i < |ps| ==> fs[i] == ps[i].blocks
  {
    seq(|ps|, i requires 0 <= i < |ps| => ps[i].blocks)
  }

  lemma {:induction false} FlattenReceived(ps: seq<Packet>)
    ensures Flatten(Frames(ps)) == AllReceived(Flatten(PacketBlocks(ps)))
  {
    if ps != [] {
      var front, last := ps[..|ps| - 1], ps[|ps| - 1];
      FlattenReceived(front);
      assert Frames(ps)[..|ps| - 1] == Frames(front);
      assert PacketBlocks(ps)[..|ps| - 1] == PacketBlocks(front);
      var a, b := Flatten(PacketBlocks(front)), last.blocks;
      assert AllReceived(a + b) == AllReceived(a) + AllReceived(b);
    }
  }

  /** From one router's queue to the other's distributor: whatever the back pressure at
      the sender, the padding, the fragmentation on the way and the pace of polling at
      the receiver, the messages in the frames delivered so far are, in order, a prefix
      of those in the blocks pushed; and all of them once nothing waits, nothing is in
      flight and a poll finds nothing. */
  lemma MessagesInOrder(sum: Checksum, script: Script, pushes: seq<SendEvent>, t: Transport, mask: Masker, iv: nat,
                        events: seq<LinkEvent>, hashOf: seq<byte> -> seq<byte>, peer: seq<byte>)
    requires t.Valid() && EventsOk(sum, events)
    requires PacketBlocks(Packets(events)) == SendRun(script, pushes).out.sent
    ensures HandledBlocks(hashOf, peer, Flatten(LinkRun(sum, t, mask, iv, events).got))
         <= HandledBlocks(hashOf, peer, AllReceived(Pushed(pushes)))
    ensures var o, l := SendRun(script, pushes), LinkRun(sum, t, mask, iv, events);
            var polled := LinkStep(sum, t, mask, l, Poll);
            !o.broken && Waiting(o) == [] && l.flight == [] && polled.last == NoFrame ==>
              HandledBlocks(hashOf, peer, Flatten(polled.got))
              == HandledBlocks(hashOf, peer, AllReceived(Pushed(pushes)))
  {
    hide HandledBlocks, Flatten, LinkRun, SendRun, Pushed, Packets, Transport.Valid, EventsOk, LinkStep, SendStep,
         Waiting, Frames, AllReceived;
    LinkDelivers(sum, t, mask, iv, events);
    BlocksInOrder(script, pushes);
    var ps, got := Packets(events), LinkRun(sum, t, mask, iv, events).got;
    FlattenReceived(ps);
    FlattenPrefix(got, Frames(ps));
    ReceivedPrefix(Flatten(PacketBlocks(ps)), Pushed(pushes));
    HandledPrefix(hashOf, peer, Flatten(got), AllReceived(Pushed(pushes)));
    var o := SendRun(script, pushes);
    if !o.broken && Waiting(o) == [] { assert Flatten(o.out.sent) + [] == Flatten(o.out.sent); }
  }

  lemma FlattenPrefix<T>(a: seq<seq<T>>, b: seq<seq<T>>)
    requires a <= b
    ensures Flatten(a) <= Flatten(b)
  {
    assert b == a + b[|a|..];
    FlattenConcat(a, b[|a|..]);
  }

  lemma ReceivedPrefix(a: seq<Block>, b: seq<Block>)
    requires a <= b
    ensures AllReceived(a) <= AllReceived(b)
  {
    forall i | 0 <= i < |a| ensures AllReceived(a)[i] == AllReceived(b)[i] {
      assert a[i] == b[i];
    }
  }

  lemma HandledPrefix(hashOf: seq<byte> -> seq<byte>, peer: seq<byte>, a: seq<Block>, b: seq<Block>)
    requires a <= b
    ensures HandledBlocks(hashOf, peer, a) <= HandledBlocks(hashOf, peer, b)
  {
    assert b == a + b[|a|..];
    HandledConcat(hashOf, peer, a, b[|a|..]);
  }
}
