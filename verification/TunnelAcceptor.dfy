/**
 * Answering tunnel build requests. Each request is handled by a task of its own;
 * the tasks share the duplicate filter and the channel on which new hops reach the
 * participant. Over every interleaving of the tasks: each reply key is acted on at
 * most once, only intermediate hops are registered, and an acceptance is never sent
 * before the hop is registered. Times are in milliseconds.
 */
module TunnelAcceptor {
  import opened Bytes
  import opened Cbc
  import opened TunnelCrypto
  import opened DecayingFilter
  import opened TunnelParticipant
  import Parsing
  import BuildRecord
  import ElGamal
  import opened NumberTheory

  const MAX_REQUEST_AGE: nat := 65 * 60
  const MAX_REQUEST_FUTURE: nat := 5 * 60
  const TUNNEL_ACCEPT: byte := 0
  const TUNNEL_REJECT_CRIT: byte := 50

  /** What a router brings: its ciphers, hash, key and filter hashes. */
  datatype Env = Env(cipher: BlockCipher, sha: Digest, pos: Positions, own: Ident,
      open: seq<byte> -> Option<BuildRecord.Request>)

  /** What is kept to forward a request once it is answered. */
  datatype Info = Info(isObep: bool, next: Ident, sendMsgId: nat, reply: byte, records: seq<seq<byte>>, i: nat,
      replyKey: Key, replyIv: Block)

  /** The states of `HopAcceptor`. */
  datatype State =
    | Decrypt(from: Ident, records: seq<seq<byte>>, i: nat)
    | Resolving(from: Ident, req: BuildRecord.Request, records: seq<seq<byte>>, i: nat)
    | RegisterParticipating(tunnel: NewTunnel, info: Info)
    | Encrypt(info: Info)
    | Finished

  /** A forwarded request, our answer in its record i. */
  datatype Reply = Reply(asReply: bool, to: Ident, msgId: nat, code: byte, records: seq<seq<byte>>)

  /** A task: its state, the request it was given, and what it has done so far: the
      record it passed and when, the next peer it found and when, the hop it registered,
      the reply it sent. */
  datatype Task = Task(
    st: State, from: Ident, records: seq<seq<byte>>, i: nat,
    passed: Option<BuildRecord.Request>, passedAt: nat, next: Option<Ident>, foundAt: nat,
    registered: Option<NewTunnel>, sent: Option<Reply>)

  /** What lets a task make a step: its turn to decrypt, the end of its lookup, room in
      the channel, its turn to encrypt. */
  datatype Wake = ToDecrypt(now: nat) | Found(next: Ident,
      now: nat) | NotFound | Registered | ToEncrypt(padding: seq<byte>, sendable: bool)

  // ---------- the checks ----------

  /** The request time counts hours; the ages are compared in whole seconds. */
  predicate Timely(requestTime: nat, now: nat)
    ensures Timely(requestTime, now) <==>
              now < requestTime * 3_600_000 + (MAX_REQUEST_AGE + 1) * 1000
              && requestTime * 3_600_000 < now + (MAX_REQUEST_FUTURE + 1) * 1000
  {
    var at := requestTime * 3_600_000;
    if at < now then (now - at) / 1000 <= MAX_REQUEST_AGE else (at - now) / 1000 <= MAX_REQUEST_FUTURE
  }

  /** We are not our own next hop, and the previous hop is not the next. */
  predicate NoLoop(own: Ident, from: Ident, req: BuildRecord.Request)
  {
    && (req.hopType.OutboundEndpoint? || req.nextIdent != own)
    && (req.hopType.Intermediate? ==> from != req.nextIdent)
  }

  function ReplyCode(t: BuildRecord.HopType): (code: byte)
  {
    if t.Intermediate? then TUNNEL_ACCEPT else TUNNEL_REJECT_CRIT
  }

  function HopDataFor(from: Ident, req: BuildRecord.Request, next: Ident): (d: HopData)
  {
    match req.hopType
    case InboundGateway => HopData.InboundGateway(next, req.nextTid)
    case Intermediate => HopData.Intermediate(from, next, req.nextTid)
    case OutboundEndpoint => HopData.OutboundEndpoint(from)
  }

  function TunnelFor(env: Env, from: Ident, req: BuildRecord.Request, next: Ident, now: nat): (t: NewTunnel)
  {
    NewTunnel(req.receiveTid,
              HopConfig(HopDataFor(from, req, next), LayerCipher(env.cipher, req.ivKey, req.layerKey),
                        now + TUNNEL_LIFETIME))
  }

  // ---------- one step of a task ----------

  function DecryptStep(env: Env, filter: Filter, st: State, now: nat): (r: (Filter, Option<BuildRecord.Request>, State))
    requires st.Decrypt? && st.i < |st.records|
  {
    match env.open(st.records[st.i])
    case None => (filter, None, Finished)
    case Some(req) =>
      if Contains(env.pos, filter, req.replyKey) then (filter, None, Finished)
      else
        (Fed(env.pos, filter, req.replyKey), Some(req),
         if NoLoop(env.own, st.from, req) && Timely(req.requestTime, now) then Resolving(st.from, req, st.records, st.i)
         else Finished)
  }

  function ResolveStep(env: Env, st: State, next: Ident, now: nat): (r: State)
    requires st.Resolving?
  {
    var reply := ReplyCode(st.req.hopType);
    var info := Info(st.req.hopType.OutboundEndpoint?, next, st.req.sendMsgId, reply, st.records, st.i,
                     st.req.replyKey, st.req.replyIv);
    if reply == TUNNEL_ACCEPT then RegisterParticipating(TunnelFor(env, st.from, st.req, next, now), info)
    else Encrypt(info)
  }

  function HopOf(info: Info, padding: seq<byte>): (h: Hop)
  {
    Hop(info.i, info.reply, padding, info.replyKey, info.replyIv)
  }

  ghost predicate CanEncrypt(env: Env, info: Info, padding: seq<byte>)
  {
    RecordsOk(info.records) && info.i < |info.records| && TunnelCrypto.HopOk(env.sha, HopOf(info, padding))
  }

  /** The request as it is forwarded: as a reply from the outbound endpoint, otherwise
      as a request still. */
  ghost function ReplyOf(env: Env, info: Info, padding: seq<byte>): (r: Reply)
    requires CanEncrypt(env, info, padding)
  {
    Reply(info.isObep, info.next, info.sendMsgId, info.reply, Processed(env.cipher, env.sha, HopOf(info, padding),
                                                            info.records))
  }

  /** A task not in a state to use what it is woken with stays as it is. */
  ghost function TaskStep(env: Env, filter: Filter, t: Task, w: Wake): (r: (Filter, Task))
  {
    match (t.st, w)
    case (Decrypt(_, records, i), ToDecrypt(now)) =>
      if i >= |records| then (filter, t)
      else
        var (f, passed, st) := DecryptStep(env, filter, t.st, now);
        (f, t.(passed := passed, passedAt := now, st := st))
    case (Resolving(_, _, _, _), Found(next, now)) => (filter, t.(next := Some(next), foundAt := now,
                                                            st := ResolveStep(env, t.st, next, now)))
    case (Resolving(_, _, _, _), NotFound) => (filter, t.(st := Finished))
    case (RegisterParticipating(tunnel, info), Registered) => (filter, t.(registered := Some(tunnel),
                                                            st := Encrypt(info)))
    case (Encrypt(info), ToEncrypt(padding, sendable)) =>
      if !CanEncrypt(env, info, padding) then (filter, t)
      else (filter, t.(sent := if sendable then Some(ReplyOf(env, info, padding)) else None, st := Finished))
    case _ => (filter, t)
  }

  class HopAcceptor {
    var state: State
    const env: Env
    const filter: DecayingBloomFilter
    const channel: Channel

    constructor (env: Env, filter: DecayingBloomFilter, channel: Channel, from: Ident, records: seq<seq<byte>>, i: nat)
      ensures state == Decrypt(from, records, i) && this.env == env && this.filter == filter && this.channel == channel
    {
      state, this.env, this.filter, this.channel := Decrypt(from, records, i), env, filter, channel;
    }

    /** The Decrypt state, under the filter's lock. */
    method DecryptRecord(now: nat)
      requires state.Decrypt? && state.i < |state.records| && filter.pos == env.pos
      modifies this, filter
      ensures filter.Value() == DecryptStep(env, old(filter.Value()), old(state), now).0
      ensures state == DecryptStep(env, old(filter.Value()), old(state), now).2
    {
      match env.open(state.records[state.i]) {
        case None => state := Finished;
        case Some(req) =>
          var present := filter.Feed(req.replyKey);
          if present {
            state := Finished;
            return;
          }
          if !req.hopType.OutboundEndpoint? && req.nextIdent == env.own {
            state := Finished;
            return;
          }
          if req.hopType.Intermediate? && state.from == req.nextIdent {
            state := Finished;
            return;
          }
          var at := req.requestTime * 3_600_000;
          if at < now && (now - at) / 1000 > MAX_REQUEST_AGE {
            state := Finished;
            return;
          }
          if at >= now && (at - now) / 1000 > MAX_REQUEST_FUTURE {
            state := Finished;
            return;
          }
          state := Resolving(state.from, req, state.records, state.i);
      }
    }

    /** The Resolving state, its lookup done. */
    method Resolve(next: Ident, now: nat)
      requires state.Resolving?
      modifies this
      ensures state == ResolveStep(env, old(state), next, now)
    {
      var req := state.req;
      var reply := match req.hopType case Intermediate => TUNNEL_ACCEPT case _ => TUNNEL_REJECT_CRIT;
      var info := Info(req.hopType == BuildRecord.OutboundEndpoint, next, req.sendMsgId, reply, state.records, state.i,
                       req.replyKey, req.replyIv);
      if reply == TUNNEL_ACCEPT {
        var layer := LayerCipher(env.cipher, req.ivKey, req.layerKey);
        var config := HopConfig(HopDataFor(state.from, req, next), layer, now + TUNNEL_LIFETIME);
        state := RegisterParticipating(NewTunnel(req.receiveTid, config), info);
      } else {
        state := Encrypt(info);
      }
    }

    /** The RegisterParticipating state, once the channel has room. */
    method Register()
      requires state.RegisterParticipating?
      modifies this, channel
      ensures state == Encrypt(old(state.info)) && channel.tunnels == old(channel.tunnels) + [old(state.tunnel)]
    {
      channel.tunnels := channel.tunnels + [state.tunnel];
      state := Encrypt(state.info);
    }

    /** The Encrypt state. */
    method EncryptRecords(padding: seq<byte>) returns (r: Reply)
      requires state.Encrypt? && CanEncrypt(env, state.info, padding)
      modifies this
      ensures r == ReplyOf(env, old(state.info), padding) && state == Finished
    {
      var info := state.info;
      var tb := new seq<byte>[|info.records|](j requires 0 <= j < |info.records| => info.records[j]);
      assert tb[..] == info.records;
      ProcessRecords(env.cipher, env.sha, HopOf(info, padding), tb);
      r := Reply(info.isObep, info.next, info.sendMsgId, info.reply, tb[..]);
      state := Finished;
    }
  }

  class Channel {
    var tunnels: seq<NewTunnel>

    constructor ()
      ensures tunnels == []
    {
      tunnels := [];
    }
  }

  // ---------- all tasks ----------

  /** The shared filter, the tasks, and the order in which tasks registered hops. */
  datatype System = System(filter: Filter, tasks: seq<Task>, channel: seq<nat>)

  /** A build request with a record for us arrives, or a task is woken. */
  datatype BuildEvent = Arrive(from: Ident, records: seq<seq<byte>>, i: nat) | WakeTask(k: nat, w: Wake)

  ghost function BuildStep(env: Env, s: System, e: BuildEvent): (r: System)
  {
    match e
    case Arrive(from, records, i) =>
      s.(tasks := s.tasks + [Task(Decrypt(from, records, i), from, records, i, None, 0, None, 0, None, None)])
    case WakeTask(k, w) =>
      if k >= |s.tasks| then s
      else
        var (f, t) := TaskStep(env, s.filter, s.tasks[k], w);
        System(f, s.tasks[k := t], if t.registered != s.tasks[k].registered then s.channel + [k] else s.channel)
  }

  ghost function BuildRun(env: Env, events: seq<BuildEvent>): (s: System)
  {
    if events == [] then System(Filter({}, {}), [], [])
    else BuildStep(env, BuildRun(env, events[..|events| - 1]), events[|events| - 1])
  }

  // ---------- one task ----------

  ghost predicate InfoOk(t: Task, info: Info)
  {
    && t.passed.Some? && t.next.Some? && t.sent.None?
    && var req := t.passed.value;
       info == Info(req.hopType.OutboundEndpoint?, t.next.value, req.sendMsgId, ReplyCode(req.hopType), t.records, t.i,
                    req.replyKey, req.replyIv)
  }

  /** A hop as a task may register it: for a request in the time window and for an
      intermediate hop, between the peer the request came from and the next peer found,
      the next peer named being neither us nor the one before, with the keys the request
      gave, and for one lifetime from when the next peer was found. */
  ghost predicate TunnelOk(env: Env, t: Task, n: NewTunnel)
  {
    && t.passed.Some? && t.next.Some?
    && var req := t.passed.value;
       && Timely(req.requestTime, t.passedAt) && req.hopType.Intermediate?
       && t.from != req.nextIdent && req.nextIdent != env.own
       && n.tid == req.receiveTid
       && n.config.hopData == HopData.Intermediate(t.from, t.next.value, req.nextTid)
       && n.config.layer == LayerCipher(env.cipher, req.ivKey, req.layerKey)
       && n.config.expires == t.foundAt + 600_000
  }

  /** A reply as a task may send it: to the next peer, with our answer written and every
      record encrypted under the reply key; an acceptance only for an intermediate hop
      and only once it is registered. */
  ghost predicate SentOk(env: Env, t: Task, r: Reply)
  {
    && t.passed.Some? && t.next.Some?
    && var req := t.passed.value;
       && r.to == t.next.value && r.msgId == req.sendMsgId
       && (r.asReply <==> req.hopType.OutboundEndpoint?)
       && r.code == (if req.hopType.Intermediate? then 0 else 50)
       && (r.code == 0 ==> t.registered.Some?)
       && exists padding: seq<byte> :: Answered(env, t, r, padding)
  }

  ghost predicate Answered(env: Env, t: Task, r: Reply, padding: seq<byte>)
    requires t.passed.Some?
  {
    var h := Hop(t.i, r.code, padding, t.passed.value.replyKey, t.passed.value.replyIv);
    && RecordsOk(t.records) && t.i < |t.records| && TunnelCrypto.HopOk(env.sha, h)
    && r.records == Processed(env.cipher, env.sha, h, t.records)
  }

  ghost predicate TaskOk(env: Env, t: Task)
  {
    && (t.passed.Some? ==> t.i < |t.records| && env.open(t.records[t.i]) == t.passed)
    && (t.registered.Some? ==> TunnelOk(env, t, t.registered.value))
    && (t.sent.Some? ==> SentOk(env, t, t.sent.value))
    && match t.st
       case Decrypt(from, records, i) =>
         from == t.from && records == t.records && i == t.i && t.passed.None? && t.registered.None? && t.sent.None?
       case Resolving(from, req, records, i) =>
         && from == t.from && records == t.records && i == t.i && t.passed == Some(req) && t.registered.None?
         && t.sent.None?
         && NoLoop(env.own, from, req) && Timely(req.requestTime, t.passedAt)
       case RegisterParticipating(tunnel, info) =>
         InfoOk(t, info) && info.reply == TUNNEL_ACCEPT && t.registered.None? && TunnelOk(env, t, tunnel)
       case Encrypt(info) => InfoOk(t, info) && (t.registered.Some? <==> info.reply == TUNNEL_ACCEPT)
       case Finished => true
  }

  lemma EncryptAnswers(env: Env, t: Task, info: Info, padding: seq<byte>)
    requires InfoOk(t, info) && CanEncrypt(env, info, padding) && (t.registered.Some? <==> info.reply == TUNNEL_ACCEPT)
    ensures SentOk(env, t.(sent := Some(ReplyOf(env, info, padding)), st := Finished), ReplyOf(env, info, padding))
  {
    hide Processed, TunnelCrypto.HopOk;
    var r := ReplyOf(env, info, padding);
    assert Answered(env, t.(sent := Some(r), st := Finished), r, padding);
  }

  /** Whoever holds the reply key gets back from a reply every other record as it was and,
      in ours, the answer. */
  lemma ReplyReads(env: Env, t: Task, r: Reply, j: nat)
    requires SentOk(env, t, r) && env.cipher.Valid() && j < |t.records|
    ensures |r.records| == |t.records| && |r.records[j]| == 528
    ensures var d := Cbc.Decrypt(env.cipher, t.passed.value.replyKey, t.passed.value.replyIv, r.records[j]);
            if j == t.i then ParseResponse(env.sha, d) == Parsing.Done(r.code, []) else d == t.records[j]
  {
    hide Cbc.Encrypt, Cbc.Decrypt, BlockCipher.Valid, TunnelCrypto.HopOk, ParseResponse;
    var padding: seq<byte> :| Answered(env, t, r, padding);
    var h := Hop(t.i, r.code, padding, t.passed.value.replyKey, t.passed.value.replyIv);
    ResponseParses(env.sha, h);
    DecryptEncrypt(env.cipher, h.replyKey, h.replyIv, if j == t.i then ResponseRecord(env.sha, h) else t.records[j]);
  }

  /** A step keeps all that; it lets a request pass only if its key was not in the
      filter, and then the key is; it changes the registration only to make it. */
  lemma TaskKeeps(env: Env, filter: Filter, t: Task, w: Wake)
    requires TaskOk(env, t)
    ensures var (f, r) := TaskStep(env, filter, t, w);
            && TaskOk(env, r)
            && filter.current <= f.current && f.previous == filter.previous
            && (t.passed.Some? ==> r.passed == t.passed)
            && (r.passed.Some? && t.passed.None? ==>
                  !Contains(env.pos, filter, r.passed.value.replyKey) && env.pos(r.passed.value.replyKey) <= f.current)
            && (t.registered.Some? ==> r.registered == t.registered)
  {
    hide Timely, Contains, ReplyOf, CanEncrypt, Answered, RecordsOk;
    match t.st
    case Decrypt(from, records, i) =>
      if w.ToDecrypt? && i < |records| { DecryptPasses(env, filter, t.st, w.now); }
    case Encrypt(info) =>
      if w.ToEncrypt? && CanEncrypt(env, info, w.padding) { EncryptAnswers(env, t, info, w.padding); }
    case _ =>
  }

  lemma DecryptPasses(env: Env, filter: Filter, st: State, now: nat)
    requires st.Decrypt? && st.i < |st.records|
    ensures var (f, passed, st') := DecryptStep(env, filter, st, now);
            && filter.current <= f.current && f.previous == filter.previous
            && (passed.Some? ==> env.open(st.records[st.i]) == passed)
            && (passed.Some? ==>
                  !Contains(env.pos, filter, passed.value.replyKey) && env.pos(passed.value.replyKey) <= f.current)
            && (st'.Resolving? ==>
                  && st' == Resolving(st.from, st'.req, st.records, st.i) && passed == Some(st'.req)
                  && NoLoop(env.own, st'.from, st'.req) && Timely(st'.req.requestTime, now))
            && (st'.Resolving? || st'.Finished?)
            && (st'.Resolving? <==>
                  var o := env.open(st.records[st.i]);
                  && o.Some? && !Contains(env.pos, filter, o.value.replyKey)
                  && NoLoop(env.own, st.from, o.value) && Timely(o.value.requestTime, now))
  {
    hide Timely;
  }

  /** A task taken through all its steps: decrypted, its next peer found, room made in the
      channel, and encrypted. */
  ghost function Finish(env: Env, filter: Filter, t: Task, now: nat, next: Ident, foundAt: nat,
      padding: seq<byte>): (r: Task)
  {
    var (f1, t1) := TaskStep(env, filter, t, ToDecrypt(now));
    var (f2, t2) := TaskStep(env, f1, t1, Found(next, foundAt));
    var (f3, t3) := TaskStep(env, f2, t2, Registered);
    TaskStep(env, f3, t3, ToEncrypt(padding, true)).1
  }

  ghost predicate Arrived(t: Task)
  {
    t == Task(Decrypt(t.from, t.records, t.i), t.from, t.records, t.i, None, 0, None, 0, None, None)
  }

  /** A fresh, timely and loop-free request is answered, and registered exactly if it is
      for an intermediate hop. */
  lemma RequestIsAnswered(env: Env, filter: Filter, t: Task, req: BuildRecord.Request, now: nat, next: Ident,
      foundAt: nat, padding: seq<byte>)
    requires Arrived(t) && RecordsOk(t.records) && t.i < |t.records| && env.open(t.records[t.i]) == Some(req)
    requires !Contains(env.pos, filter, req.replyKey) && NoLoop(env.own, t.from, req) && Timely(req.requestTime, now)
    requires |padding| == 495 && forall m :: |env.sha(m)| == 32
    ensures var r := Finish(env, filter, t, now, next, foundAt, padding);
            && r.passed == Some(req) && r.sent.Some? && SentOk(env, r, r.sent.value)
            && (r.registered.Some? <==> req.hopType.Intermediate?)
  {
    hide Timely, Contains, NoLoop, ReplyOf, SentOk, Fed;
    DecryptPasses(env, filter, t.st, now);
    var (f1, t1) := TaskStep(env, filter, t, ToDecrypt(now));
    var (f2, t2) := TaskStep(env, f1, t1, Found(next, foundAt));
    var (f3, t3) := TaskStep(env, f2, t2, Registered);
    EncryptAnswers(env, t3, t3.st.info, padding);
  }

  /** So is every such request that was sealed to this router's key: from the asker's
      sealing to the router's answer. */
  lemma SealedRequestIsAnswered(
    env: Env, filter: Filter, t: Task, now: nat, next: Ident, foundAt: nat, padding: seq<byte>,
    grp: ElGamal.Group, sha: ElGamal.Digest, priv: seq<byte>, pub: seq<byte>, lead: byte, k: nat,
    req: BuildRecord.Request, pad: seq<byte>)
    requires grp.Valid() && ElGamal.IsDigest(sha) && FromBE(priv) <= grp.p - 1 && lead != 0
    requires FromBE(pub) == ModPow(grp.g, FromBE(priv), grp.p) && BuildRecord.RequestOk(req) && |pad| == 29
    requires Arrived(t) && RecordsOk(t.records) && t.i < |t.records|
    requires BuildRecord.Sealed(grp, sha, FromBE(pub), lead, k, req, pad) == Some(t.records[t.i])
    requires var o := BuildRecord.Open(grp, sha, FromBE(priv), t.records[t.i]);
             env.open(t.records[t.i]) == if o.Ok? then Some(o.r) else None
    requires !Contains(env.pos, filter, req.replyKey) && NoLoop(env.own, t.from, req) && Timely(req.requestTime, now)
    requires |padding| == 495 && forall m :: |env.sha(m)| == 32
    ensures var r := Finish(env, filter, t, now, next, foundAt, padding);
            && r.passed == Some(req) && r.sent.Some? && SentOk(env, r, r.sent.value)
            && (r.registered.Some? <==> req.hopType.Intermediate?)
  {
    hide Finish, SentOk, Contains, NoLoop, Timely, ModPow, FromBE, BuildRecord.Sealed, BuildRecord.Open,
         ElGamal.Group.Valid;
    BuildRecord.SealedOpens(grp, sha, priv, pub, lead, k, req, pad);
    RequestIsAnswered(env, filter, t, req, now, next, foundAt, padding);
  }

  // ---------- every interleaving ----------

  /** The channel names exactly the tasks that have registered a hop, each once. */
  ghost predicate ChannelOk(s: System)
  {
    && (forall k: nat :: k in s.channel <==> k < |s.tasks| && s.tasks[k].registered.Some?)
    && (forall i, j :: 0 <= i < j < |s.channel| ==> s.channel[i] != s.channel[j])
  }

  ghost predicate SystemOk(env: Env, s: System)
  {
    && ChannelOk(s)
    && (forall k :: 0 <= k < |s.tasks| ==> TaskOk(env, s.tasks[k]))
    && (forall k :: 0 <= k < |s.tasks| && s.tasks[k].passed.Some? ==>
          env.pos(s.tasks[k].passed.value.replyKey) <= s.filter.current)
    && (forall k, l :: 0 <= k < l < |s.tasks| && s.tasks[k].passed.Some? && s.tasks[l].passed.Some?
                       ==> s.tasks[k].passed.value.replyKey != s.tasks[l].passed.value.replyKey)
  }

  lemma ArriveKeeps(env: Env, s: System, e: BuildEvent)
    requires SystemOk(env, s) && e.Arrive?
    ensures SystemOk(env, BuildStep(env, s, e))
  {
    hide TunnelOk, SentOk, InfoOk, TaskStep;
    var r := BuildStep(env, s, e);
    assert forall k :: 0 <= k < |s.tasks| ==> r.tasks[k] == s.tasks[k];
    assert TaskOk(env, r.tasks[|s.tasks|]);
  }

  lemma WakeKeeps(env: Env, s: System, k: nat, w: Wake)
    requires SystemOk(env, s) && k < |s.tasks|
    ensures SystemOk(env, BuildStep(env, s, WakeTask(k, w)))
  {
    hide TaskStep, TaskOk, Contains;
    TaskKeeps(env, s.filter, s.tasks[k], w);
    var (f, t) := TaskStep(env, s.filter, s.tasks[k], w);
    var r := BuildStep(env, s, WakeTask(k, w));
    if t.passed.Some? && s.tasks[k].passed.None? {
      forall l | 0 <= l < |s.tasks| && l != k && s.tasks[l].passed.Some?
        ensures s.tasks[l].passed.value.replyKey != t.passed.value.replyKey
      {
        InLayer(env.pos, s.filter, s.tasks[l].passed.value.replyKey);
      }
    }
  }

  lemma InLayer(pos: Positions, f: Filter, x: seq<byte>)
    requires pos(x) <= f.current
    ensures Contains(pos, f, x)
  {}

  lemma {:induction false} BuildInvariant(env: Env, events: seq<BuildEvent>)
    ensures SystemOk(env, BuildRun(env, events))
  {
    hide TaskStep, TaskOk;
    if events != [] {
      var es, e := events[..|events| - 1], events[|events| - 1];
      BuildInvariant(env, es);
      var s := BuildRun(env, es);
      match e
      case Arrive(_, _, _) => ArriveKeeps(env, s, e);
      case WakeTask(k, w) => if k < |s.tasks| { WakeKeeps(env, s, k, w); }
    }
  }

  /** Over every interleaving of requests and task steps, whatever the filter's hashes:
      no two tasks act on the same reply key; a task acts only on what its record
      decrypts to; every hop registered, and every reply sent, is as `TunnelOk` and
      `SentOk` say, and no task registers twice; in particular an acceptance is sent only
      for an intermediate hop that has been registered. */
  lemma AcceptancesAreRegistered(env: Env, events: seq<BuildEvent>)
    ensures var s := BuildRun(env, events);
            && (forall k, l :: 0 <= k < l < |s.tasks| && s.tasks[k].passed.Some? && s.tasks[l].passed.Some?
                               ==> s.tasks[k].passed.value.replyKey != s.tasks[l].passed.value.replyKey)
            && ChannelOk(s)
            && (forall k :: 0 <= k < |s.tasks| && s.tasks[k].passed.Some? ==>
                  s.tasks[k].i < |s.tasks[k].records|
                  && env.open(s.tasks[k].records[s.tasks[k].i]) == s.tasks[k].passed)
            && (forall k :: 0 <= k < |s.tasks| && s.tasks[k].registered.Some? ==>
                  TunnelOk(env, s.tasks[k], s.tasks[k].registered.value))
            && (forall k :: 0 <= k < |s.tasks| && s.tasks[k].sent.Some? ==>
                  SentOk(env, s.tasks[k], s.tasks[k].sent.value))
  {
    hide BuildRun, TunnelOk, SentOk, InfoOk, NoLoop, Timely;
    BuildInvariant(env, events);
    var s := BuildRun(env, events);
    assert forall k :: 0 <= k < |s.tasks| ==> TaskOk(env, s.tasks[k]);
  }

  ghost predicate ByTask(s: System, n: NewTunnel)
  {
    exists k :: 0 <= k < |s.tasks| && s.tasks[k].registered == Some(n)
  }

  /** A participant given only hops that tasks have registered never reaches its
      unimplemented cases. */
  lemma ParticipantNeverPanics(env: Env, builds: seq<BuildEvent>, start: nat, polls: seq<PollEvent>)
    requires InOrder(start, polls)
    requires forall i :: 0 <= i < |TraceRun(env.pos, start, polls).news| ==>
                           ByTask(BuildRun(env, builds), TraceRun(env.pos, start, polls).news[i])
    ensures !TraceRun(env.pos, start, polls).panicked
  {
    hide BuildRun, TraceRun, InOrder, Vetted, AllPrompt;
    OnlyVettedForwards(env.pos, start, polls);
    AcceptancesAreRegistered(env, builds);
    var t, s := TraceRun(env.pos, start, polls), BuildRun(env, builds);
    forall i | 0 <= i < |t.news| ensures t.news[i].config.hopData.Intermediate? {
      assert ByTask(s, t.news[i]);
      var k :| 0 <= k < |s.tasks| && s.tasks[k].registered == Some(t.news[i]);
      assert TunnelOk(env, s.tasks[k], s.tasks[k].registered.value);
    }
  }
}
