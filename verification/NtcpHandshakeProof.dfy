/**
 * Agreement and safety of the NTCP handshake over all runs: an invariant of
 * every reachable state, one lemma per step that keeps it, and what follows.
 */
module NtcpHandshakeProof {
  import opened Bytes
  import opened Parsing
  import opened Cbc
  import opened CbcStream
  import opened NtcpFrame
  import opened NtcpCodec
  import opened NtcpHandshakeFrame
  import opened NtcpHandshakeCodec
  import opened NtcpHandshake
  import opened DiffieHellman

  // ---------- the sending side of an encrypted stream ----------

  /** Everything sent is a cleartext prefix and the encryption of pt, and the chain
      stands at its end. */
  ghost predicate TxOk(c: BlockCipher, k: Key, iv: Block, prefix: seq<byte>, pt: seq<byte>, sent: seq<byte>,
      encIv: Block)
  {
    Whole(pt) && sent == prefix + Encrypt(c, k, iv, pt) && encIv == ChainAfter(iv, Encrypt(c, k, iv, pt))
  }

  lemma TxStart(c: BlockCipher, k: Key, iv: Block, prefix: seq<byte>)
    ensures TxOk(c, k, iv, prefix, [], prefix, iv)
  {
    assert prefix + [] == prefix;
  }

  lemma TxSend(c: BlockCipher, k: Key, iv: Block, prefix: seq<byte>, pt: seq<byte>, sent: seq<byte>, encIv: Block,
      msg: seq<byte>)
    requires TxOk(c, k, iv, prefix, pt, sent, encIv) && Whole(msg)
    ensures var ct := Encrypt(c, k, encIv, msg);
            TxOk(c, k, iv, prefix, pt + msg, sent + ct, ChainAfter(encIv, ct))
  {
    hide Encrypt, ChainAfter;
    var old_, ct := Encrypt(c, k, iv, pt), Encrypt(c, k, encIv, msg);
    EncryptConcat(c, k, iv, pt, msg);
    ChainConcat(iv, old_, ct);
    Assoc(prefix, old_, ct);
  }

  // ---------- the streams of the two parties ----------

  ghost function PtA(s: Setup, al: Alice): (pt: seq<byte>)
    requires s.Sane()
  {
    if al.phase.Rank() < 2 then [] else s.Msg3(al.tsA, al.tsB) + FramesBytes(s.env.sum, al.framesOut)
  }

  ghost function PtB(s: Setup, bob: Bob): (pt: seq<byte>)
    requires s.Sane()
  {
    if bob.phase.Rank() < 1 then []
    else if bob.phase.Rank() < 3 then s.Inner2(bob.tsB)
    else s.Inner2(bob.tsB) + (s.Msg4(bob.tsA, bob.tsB) + FramesBytes(s.env.sum, bob.framesOut))
  }

  ghost function ConsumedA(s: Setup, al: Alice): (n: nat)
    requires s.Sane()
  {
    if al.phase.Rank() < 4 then 48 else 48 + |s.Msg4(al.tsA, al.tsB)| + |FramesBytes(s.env.sum, al.framesIn)|
  }

  ghost function ConsumedB(s: Setup, bob: Bob): (n: nat)
    requires s.Sane()
  {
    if bob.phase.Rank() < 3 then 0 else |s.Msg3(bob.tsA, bob.tsB)| + |FramesBytes(s.env.sum, bob.framesIn)|
  }

  ghost function AliceRx(al: Alice): (rx: Rx)
    requires al.codec.aes.Some?
  {
    Rx(al.codec.aes.value.decIv, al.codec.decrypted, al.buf)
  }

  ghost function BobRx(bob: Bob): (rx: Rx)
    requires bob.codec.aes.Some?
  {
    Rx(bob.codec.aes.value.decIv, bob.codec.decrypted, bob.buf)
  }

  // ---------- the invariant ----------

  ghost predicate AliceOk(s: Setup, al: Alice)
    requires s.Sane()
  {
    var r := al.phase.Rank();
    && r <= 4 && al.codec.kb == s.KbA() && al.codec.ivEnc == s.IvA() && al.codec.riRemote == s.riB
    && al.codec.state == (if r < 2 then CreatedState else if r < 4 then ConfirmBState else EstablishedState)
    && (r < 4 ==> al.framesOut == [] && al.framesIn == [])
    && FramesOk(s.env.sum, al.framesOut)
    && (if r < 2 then al.codec.aes.None? && al.codec.decrypted == 0 && al.sent == s.Msg1()
        else && al.codec.aes.Some? && al.codec.aes.value.key == s.K() && al.dhY == s.Y()
             && al.tsA < 0x1_0000_0000 && al.tsB < 0x1_0000_0000
             && TxOk(s.env.cipher, s.K(), s.IvA(), s.Msg1(), PtA(s, al), al.sent, al.codec.aes.value.encIv))
  }

  ghost predicate BobOk(s: Setup, bob: Bob)
    requires s.Sane()
  {
    var r := bob.phase.Rank();
    && r <= 4 && bob.codec.kb == s.KbB() && bob.codec.ivEnc == s.IvB()
    && bob.codec.state == (if r < 1 then RequestState else if r < 3 then ConfirmAState else EstablishedState)
    && (r < 4 ==> bob.framesOut == [] && bob.framesIn == [])
    && FramesOk(s.env.sum, bob.framesOut)
    && (if r < 1 then bob.codec.aes.None? && bob.codec.decrypted == 0 && bob.sent == []
        else && bob.codec.aes.Some? && bob.codec.aes.value.key == s.K() && bob.dhX == s.X()
             && bob.tsB < 0x1_0000_0000 && (r >= 3 ==> bob.riRemote == Some(s.riA))
             && TxOk(s.env.cipher, s.K(), s.IvB(), s.Y(), PtB(s, bob), bob.sent, bob.codec.aes.value.encIv))
  }

  /** What Alice holds of what Bob has sent. */
  ghost predicate AliceInStep(s: Setup, al: Alice, bob: Bob, toAlice: nat)
    requires s.Sane() && AliceOk(s, al)
  {
    && toAlice <= |bob.sent|
    && (if al.phase.Rank() < 2 then al.buf == bob.sent[..toAlice]
        else toAlice >= 304
             && Synced(s.env.cipher, s.K(), s.IvB(), PtB(s, bob), toAlice - 256, ConsumedA(s, al), AliceRx(al)))
  }

  ghost predicate BobInStep(s: Setup, al: Alice, bob: Bob, toBob: nat)
    requires s.Sane() && BobOk(s, bob)
  {
    && toBob <= |al.sent|
    && (if bob.phase.Rank() < 1 then bob.buf == al.sent[..toBob]
        else toBob >= 288
             && Synced(s.env.cipher, s.K(), s.IvA(), PtA(s, al), toBob - 288, ConsumedB(s, bob), BobRx(bob)))
  }

  /** How the phases and the values of the two parties are tied together. */
  ghost predicate Tied(al: Alice, bob: Bob)
  {
    && (al.phase.Rank() >= 2 ==> bob.phase.Rank() >= 1 && al.tsB == bob.tsB)
    && (bob.phase.Rank() >= 3 ==> al.phase.Rank() >= 2 && bob.tsA == al.tsA)
    && (al.phase.Rank() == 4 ==> bob.phase.Rank() >= 3)
    && al.framesIn <= bob.framesOut && bob.framesIn <= al.framesOut
  }

  ghost predicate Inv(s: Setup, y: System)
    requires s.Sane()
  {
    && AliceOk(s, y.alice) && BobOk(s, y.bob) && Tied(y.alice, y.bob)
    && AliceInStep(s, y.alice, y.bob, y.toAlice) && BobInStep(s, y.alice, y.bob, y.toBob)
  }

  // ---------- facts about the messages ----------

  lemma SaneFromValid(s: Setup)
    requires s.Valid()
    ensures s.Sane() && s.KbB().SessionKey(s.X()) == s.K()
  {
    hide KeyBuilder.SessionKey, KeyBuilder.GetPub;
    KeysAgree(s.KbA(), s.KbB());
  }

  lemma InnerFacts(s: Setup, tsB: nat)
    requires s.Sane() && tsB < 0x1_0000_0000
    ensures |s.Inner2(tsB)| == 48
    ensures ParseCreatedInner(s.Inner2(tsB)) == Done((s.env.Hash(s.X() + s.Y()), tsB), [])
  {
    hide CreatedInner, ParseCreatedInner, Setup.X, Setup.Y;
    Widths();
    CreatedInnerBack(s.env.Hash(s.X() + s.Y()), tsB);
  }

  lemma Msg3Facts(s: Setup, tsA: nat, tsB: nat)
    requires s.Sane() && s.Valid()
    ensures Whole(s.Msg3(tsA, tsB)) && 16 <= |s.Msg3(tsA, tsB)| <= MTU
  {
    hide ConfirmABytes, Setup.SigMsgFor, IdentityWellFormed;
    var sig := s.env.sign(s.skA, s.SigMsgFor(s.riB, tsA, tsB));
    ConfirmAWhole(s.env, s.riA, tsA, sig);
    ConfirmANotEmpty(s.env, s.riA, tsA, sig);
  }

  lemma ConfirmANotEmpty(env: Env, ri: RouterIdentity, tsA: nat, sig: seq<byte>)
    ensures |ConfirmABytes(env, ri, tsA, sig)| > 0
  {}

  lemma Msg4Facts(s: Setup, tsA: nat, tsB: nat)
    requires s.Sane() && s.Valid()
    ensures Whole(s.Msg4(tsA, tsB)) && 16 <= |s.Msg4(tsA, tsB)| <= MTU
  {
    hide Setup.SigMsgFor, IdentityWellFormed;
    var sig := s.env.sign(s.skB, s.SigMsgFor(s.riA, tsA, tsB));
    assert |sig| == s.env.sigLen(s.riB);
  }

  lemma PtAWhole(s: Setup, al: Alice)
    requires s.Sane() && s.Valid()
    ensures Whole(PtA(s, al))
  {
    hide Setup.Valid, Setup.Msg3, FramesBytes;
    Msg3Facts(s, al.tsA, al.tsB);
    FramesWhole(s.env.sum, al.framesOut);
  }

  lemma PtBWhole(s: Setup, bob: Bob)
    requires s.Sane() && s.Valid() && bob.tsB < 0x1_0000_0000
    ensures Whole(PtB(s, bob))
  {
    hide Setup.Valid, Setup.Msg4, Setup.Inner2, FramesBytes;
    InnerFacts(s, bob.tsB);
    Msg4Facts(s, bob.tsA, bob.tsB);
    FramesWhole(s.env.sum, bob.framesOut);
  }

  lemma InvImpliesWf(s: Setup, y: System)
    requires s.Sane() && Inv(s, y)
    ensures SystemWf(s, y)
  {
    hide TxOk, PtA, PtB, ConsumedA, ConsumedB, FramesOk, Synced, Setup.Msg1, Setup.K, Setup.IvA, Setup.IvB, Setup.X,
         Setup.Y;
    var al, bob := y.alice, y.bob;
    if al.phase.Rank() >= 2 {
      SyncedShape(s.env.cipher, s.K(), s.IvB(), PtB(s, bob), y.toAlice - 256, ConsumedA(s, al), AliceRx(al));
    }
    if bob.phase.Rank() >= 1 {
      SyncedShape(s.env.cipher, s.K(), s.IvA(), PtA(s, al), y.toBob - 288, ConsumedB(s, bob), BobRx(bob));
    }
  }

  // ---------- receiving part of a stream ----------

  /** If the stream goes on with msg, then what is decrypted so far is a part of msg,
      or msg and a part of what follows. */
  lemma StreamAvail(c: BlockCipher, k: Key, iv: Block, pt: seq<byte>, n: nat, consumed: nat, rx: Rx, msg: seq<byte>,
      rest: seq<byte>)
    requires c.Valid() && Synced(c, k, iv, pt, n, consumed, rx) && rx.decrypted <= |rx.buf|
    requires consumed <= |pt| && pt[consumed..] == msg + rest
    ensures var a := Advance(c, k, rx);
            && a.decrypted <= |a.buf| && Synced(c, k, iv, pt, n, consumed, a)
            && (if a.decrypted >= |msg|
                then a.decrypted - |msg| <= |rest| && a.buf[..a.decrypted] == msg + rest[..a.decrypted - |msg|]
                     && Synced(c, k, iv, pt, n, consumed + |msg|, Consume(a, |msg|))
                else a.buf[..a.decrypted] == msg[..a.decrypted])
  {
    hide Advance, Synced, BlockCipher.Valid;
    SyncedAdvance(c, k, iv, pt, n, consumed, rx);
    var a := Advance(c, k, rx);
    SyncedShape(c, k, iv, pt, n, consumed, a);
    assert a.buf[..a.decrypted] == pt[consumed..][..a.decrypted];
    PrefixOfConcat(msg, rest, a.decrypted);
    if a.decrypted >= |msg| { SyncedConsume(c, k, iv, pt, n, consumed, a, |msg|); }
  }

  // ---------- how one side's progress looks to the other ----------

  lemma BobSeesMore(s: Setup, al: Alice, al2: Alice, bob: Bob, toBob: nat, more: seq<byte>, ct: seq<byte>)
    requires s.Sane() && BobOk(s, bob) && BobInStep(s, al, bob, toBob)
    requires al2.sent == al.sent + ct && Whole(more) && PtA(s, al2) == PtA(s, al) + more
    ensures BobInStep(s, al2, bob, toBob)
  {
    hide PtA, ConsumedB, TxOk, PtB, FramesOk, Synced, Setup.K, Setup.IvA, Setup.IvB, Setup.X, Setup.Y;
    if bob.phase.Rank() >= 1 {
      SyncedExtend(s.env.cipher, s.K(), s.IvA(), PtA(s, al), more, toBob - 288, ConsumedB(s, bob), BobRx(bob));
    } else {
      assert (al.sent + ct)[..toBob] == al.sent[..toBob];
    }
  }

  lemma AliceSeesMore(s: Setup, al: Alice, bob: Bob, bob2: Bob, toAlice: nat, more: seq<byte>, ct: seq<byte>)
    requires s.Sane() && AliceOk(s, al) && AliceInStep(s, al, bob, toAlice)
    requires bob2.sent == bob.sent + ct && Whole(more) && PtB(s, bob2) == PtB(s, bob) + more
    ensures AliceInStep(s, al, bob2, toAlice)
  {
    hide PtB, ConsumedA, TxOk, PtA, FramesOk, Synced, Setup.K, Setup.IvA, Setup.IvB, Setup.X, Setup.Y;
    if al.phase.Rank() >= 2 {
      SyncedExtend(s.env.cipher, s.K(), s.IvB(), PtB(s, bob), more, toAlice - 256, ConsumedA(s, al), AliceRx(al));
    } else {
      assert (bob.sent + ct)[..toAlice] == bob.sent[..toAlice];
    }
  }

  // ---------- deliveries ----------

  lemma StreamReceives(c: BlockCipher, k: Key, iv: Block, pt: seq<byte>, prefix: seq<byte>, sent: seq<byte>, t: nat,
      n: nat, consumed: nat, rx: Rx)
    requires Whole(pt) && sent == prefix + Encrypt(c, k, iv, pt) && |prefix| <= t <= n <= |sent|
    requires Synced(c, k, iv, pt, t - |prefix|, consumed, rx)
    ensures Synced(c, k, iv, pt, n - |prefix|, consumed, rx.(buf := rx.buf + sent[t..n]))
  {
    hide Encrypt, Synced;
    var ct := Encrypt(c, k, iv, pt);
    assert sent[t..n] == ct[t - |prefix|..n - |prefix|];
    SyncedReceive(c, k, iv, pt, t - |prefix|, consumed, rx, n - t);
  }

  lemma DeliverAliceKeeps(s: Setup, y: System, n: nat)
    requires s.Sane() && Inv(s, y) && y.toAlice <= n <= |y.bob.sent|
    ensures Inv(s, y.(toAlice := n, alice := y.alice.(buf := y.alice.buf + y.bob.sent[y.toAlice..n])))
  {
    hide PtA, PtB, ConsumedA, ConsumedB, FramesOk, Synced, Encrypt, ChainAfter, Setup.K, Setup.IvA, Setup.IvB, Setup.X,
         Setup.Y, Setup.Msg1;
    var al, bob, t := y.alice, y.bob, y.toAlice;
    var al2 := al.(buf := al.buf + bob.sent[t..n]);
    PtAOf(s, al, al2);
    if al.phase.Rank() >= 2 {
      StreamReceives(s.env.cipher, s.K(), s.IvB(), PtB(s, bob), s.Y(), bob.sent, t, n, ConsumedA(s, al), AliceRx(al));
    } else {
      assert bob.sent[..t] + bob.sent[t..n] == bob.sent[..n];
    }
  }

  lemma DeliverBobKeeps(s: Setup, y: System, n: nat)
    requires s.Sane() && Inv(s, y) && y.toBob <= n <= |y.alice.sent|
    ensures Inv(s, y.(toBob := n, bob := y.bob.(buf := y.bob.buf + y.alice.sent[y.toBob..n])))
  {
    hide PtA, PtB, ConsumedA, ConsumedB, FramesOk, Synced, Encrypt, ChainAfter, Setup.K, Setup.IvA, Setup.IvB, Setup.X,
         Setup.Y, Setup.Msg1;
    var al, bob, t := y.alice, y.bob, y.toBob;
    var bob2 := bob.(buf := bob.buf + al.sent[t..n]);
    PtBOf(s, bob, bob2);
    if bob.phase.Rank() >= 1 {
      AliceSent(s, al);
      StreamReceives(s.env.cipher, s.K(), s.IvA(), PtA(s, al), s.Msg1(), al.sent, t, n, ConsumedB(s, bob), BobRx(bob));
    } else {
      assert al.sent[..t] + al.sent[t..n] == al.sent[..n];
    }
  }

  lemma PtAOf(s: Setup, al: Alice, al2: Alice)
    requires s.Sane() && al.phase == al2.phase && al.tsA == al2.tsA && al.tsB == al2.tsB
    requires al.framesOut == al2.framesOut
    ensures PtA(s, al) == PtA(s, al2)
    ensures al.framesIn == al2.framesIn ==> ConsumedA(s, al) == ConsumedA(s, al2)
  {}

  lemma PtBOf(s: Setup, bob: Bob, bob2: Bob)
    requires s.Sane() && bob.phase == bob2.phase && bob.tsA == bob2.tsA && bob.tsB == bob2.tsB
    requires bob.framesOut == bob2.framesOut
    ensures PtB(s, bob) == PtB(s, bob2)
    ensures bob.framesIn == bob2.framesIn ==> ConsumedB(s, bob) == ConsumedB(s, bob2)
  {}

  lemma AliceSent(s: Setup, al: Alice)
    requires s.Sane() && AliceOk(s, al)
    ensures Whole(PtA(s, al)) && al.sent == s.Msg1() + Encrypt(s.env.cipher, s.K(), s.IvA(), PtA(s, al))
  {
    hide Setup.K, Setup.IvA, Setup.Msg1, ChainAfter, FramesOk;
    if al.phase.Rank() < 2 { assert s.Msg1() + [] == s.Msg1(); }
  }

  // ---------- Alice's handshake steps ----------

  /** What was sent is a prefix and the encryption of pt, whose first 48 bytes decrypt
      to inner. */
  ghost predicate StartsWith(c: BlockCipher, k: Key, iv: Block, pt: seq<byte>, prefix: seq<byte>, sent: seq<byte>,
      inner: seq<byte>)
  {
    && Whole(pt) && |pt| >= 48
    && var ct := Encrypt(c, k, iv, pt);
       sent == prefix + ct && Decrypt(c, k, iv, ct[..48]) == inner
  }

  /** Bob has sent his key and the encryption of a stream that starts with the inner
      part of SessionCreated. */
  ghost predicate CreatedIsSent(s: Setup, bob: Bob)
    requires s.Sane()
  {
    bob.phase.Rank() >= 1 && StartsWith(s.env.cipher, s.K(), s.IvB(), PtB(s, bob), s.Y(), bob.sent, s.Inner2(bob.tsB))
  }

  lemma CreatedOnTheWire(s: Setup, bob: Bob)
    requires s.Sane() && s.Valid() && BobOk(s, bob) && |bob.sent| >= 304
    ensures CreatedIsSent(s, bob)
  {
    hide Encrypt, Decrypt, ChainAfter, Setup.Inner2, Setup.Msg4, FramesBytes, FramesOk, Setup.K, Setup.IvB, Setup.X,
         Setup.Y;
    InnerFacts(s, bob.tsB);
    var c, k, iv, pt := s.env.cipher, s.K(), s.IvB(), PtB(s, bob);
    EncryptPrefix(c, k, iv, pt, 48);
    assert pt[..48] == s.Inner2(bob.tsB);
    DecryptEncrypt(c, k, iv, s.Inner2(bob.tsB));
  }

  ghost function CtB(s: Setup, bob: Bob): (ct: seq<byte>)
    requires s.Sane() && Whole(PtB(s, bob))
    ensures |ct| == |PtB(s, bob)|
  {
    Encrypt(s.env.cipher, s.K(), s.IvB(), PtB(s, bob))
  }

  /** What Alice's decode of SessionCreated yields. */
  ghost function CreatedOutcome(s: Setup, al: Alice, tsB: nat, ct: seq<byte>): (r: (Outbound, seq<byte>, Outcome))
    requires s.Sane() && |ct| >= 48 && |al.buf| >= 304
  {
    (al.codec.(aes := Some(Chains(s.K(), s.IvA(), ChainAfter(s.IvB(), ct[..48]))), state := ConfirmAState),
     al.buf[304..],
     Got(SessionCreated(s.Y(), s.env.Hash(s.X() + s.Y()), tsB)))
  }

  /** Alice's decode of SessionCreated. */
  lemma AliceDecodesCreated(s: Setup, al: Alice, bob: Bob, toAlice: nat)
    requires s.Sane() && s.Valid() && AliceOk(s, al) && BobOk(s, bob) && AliceInStep(s, al, bob, toAlice)
    requires al.phase == AwaitingCreated && |al.buf| >= 304
    ensures CreatedIsSent(s, bob)
    ensures OutboundDecode(s.env, al.codec, al.buf) == CreatedOutcome(s, al, bob.tsB, CtB(s, bob))
  {
    hide Encrypt, Decrypt, ChainAfter, PtB, PtA, TxOk, FramesOk, Setup.Inner2, ParseCreatedInner, Setup.Valid,
         Env.Hash, KeyBuilder.SessionKey, KeyBuilder.GetPub;
    CreatedOnTheWire(s, bob);
    InnerFacts(s, bob.tsB);
    var ct := Encrypt(s.env.cipher, s.K(), s.IvB(), PtB(s, bob));
    assert al.buf[..256] == s.Y() && al.buf[256..304] == ct[..48];
  }

  lemma SigMsgStart(s: Setup, tsA: nat, tsB: nat)
    requires s.Sane()
    ensures |s.SigMsgFor(s.riB, tsA, tsB)| >= 512 && s.SigMsgFor(s.riB, tsA, tsB)[..512] == s.X() + s.Y()
  {
    hide Setup.X, Setup.Y, Env.Hash, ToBE, IdentityBytes;
  }

  /** Alice's answer to SessionCreated is SessionConfirmA, encrypted. */
  lemma AliceAnswersCreated(s: Setup, al: Alice, ts: nat, tsB: nat, decIv: Block)
    requires s.Sane() && s.Valid() && tsB < 0x1_0000_0000
    requires al.codec == Outbound(s.KbA(), s.IvA(), s.riB, ConfirmAState, Some(Chains(s.K(), s.IvA(), decIv)), 0)
    requires al.phase == AwaitingCreated && al.sent == s.Msg1() && al.framesOut == [] && al.framesIn == []
    ensures var al2 := AliceConfirms(s, al, SessionCreated(s.Y(), s.env.Hash(s.X() + s.Y()), tsB), ts);
            && al2.phase == Confirming && AliceOk(s, al2) && AliceRx(al2) == Rx(decIv, 0, al.buf)
            && al2.tsB == tsB && al2.sent == al.sent + Encrypt(s.env.cipher, s.K(), s.IvA(), PtA(s, al2))
            && PtA(s, al2) == s.Msg3(al2.tsA, al2.tsB)
  {
    hide Encrypt, ChainAfter, Setup.X, Setup.Y, Setup.Msg1, Setup.K, Setup.IvA, Setup.Valid, ConfirmABytes, Env.Hash,
         SigMsg;
    var tsA := ts % 0x1_0000_0000;
    SigMsgStart(s, tsA, tsB);
    Msg3Facts(s, tsA, tsB);
    var msg3 := s.Msg3(tsA, tsB);
    TxStart(s.env.cipher, s.K(), s.IvA(), s.Msg1());
    TxSend(s.env.cipher, s.K(), s.IvA(), s.Msg1(), [], s.Msg1(), s.IvA(), msg3);
    assert [] + msg3 == msg3;
    NoFramesNoBytes(s.env.sum);
    assert msg3 + [] == msg3;
  }

  lemma AlicePollCreatedKeeps(s: Setup, y: System, ts: nat, flushed: bool)
    requires s.Sane() && s.Valid() && Inv(s, y) && SystemWf(s, y) && y.alice.phase == AwaitingCreated
    ensures Inv(s, y.(alice := AlicePoll(s, y.alice, ts, flushed)))
  {
    hide Encrypt, ChainAfter, PtA, PtB, TxOk, FramesOk, ConsumedB, Setup.Valid, Env.Hash, Setup.X, Setup.Y, Setup.K,
         Setup.IvA,
         Setup.IvB, Setup.Msg1, Setup.Msg3, AliceConfirms, CreatedReceived;
    var al, bob := y.alice, y.bob;
    if |al.buf| >= 304 {
      AliceDecodesCreated(s, al, bob, y.toAlice);
      var ct := Encrypt(s.env.cipher, s.K(), s.IvB(), PtB(s, bob));
      CreatedOnTheWire(s, bob);
      var decIv := ChainAfter(s.IvB(), ct[..48]);
      var al1 := al.(codec := al.codec.(aes := Some(Chains(s.K(), s.IvA(), decIv)), state := ConfirmAState),
                     buf := al.buf[304..]);
      AliceAnswersCreated(s, al1, ts, bob.tsB, decIv);
      var al2 := AliceConfirms(s, al1, SessionCreated(s.Y(), s.env.Hash(s.X() + s.Y()), bob.tsB), ts);
      assert al2 == AlicePoll(s, al, ts, flushed);
      NothingSentYet(s, al);
      PtAWhole(s, al2);
      assert PtA(s, al2) == PtA(s, al) + PtA(s, al2);
      BobSeesMore(s, al, al2, bob, y.toBob, PtA(s, al2), Encrypt(s.env.cipher, s.K(), s.IvA(), PtA(s, al2)));
      assert PtB(s, bob)[48..48] == [];
      assert al1.buf == ct[48..y.toAlice - 256];
    }
  }

  lemma NothingSentYet(s: Setup, al: Alice)
    requires s.Sane() && al.phase.Rank() < 2
    ensures PtA(s, al) == []
  {}

  /** What is left of Bob's stream after SessionCreated. */
  lemma BobTail(s: Setup, bob: Bob)
    requires s.Sane() && s.Valid() && BobOk(s, bob) && bob.phase.Rank() >= 1
    ensures |PtB(s, bob)| >= 48
    ensures PtB(s, bob)[48..] == if bob.phase.Rank() < 3 then []
                                 else s.Msg4(bob.tsA, bob.tsB) + FramesBytes(s.env.sum, bob.framesOut)
  {
    hide Setup.Inner2, Setup.Msg4, FramesBytes, FramesOk, TxOk, Setup.Valid;
    InnerFacts(s, bob.tsB);
  }

  /** What a decode yields while Alice waits for SessionConfirmB: nothing, or the
      message; either way she stays in step. */
  ghost predicate ConfirmBOutcome(s: Setup, al: Alice, bob: Bob, toAlice: nat, cd: Outbound, buf: seq<byte>, o: Outcome)
    requires s.Sane() && toAlice >= 256 && al.codec.aes.Some?
  {
    && cd.aes.Some? && cd.aes.value == al.codec.aes.value.(decIv := cd.aes.value.decIv)
    && var rx := Rx(cd.aes.value.decIv, cd.decrypted, buf);
       if o.Nothing?
       then && cd == al.codec.(aes := cd.aes, decrypted := cd.decrypted)
            && Synced(s.env.cipher, s.K(), s.IvB(), PtB(s, bob), toAlice - 256, 48, rx)
       else && bob.phase.Rank() >= 3
            && o == Got(SessionConfirmB(s.env.sign(s.skB, s.SigMsgFor(s.riA, al.tsA, al.tsB))))
            && cd == al.codec.(aes := cd.aes, decrypted := cd.decrypted, state := EstablishedState)
            && Synced(s.env.cipher, s.K(), s.IvB(), PtB(s, bob), toAlice - 256, 48 + |s.Msg4(al.tsA, al.tsB)|, rx)
  }

  /** What Alice has decrypted while she waits for SessionConfirmB parses to Bob's
      signature, or is still too short. */
  lemma ConfirmBAvailable(s: Setup, al: Alice, bob: Bob, toAlice: nat)
    requires s.Sane() && s.Valid() && AliceOk(s, al) && BobOk(s, bob) && AliceInStep(s, al, bob, toAlice)
    requires Tied(al, bob)
    requires al.phase == AwaitingConfirmB && al.codec.decrypted + 16 <= |al.buf|
    ensures var a, m := Advance(s.env.cipher, s.K(), AliceRx(al)), |s.Msg4(al.tsA, al.tsB)|;
            && bob.phase.Rank() >= 3 && a.decrypted % 16 == 0
            && var p := ParseConfirmB(s.env, s.riB, a.buf[..a.decrypted]);
               if a.decrypted < m
               then p == Incomplete && Synced(s.env.cipher, s.K(), s.IvB(), PtB(s, bob), toAlice - 256, 48, a)
               else && p.Done? && p.value == SessionConfirmB(s.env.sign(s.skB, s.SigMsgFor(s.riA, al.tsA, al.tsB)))
                    && |p.rest| == a.decrypted - m
                    && Synced(s.env.cipher, s.K(), s.IvB(), PtB(s, bob), toAlice - 256, 48 + m, Consume(a, m))
  {
    hide Advance, Synced, PtA, PtB, TxOk, FramesOk, FramesBytes, ParseConfirmB, ConfirmBBytes, Setup.K, Setup.IvA,
         Setup.IvB,
         Setup.X, Setup.Y, Setup.Msg1, Setup.SigMsgFor, BlockCipher.Valid, IdentityWellFormed, Consume;
    var c, k, iv, pt, n, rx := s.env.cipher, s.K(), s.IvB(), PtB(s, bob), toAlice - 256, AliceRx(al);
    SyncedShape(c, k, iv, pt, n, 48, rx);
    BobTail(s, bob);
    var sig := s.env.sign(s.skB, s.SigMsgFor(s.riA, al.tsA, al.tsB));
    var msg, rest := ConfirmBBytes(sig), FramesBytes(s.env.sum, bob.framesOut);
    assert pt[48..] == msg + rest;
    StreamAvail(c, k, iv, pt, n, 48, rx, msg, rest);
    var a := Advance(c, k, rx);
    SyncedShape(c, k, iv, pt, n, 48, a);
    assert |sig| == s.env.sigLen(s.riB);
    if a.decrypted >= |msg| {
      ConfirmBBack(s.env, s.riB, sig, rest[..a.decrypted - |msg|]);
    } else {
      ConfirmBPrefix(s.env, s.riB, sig, a.decrypted);
    }
  }

  /** Alice's decode while she waits for SessionConfirmB. It yields nothing only if
      nothing new was there to decrypt or the message is still incomplete. */
  lemma AliceDecodesConfirmB(s: Setup, al: Alice, bob: Bob, toAlice: nat)
    requires s.Sane() && s.Valid() && AliceOk(s, al) && BobOk(s, bob) && AliceInStep(s, al, bob, toAlice)
    requires Tied(al, bob)
    requires al.phase == AwaitingConfirmB && al.codec.decrypted <= |al.buf|
    ensures var (cd, buf, o) := OutboundDecode(s.env, al.codec, al.buf);
            && ConfirmBOutcome(s, al, bob, toAlice, cd, buf, o)
            && (o.Nothing? && |al.buf| >= al.codec.decrypted + 16 ==>
                  bob.phase.Rank() >= 3 && |al.buf| - 16 < cd.decrypted < |s.Msg4(al.tsA, al.tsB)|
                  && cd.decrypted % 16 == 0)
            && (o.Nothing? && |al.buf| < al.codec.decrypted + 16 ==> cd.decrypted == al.codec.decrypted)
  {
    hide Advance, Synced, PtA, PtB, TxOk, FramesOk, FramesBytes, ParseConfirmB, ConfirmBBytes, Setup.K, Setup.IvA,
         Setup.IvB,
         Setup.X, Setup.Y, Setup.Msg1, Setup.Msg4, Setup.SigMsgFor, Setup.Valid;
    if |al.buf| - al.codec.decrypted >= 16 {
      ConfirmBAvailable(s, al, bob, toAlice);
    }
  }

  lemma AlicePollConfirmKeeps(s: Setup, y: System, ts: nat, flushed: bool)
    requires s.Sane() && s.Valid() && Inv(s, y) && SystemWf(s, y) && y.alice.phase == AwaitingConfirmB
    ensures Inv(s, y.(alice := AlicePoll(s, y.alice, ts, flushed)))
  {
    hide OutboundDecode, Synced, PtA, PtB, TxOk, FramesOk, ConsumedB, FramesBytes, Setup.K, Setup.IvA, Setup.IvB,
         Setup.Msg1, Setup.Msg4, Env.Valid, IdentityWellFormed;
    var al, bob := y.alice, y.bob;
    AliceDecodesConfirmB(s, al, bob, y.toAlice);
    NoFramesNoBytes(s.env.sum);
    var al2 := AlicePoll(s, al, ts, flushed);
    PtASame(s, al, al2);
  }

  lemma PtASame(s: Setup, al: Alice, al2: Alice)
    requires s.Sane() && al.phase.Rank() >= 2 && al2.phase.Rank() >= 2
    requires al.tsA == al2.tsA && al.tsB == al2.tsB && al.framesOut == al2.framesOut
    ensures PtA(s, al) == PtA(s, al2)
  {}

  // ---------- Bob's handshake steps ----------

  /** Bob's decode of SessionRequest. */
  lemma BobDecodesRequest(s: Setup, al: Alice, bob: Bob, toBob: nat)
    requires s.Sane() && AliceOk(s, al) && BobOk(s, bob) && BobInStep(s, al, bob, toBob)
    requires bob.phase == AwaitingRequest && |bob.buf| >= 288
    ensures InboundDecode(s.env, bob.codec, bob.buf)
         == (bob.codec.(dhX := s.X(), ivDec := s.IvA(), state := CreatedState), bob.buf[288..],
             Got(SessionRequest(s.X(), s.HX())))
  {
    hide Encrypt, PtB, PtA, TxOk, FramesOk, Setup.X, Setup.Y, Setup.HX, Setup.K;
    AliceSent(s, al);
    assert bob.buf[..288] == s.Msg1();
    assert bob.buf[..256] == s.Msg1()[..256] == s.X();
    assert bob.buf[256..288] == s.Msg1()[256..] == s.HX();
  }

  /** Bob's answer to SessionRequest is SessionCreated, its inner part encrypted. */
  lemma BobAnswersRequest(s: Setup, bob: Bob, ts: nat)
    requires s.Sane() && s.Valid() && bob.phase == AwaitingRequest && bob.sent == [] && bob.framesOut == []
    requires bob.framesIn == []
    requires bob.codec == Inbound(s.KbB(), s.IvB(), s.X(), s.IvA(), CreatedState, None, 0)
    ensures var bob2 := BobCreates(s, bob, SessionRequest(s.X(), s.HX()), ts);
            && bob2.phase == Creating && BobOk(s, bob2) && BobRx(bob2) == Rx(s.IvA(), 0, bob.buf)
            && PtB(s, bob2) == s.Inner2(bob2.tsB)
  {
    hide Encrypt, ChainAfter, Setup.X, Setup.Y, Setup.K, Setup.IvA, Setup.IvB, Setup.Valid, CreatedInner, Env.Hash,
         KeyBuilder.SessionKey;
    SaneFromValid(s);
    InnerFacts(s, ts % 0x1_0000_0000);
  }

  lemma BobPollRequestKeeps(s: Setup, y: System, ts: nat, flushed: bool)
    requires s.Sane() && s.Valid() && Inv(s, y) && SystemWf(s, y) && y.bob.phase == AwaitingRequest
    ensures Inv(s, y.(bob := BobPoll(s, y.bob, ts, flushed)))
  {
    hide Encrypt, PtA, PtB, TxOk, FramesOk, ConsumedA, Setup.Valid, Setup.X, Setup.Y, Setup.K, Setup.IvA, Setup.IvB,
         Setup.HX, Setup.Msg1, Setup.Inner2, BobCreates;
    var al, bob := y.alice, y.bob;
    if |bob.buf| >= 288 {
      BobDecodesRequest(s, al, bob, y.toBob);
      var bob1 := bob.(codec := bob.codec.(dhX := s.X(), ivDec := s.IvA(), state := CreatedState),
                       buf := bob.buf[288..]);
      BobAnswersRequest(s, bob1, ts);
      var bob2 := BobCreates(s, bob1, SessionRequest(s.X(), s.HX()), ts);
      assert bob2 == BobPoll(s, bob, ts, flushed);
      NothingCreatedYet(s, bob);
      PtBWhole(s, bob2);
      assert PtB(s, bob2) == PtB(s, bob) + PtB(s, bob2);
      assert bob2.sent == bob.sent + bob2.sent;
      AliceSeesMore(s, al, bob, bob2, y.toAlice, PtB(s, bob2), bob2.sent);
      AliceSent(s, al);
      var ct := Encrypt(s.env.cipher, s.K(), s.IvA(), PtA(s, al));
      assert ct[..0] == [] && PtA(s, al)[0..0] == [];
      assert bob1.buf == ct[0..y.toBob - 288];
    }
  }

  lemma NothingCreatedYet(s: Setup, bob: Bob)
    requires s.Sane() && bob.phase.Rank() < 1
    ensures PtB(s, bob) == []
  {}

  /** What a decode yields while Bob waits for SessionConfirmA. */
  ghost predicate ConfirmAOutcome(s: Setup, al: Alice, bob: Bob, toBob: nat, cd: Inbound, buf: seq<byte>, o: Outcome)
    requires s.Sane() && toBob >= 288 && bob.codec.aes.Some?
  {
    && cd.aes.Some? && cd.aes.value == bob.codec.aes.value.(decIv := cd.aes.value.decIv)
    && var rx := Rx(cd.aes.value.decIv, cd.decrypted, buf);
       if o.Nothing?
       then && cd == bob.codec.(aes := cd.aes, decrypted := cd.decrypted)
            && Synced(s.env.cipher, s.K(), s.IvA(), PtA(s, al), toBob - 288, 0, rx)
       else && al.phase.Rank() >= 2
            && o == Got(SessionConfirmA(s.riA, al.tsA, s.env.sign(s.skA, s.SigMsgFor(s.riB, al.tsA, al.tsB))))
            && cd == bob.codec.(aes := cd.aes, decrypted := cd.decrypted, state := ConfirmBState)
            && Synced(s.env.cipher, s.K(), s.IvA(), PtA(s, al), toBob - 288, |s.Msg3(al.tsA, al.tsB)|, rx)
  }

  /** Bob's decode while he waits for SessionConfirmA. */
  lemma BobDecodesConfirmA(s: Setup, al: Alice, bob: Bob, toBob: nat)
    requires s.Sane() && s.Valid() && AliceOk(s, al) && BobOk(s, bob) && BobInStep(s, al, bob, toBob) && Tied(al, bob)
    requires bob.phase == AwaitingConfirmA && bob.codec.decrypted <= |bob.buf|
    ensures var (cd, buf, o) := InboundDecode(s.env, bob.codec, bob.buf);
            && ConfirmAOutcome(s, al, bob, toBob, cd, buf, o)
            && (o.Nothing? && |bob.buf| >= bob.codec.decrypted + 16 ==>
                  al.phase.Rank() >= 2 && |bob.buf| - 16 < cd.decrypted < |s.Msg3(al.tsA, al.tsB)|
                  && cd.decrypted % 16 == 0)
            && (o.Nothing? && |bob.buf| < bob.codec.decrypted + 16 ==> cd.decrypted == bob.codec.decrypted)
  {
    hide Advance, Synced, PtB, TxOk, FramesOk, FramesBytes, ParseConfirmA, ConfirmABytes, Setup.K, Setup.IvA, Setup.IvB,
         Setup.X, Setup.Y, Setup.Msg1, Setup.SigMsgFor, BlockCipher.Valid, IdentityWellFormed;
    if |bob.buf| - bob.codec.decrypted >= 16 {
      var c, k, iv, pt, n, rx := s.env.cipher, s.K(), s.IvA(), PtA(s, al), toBob - 288, BobRx(bob);
      SyncedShape(c, k, iv, pt, n, 0, rx);
      var sig := s.env.sign(s.skA, s.SigMsgFor(s.riB, al.tsA, al.tsB));
      var msg, rest := ConfirmABytes(s.env, s.riA, al.tsA, sig), FramesBytes(s.env.sum, al.framesOut);
      assert pt[0..] == msg + rest;
      StreamAvail(c, k, iv, pt, n, 0, rx, msg, rest);
      var a := Advance(c, k, rx);
      SyncedShape(c, k, iv, pt, n, 0, a);
      assert |sig| == s.env.sigLen(s.riA);
      Widths();
      if a.decrypted >= |msg| {
        ConfirmABack(s.env, s.riA, al.tsA, sig, rest[..a.decrypted - |msg|]);
      } else {
        ConfirmAPrefix(s.env, s.riA, al.tsA, sig, a.decrypted);
      }
    }
  }

  /** Bob's answer to SessionConfirmA is SessionConfirmB, encrypted. */
  lemma BobAnswersConfirm(s: Setup, bob0: Bob, bob: Bob, tsA: nat)
    requires s.Sane() && s.Valid() && BobOk(s, bob0) && bob0.phase == AwaitingConfirmA && bob.codec.aes.Some?
    requires bob == bob0.(codec := bob.codec, buf := bob.buf)
    requires bob.codec == bob0.codec.(aes := bob.codec.aes, decrypted := bob.codec.decrypted, state := ConfirmBState)
    requires bob.codec.aes.value == bob0.codec.aes.value.(decIv := bob.codec.aes.value.decIv)
    ensures var sig := s.env.sign(s.skA, s.SigMsgFor(s.riB, tsA, bob.tsB));
            var bob2 := BobConfirms(s, bob, SessionConfirmA(s.riA, tsA, sig));
            && bob2.phase == ConfirmingB && BobOk(s, bob2) && BobRx(bob2) == BobRx(bob)
            && bob2.tsA == tsA && bob2.tsB == bob.tsB && bob2.framesIn == [] && bob2.framesOut == []
            && PtB(s, bob2) == PtB(s, bob0) + s.Msg4(tsA, bob.tsB)
            && bob2.sent == bob0.sent + Encrypt(s.env.cipher, s.K(), bob0.codec.aes.value.encIv, s.Msg4(tsA, bob.tsB))
  {
    hide Encrypt, ChainAfter, TxOk, Setup.Inner2, Setup.X, Setup.Y, Setup.K, Setup.IvB, ConfirmBBytes, Env.Hash,
         SigMsg, IdentityWellFormed, Env.Valid;
    var msg4 := s.Msg4(tsA, bob.tsB);
    Msg4Facts(s, tsA, bob.tsB);
    TxSend(s.env.cipher, s.K(), s.IvB(), s.Y(), PtB(s, bob0), bob0.sent, bob0.codec.aes.value.encIv, msg4);
    NoFramesNoBytes(s.env.sum);
    assert msg4 + [] == msg4;
  }

  lemma BobPollConfirmKeeps(s: Setup, y: System, ts: nat, flushed: bool)
    requires s.Sane() && s.Valid() && Inv(s, y) && SystemWf(s, y) && y.bob.phase == AwaitingConfirmA
    ensures Inv(s, y.(bob := BobPoll(s, y.bob, ts, flushed)))
  {
    hide InboundDecode, Synced, PtA, PtB, TxOk, FramesOk, ConsumedA, FramesBytes, Setup.K, Setup.IvA, Setup.IvB,
         Encrypt,
         Setup.Msg1, Setup.Msg3, Setup.Msg4, Setup.SigMsgFor, Setup.Valid, BobConfirms;
    var al, bob := y.alice, y.bob;
    BobDecodesConfirmA(s, al, bob, y.toBob);
    var (cd, buf, o) := InboundDecode(s.env, bob.codec, bob.buf);
    var bob1 := bob.(codec := cd, buf := buf);
    if o.Nothing? {
      PtBOf(s, bob, bob1);
    } else {
      BobAnswersConfirm(s, bob, bob1, al.tsA);
      var bob2 := BobConfirms(s, bob1, o.frame);
      assert bob2 == BobPoll(s, bob, ts, flushed);
      Msg4Facts(s, al.tsA, bob.tsB);
      AliceSeesMore(s, al, bob, bob2, y.toAlice, s.Msg4(al.tsA, bob.tsB),
                    Encrypt(s.env.cipher, s.K(), bob.codec.aes.value.encIv, s.Msg4(al.tsA, bob.tsB)));
      NoFramesNoBytes(s.env.sum);
    }
  }

  // ---------- flushes ----------

  lemma FlushAliceKeeps(s: Setup, y: System, ts: nat, flushed: bool)
    requires s.Sane() && s.Valid() && Inv(s, y) && SystemWf(s, y)
    requires y.alice.phase in {Requesting, Confirming, OpenA}
    ensures Inv(s, y.(alice := AlicePoll(s, y.alice, ts, flushed)))
  {
    hide OutboundDecode, Synced, PtB, TxOk, FramesOk, ConsumedB, FramesBytes, Setup.K, Setup.IvA, Setup.IvB,
         Setup.Msg1, Setup.Valid, Setup.Msg3, Setup.Msg4;
  }

  lemma FlushBobKeeps(s: Setup, y: System, ts: nat, flushed: bool)
    requires s.Sane() && s.Valid() && Inv(s, y) && SystemWf(s, y)
    requires y.bob.phase in {Creating, ConfirmingB, OpenB}
    ensures Inv(s, y.(bob := BobPoll(s, y.bob, ts, flushed)))
  {
    hide InboundDecode, Synced, PtA, TxOk, FramesOk, ConsumedA, FramesBytes, Setup.K, Setup.IvA, Setup.IvB, Setup.Msg1,
         Setup.Valid, Setup.Msg3, Setup.Msg4, Setup.Inner2;
  }

  // ---------- data frames ----------

  lemma OneFrame(env: Env, f: Frame)
    ensures FramesBytes(env.sum, [f]) == FrameBytes(env.sum, f)
  {
    hide FrameBytes;
    assert [f][1..] == [];
  }

  lemma MoreFramesA(s: Setup, al: Alice, al2: Alice, f: Frame)
    requires s.Sane() && al.phase.Rank() >= 2 && al2.phase == al.phase && al2.tsA == al.tsA && al2.tsB == al.tsB
    requires al2.framesOut == al.framesOut + [f]
    ensures PtA(s, al2) == PtA(s, al) + FrameBytes(s.env.sum, f)
  {
    hide FrameBytes, FramesBytes, Setup.Msg3;
    FramesConcat(s.env.sum, al.framesOut, [f]);
    OneFrame(s.env, f);
    Assoc(s.Msg3(al.tsA, al.tsB), FramesBytes(s.env.sum, al.framesOut), FrameBytes(s.env.sum, f));
  }

  lemma MoreFramesB(s: Setup, bob: Bob, bob2: Bob, f: Frame)
    requires s.Sane() && bob.phase.Rank() >= 3 && bob2.phase == bob.phase && bob2.tsA == bob.tsA && bob2.tsB == bob.tsB
    requires bob2.framesOut == bob.framesOut + [f]
    ensures PtB(s, bob2) == PtB(s, bob) + FrameBytes(s.env.sum, f)
  {
    hide FrameBytes, FramesBytes, Setup.Msg4, Setup.Inner2;
    FramesConcat(s.env.sum, bob.framesOut, [f]);
    OneFrame(s.env, f);
    var i, m, fs := s.Inner2(bob.tsB), s.Msg4(bob.tsA, bob.tsB), FramesBytes(s.env.sum, bob.framesOut);
    Assoc(m, fs, FrameBytes(s.env.sum, f));
    Assoc(i, m + fs, FrameBytes(s.env.sum, f));
  }

  lemma SendAliceKeeps(s: Setup, y: System, f: Frame)
    requires s.Sane() && s.Valid() && Inv(s, y)
    ensures Inv(s, y.(alice := AliceSends(s, y.alice, f)))
  {
    hide Encrypt, ChainAfter, Synced, PtA, PtB, TxOk, ConsumedB, FrameBytes, FramesBytes, FrameOk, Setup.K, Setup.IvA,
         Setup.IvB,
         Setup.Msg1, Setup.Msg4, Setup.Valid;
    var al, bob, al2 := y.alice, y.bob, AliceSends(s, y.alice, f);
    if al.phase == OpenA && FrameOk(s.env.sum, f) {
      var b := FrameBytes(s.env.sum, f);
      MoreFramesA(s, al, al2, f);
      TxSend(s.env.cipher, s.K(), s.IvA(), s.Msg1(), PtA(s, al), al.sent, al.codec.aes.value.encIv, b);
      BobSeesMore(s, al, al2, bob, y.toBob, b, Encrypt(s.env.cipher, s.K(), al.codec.aes.value.encIv, b));
    }
  }

  lemma SendBobKeeps(s: Setup, y: System, f: Frame)
    requires s.Sane() && s.Valid() && Inv(s, y)
    ensures Inv(s, y.(bob := BobSends(s, y.bob, f)))
  {
    hide Encrypt, ChainAfter, Synced, PtA, PtB, TxOk, ConsumedA, FrameBytes, FramesBytes, FrameOk, Setup.K, Setup.IvA,
         Setup.IvB,
         Setup.Msg1, Setup.Msg3, Setup.X, Setup.Y, Setup.Valid;
    var al, bob, bob2 := y.alice, y.bob, BobSends(s, y.bob, f);
    if bob.phase == OpenB && FrameOk(s.env.sum, f) {
      var b := FrameBytes(s.env.sum, f);
      MoreFramesB(s, bob, bob2, f);
      TxSend(s.env.cipher, s.K(), s.IvB(), s.Y(), PtB(s, bob), bob.sent, bob.codec.aes.value.encIv, b);
      AliceSeesMore(s, al, bob, bob2, y.toAlice, b, Encrypt(s.env.cipher, s.K(), bob.codec.aes.value.encIv, b));
    }
  }

  /** A stream that starts with head and goes on with frames, of which the first j
      have been passed on. */
  lemma FramesAhead(env: Env, pt: seq<byte>, head: seq<byte>, fs: seq<Frame>, got: seq<Frame>)
    requires pt == head + FramesBytes(env.sum, fs) && got <= fs && |head| % 16 == 0
    ensures var consumed := |head| + |FramesBytes(env.sum, got)|;
            && consumed <= |pt| && consumed % 16 == 0 && pt[consumed..] == FramesBytes(env.sum, fs[|got|..])
            && (|got| < |fs| ==>
                  |FramesBytes(env.sum, got + [fs[|got|]])|
                  == |FramesBytes(env.sum, got)| + |FrameBytes(env.sum, fs[|got|])|)
  {
    hide FrameBytes, FramesBytes;
    var j := |got|;
    assert got == fs[..j];
    FramesSplit(env.sum, fs, j);
    FramesWhole(env.sum, got);
    if j < |fs| { assert got + [fs[j]] == fs[..j + 1]; }
    var a, b := FramesBytes(env.sum, fs[..j]), FramesBytes(env.sum, fs[j..]);
    Assoc(head, a, b);
    assert (head + a + b)[|head| + |a|..] == b;
  }

  /** Where Alice stands in Bob's stream once she is open. */
  lemma AliceAhead(s: Setup, al: Alice, bob: Bob)
    requires s.Sane() && s.Valid() && al.phase == OpenA && bob.phase.Rank() >= 3 && bob.tsB < 0x1_0000_0000
    requires al.tsA == bob.tsA && al.tsB == bob.tsB && al.framesIn <= bob.framesOut
    ensures var n, rest := ConsumedA(s, al), bob.framesOut[|al.framesIn|..];
            && n <= |PtB(s, bob)| && n % 16 == 0 && PtB(s, bob)[n..] == FramesBytes(s.env.sum, rest)
            && (rest != [] ==>
                  ConsumedA(s, al.(framesIn := al.framesIn + [rest[0]])) == n + |FrameBytes(s.env.sum, rest[0])|)
  {
    hide FrameBytes, FramesBytes, PtB, Setup.Msg4, Setup.Inner2, Setup.Valid;
    BobHead(s, bob);
    FramesAhead(s.env, PtB(s, bob), s.Inner2(bob.tsB) + s.Msg4(bob.tsA, bob.tsB), bob.framesOut, al.framesIn);
  }

  lemma ReadAliceKeeps(s: Setup, y: System)
    requires s.Sane() && s.Valid() && Inv(s, y) && SystemWf(s, y)
    ensures Inv(s, y.(alice := AliceReads(s, y.alice)))
  {
    hide DecodeStep, Synced, PtA, PtB, TxOk, ConsumedA, ConsumedB, FrameBytes, FramesBytes, FrameOk, Setup.K,
         Setup.IvA, Setup.IvB,
         Setup.Msg1, Setup.Msg4, Setup.Inner2, BlockCipher.Valid, Honest;
    var al, bob, al2 := y.alice, y.bob, AliceReads(s, y.alice);
    if al.phase == OpenA {
      var c, k, iv, pt, n := s.env.cipher, s.K(), s.IvB(), PtB(s, bob), y.toAlice - 256;
      AliceAhead(s, al, bob);
      DecodeInStep(s.env.sum, c, k, iv, pt, n, ConsumedA(s, al), AliceRx(al), bob.framesOut[|al.framesIn|..]);
      PtASame(s, al, al2);
      ConsumedAOf(s, al.(framesIn := al2.framesIn), al2);
    }
  }

  lemma ConsumedAOf(s: Setup, al: Alice, al2: Alice)
    requires s.Sane() && al.phase == al2.phase && al.tsA == al2.tsA && al.tsB == al2.tsB && al.framesIn == al2.framesIn
    ensures ConsumedA(s, al) == ConsumedA(s, al2)
  {}

  lemma BobHead(s: Setup, bob: Bob)
    requires s.Sane() && s.Valid() && bob.phase.Rank() >= 3 && bob.tsB < 0x1_0000_0000
    ensures |s.Inner2(bob.tsB)| == 48 && |s.Msg4(bob.tsA, bob.tsB)| % 16 == 0
    ensures PtB(s, bob) == (s.Inner2(bob.tsB) + s.Msg4(bob.tsA, bob.tsB)) + FramesBytes(s.env.sum, bob.framesOut)
  {
    hide FramesBytes, Setup.Inner2, Setup.Msg4, Setup.Valid;
    InnerFacts(s, bob.tsB);
    Msg4Facts(s, bob.tsA, bob.tsB);
    Assoc(s.Inner2(bob.tsB), s.Msg4(bob.tsA, bob.tsB), FramesBytes(s.env.sum, bob.framesOut));
  }

  lemma ReadBobKeeps(s: Setup, y: System)
    requires s.Sane() && s.Valid() && Inv(s, y) && SystemWf(s, y)
    ensures Inv(s, y.(bob := BobReads(s, y.bob)))
  {
    hide DecodeStep, Synced, PtB, TxOk, ConsumedA, FrameBytes, FramesBytes, FrameOk, Setup.K, Setup.IvA, Setup.IvB,
         Setup.Msg1, Setup.Msg3, Setup.Inner2, BlockCipher.Valid, Honest;
    var al, bob := y.alice, y.bob;
    if bob.phase == OpenB {
      var c, k, iv, pt, n := s.env.cipher, s.K(), s.IvA(), PtA(s, al), y.toBob - 288;
      Msg3Facts(s, al.tsA, al.tsB);
      FramesAhead(s.env, pt, s.Msg3(al.tsA, al.tsB), al.framesOut, bob.framesIn);
      DecodeInStep(s.env.sum, c, k, iv, pt, n, ConsumedB(s, bob), BobRx(bob), al.framesOut[|bob.framesIn|..]);
      PtBSame(s, bob, BobReads(s, bob));
    }
  }

  /** A run of frames is at least as long as its first frame. */
  lemma FirstFrameFits(env: Env, pt: seq<byte>, consumed: nat, fs: seq<Frame>)
    requires consumed <= |pt| && pt[consumed..] == FramesBytes(env.sum, fs) && fs != []
    ensures consumed + |FrameBytes(env.sum, fs[0])| <= |pt|
  {
    hide FrameBytes;
    assert |FramesBytes(env.sum, fs)| == |FrameBytes(env.sum, fs[0])| + |FramesBytes(env.sum, fs[1..])|;
  }

  /** With all of Bob's bytes there, a read that yields Alice no frame means that she has
      had every frame. */
  lemma AliceReadsAll(s: Setup, y: System)
    requires s.Sane() && s.Valid() && Inv(s, y) && SystemWf(s, y)
    requires y.alice.phase == OpenA && y.toAlice == |y.bob.sent| && y.alice.framesIn != y.bob.framesOut
    ensures AliceReads(s, y.alice).framesIn == y.alice.framesIn + [y.bob.framesOut[|y.alice.framesIn|]]
  {
    hide DecodeStep, Synced, PtA, PtB, ConsumedA, ConsumedB, FrameBytes, FramesBytes, FrameOk, Encrypt, ChainAfter,
         Setup.K, Setup.IvA, Setup.IvB, Setup.X, Setup.Y, Setup.Msg1, Setup.Msg4, Setup.Inner2, BlockCipher.Valid,
         Honest;
    var al, bob := y.alice, y.bob;
    var rest := bob.framesOut[|al.framesIn|..];
    AliceAhead(s, al, bob);
    FirstFrameFits(s.env, PtB(s, bob), ConsumedA(s, al), rest);
    DecodeInStep(s.env.sum, s.env.cipher, s.K(), s.IvB(), PtB(s, bob), y.toAlice - 256, ConsumedA(s, al), AliceRx(al),
                 rest);
  }

  /** The same for Bob. */
  lemma BobReadsAll(s: Setup, y: System)
    requires s.Sane() && s.Valid() && Inv(s, y) && SystemWf(s, y)
    requires y.bob.phase == OpenB && y.toBob == |y.alice.sent| && y.bob.framesIn != y.alice.framesOut
    ensures BobReads(s, y.bob).framesIn == y.bob.framesIn + [y.alice.framesOut[|y.bob.framesIn|]]
  {
    hide DecodeStep, Synced, PtB, FrameBytes, FramesBytes, FrameOk, Encrypt, ChainAfter, ConsumedA,
         Setup.K, Setup.IvA, Setup.IvB, Setup.X, Setup.Y, Setup.Msg3, Setup.Inner2, BlockCipher.Valid, Honest;
    var al, bob := y.alice, y.bob;
    var rest := al.framesOut[|bob.framesIn|..];
    AliceSent(s, al);
    Msg3Facts(s, al.tsA, al.tsB);
    FramesAhead(s.env, PtA(s, al), s.Msg3(al.tsA, al.tsB), al.framesOut, bob.framesIn);
    FirstFrameFits(s.env, PtA(s, al), ConsumedB(s, bob), rest);
    DecodeInStep(s.env.sum, s.env.cipher, s.K(), s.IvA(), PtA(s, al), y.toBob - 288, ConsumedB(s, bob), BobRx(bob),
                 rest);
  }

  lemma PtBSame(s: Setup, bob: Bob, bob2: Bob)
    requires s.Sane() && bob.phase.Rank() >= 3 && bob2.phase.Rank() >= 3
    requires bob.tsA == bob2.tsA && bob.tsB == bob2.tsB && bob.framesOut == bob2.framesOut
    ensures PtB(s, bob) == PtB(s, bob2)
  {}

  // ---------- every run ----------

  lemma StartInv(s: Setup)
    requires s.Sane() && s.Valid()
    ensures Inv(s, Start(s))
  {
    hide Setup.X, Setup.Y, Setup.K, Setup.IvA, Setup.IvB, Setup.HX, Setup.Valid;
    assert [] + s.Msg1() == s.Msg1();
  }

  lemma StepKeeps(s: Setup, y: System, e: Event)
    requires s.Sane() && s.Valid() && Inv(s, y) && SystemWf(s, y)
    ensures Inv(s, Step(s, y, e))
  {
    hide Inv, AlicePoll, BobPoll, AliceSends, BobSends, AliceReads, BobReads, Setup.Valid, SystemWf;
    assert y.alice.phase != BrokenA && y.bob.phase != BrokenB && y.toAlice <= |y.bob.sent| && y.toBob <= |y.alice.sent|
    by { InvNotBroken(s, y); }
    match e
    case DeliverToAlice(count) => DeliverAliceKeeps(s, y, Min(y.toAlice + count, |y.bob.sent|));
    case DeliverToBob(count) => DeliverBobKeeps(s, y, Min(y.toBob + count, |y.alice.sent|));
    case PollAlice(ts, flushed) =>
      if y.alice.phase == AwaitingCreated { AlicePollCreatedKeeps(s, y, ts, flushed); }
      else if y.alice.phase == AwaitingConfirmB { AlicePollConfirmKeeps(s, y, ts, flushed); }
      else { FlushAliceKeeps(s, y, ts, flushed); }
    case PollBob(ts, flushed) =>
      if y.bob.phase == AwaitingRequest { BobPollRequestKeeps(s, y, ts, flushed); }
      else if y.bob.phase == AwaitingConfirmA { BobPollConfirmKeeps(s, y, ts, flushed); }
      else { FlushBobKeeps(s, y, ts, flushed); }
    case SendAlice(f) => SendAliceKeeps(s, y, f);
    case SendBob(f) => SendBobKeeps(s, y, f);
    case ReadAlice => ReadAliceKeeps(s, y);
    case ReadBob => ReadBobKeeps(s, y);
  }

  lemma InvNotBroken(s: Setup, y: System)
    requires s.Sane() && Inv(s, y)
    ensures y.alice.phase != BrokenA && y.bob.phase != BrokenB && y.toAlice <= |y.bob.sent| && y.toBob <= |y.alice.sent|
  {}

  lemma {:induction false} AgreementInvariant(s: Setup, es: seq<Event>)
    requires s.Sane() && s.Valid()
    ensures Inv(s, Run(s, es)) && SystemWf(s, Run(s, es))
  {
    hide Inv, Step, SystemWf, Setup.Valid;
    if es == [] {
      StartInv(s);
    } else {
      AgreementInvariant(s, es[..|es| - 1]);
      StepKeeps(s, Run(s, es[..|es| - 1]), es[|es| - 1]);
    }
    InvImpliesWf(s, Run(s, es));
  }

  /** The NTCP handshake. In every run of honest parties, whatever the chunking and
      the interleaving: neither side ever errs or panics; once both are open they
      hold one AES key and agree on X, Y and both timestamps, and Bob knows Alice;
      and the data frames each side has received are a prefix of those the other
      has sent, and all of them once everything sent has arrived and a read yields no
      more, what came in behind the handshake included. When everything sent has been
      received and decrypted, each side's decryption chain stands where the other's
      encryption chain does. */
  lemma HandshakeAgreement(s: Setup, es: seq<Event>)
    requires s.Valid()
    ensures s.Sane() && SystemWf(s, Run(s, es))
    ensures var y := Run(s, es);
            && (y.alice.phase == OpenA && y.toAlice == |y.bob.sent| &&
                AliceReads(s, y.alice).framesIn == y.alice.framesIn ==>
                  y.alice.framesIn == y.bob.framesOut)
            && (y.bob.phase == OpenB && y.toBob == |y.alice.sent| && BobReads(s, y.bob).framesIn == y.bob.framesIn ==>
                  y.bob.framesIn == y.alice.framesOut)
    ensures var y := Run(s, es);
            && y.alice.phase != BrokenA && y.bob.phase != BrokenB
            && y.alice.framesIn <= y.bob.framesOut && y.bob.framesIn <= y.alice.framesOut
            && (y.alice.phase == OpenA && y.bob.phase == OpenB ==>
                 && y.alice.codec.aes.Some? && y.bob.codec.aes.Some?
                 && y.alice.codec.aes.value.key == y.bob.codec.aes.value.key == s.K()
                 && y.alice.dhY == s.Y() && y.bob.dhX == s.X()
                 && y.alice.tsA == y.bob.tsA && y.alice.tsB == y.bob.tsB && y.bob.riRemote == Some(s.riA)
                 && (y.toAlice == |y.bob.sent| && |y.alice.buf| == y.alice.codec.decrypted ==>
                      y.alice.codec.aes.value.decIv == y.bob.codec.aes.value.encIv)
                 && (y.toBob == |y.alice.sent| && |y.bob.buf| == y.bob.codec.decrypted ==>
                      y.bob.codec.aes.value.decIv == y.alice.codec.aes.value.encIv))
  {
    hide Encrypt, ChainAfter, Setup.Valid, Setup.K, Setup.X, Setup.Y, Setup.IvA, Setup.IvB, Setup.Msg1, PtA, PtB,
         ConsumedA, ConsumedB, Run, FramesOk, AliceReads, BobReads, SystemWf;
    SaneFromValid(s);
    AgreementInvariant(s, es);
    var y := Run(s, es);
    if y.alice.phase == OpenA && y.toAlice == |y.bob.sent| && y.alice.framesIn != y.bob.framesOut {
      AliceReadsAll(s, y);
    }
    if y.bob.phase == OpenB && y.toBob == |y.alice.sent| && y.bob.framesIn != y.alice.framesOut { BobReadsAll(s, y); }
    if y.alice.phase == OpenA && y.bob.phase == OpenB {
      ChainsMeet(s.env.cipher, s.K(), s.IvB(), PtB(s, y.bob), s.Y(), y.bob.sent, y.bob.codec.aes.value.encIv,
                 y.toAlice, ConsumedA(s, y.alice), AliceRx(y.alice));
      ChainsMeet(s.env.cipher, s.K(), s.IvA(), PtA(s, y.alice), s.Msg1(), y.alice.sent, y.alice.codec.aes.value.encIv,
                 y.toBob, ConsumedB(s, y.bob), BobRx(y.bob));
    }
  }

  lemma ChainsMeet(c: BlockCipher, k: Key, iv: Block, pt: seq<byte>, prefix: seq<byte>, sent: seq<byte>, encIv: Block,
      n: nat, consumed: nat, rx: Rx)
    requires TxOk(c, k, iv, prefix, pt, sent, encIv) && n >= |prefix|
    requires Synced(c, k, iv, pt, n - |prefix|, consumed, rx)
    ensures n == |sent| && |rx.buf| == rx.decrypted ==> rx.decIv == encIv
  {
    hide ChainAfter;
    var ct := Encrypt(c, k, iv, pt);
    if n == |sent| && |rx.buf| == rx.decrypted { assert ct[..consumed + rx.decrypted] == ct; }
  }
}
