/**
 * The NTCP handshake cannot get stuck: once everything sent has arrived, one of the
 * two parties can always take its next step, however the bytes arrived before.
 */
module NtcpHandshakeProgress {
  import opened Bytes
  import opened Cbc
  import opened CbcStream
  import opened NtcpFrame
  import opened NtcpCodec
  import opened NtcpHandshakeFrame
  import opened NtcpHandshakeCodec
  import opened NtcpHandshake
  import opened NtcpHandshakeProof

  /** A party that waits for the other's confirmation has not yet decrypted all of it. */
  ghost predicate Undigested(s: Setup, al: Alice, bob: Bob)
    requires s.Sane()
  {
    && (1 <= bob.phase.Rank() <= 2 && al.phase.Rank() >= 2 ==> bob.codec.decrypted < |s.Msg3(al.tsA, al.tsB)|)
    && (2 <= al.phase.Rank() <= 3 && bob.phase.Rank() >= 3 ==> al.codec.decrypted < |s.Msg4(al.tsA, al.tsB)|)
  }

  // ---------- the invariant is kept ----------

  /** Before Alice confirms, Bob has nothing of hers to decrypt. */
  lemma BobHasNothing(s: Setup, al: Alice, bob: Bob, toBob: nat)
    requires s.Sane() && BobOk(s, bob) && BobInStep(s, al, bob, toBob) && al.phase.Rank() < 2
    requires 1 <= bob.phase.Rank() <= 2
    ensures bob.codec.decrypted == 0
  {
    hide Synced, TxOk, PtB, FramesOk, Setup.K, Setup.IvA, Setup.Msg3;
    SyncedShape(s.env.cipher, s.K(), s.IvA(), PtA(s, al), toBob - 288, ConsumedB(s, bob), BobRx(bob));
  }

  /** Before Bob confirms, Alice has nothing more of his to decrypt. */
  lemma AliceHasNothing(s: Setup, al: Alice, bob: Bob, toAlice: nat)
    requires s.Sane() && AliceOk(s, al) && BobOk(s, bob) && AliceInStep(s, al, bob, toAlice)
    requires 1 <= bob.phase.Rank() < 3 && 2 <= al.phase.Rank() <= 3
    ensures al.codec.decrypted == 0
  {
    hide Synced, TxOk, PtA, FramesOk, Setup.K, Setup.IvB, Setup.Msg4, Setup.Inner2;
    InnerFacts(s, bob.tsB);
    SyncedShape(s.env.cipher, s.K(), s.IvB(), PtB(s, bob), toAlice - 256, ConsumedA(s, al), AliceRx(al));
  }

  lemma AliceCreatedDigests(s: Setup, y: System, ts: nat)
    requires s.Sane() && s.Valid() && Inv(s, y) && SystemWf(s, y) && y.alice.phase == AwaitingCreated
    ensures var al2 := AlicePoll(s, y.alice, ts, true);
            && Undigested(s, al2, y.bob) && AlicePoll(s, y.alice, ts, false) == al2
            && (|y.alice.buf| >= 304 ==> al2.phase == Confirming)
  {
    hide Encrypt, ChainAfter, PtA, PtB, TxOk, FramesOk, Synced, ConsumedA, ConsumedB, Setup.Valid, Env.Hash, Setup.X,
         Setup.Y, Setup.K,
         Setup.IvA, Setup.IvB, Setup.Msg1, Setup.Msg3, Setup.Msg4, AliceConfirms, CreatedReceived;
    var al, bob := y.alice, y.bob;
    if |al.buf| >= 304 {
      AliceDecodesCreated(s, al, bob, y.toAlice);
      var decIv := ChainAfter(s.IvB(), CtB(s, bob)[..48]);
      var al1 := al.(codec := al.codec.(aes := Some(Chains(s.K(), s.IvA(), decIv)), state := ConfirmAState),
                     buf := al.buf[304..]);
      AliceAnswersCreated(s, al1, ts, bob.tsB, decIv);
      var al2 := AliceConfirms(s, al1, SessionCreated(s.Y(), s.env.Hash(s.X() + s.Y()), bob.tsB), ts);
      assert al2 == AlicePoll(s, al, ts, true);
      Msg3Facts(s, al2.tsA, al2.tsB);
      Msg4Facts(s, al2.tsA, al2.tsB);
      if 1 <= bob.phase.Rank() <= 2 { BobHasNothing(s, al, bob, y.toBob); }
    }
  }

  lemma AliceConfirmDigests(s: Setup, y: System, ts: nat)
    requires s.Sane() && s.Valid() && Inv(s, y) && SystemWf(s, y) && y.alice.phase == AwaitingConfirmB
    requires Undigested(s, y.alice, y.bob)
    ensures Undigested(s, AlicePoll(s, y.alice, ts, true), y.bob)
    ensures AlicePoll(s, y.alice, ts, false) == AlicePoll(s, y.alice, ts, true)
  {
    hide OutboundDecode, Synced, PtA, PtB, TxOk, FramesOk, ConsumedA, ConsumedB, FramesBytes, Setup.K, Setup.IvA,
         Setup.IvB,
         Setup.Msg1, Setup.Msg3, Setup.Msg4, Setup.Valid, SigMsg, Env.Hash, Setup.X, AliceOk, BobOk, BobInStep,
         AliceInStep;
    AliceDecodesConfirmB(s, y.alice, y.bob, y.toAlice);
  }

  /** Once all of Bob's bytes are there, Alice's decode yields his confirmation. */
  lemma ConfirmBArrives(s: Setup, al: Alice, bob: Bob, toAlice: nat)
    requires s.Sane() && s.Valid() && AliceOk(s, al) && BobOk(s, bob) && AliceInStep(s, al, bob, toAlice)
    requires Tied(al, bob)
    requires al.phase == AwaitingConfirmB && al.codec.decrypted <= |al.buf| && Undigested(s, al, bob)
    requires bob.phase.Rank() >= 3 && toAlice == |bob.sent|
    ensures !OutboundDecode(s.env, al.codec, al.buf).2.Nothing?
  {
    hide OutboundDecode, Synced, PtA, PtB, TxOk, FramesOk, ConsumedA, FramesBytes, Setup.K, Setup.IvA, Setup.IvB,
         Setup.Msg1, Setup.Msg4,
         Setup.Valid, Setup.SigMsgFor;
    AliceDecodesConfirmB(s, al, bob, toAlice);
    AllOfConfirmB(s, al, bob, toAlice);
    BlockGap(al.codec.decrypted, |s.Msg4(al.tsA, al.tsB)|);
    NoRoom(|al.buf|, OutboundDecode(s.env, al.codec, al.buf).0.decrypted, |s.Msg4(al.tsA, al.tsB)|);
  }

  /** With all whole blocks of a buffer decrypted, no message of whole blocks that the
      buffer holds is still incomplete. */
  lemma NoRoom(buf: nat, decrypted: nat, msg: nat)
    requires msg % 16 == 0 && msg <= buf
    ensures decrypted % 16 == 0 && buf - 16 < decrypted ==> msg <= decrypted
  {}

  lemma AllOfConfirmB(s: Setup, al: Alice, bob: Bob, toAlice: nat)
    requires s.Sane() && s.Valid() && AliceOk(s, al) && BobOk(s, bob) && AliceInStep(s, al, bob, toAlice)
    requires Tied(al, bob)
    requires al.phase == AwaitingConfirmB && bob.phase.Rank() >= 3 && toAlice == |bob.sent|
    ensures |al.buf| >= |s.Msg4(al.tsA, al.tsB)| && |al.buf| % 16 == 0 && al.codec.decrypted % 16 == 0
    ensures |s.Msg4(al.tsA, al.tsB)| % 16 == 0
  {
    hide Synced, PtA, PtB, FramesOk, FramesBytes, Encrypt, ChainAfter, Setup.K, Setup.IvA, Setup.IvB, Setup.X, Setup.Y,
         Setup.Msg1, Setup.Msg4, Setup.Valid;
    BobTail(s, bob);
    Msg4Facts(s, al.tsA, al.tsB);
    SyncedShape(s.env.cipher, s.K(), s.IvB(), PtB(s, bob), toAlice - 256, 48, AliceRx(al));
  }

  lemma BobRequestDigests(s: Setup, y: System, ts: nat)
    requires s.Sane() && s.Valid() && Inv(s, y) && SystemWf(s, y) && y.bob.phase == AwaitingRequest
    ensures var bob2 := BobPoll(s, y.bob, ts, true);
            && Undigested(s, y.alice, bob2) && BobPoll(s, y.bob, ts, false) == bob2
            && (|y.bob.buf| >= 288 ==> bob2.phase == Creating)
  {
    hide Encrypt, PtA, PtB, TxOk, FramesOk, Synced, ConsumedA, ConsumedB, Setup.Valid, Setup.X, Setup.Y, Setup.K,
         Setup.IvA, Setup.IvB,
         Setup.HX, Setup.Msg1, Setup.Msg3, Setup.Msg4, Setup.Inner2, BobCreates;
    var al, bob := y.alice, y.bob;
    if |bob.buf| >= 288 {
      BobDecodesRequest(s, al, bob, y.toBob);
      var bob1 := bob.(codec := bob.codec.(dhX := s.X(), ivDec := s.IvA(), state := CreatedState),
                       buf := bob.buf[288..]);
      BobAnswersRequest(s, bob1, ts);
      assert BobCreates(s, bob1, SessionRequest(s.X(), s.HX()), ts) == BobPoll(s, bob, ts, true);
    }
  }

  lemma BobConfirmDigests(s: Setup, y: System, ts: nat)
    requires s.Sane() && s.Valid() && Inv(s, y) && SystemWf(s, y) && y.bob.phase == AwaitingConfirmA
    requires Undigested(s, y.alice, y.bob)
    ensures Undigested(s, y.alice, BobPoll(s, y.bob, ts, true))
    ensures BobPoll(s, y.bob, ts, false) == BobPoll(s, y.bob, ts, true)
  {
    hide InboundDecode, Synced, PtA, PtB, TxOk, FramesOk, ConsumedA, FramesBytes, Setup.K, Setup.IvA, Setup.IvB,
         Encrypt,
         Setup.Msg1, Setup.Msg3, Setup.Msg4, Setup.SigMsgFor, Setup.Valid, BobConfirms;
    var al, bob := y.alice, y.bob;
    BobDecodesConfirmA(s, al, bob, y.toBob);
    if 2 <= al.phase.Rank() <= 3 {
      AliceHasNothing(s, al, bob, y.toAlice);
      Msg4Facts(s, al.tsA, al.tsB);
    }
    var (cd, buf, o) := InboundDecode(s.env, bob.codec, bob.buf);
    if !o.Nothing? { BobAnswersConfirm(s, bob, bob.(codec := cd, buf := buf), al.tsA); }
  }

  /** Once all of Alice's bytes are there, Bob's decode yields her confirmation. */
  lemma ConfirmAArrives(s: Setup, al: Alice, bob: Bob, toBob: nat)
    requires s.Sane() && s.Valid() && AliceOk(s, al) && BobOk(s, bob) && BobInStep(s, al, bob, toBob) && Tied(al, bob)
    requires bob.phase == AwaitingConfirmA && bob.codec.decrypted <= |bob.buf| && Undigested(s, al, bob)
    requires al.phase.Rank() >= 2 && toBob == |al.sent|
    ensures !InboundDecode(s.env, bob.codec, bob.buf).2.Nothing?
  {
    hide InboundDecode, Synced, PtA, PtB, TxOk, FramesOk, ConsumedB, FramesBytes, Setup.K, Setup.IvA, Setup.IvB,
         Setup.Msg1, Setup.Msg3,
         Setup.Valid, Setup.SigMsgFor;
    BobDecodesConfirmA(s, al, bob, toBob);
    AllOfConfirmA(s, al, bob, toBob);
    BlockGap(bob.codec.decrypted, |s.Msg3(al.tsA, al.tsB)|);
    NoRoom(|bob.buf|, InboundDecode(s.env, bob.codec, bob.buf).0.decrypted, |s.Msg3(al.tsA, al.tsB)|);
  }

  lemma AllOfConfirmA(s: Setup, al: Alice, bob: Bob, toBob: nat)
    requires s.Sane() && s.Valid() && AliceOk(s, al) && BobOk(s, bob) && BobInStep(s, al, bob, toBob)
    requires bob.phase == AwaitingConfirmA && al.phase.Rank() >= 2 && toBob == |al.sent|
    ensures |bob.buf| >= |s.Msg3(al.tsA, al.tsB)| && |bob.buf| % 16 == 0 && bob.codec.decrypted % 16 == 0
    ensures |s.Msg3(al.tsA, al.tsB)| % 16 == 0
  {
    hide Synced, PtB, FramesOk, FramesBytes, Encrypt, ChainAfter, Setup.K, Setup.IvA, Setup.IvB, Setup.X, Setup.Y,
         Setup.Msg3, Setup.Valid;
    AliceSent(s, al);
    Msg3Facts(s, al.tsA, al.tsB);
    SyncedShape(s.env.cipher, s.K(), s.IvA(), PtA(s, al), toBob - 288, 0, BobRx(bob));
  }

  lemma StepDigests(s: Setup, y: System, e: Event)
    requires s.Sane() && s.Valid() && Inv(s, y) && SystemWf(s, y) && Undigested(s, y.alice, y.bob)
    ensures Undigested(s, Step(s, y, e).alice, Step(s, y, e).bob)
  {
    hide Inv, Setup.Valid, SystemWf, OutboundDecode, InboundDecode, AliceConfirms, BobCreates, BobConfirms, DecodeStep,
         DataSent,
         Setup.Msg3, Setup.Msg4, FrameOk, Env.Hash, SigMsg, IdentityBytes, Setup.X, Setup.Y;
    assert AliceWf(s, y.alice) && BobWf(s, y.bob) by { WfParts(s, y); }
    InvNotBroken(s, y);
    match e
    case PollAlice(ts, flushed) =>
      if y.alice.phase == AwaitingCreated { AliceCreatedDigests(s, y, ts); }
      else if y.alice.phase == AwaitingConfirmB { AliceConfirmDigests(s, y, ts); }
    case PollBob(ts, flushed) =>
      if y.bob.phase == AwaitingRequest { BobRequestDigests(s, y, ts); }
      else if y.bob.phase == AwaitingConfirmA { BobConfirmDigests(s, y, ts); }
    case _ =>
  }

  lemma WfParts(s: Setup, y: System)
    requires SystemWf(s, y)
    ensures AliceWf(s, y.alice) && BobWf(s, y.bob)
  {}

  lemma {:induction false} DigestInvariant(s: Setup, es: seq<Event>)
    requires s.Sane() && s.Valid()
    ensures Inv(s, Run(s, es)) && SystemWf(s, Run(s, es)) && Undigested(s, Run(s, es).alice, Run(s, es).bob)
  {
    hide Inv, Step, SystemWf, Setup.Valid, Undigested;
    AgreementInvariant(s, es);
    if es == [] {
      NothingYet(s);
    } else {
      DigestInvariant(s, es[..|es| - 1]);
      StepDigests(s, Run(s, es[..|es| - 1]), es[|es| - 1]);
    }
  }

  lemma NothingYet(s: Setup)
    requires s.Sane() && s.Valid()
    ensures Undigested(s, Start(s).alice, Start(s).bob)
  {
    hide OutboundEncode, Setup.Valid, Setup.Msg3, Setup.Msg4;
  }

  // ---------- someone can always move ----------

  /** In every state a run can reach, once both pipes have been emptied: either both
      sides are open, or a poll moves one of them to its next phase. */
  lemma HandshakeNeverStalls(s: Setup, es: seq<Event>, ts: nat)
    requires s.Valid()
    ensures s.Sane() && SystemWf(s, Run(s, es))
    ensures var y := Run(s, es);
            y.toAlice == |y.bob.sent| && y.toBob == |y.alice.sent|
            && !(y.alice.phase == OpenA && y.bob.phase == OpenB) ==>
              || AlicePoll(s, y.alice, ts, true).phase.Rank() == y.alice.phase.Rank() + 1
              || BobPoll(s, y.bob, ts, true).phase.Rank() == y.bob.phase.Rank() + 1
  {
    hide Inv, SystemWf, Setup.Valid, Undigested, Run, AlicePoll, BobPoll;
    SaneFromValid(s);
    DigestInvariant(s, es);
    var y := Run(s, es);
    if y.toAlice == |y.bob.sent| && y.toBob == |y.alice.sent| && !(y.alice.phase == OpenA && y.bob.phase == OpenB) {
      Moves(s, y, ts);
    }
  }

  lemma Moves(s: Setup, y: System, ts: nat)
    requires s.Sane() && s.Valid() && Inv(s, y) && SystemWf(s, y) && Undigested(s, y.alice, y.bob)
    requires y.toAlice == |y.bob.sent| && y.toBob == |y.alice.sent| && !(y.alice.phase == OpenA && y.bob.phase == OpenB)
    ensures || AlicePoll(s, y.alice, ts, true).phase.Rank() == y.alice.phase.Rank() + 1
            || BobPoll(s, y.bob, ts, true).phase.Rank() == y.bob.phase.Rank() + 1
  {
    hide Setup.Valid, SystemWf, OutboundDecode, InboundDecode, AliceConfirms, BobCreates, BobConfirms, Undigested,
         Setup.Msg3, Setup.Msg4, Env.Hash, SigMsg, IdentityBytes, Setup.X, Setup.Y, AliceOk, BobOk,
         AliceInStep, BobInStep;
    assert AliceWf(s, y.alice) && BobWf(s, y.bob) by { WfParts(s, y); }
    InvNotBroken(s, y);
    var al, bob := y.alice, y.bob;
    if bob.phase == AwaitingRequest {
      if al.phase == AwaitingCreated {
        BobRequestDigests(s, y, ts);
        RequestArrived(s, y);
      }
    } else if al.phase == AwaitingCreated {
      AliceCreatedDigests(s, y, ts);
      CreatedArrived(s, y);
    } else if bob.phase == AwaitingConfirmA && al.phase == AwaitingConfirmB {
      BobPollConfirmKeeps(s, y, ts, true);
      NextForBob(s, y, ts);
    } else if bob.phase == OpenB && al.phase == AwaitingConfirmB {
      AlicePollConfirmKeeps(s, y, ts, true);
      NextForAlice(s, y, ts);
    }
  }

  lemma NextForBob(s: Setup, y: System, ts: nat)
    requires s.Sane() && s.Valid() && Inv(s, y) && SystemWf(s, y) && Undigested(s, y.alice, y.bob)
    requires y.bob.phase == AwaitingConfirmA && y.alice.phase.Rank() >= 2 && y.toBob == |y.alice.sent|
    requires Inv(s, y.(bob := BobPoll(s, y.bob, ts, true)))
    ensures BobPoll(s, y.bob, ts, true).phase == ConfirmingB
  {
    hide InboundDecode, InboundEncode, Env.Hash, SigMsg, Setup.Valid, AliceOk, BobOk, AliceInStep, BobInStep,
         Undigested;
    ConfirmAArrives(s, y.alice, y.bob, y.toBob);
    InvNotBroken(s, y.(bob := BobPoll(s, y.bob, ts, true)));
  }

  lemma NextForAlice(s: Setup, y: System, ts: nat)
    requires s.Sane() && s.Valid() && Inv(s, y) && SystemWf(s, y) && Undigested(s, y.alice, y.bob)
    requires y.alice.phase == AwaitingConfirmB && y.bob.phase.Rank() >= 3 && y.toAlice == |y.bob.sent|
    requires Inv(s, y.(alice := AlicePoll(s, y.alice, ts, true)))
    ensures AlicePoll(s, y.alice, ts, true).phase == OpenA
  {
    hide OutboundDecode, Env.Hash, SigMsg, Setup.Valid, AliceOk, BobOk, AliceInStep, BobInStep, Undigested;
    ConfirmBArrives(s, y.alice, y.bob, y.toAlice);
    InvNotBroken(s, y.(alice := AlicePoll(s, y.alice, ts, true)));
  }

  lemma RequestArrived(s: Setup, y: System)
    requires s.Sane() && Inv(s, y) && y.bob.phase == AwaitingRequest && y.toBob == |y.alice.sent|
    ensures |y.bob.buf| >= 288
  {
    hide Encrypt, PtA, FramesOk, Setup.K, Setup.IvA, Setup.X, Setup.HX;
    AliceSent(s, y.alice);
  }

  lemma CreatedArrived(s: Setup, y: System)
    requires s.Sane() && s.Valid() && Inv(s, y) && y.alice.phase == AwaitingCreated && y.bob.phase.Rank() >= 1
    requires y.toAlice == |y.bob.sent|
    ensures |y.alice.buf| >= 304
  {
    hide Encrypt, ChainAfter, PtA, PtB, FramesOk, Setup.K, Setup.IvB, Setup.X, Setup.Y, Setup.Valid;
    BobTail(s, y.bob);
  }
}
