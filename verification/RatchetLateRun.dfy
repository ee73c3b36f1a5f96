/** A concrete conversation in which a late message of an older chain does harm: the run is an ordinary one
    up to that delivery, and afterwards a message that would have been readable is lost. */
module RatchetLateRun {
  import opened Basics
  import opened RatchetKeys
  import opened Ratchet
  import opened RatchetProtocol
  import opened RatchetRuns
  import opened RatchetDivergence

  /** Epoch e starts from this root; private keys are Alice 1, Bob 2, then 3, 4 and 5 as generated. */
  const ROOT_0: Key := SharedSecret(0)
  const ROOT_1: Key := RootKey(ROOT_0, DhOutput(1, 2))
  const ROOT_2: Key := RootKey(ROOT_1, DhOutput(1, 3))
  const ROOT_3: Key := RootKey(ROOT_2, DhOutput(3, 4))
  const ROOT_4: Key := RootKey(ROOT_3, DhOutput(4, 5))
  const CHAIN_0: Key := ChainKey(ROOT_0, DhOutput(1, 2))
  const CHAIN_1: Key := ChainKey(ROOT_1, DhOutput(1, 3))
  const CHAIN_2: Key := ChainKey(ROOT_2, DhOutput(3, 4))
  const CHAIN_3: Key := ChainKey(ROOT_3, DhOutput(4, 5))

  function Wrapped(ck: Key, n: nat, prevLen: nat, priv: Priv): Packet {
    var header := Header(n, prevLen, Pub(priv), []);
    Packet(header, Sealed(MessageKey(ck), 0, [], header), [])
  }

  const FIRST: Packet := Wrapped(CHAIN_0, 0, 0, 1)
  const SECOND: Packet := Wrapped(NextChain(CHAIN_0), 1, 0, 1)
  const REPLY: Packet := Wrapped(CHAIN_1, 0, 0, 3)
  const THIRD: Packet := Wrapped(CHAIN_2, 0, 2, 4)
  const FOURTH: Packet := Wrapped(NextChain(CHAIN_2), 1, 2, 4)

  function Epochs0(sent: seq<Packet>): seq<Epoch> { [Epoch(ROOT_0, 2, 1, sent)] }
  function Epochs1(sent: seq<Packet>): seq<Epoch> { Epochs0([FIRST, SECOND]) + [Epoch(ROOT_1, 1, 3, sent)] }
  function Epochs2(sent: seq<Packet>): seq<Epoch> { Epochs1([REPLY]) + [Epoch(ROOT_2, 3, 4, sent)] }
  function Epochs3(): seq<Epoch> { Epochs2([THIRD, FOURTH]) + [Epoch(ROOT_3, 4, 5, [])] }

  /** Alice on her first chain with n messages sent, and on her second one. */
  function AliceFirst(ck: Key, n: nat): Session {
    State(Some(1), Some(Pub(2)), Some(ROOT_1), Some(ck), None, n, 0, 0, map[], [])
  }
  function AliceSecond(ck: Key, n: nat): Session {
    State(Some(4), Some(Pub(3)), Some(ROOT_3), Some(ck), Some(NextChain(CHAIN_1)), n, 1, 2, map[], [])
  }

  const WAITING: Slot<Pub> := Slot(Pub(1), 0)
  const HELD: map<Slot<Pub>, Key> := map[WAITING := MessageKey(CHAIN_0)]

  /** Bob before anything, after the second message, after his reply, and after the third message. */
  const BOB_0: Session := State(Some(2), Some(Pub(1)), Some(ROOT_1), None, Some(CHAIN_0), 0, 0, 0, map[], [])
  const BOB_1: Session :=
    State(Some(2), Some(Pub(1)), Some(ROOT_1), None, Some(NextChain(NextChain(CHAIN_0))), 0, 2, 0, HELD, [WAITING])
  const BOB_2: Session :=
    State(Some(3), Some(Pub(1)), Some(ROOT_2), Some(NextChain(CHAIN_1)), Some(NextChain(NextChain(CHAIN_0))), 1, 2, 0, HELD, [WAITING])
  const BOB_3: Session :=
    State(Some(5), Some(Pub(4)), Some(ROOT_4), Some(CHAIN_3), Some(NextChain(CHAIN_2)), 0, 1, 1, HELD, [WAITING])

  function At(i: nat): System
    requires i <= 8
  {
    match i
    case 0 => System(AliceFirst(CHAIN_0, 0), BOB_0, Epochs0([]), {})
    case 1 => System(AliceFirst(NextChain(CHAIN_0), 1), BOB_0, Epochs0([FIRST]), {})
    case 2 => System(AliceFirst(NextChain(NextChain(CHAIN_0)), 2), BOB_0, Epochs0([FIRST, SECOND]), {})
    case 3 => System(AliceFirst(NextChain(NextChain(CHAIN_0)), 2), BOB_1, Epochs0([FIRST, SECOND]), {MessageId(0, 1)})
    case 4 => System(AliceFirst(NextChain(NextChain(CHAIN_0)), 2), BOB_2, Epochs1([REPLY]), {MessageId(0, 1)})
    case 5 => System(AliceSecond(CHAIN_2, 0), BOB_2, Epochs2([]), {MessageId(0, 1), MessageId(1, 0)})
    case 6 => System(AliceSecond(NextChain(CHAIN_2), 1), BOB_2, Epochs2([THIRD]), {MessageId(0, 1), MessageId(1, 0)})
    case 7 => System(AliceSecond(NextChain(NextChain(CHAIN_2)), 2), BOB_2, Epochs2([THIRD, FOURTH]), {MessageId(0, 1), MessageId(1, 0)})
    case _ => System(AliceSecond(NextChain(NextChain(CHAIN_2)), 2), BOB_3, Epochs3(), {MessageId(0, 1), MessageId(1, 0), MessageId(2, 0)})
  }

  function Step(i: nat): Event {
    match i
    case 0 => Send(Alice, [], 0, 3)
    case 1 => Send(Alice, [], 0, 3)
    case 2 => Deliver(MessageId(0, 1), 3)
    case 3 => Send(Bob, [], 0, 3)
    case 4 => Deliver(MessageId(1, 0), 4)
    case 5 => Send(Alice, [], 0, 5)
    case 6 => Send(Alice, [], 0, 5)
    case _ => Deliver(MessageId(2, 0), 5)
  }

  // ---- what the sessions do ----

  lemma AliceSendsFirst(ck: Key, n: nat)
    requires n < U32
    ensures var p := Wrapped(ck, n, 0, 1);
      Encrypt(AliceFirst(ck, n), [], 0, 3) == Effect(AliceFirst(NextChain(ck), n + 1), Ok((p.header, p.body)))
  {}

  lemma AliceSendsSecond(ck: Key, n: nat)
    requires n < U32
    ensures var p := Wrapped(ck, n, 2, 4);
      Encrypt(AliceSecond(ck, n), [], 0, 5) == Effect(AliceSecond(NextChain(ck), n + 1), Ok((p.header, p.body)))
  {}

  lemma BobReadsSecond()
    ensures Decrypt(BOB_0, SECOND.header, SECOND.body, 3) == Effect(BOB_1, Ok([]))
  {}

  lemma BobReplies()
    ensures Encrypt(BOB_1, [], 0, 3) == Effect(BOB_2, Ok((REPLY.header, REPLY.body)))
  {}

  lemma AliceReadsReply()
    ensures Decrypt(AliceFirst(NextChain(NextChain(CHAIN_0)), 2), REPLY.header, REPLY.body, 4)
         == Effect(AliceSecond(CHAIN_2, 0), Ok([]))
  {}

  lemma BobReadsThird()
    ensures Decrypt(BOB_2, THIRD.header, THIRD.body, 5) == Effect(BOB_3, Ok([]))
  {}

  // ---- what the system does ----

  lemma Sends(sys: System, p: Party, newPriv: Priv, s: Session, packet: Packet)
    requires |sys.epochs| > 0 && SessionOf(sys, p).sendKey.Some? && packet.plaintext == []
    requires Encrypt(SessionOf(sys, p), [], 0, newPriv) == Effect(s, Ok((packet.header, packet.body)))
    ensures Next(sys, Send(p, [], 0, newPriv)) == WithSession(sys, p, s).(epochs := Record(sys.epochs, NewestOf(sys.epochs, p), packet))
  {}

  lemma Reads(sys: System, id: MessageId, newPriv: Priv, packet: Packet, s: Session)
    requires |sys.epochs| > 0 && Sent(sys, id) && PacketOf(sys, id) == packet
    requires Decrypt(SessionOf(sys, Receiver(id)), packet.header, packet.body, newPriv) == Effect(s, Ok([]))
    requires packet.header.Header?
    ensures var p := Receiver(id);
      Next(sys, Deliver(id, newPriv)) ==
        if SessionOf(sys, p).dhRemote == Some(packet.header.pub)
        then WithSession(sys, p, s).(got := sys.got + {id})
        else WithSession(sys, p, s).(epochs := sys.epochs + [NextEpoch(sys.epochs, newPriv)], got := sys.got + {id})
  {}

  lemma EnabledAt(i: nat)
    requires i < 8
    ensures |At(i).epochs| > 0 && Enabled(At(i), Step(i))
  {
    if i == 2 {
      Enabled2();
    } else if i == 4 {
      Enabled4();
    } else if i == 7 {
      Enabled7();
    }
  }

  lemma Enabled2()
    ensures Enabled(At(2), Step(2))
  {}

  lemma Enabled4()
    ensures Enabled(At(4), Step(4))
  {}

  lemma Enabled7()
    ensures Enabled(At(7), Step(7))
  {}

  lemma Step0()
    ensures Next(At(0), Step(0)) == At(1)
  {
    AliceSendsFirst(CHAIN_0, 0);
    Sends(At(0), Alice, 3, AliceFirst(NextChain(CHAIN_0), 1), FIRST);
    assert [] + [FIRST] == [FIRST];
  }

  lemma Step1()
    ensures Next(At(1), Step(1)) == At(2)
  {
    AliceSendsFirst(NextChain(CHAIN_0), 1);
    Sends(At(1), Alice, 3, AliceFirst(NextChain(NextChain(CHAIN_0)), 2), SECOND);
    assert [FIRST] + [SECOND] == [FIRST, SECOND];
  }

  lemma Step2()
    ensures |At(2).epochs| > 0 && Sent(At(2), MessageId(0, 1)) && Next(At(2), Step(2)) == At(3)
  {
    BobReadsSecond();
    Reads(At(2), MessageId(0, 1), 3, SECOND, BOB_1);
  }

  lemma Step3()
    ensures Next(At(3), Step(3)) == At(4)
  {
    BobReplies();
    assert [] + [REPLY] == [REPLY];
  }

  lemma Step4()
    ensures |At(4).epochs| > 0 && Sent(At(4), MessageId(1, 0)) && Next(At(4), Step(4)) == At(5)
  {
    AliceReadsReply();
    Reads(At(4), MessageId(1, 0), 4, REPLY, AliceSecond(CHAIN_2, 0));
    assert NextEpoch(At(4).epochs, 4) == Epoch(ROOT_2, 3, 4, []);
  }

  lemma Step5()
    ensures Next(At(5), Step(5)) == At(6)
  {
    AliceSendsSecond(CHAIN_2, 0);
    Sends(At(5), Alice, 5, AliceSecond(NextChain(CHAIN_2), 1), THIRD);
    assert [] + [THIRD] == [THIRD];
  }

  lemma Step6()
    ensures Next(At(6), Step(6)) == At(7)
  {
    AliceSendsSecond(NextChain(CHAIN_2), 1);
    Sends(At(6), Alice, 5, AliceSecond(NextChain(NextChain(CHAIN_2)), 2), FOURTH);
    assert [THIRD] + [FOURTH] == [THIRD, FOURTH];
  }

  lemma Step7()
    ensures |At(7).epochs| > 0 && Sent(At(7), MessageId(2, 0)) && Next(At(7), Step(7)) == At(8)
  {
    BobReadsThird();
    Reads(At(7), MessageId(2, 0), 5, THIRD, BOB_3);
    assert NextEpoch(At(7).epochs, 5) == Epoch(ROOT_3, 4, 5, []);
  }

  function From(i: nat): seq<Event>
    requires i <= 8
    decreases 8 - i
  {
    if i == 8 then [] else [Step(i)] + From(i + 1)
  }

  lemma {:induction false} RunFrom(i: nat)
    requires i <= 8
    ensures ValidRun(At(i), From(i)) && RunTo(At(i), From(i)) == At(8)
    decreases 8 - i
  {
    if i < 8 {
      StepHolds(i);
      RunFrom(i + 1);
      assert From(i)[0] == Step(i) && From(i)[1..] == From(i + 1);
    }
  }

  lemma StepHolds(i: nat)
    requires i < 8
    ensures |At(i).epochs| > 0 && Enabled(At(i), Step(i)) && Next(At(i), Step(i)) == At(i + 1)
  {
    EnabledAt(i);
    match i
    case 0 => Step0();
    case 1 => Step1();
    case 2 => Step2();
    case 3 => Step3();
    case 4 => Step4();
    case 5 => Step5();
    case 6 => Step6();
    case _ => Step7();
  }

  /** Messages two and three have arrived and the first is still on its way. Message four would be read
      if it came next; but if the first comes before it, the first is read and message four is lost. */
  lemma LateMessageLosesNext()
    ensures var start, first, fourth := Start(SharedSecret(0), 1, 2), MessageId(0, 0), MessageId(2, 1);
      && ValidRun(start, From(0))
      && var sys := RunTo(start, From(0));
      && Sent(sys, first) && Sent(sys, fourth)
      && Delivery(sys, fourth, 6).result.Ok?
      && Delivery(sys, first, 6).result.Ok?
      && var packet := PacketOf(sys, fourth);
      && Decrypt(Delivery(sys, first, 6).state, packet.header, packet.body, 7).result.Err?
  {
    RunFrom(0);
    StartIsAt0();
    StartSynced(SharedSecret(0), 1, 2);
    RunKeepsSynced(At(0), From(0));
    EndIsLate();
    LateDeliveryEndsChain(At(8), MessageId(0, 0), 2, 6, 1, 7);
    LateMessageDecrypts(At(8), MessageId(0, 0), 2, 6);
    FirstDelivery(At(8), MessageId(2, 1), 6);
  }

  lemma StartIsAt0()
    ensures Start(SharedSecret(0), 1, 2) == At(0)
  {}

  lemma EndShape()
    ensures var sys := At(8);
      && |sys.epochs| == 4 && sys.bob == BOB_3 && sys.epochs[0].sent == [FIRST, SECOND] && sys.epochs[2].sent == [THIRD, FOURTH]
      && sys.got == {MessageId(0, 1), MessageId(1, 0), MessageId(2, 0)} && !Known(sys.epochs, 6)
  {}

  lemma EndIsLate()
    requires Synced(At(8))
    ensures LateDelivery(At(8), MessageId(0, 0), 2) && Enabled(At(8), Deliver(MessageId(2, 1), 6))
    ensures |At(8).epochs| > 2 && |At(8).epochs[2].sent| == 2 && SessionOf(At(8), Bob).recvNum == 1
    ensures PacketOf(At(8), MessageId(0, 0)).header.prevLen == 0 && MessageId(2, 1) !in At(8).got
  {
    EndShape();
    ShapeIsLate(At(8));
  }

  lemma ShapeIsLate(sys: System)
    requires Synced(sys) && |sys.epochs| == 4 && sys.bob == BOB_3
    requires sys.epochs[0].sent == [FIRST, SECOND] && sys.epochs[2].sent == [THIRD, FOURTH]
    requires sys.got == {MessageId(0, 1), MessageId(1, 0), MessageId(2, 0)} && !Known(sys.epochs, 6)
    ensures LateDelivery(sys, MessageId(0, 0), 2) && Enabled(sys, Deliver(MessageId(2, 1), 6))
  {}
}
