/** The persistence layer of services/ratchet_service.py: load, operate, buffer; flush to the database
    later. Loading reads only the database and forgets the eviction queue, so the service behaves like one
    in-memory session per friend only with a flush between two operations on the same friend, and only
    while nothing has to be evicted. */
module RatchetPersistence {
  import opened Basics
  import opened RatchetKeys
  import opened Ratchet
  import opened RatchetEviction
  import RatchetBounds

  /** The `friends` table (a row may hold no session) and the write-back buffer. */
  datatype Store = Store(friends: map<string, Option<Session>>, dirty: map<string, Session>)

  datatype Failure = NotFound | OperationFailed(error: Error)

  datatype Reply<+T> = Reply(value: T) | Failed(failure: Failure)

  datatype Served<+T> = Served(store: Store, reply: Reply<T>)

  function Load(store: Store, friend: string): Option<Session> {
    if friend in store.friends && store.friends[friend].Some? then Some(Forgot(store.friends[friend].value)) else None
  }

  /** Run an operation on the loaded session; buffer the new state only if it succeeded. */
  function Serve<T>(store: Store, friend: string, op: Session -> Effect<T>): Served<T> {
    var loaded := Load(store, friend);
    if loaded.None? then Served(store, Failed(NotFound))
    else
      var r := op(loaded.value);
      match r.result
      case Err(e) => Served(store, Failed(OperationFailed(e)))
      case Ok(v) => Served(store.(dirty := store.dirty[friend := r.state]), Reply(v))
  }

  function EncryptCall(plaintext: Bytes, nonce: nat, newPriv: Priv): Session -> Effect<(Header, Ciphertext)> {
    s => Encrypt(s, plaintext, nonce, newPriv)
  }

  function DecryptCall(header: Header, c: Ciphertext, newPriv: Priv): Session -> Effect<Bytes> {
    s => Decrypt(s, header, c, newPriv)
  }

  /** What saving one buffered state does to the table: an update of a row that is gone changes nothing. */
  function SaveRow(friends: map<string, Option<Session>>, friend: string, s: Session): map<string, Option<Session>> {
    if friend in friends then friends[friend := Some(s)] else friends
  }

  /** The table after saving every buffered state whose write does not fail. */
  function SavedRows(store: Store, failing: set<string>): map<string, Option<Session>> {
    map f | f in store.friends ::
      if f in store.dirty && f !in failing then Some(store.dirty[f]) else store.friends[f]
  }

  function Unsaved(dirty: map<string, Session>, failing: set<string>): map<string, Session> {
    map f | f in dirty && f in failing :: dirty[f]
  }

  /** A flush with no interleaved operation. */
  function Flushed(store: Store, failing: set<string>): Store {
    Store(SavedRows(store, failing), Unsaved(store.dirty, failing))
  }

  /** A flush during which other threads buffer `marks` after the buffer was taken and before the
      failed entries are put back. */
  function FlushedDuring(store: Store, failing: set<string>, marks: map<string, Session>): Store {
    Store(SavedRows(store, failing), marks + Unsaved(store.dirty, failing))
  }

  // ---- the session a friend really has ----

  /** The newest state of a friend's session, buffered or stored, as it would be loaded. */
  function Newest(store: Store, friend: string): Option<Session> {
    if friend in store.dirty then Some(Forgot(store.dirty[friend])) else Load(store, friend)
  }

  /** What one in-memory session does, its eviction queue included; a failed operation is undone. */
  function Expected<T>(session: Option<Session>, op: Session -> Effect<T>): (Option<Session>, Reply<T>) {
    if session.None? then (None, Failed(NotFound))
    else
      var r := op(session.value);
      match r.result
      case Err(e) => (session, Failed(OperationFailed(e)))
      case Ok(v) => (Some(r.state), Reply(v))
  }

  /** No session on either side, or the same one up to the eviction queue. */
  predicate Alike(a: Option<Session>, b: Option<Session>) {
    if a.Some? && b.Some? then Same(a.value, b.value) else a.None? && b.None?
  }

  /** The operation does not notice that the session forgot its queue. */
  ghost predicate Unaffected<T>(session: Option<Session>, op: Session -> Effect<T>) {
    session.Some? ==> Agree(op(session.value), op(Forgot(session.value)))
  }

  /** The service's answer and its new session are those of the in-memory session. */
  ghost predicate AnswersAlike<T>(store: Store, friend: string, session: Option<Session>, op: Session -> Effect<T>) {
    var served, expected := Serve(store, friend, op), Expected(session, op);
    served.reply == expected.1 && Alike(Newest(served.store, friend), expected.0)
  }

  /** With nothing buffered for the friend, the service answers and moves as the in-memory session does if and
      only if the operation does not depend on the eviction queue. A failure changes nothing, and other
      friends are untouched. */
  lemma ServeRefinesSession<T>(store: Store, friend: string, op: Session -> Effect<T>, session: Option<Session>, other: string)
    requires friend !in store.dirty && Alike(Newest(store, friend), session)
    ensures AnswersAlike(store, friend, session, op) <==> Unaffected(session, op)
    ensures var served := Serve(store, friend, op);
      && (other != friend ==> Newest(served.store, other) == Newest(store, other))
      && (served.reply.Failed? ==> served.store == store)
  {
    if session.Some? {
      assert Newest(store, friend).value == Forgot(session.value);
    }
  }

  /** Sealing twice from the same session state: the same key, and the same header, exactly if the state has a
      sending chain already or both draw the same key pair for a new one. Only the nonces can tell the
      ciphertexts' keystreams apart then. */
  lemma SameStateKey(s: Session, p1: Bytes, n1: nat, k1: Priv, p2: Bytes, n2: nat, k2: Priv)
    requires Encrypt(s, p1, n1, k1).result.Ok?
    ensures var a, b := Encrypt(s, p1, n1, k1).result, Encrypt(s, p2, n2, k2).result;
      && b.Ok? && a.value.1.Sealed? && b.value.1.Sealed?
      && (b.value.1.key == a.value.1.key <==> s.sendKey.Some? || k1 == k2)
      && (b.value.0 == a.value.0 <==> s.sendKey.Some? || k1 == k2)
      && a.value.1.nonce == n1 && b.value.1.nonce == n2
  {
    if s.sendKey.None? {
      ExchangeDistinguishes(k1, k2, s.dhRemote.value);
    }
  }

  /** Sealed under the same key with the same nonce. */
  predicate SameKeystream(a: Ciphertext, b: Ciphertext) {
    a.Sealed? && b.Sealed? && a.key == b.key && a.nonce == b.nonce
  }

  lemma ExchangeDistinguishes(a: Priv, b: Priv, remote: Pub)
    ensures Exchange(a, remote) == Exchange(b, remote) <==> a == b
  {}

  /** Sealing from the state the first sealing left uses another key. */
  lemma NextStateKey(s: Session, p1: Bytes, n1: nat, k1: Priv, p2: Bytes, n2: nat, k2: Priv)
    requires Encrypt(s, p1, n1, k1).result.Ok? && Encrypt(Forgot(Encrypt(s, p1, n1, k1).state), p2, n2, k2).result.Ok?
    ensures Encrypt(Forgot(Encrypt(s, p1, n1, k1).state), p2, n2, k2).result.value.1.key
         != Encrypt(s, p1, n1, k1).result.value.1.key
  {
    NextDiffers(EnsureSending(s, k1).state.sendKey.value);
  }

  /** Two sends to one friend without a flush in between are sealed under the same message key, with the same
      header, unless each had to draw a key pair for a first sending chain and they drew different ones. */
  lemma UnflushedSendReusesKey(store: Store, friend: string, p1: Bytes, n1: nat, k1: Priv, p2: Bytes, n2: nat, k2: Priv)
    requires Load(store, friend).Some? && Serve(store, friend, EncryptCall(p1, n1, k1)).reply.Reply?
    ensures var first := Serve(store, friend, EncryptCall(p1, n1, k1));
      var second := Serve(first.store, friend, EncryptCall(p2, n2, k2));
      var same := Load(store, friend).value.sendKey.Some? || k1 == k2;
      && second.reply.Reply?
      && (second.reply.value.1.key == first.reply.value.1.key <==> same)
      && (second.reply.value.0 == first.reply.value.0 <==> same)
      && (SameKeystream(first.reply.value.1, second.reply.value.1) <==> same && n1 == n2)
  {
    var first := Serve(store, friend, EncryptCall(p1, n1, k1));
    assert Load(first.store, friend) == Load(store, friend);
    SameStateKey(Load(store, friend).value, p1, n1, k1, p2, n2, k2);
  }

  /** With a flush in between they use the same key if and only if the friend's write failed, and the same
      exception applies. */
  lemma KeyReusedIffWriteFailed(store: Store, friend: string, failing: set<string>,
                                p1: Bytes, n1: nat, k1: Priv, p2: Bytes, n2: nat, k2: Priv)
    requires Load(store, friend).Some? && Serve(store, friend, EncryptCall(p1, n1, k1)).reply.Reply?
    ensures var first := Serve(store, friend, EncryptCall(p1, n1, k1));
      var second := Serve(Flushed(first.store, failing), friend, EncryptCall(p2, n2, k2));
      && (friend in failing ==> second.reply.Reply?)
      && (second.reply.Reply? ==>
            (second.reply.value.1.key == first.reply.value.1.key
             <==> friend in failing && (Load(store, friend).value.sendKey.Some? || k1 == k2))
            && (SameKeystream(first.reply.value.1, second.reply.value.1)
                <==> second.reply.value.1.key == first.reply.value.1.key && n1 == n2))
  {
    var first, s := Serve(store, friend, EncryptCall(p1, n1, k1)), Load(store, friend).value;
    var after := Flushed(first.store, failing);
    assert Load(after, friend) == if friend in failing then Load(store, friend) else Some(Forgot(first.store.dirty[friend]));
    SameStateKey(s, p1, n1, k1, p2, n2, k2);
    if Serve(after, friend, EncryptCall(p2, n2, k2)).reply.Reply? && friend !in failing {
      NextStateKey(s, p1, n1, k1, p2, n2, k2);
    }
  }

  lemma {:induction false} NextDiffers(ck: Key)
    ensures NextChain(ck) != ck
  {
    if ck.NextChain? {
      NextDiffers(ck.ck);
    }
  }

  // ---- flushing ----

  /** After a flush each buffered state is in the table or still buffered, provided its row exists;
      it is dropped exactly when the row is gone and the write did not fail. */
  lemma FlushConserves(store: Store, failing: set<string>, friend: string)
    requires friend in store.dirty
    ensures var after := Flushed(store, failing);
      && (friend in failing <==> friend in after.dirty)
      && (friend in failing ==> after.dirty[friend] == store.dirty[friend])
      && (friend !in failing && friend in store.friends ==> after.friends[friend] == Some(store.dirty[friend]))
      && (Newest(after, friend) == Newest(store, friend) <==> friend in failing || friend in store.friends)
  {}

  /** States of friends with nothing buffered, and rows outside the buffer, are untouched. */
  lemma FlushFrame(store: Store, failing: set<string>, friend: string)
    requires friend !in store.dirty
    ensures Newest(Flushed(store, failing), friend) == Newest(store, friend)
    ensures friend in store.friends ==> Flushed(store, failing).friends[friend] == store.friends[friend]
  {}

  /** A state buffered by another thread during a flush survives exactly when putting back the failed
      entries does not overwrite it with an older one. */
  lemma ConcurrentMarkSurvives(store: Store, failing: set<string>, marks: map<string, Session>, friend: string)
    requires friend in marks
    ensures var after := FlushedDuring(store, failing, marks);
      && friend in after.dirty
      && (after.dirty[friend] == marks[friend]
          <==> friend !in store.dirty || friend !in failing || store.dirty[friend] == marks[friend])
  {}

  // ---- runs with a flush between operations on one friend ----

  datatype Action =
    | Encrypting(friend: string, plaintext: Bytes, nonce: nat, newPriv: Priv)
    | Decrypting(friend: string, header: Header, body: Ciphertext, newPriv: Priv)
    | Flushing(failing: set<string>)

  datatype Answer = Sent(packet: Reply<(Header, Ciphertext)>) | Read(message: Reply<Bytes>) | Done

  function Act(store: Store, a: Action): (Store, Answer) {
    match a
    case Encrypting(f, p, n, k) => var r := Serve(store, f, EncryptCall(p, n, k)); (r.store, Sent(r.reply))
    case Decrypting(f, h, c, k) => var r := Serve(store, f, DecryptCall(h, c, k)); (r.store, Read(r.reply))
    case Flushing(failing) => (Flushed(store, failing), Done)
  }

  /** The same on one in-memory session per friend, each keeping its own eviction queue. */
  function ActInMemory(sessions: map<string, Session>, a: Action): (map<string, Session>, Answer) {
    match a
    case Encrypting(f, p, n, k) => var r := Expected(At(sessions, f), EncryptCall(p, n, k)); (Put(sessions, f, r.0), Sent(r.1))
    case Decrypting(f, h, c, k) => var r := Expected(At(sessions, f), DecryptCall(h, c, k)); (Put(sessions, f, r.0), Read(r.1))
    case Flushing(_) => (sessions, Done)
  }

  function At(sessions: map<string, Session>, f: string): Option<Session> {
    if f in sessions then Some(sessions[f]) else None
  }

  function Put(sessions: map<string, Session>, f: string, s: Option<Session>): map<string, Session> {
    if s.Some? then sessions[f := s.value] else sessions
  }

  /** Operations touch only friends with nothing buffered. */
  predicate FlushedFirst(store: Store, a: Action) {
    match a
    case Encrypting(f, _, _, _) => f !in store.dirty
    case Decrypting(f, _, _, _) => f !in store.dirty
    case Flushing(_) => true
  }

  ghost predicate Refines(store: Store, sessions: map<string, Session>) {
    && (forall f :: f in store.dirty ==> f in store.friends)
    && (forall f :: Alike(Newest(store, f), At(sessions, f)))
  }

  lemma ServeKeepsRefinement<T>(store: Store, sessions: map<string, Session>, f: string, op: Session -> Effect<T>)
    requires Refines(store, sessions) && f !in store.dirty && Unaffected(At(sessions, f), op)
    ensures var served := Serve(store, f, op);
      var expected := Expected(At(sessions, f), op);
      served.reply == expected.1 && Refines(served.store, Put(sessions, f, expected.0))
  {
    var served, expected := Serve(store, f, op), Expected(At(sessions, f), op);
    assert Alike(Newest(store, f), At(sessions, f));
    ServeRefinesSession(store, f, op, At(sessions, f), f);
    forall g ensures Alike(Newest(served.store, g), At(Put(sessions, f, expected.0), g)) {
      assert Alike(Newest(store, g), At(sessions, g));
      ServeRefinesSession(store, f, op, At(sessions, f), g);
    }
  }

  lemma FlushKeepsRefinement(store: Store, sessions: map<string, Session>, failing: set<string>)
    requires Refines(store, sessions)
    ensures Refines(Flushed(store, failing), sessions)
  {
    forall f ensures Alike(Newest(Flushed(store, failing), f), At(sessions, f)) {
      assert Alike(Newest(store, f), At(sessions, f));
      if f in store.dirty {
        FlushConserves(store, failing, f);
      } else {
        FlushFrame(store, failing, f);
      }
    }
  }

  /** A decryption stores nothing or has room for all it stores. */
  predicate Roomy(sessions: map<string, Session>, a: Action) {
    a.Decrypting? && a.friend in sessions ==> Room(sessions[a.friend], a.header)
  }

  lemma ActRefines(store: Store, sessions: map<string, Session>, a: Action)
    requires Refines(store, sessions) && FlushedFirst(store, a) && Roomy(sessions, a)
    ensures Act(store, a).1 == ActInMemory(sessions, a).1
    ensures Refines(Act(store, a).0, ActInMemory(sessions, a).0)
  {
    match a
    case Encrypting(f, p, n, k) =>
      if f in sessions {
        EncryptAgrees(sessions[f], Forgot(sessions[f]), p, n, k);
      }
      ServeKeepsRefinement(store, sessions, f, EncryptCall(p, n, k));
    case Decrypting(f, h, c, k) =>
      if f in sessions {
        DecryptAgrees(sessions[f], Forgot(sessions[f]), h, c, k);
      }
      ServeKeepsRefinement(store, sessions, f, DecryptCall(h, c, k));
    case Flushing(failing) => FlushKeepsRefinement(store, sessions, failing);
  }

  /** Whether the service answers a header as the in-memory session does, whatever the ciphertext, is decided
      by session and header alone. */
  lemma AnswersAlikeIff(store: Store, sessions: map<string, Session>, f: string, header: Header, k: Priv)
    requires Refines(store, sessions) && f !in store.dirty && f in sessions
    requires Clean(sessions[f], header) && sessions[f].order != []
    ensures (forall c :: AnswersAlike(store, f, At(sessions, f), DecryptCall(header, c, k)))
       <==> QueueIrrelevant(sessions[f], header)
  {
    var s := sessions[f];
    assert Alike(Newest(store, f), At(sessions, f));
    forall c ensures AnswersAlike(store, f, At(sessions, f), DecryptCall(header, c, k))
                <==> Agree(Decrypt(s, header, c, k), Decrypt(Forgot(s), header, c, k))
    {
      ServeRefinesSession(store, f, DecryptCall(header, c, k), At(sessions, f), f);
    }
    QueueMatters(s, header, k);
  }

  /** Every operation finds its friend flushed, and every decryption finds room. */
  ghost predicate RoomyRun(store: Store, sessions: map<string, Session>, actions: seq<Action>)
    decreases |actions|
  {
    actions == [] ||
    (FlushedFirst(store, actions[0]) && Roomy(sessions, actions[0])
     && RoomyRun(Act(store, actions[0]).0, ActInMemory(sessions, actions[0]).0, actions[1..]))
  }

  function Answers(store: Store, actions: seq<Action>): seq<Answer>
    decreases |actions|
  {
    if actions == [] then [] else [Act(store, actions[0]).1] + Answers(Act(store, actions[0]).0, actions[1..])
  }

  function AnswersInMemory(sessions: map<string, Session>, actions: seq<Action>): seq<Answer>
    decreases |actions|
  {
    if actions == [] then []
    else [ActInMemory(sessions, actions[0]).1] + AnswersInMemory(ActInMemory(sessions, actions[0]).0, actions[1..])
  }

  /** On every run with a flush between operations on the same friend and room for skipped keys, failing
      writes included, the service answers exactly as one in-memory session per friend. */
  lemma {:induction false} ServiceRefinesSessions(store: Store, sessions: map<string, Session>, actions: seq<Action>)
    requires Refines(store, sessions) && RoomyRun(store, sessions, actions)
    ensures Answers(store, actions) == AnswersInMemory(sessions, actions)
    decreases |actions|
  {
    if actions != [] {
      ActRefines(store, sessions, actions[0]);
      ServiceRefinesSessions(Act(store, actions[0]).0, ActInMemory(sessions, actions[0]).0, actions[1..]);
    }
  }

  /** Without room they differ: after message 1000 came first, the service refuses message 1002 for want of
      something to evict, and the in-memory session reads it. */
  lemma FullStoreRefused(pub: Pub, secret: Key, priv: Priv, newPriv: Priv) returns (h1: Header, c1: Ciphertext, h2: Header, c2: Ciphertext)
    ensures var s := InitBob(pub, secret, priv);
      var saved := Decrypt(s, h1, c1, newPriv);
      && saved.result.Ok?
      && Decrypt(saved.state, h2, c2, newPriv).result.Ok?
      && Decrypt(Forgot(saved.state), h2, c2, newPriv).result == Err(EvictionFromEmptyQueue)
  {
    var s := InitBob(pub, secret, priv);
    var op := RatchetBounds.FillStore(s, pub, MAX_SKIPPED_KEYS, newPriv);
    h1, c1 := op.header, op.body;
    h2, c2 := OneMoreMessage(After(s, op), pub, newPriv);
  }

  lemma OneMoreMessage(t: Session, pub: Pub, newPriv: Priv) returns (h: Header, c: Ciphertext)
    requires RatchetBounds.Filled(t, pub, MAX_SKIPPED_KEYS)
    ensures Decrypt(t, h, c, newPriv).result.Ok?
    ensures Decrypt(Forgot(t), h, c, newPriv).result == Err(EvictionFromEmptyQueue)
  {
    h := Header(t.recvNum + 1, 0, pub, []);
    c := Readable(t, h);
    OneMoreReads(t, h);
    OneMoreRaises(t, h, c, newPriv);
    KnownKey(t, h, c, newPriv);
  }

  lemma KnownKey(t: Session, h: Header, c: Ciphertext, newPriv: Priv)
    requires h.Header? && t.dhRemote == Some(h.pub)
    ensures Decrypt(t, h, c, newPriv) == Receive(t, h, c)
  {}

  lemma OneMoreRaises(t: Session, h: Header, c: Ciphertext, newPriv: Priv)
    requires h.Header? && RatchetBounds.Filled(t, h.pub, MAX_SKIPPED_KEYS) && h.msgNum == t.recvNum + 1
    ensures Decrypt(Forgot(t), h, c, newPriv).result == Err(EvictionFromEmptyQueue)
  {
    assert RatchetBounds.StoresKey(Forgot(t), h);
    RatchetBounds.LoadedRaises(Forgot(t), h, c, newPriv);
  }

  lemma OneMoreReads(t: Session, h: Header)
    requires h.Header? && RatchetBounds.Filled(t, h.pub, MAX_SKIPPED_KEYS) && h.msgNum == t.recvNum + 1
    ensures Receive(t, h, Readable(t, h)).result.Ok?
  {
    assert t.order[0] == Slots(h.pub, 0, MAX_SKIPPED_KEYS)[0];
    SkipIsPutAll(t, h.pub, h.msgNum);
    ReadableReceived(t, h);
  }

  /** The same as answers of the service and of the session. */
  lemma FullStoreAnswers(friend: string, pub: Pub, secret: Key, priv: Priv, newPriv: Priv) returns (first: Action, second: Action)
    ensures var s := InitBob(pub, secret, priv);
      var store, sessions := Store(map[friend := Some(s)], map[]), map[friend := s];
      var flushed := Act(Act(store, first).0, Flushing({})).0;
      && Act(store, first).1 == ActInMemory(sessions, first).1
      && friend !in flushed.dirty
      && Act(flushed, second).1 == Read(Failed(OperationFailed(EvictionFromEmptyQueue)))
      && ActInMemory(ActInMemory(sessions, first).0, second).1.Read?
      && ActInMemory(ActInMemory(sessions, first).0, second).1.message.Reply?
  {
    var h1, c1, h2, c2 := FullStoreRefused(pub, secret, priv, newPriv);
    first, second := Decrypting(friend, h1, c1, newPriv), Decrypting(friend, h2, c2, newPriv);
    var s := InitBob(pub, secret, priv);
    var store := Store(map[friend := Some(s)], map[]);
    var t := Decrypt(s, h1, c1, newPriv).state;
    assert Load(store, friend) == Some(s);
    assert Act(store, first).0 == store.(dirty := map[friend := t]);
    assert Load(Act(Act(store, first).0, Flushing({})).0, friend) == Some(Forgot(t));
  }

  // ---- the flush loop ----

  /** The buffered states already handled, when those in `left` are still to do. */
  function Handled(toFlush: map<string, Session>, left: set<string>): map<string, Session> {
    map f | f in toFlush && f !in left :: toFlush[f]
  }

  lemma SaveStep(rows: map<string, Option<Session>>, toFlush: map<string, Session>, left: set<string>, failing: set<string>, f: string)
    requires f in toFlush && f in left && f !in failing
    ensures SaveRow(SavedRows(Store(rows, Handled(toFlush, left)), failing), f, toFlush[f])
         == SavedRows(Store(rows, Handled(toFlush, left - {f})), failing)
    ensures Unsaved(Handled(toFlush, left), failing) == Unsaved(Handled(toFlush, left - {f}), failing)
  {}

  lemma KeepStep(rows: map<string, Option<Session>>, toFlush: map<string, Session>, left: set<string>, failing: set<string>, f: string)
    requires f in toFlush && f in left && f in failing
    ensures SavedRows(Store(rows, Handled(toFlush, left)), failing) == SavedRows(Store(rows, Handled(toFlush, left - {f})), failing)
    ensures Unsaved(Handled(toFlush, left), failing)[f := toFlush[f]] == Unsaved(Handled(toFlush, left - {f}), failing)
  {}

  lemma NoneHandled(rows: map<string, Option<Session>>, toFlush: map<string, Session>, failing: set<string>)
    ensures SavedRows(Store(rows, Handled(toFlush, toFlush.Keys)), failing) == rows
    ensures Unsaved(Handled(toFlush, toFlush.Keys), failing) == map[] && toFlush.Keys - toFlush.Keys - failing == {}
  {}

  lemma AllHandled(rows: map<string, Option<Session>>, toFlush: map<string, Session>, failing: set<string>)
    ensures SavedRows(Store(rows, Handled(toFlush, {})), failing) == SavedRows(Store(rows, toFlush), failing)
    ensures map[] + Unsaved(Handled(toFlush, {}), failing) == Unsaved(toFlush, failing)
    ensures toFlush.Keys - {} - failing == toFlush.Keys - failing
  {
    assert Handled(toFlush, {}) == toFlush;
  }

  lemma CountStep(keys: set<string>, left: set<string>, failing: set<string>, f: string)
    requires f in left && left <= keys
    ensures |keys - (left - {f}) - failing| == |keys - left - failing| + if f in failing then 0 else 1
  {
    if f in failing {
      assert keys - (left - {f}) - failing == keys - left - failing;
    } else {
      assert keys - (left - {f}) - failing == (keys - left - failing) + {f};
    }
  }

  // ---- the service object ----

  class RatchetService {
    var friends: map<string, Option<Session>>
    var dirtyStates: map<string, Session>

    ghost function View(): Store
      reads this
    {
      Store(friends, dirtyStates)
    }

    constructor (rows: map<string, Option<Session>>)
      ensures View() == Store(rows, map[])
    {
      friends, dirtyStates := rows, map[];
    }

    method EncryptMessage(friend: string, plaintext: Bytes, nonce: nat, newPriv: Priv)
      returns (reply: Reply<(Header, Ciphertext)>)
      modifies this
      ensures Served(View(), reply) == Serve(old(View()), friend, EncryptCall(plaintext, nonce, newPriv))
      ensures reply == Failed(NotFound) <==> friend !in old(friends) || old(friends)[friend].None?
      ensures reply.Failed? ==> friends == old(friends) && dirtyStates == old(dirtyStates)
      ensures reply.Reply? ==>
        var r := Encrypt(old(friends)[friend].value.(order := []), plaintext, nonce, newPriv);
        r.result == Ok(reply.value) && friends == old(friends) && dirtyStates == old(dirtyStates)[friend := r.state]
    {
      if friend !in friends || friends[friend].None? {
        return Failed(NotFound);
      }
      var r := Encrypt(Forgot(friends[friend].value), plaintext, nonce, newPriv);
      if r.result.Err? {
        return Failed(OperationFailed(r.result.error));
      }
      dirtyStates := dirtyStates[friend := r.state];
      reply := Reply(r.result.value);
    }

    method DecryptMessage(friend: string, header: Header, c: Ciphertext, newPriv: Priv) returns (reply: Reply<Bytes>)
      modifies this
      ensures Served(View(), reply) == Serve(old(View()), friend, DecryptCall(header, c, newPriv))
      ensures reply == Failed(NotFound) <==> friend !in old(friends) || old(friends)[friend].None?
      ensures reply.Failed? ==> friends == old(friends) && dirtyStates == old(dirtyStates)
      ensures reply.Reply? ==>
        var r := Decrypt(old(friends)[friend].value.(order := []), header, c, newPriv);
        r.result == Ok(reply.value) && friends == old(friends) && dirtyStates == old(dirtyStates)[friend := r.state]
    {
      if friend !in friends || friends[friend].None? {
        return Failed(NotFound);
      }
      var r := Decrypt(Forgot(friends[friend].value), header, c, newPriv);
      if r.result.Err? {
        return Failed(OperationFailed(r.result.error));
      }
      dirtyStates := dirtyStates[friend := r.state];
      reply := Reply(r.result.value);
    }

    /** Takes the buffer, writes its entries one by one, and puts back those whose write failed. */
    method FlushDirtyStates(failing: set<string>) returns (count: nat)
      modifies this
      ensures View() == Flushed(old(View()), failing)
      ensures count == |old(dirtyStates).Keys - failing|
    {
      var toFlush := dirtyStates;
      dirtyStates := map[];
      count := 0;
      var remaining: map<string, Session>, left := map[], toFlush.Keys;
      ghost var rows := friends;
      NoneHandled(rows, toFlush, failing);
      while left != {}
        invariant left <= toFlush.Keys && dirtyStates == map[]
        invariant friends == SavedRows(Store(rows, Handled(toFlush, left)), failing)
        invariant remaining == Unsaved(Handled(toFlush, left), failing)
        invariant count == |toFlush.Keys - left - failing|
        decreases left
      {
        var friend :| friend in left;
        CountStep(toFlush.Keys, left, failing, friend);
        if friend in failing {
          KeepStep(rows, toFlush, left, failing, friend);
          remaining := remaining[friend := toFlush[friend]];
        } else {
          SaveStep(rows, toFlush, left, failing, friend);
          friends := SaveRow(friends, friend, toFlush[friend]);
          count := count + 1;
        }
        left := left - {friend};
      }
      AllHandled(rows, toFlush, failing);
      dirtyStates := dirtyStates + remaining;
    }
  }
}
