/** Symbolic keys. Key derivation is a free constructor, Diffie-Hellman is a commutative term and the
    authenticated cipher opens only under the key and header it was sealed with. */
module RatchetKeys {
  import opened Basics

  type Priv = nat

  datatype Pub = Pub(of: Priv)

  /** An X25519 output: the unordered pair of the two private keys. */
  datatype DhOutput = DhOutput(low: Priv, high: Priv)

  function Exchange(mine: Priv, theirs: Pub): DhOutput {
    if mine <= theirs.of then DhOutput(mine, theirs.of) else DhOutput(theirs.of, mine)
  }

  datatype Key =
    | SharedSecret(id: nat)
    | RootKey(rk: Key, dh: DhOutput)
    | ChainKey(rk: Key, dh: DhOutput)
    | NextChain(ck: Key)
    | MessageKey(ck: Key)

  type Bytes = seq<int>

  /** A header of at least 40 bytes, with whatever follows them, or a shorter one. */
  datatype Header = Header(msgNum: nat, prevLen: nat, pub: Pub, tail: Bytes) | ShortHeader

  datatype Ciphertext = Sealed(key: Key, nonce: nat, plaintext: Bytes, header: Header) | Forged(id: nat)

  function Open(key: Key, c: Ciphertext, header: Header): Option<Bytes> {
    if c.Sealed? && c.key == key && c.header == header then Some(c.plaintext) else None
  }

  /** The chain key after n steps. */
  function Steps(ck: Key, n: nat): Key {
    if n == 0 then ck else NextChain(Steps(ck, n - 1))
  }

  /** The number of root-key derivations on top of the shared secret. */
  function Depth(k: Key): nat {
    match k
    case RootKey(rk, _) => 1 + Depth(rk)
    case _ => 0
  }

  /** The chain key a stepped chain started from. */
  function Base(k: Key): Key {
    match k
    case NextChain(ck) => Base(ck)
    case _ => k
  }
}

/** One side of a Double Ratchet conversation  (services/double_ratchet.py): the state as a value and
    the effect of each operation on it. Freshly generated private keys and nonces are inputs. */
module Ratchet {
  import opened Basics
  import opened RatchetKeys

  const MAX_SKIPPED_KEYS: nat := 1000
  const MAX_SKIP_DISTANCE: nat := 1000

  datatype Slot<+P> = Slot(pub: P, num: nat)

  /** All fields of a ratchet state; `skipped` holds unused message keys, `order` the eviction queue. */
  datatype State<S, P(==), K> = State(
    dhPriv: Option<S>, dhRemote: Option<P>,
    rootKey: Option<K>, sendKey: Option<K>, recvKey: Option<K>,
    sendNum: nat, recvNum: nat, prevLen: nat,
    skipped: map<Slot<P>, K>, order: seq<Slot<P>>)

  type Session = State<Priv, Pub, Key>

  const EMPTY: Session := State(None, None, None, None, None, 0, 0, 0, map[], [])

  datatype Error = HeaderTooShort | SkipTooFar | NotInitialized | EvictionFromEmptyQueue
                 | HeaderFieldOverflow | AuthenticationFailed

  datatype Result<+T> = Ok(value: T) | Err(error: Error)

  /** The state an operation leaves behind and what it returns or raises. */
  datatype Effect<+T> = Effect(state: Session, result: Result<T>)

  function InitAlice(bobPub: Pub, secret: Key, localPriv: Priv): Session {
    var dh := Exchange(localPriv, bobPub);
    EMPTY.(dhPriv := Some(localPriv), dhRemote := Some(bobPub),
           rootKey := Some(RootKey(secret, dh)), sendKey := Some(ChainKey(secret, dh)))
  }

  function InitBob(alicePub: Pub, secret: Key, localPriv: Priv): Session {
    var dh := Exchange(localPriv, alicePub);
    EMPTY.(dhPriv := Some(localPriv), dhRemote := Some(alicePub),
           rootKey := Some(RootKey(secret, dh)), recvKey := Some(ChainKey(secret, dh)))
  }

  /** Adds a skipped key; at the cap, first drops whatever the head of the queue names. */
  function StoreSkipped(s: Session, slot: Slot<Pub>, mk: Key): Effect<()> {
    if |s.skipped| < MAX_SKIPPED_KEYS then
      Effect(s.(skipped := s.skipped[slot := mk], order := s.order + [slot]), Ok(()))
    else if s.order == [] then
      Effect(s, Err(EvictionFromEmptyQueue))
    else
      Effect(s.(skipped := (s.skipped - {s.order[0]})[slot := mk], order := s.order[1..] + [slot]), Ok(()))
  }

  /** Stores the keys of the receiving chain under `pub` up to, not including, number `until`. */
  function SkipTo(s: Session, pub: Pub, until: nat): Effect<()>
    decreases until - s.recvNum
  {
    if s.recvNum >= until then Effect(s, Ok(()))
    else if s.recvKey.None? then Effect(s, Err(NotInitialized))
    else
      var ck := s.recvKey.value;
      var stored := StoreSkipped(s.(recvKey := Some(NextChain(ck))), Slot(pub, s.recvNum), MessageKey(ck));
      if stored.result.Err? then stored
      else SkipTo(stored.state.(recvNum := s.recvNum + 1), pub, until)
  }

  /** Before a ratchet step: keep the rest of the old receiving chain. */
  function SkipOldChain(s: Session, until: nat): Effect<()> {
    if s.recvKey.None? || s.dhRemote.None? then Effect(s, Ok(()))
    else if until - s.recvNum > MAX_SKIP_DISTANCE then Effect(s, Err(SkipTooFar))
    else SkipTo(s, s.dhRemote.value, until)
  }

  /** New receiving chain from the remote key, then a new key pair and sending chain. */
  function DhRatchet(s: Session, remote: Pub, newPriv: Priv): Effect<()> {
    if s.dhPriv.None? || s.rootKey.None? then Effect(s, Err(NotInitialized))
    else
      var dhIn, dhOut := Exchange(s.dhPriv.value, remote), Exchange(newPriv, remote);
      var rk := RootKey(s.rootKey.value, dhIn);
      Effect(s.(dhPriv := Some(newPriv), dhRemote := Some(remote),
                rootKey := Some(RootKey(rk, dhOut)),
                recvKey := Some(ChainKey(s.rootKey.value, dhIn)), sendKey := Some(ChainKey(rk, dhOut)),
                prevLen := s.sendNum, sendNum := 0, recvNum := 0), Ok(()))
  }

  /** Follow a changed remote key; otherwise nothing. */
  function FollowRemote(s: Session, header: Header, newPriv: Priv): Effect<()>
    requires header.Header?
  {
    if s.dhRemote == Some(header.pub) then Effect(s, Ok(()))
    else
      var kept := SkipOldChain(s, header.prevLen);
      if kept.result.Err? then kept else DhRatchet(kept.state, header.pub, newPriv)
  }

  function Opened(s: Session, key: Key, c: Ciphertext, header: Header): Effect<Bytes> {
    match Open(key, c, header)
    case Some(p) => Effect(s, Ok(p))
    case None => Effect(s, Err(AuthenticationFailed))
  }

  /** Open with the key at the receiving chain's position, and step the chain. */
  function TakeNext(s: Session, header: Header, c: Ciphertext): Effect<Bytes> {
    if s.recvKey.None? then Effect(s, Err(NotInitialized))
    else Opened(s.(recvKey := Some(NextChain(s.recvKey.value)), recvNum := s.recvNum + 1),
                MessageKey(s.recvKey.value), c, header)
  }

  /** Use the skipped key if there is one, else advance the receiving chain to the message. */
  function Receive(s: Session, header: Header, c: Ciphertext): Effect<Bytes>
    requires header.Header?
  {
    var slot := Slot(header.pub, header.msgNum);
    if slot in s.skipped then
      Opened(s.(skipped := s.skipped - {slot}), s.skipped[slot], c, header)
    else if header.msgNum - s.recvNum > MAX_SKIP_DISTANCE then
      Effect(s, Err(SkipTooFar))
    else
      var skipped := SkipTo(s, header.pub, header.msgNum);
      if skipped.result.Err? then Effect(skipped.state, Err(skipped.result.error))
      else TakeNext(skipped.state, header, c)
  }

  function Decrypt(s: Session, header: Header, c: Ciphertext, newPriv: Priv): Effect<Bytes> {
    if header.ShortHeader? then Effect(s, Err(HeaderTooShort))
    else
      var followed := FollowRemote(s, header, newPriv);
      if followed.result.Err? then Effect(followed.state, Err(followed.result.error))
      else Receive(followed.state, header, c)
  }

  /** How many steps the receiving chain is behind number n. */
  function SkipCount(s: Session, n: nat): nat {
    if n > s.recvNum then n - s.recvNum else 0
  }

  /** How many keys of its current receiving chain a session keeps before following a new key. */
  function OldKeys(s: Session, header: Header): nat
    requires header.Header?
  {
    if s.recvKey.Some? && s.dhRemote.Some? then SkipCount(s, header.prevLen) else 0
  }

  /** How many skipped keys decrypting this header stores, if it gets that far. */
  function Needed(s: Session, header: Header): nat
    requires header.Header?
  {
    if s.dhRemote == Some(header.pub) then SkipCount(s, header.msgNum)
    else OldKeys(s, header) + header.msgNum
  }

  /** The store has room for them, so no distance limit is hit and nothing is evicted. */
  predicate Fits(s: Session, header: Header) {
    header.Header? && |s.skipped| + Needed(s, header) <= MAX_SKIPPED_KEYS
  }

  /** Create the sending chain on first use. */
  function EnsureSending(s: Session, newPriv: Priv): Effect<()> {
    if s.sendKey.Some? then Effect(s, Ok(()))
    else if s.dhRemote.None? then Effect(s, Err(NotInitialized))
    else if s.rootKey.None? then Effect(s.(dhPriv := Some(newPriv)), Err(NotInitialized))
    else
      var dh := Exchange(newPriv, s.dhRemote.value);
      Effect(s.(dhPriv := Some(newPriv), rootKey := Some(RootKey(s.rootKey.value, dh)),
                sendKey := Some(ChainKey(s.rootKey.value, dh)), prevLen := s.sendNum, sendNum := 0), Ok(()))
  }

  function Encrypt(s: Session, plaintext: Bytes, nonce: nat, newPriv: Priv): Effect<(Header, Ciphertext)> {
    var ready := EnsureSending(s, newPriv);
    if ready.result.Err? then Effect(ready.state, Err(ready.result.error))
    else
      var s1 := ready.state.(sendKey := Some(NextChain(ready.state.sendKey.value)));
      if s1.dhPriv.None? then Effect(s1, Err(NotInitialized))
      else if s1.sendNum >= U32 || s1.prevLen >= U32 then Effect(s1, Err(HeaderFieldOverflow))
      else
        var header := Header(s1.sendNum, s1.prevLen, Pub(s1.dhPriv.value), []);
        var c := Sealed(MessageKey(ready.state.sendKey.value), nonce, plaintext, header);
        Effect(s1.(sendNum := s1.sendNum + 1), Ok((header, c)))
  }

  // ---- one operation of a session ----

  datatype Op =
    | DecryptOp(header: Header, body: Ciphertext, newPriv: Priv)
    | EncryptOp(plaintext: Bytes, nonce: nat, newPriv: Priv)

  /** The object after an operation, whether it returned or raised. */
  function After(s: Session, op: Op): Session {
    match op
    case DecryptOp(header, body, newPriv) => Decrypt(s, header, body, newPriv).state
    case EncryptOp(plaintext, nonce, newPriv) => Encrypt(s, plaintext, nonce, newPriv).state
  }

  predicate Succeeds(s: Session, op: Op) {
    match op
    case DecryptOp(header, body, newPriv) => Decrypt(s, header, body, newPriv).result.Ok?
    case EncryptOp(plaintext, nonce, newPriv) => Encrypt(s, plaintext, nonce, newPriv).result.Ok?
  }
}
