/** What single operations of a session return, in terms of the session before: when sending succeeds and what
    the packet holds, when a distance is refused, and when two initialisations fit together. */
module RatchetResults {
  import opened Basics
  import opened RatchetKeys
  import opened Ratchet

  // ---- initialisation ----

  /** The two sides have the same root, and Alice sends on the chain Bob receives on, if and only if they start
      from the same secret and each has the public key of the other's private key (or the same pair twice). */
  lemma InitAgreeIff(bobPub: Pub, alicePub: Pub, secret: Key, secret': Key, a: Priv, b: Priv)
    ensures var alice, bob := InitAlice(bobPub, secret, a), InitBob(alicePub, secret', b);
      var fit := secret == secret' && ((a == alicePub.of && b == bobPub.of) || (a == b && alicePub == bobPub));
      && (alice.rootKey == bob.rootKey <==> fit)
      && (alice.sendKey == bob.recvKey && alice.sendKey.Some? <==> fit)
      && alice.rootKey.Some? && alice.recvKey.None? && bob.sendKey.None?
  {
    assert bobPub == Pub(bobPub.of) && alicePub == Pub(alicePub.of);
  }

  // ---- sending ----

  /** Sending succeeds exactly with a sending chain or what it takes to start one, and counters of four bytes. */
  lemma EncryptOkIff(s: Session, plaintext: Bytes, nonce: nat, newPriv: Priv)
    ensures var r := Encrypt(s, plaintext, nonce, newPriv).result;
      var able := if s.sendKey.Some? then s.dhPriv.Some? else s.dhRemote.Some? && s.rootKey.Some?;
      var fits := s.sendNum < 0x1_0000_0000 && (s.sendKey.Some? ==> s.prevLen < 0x1_0000_0000);
      && (r.Ok? <==> able && fits)
      && (r == Err(NotInitialized) <==> !able)
      && (r == Err(HeaderFieldOverflow) <==> able && !fits)
  {}

  /** A packet is sealed with the drawn nonce over plaintext and header. The header has the next number of the
      chain and the length of the previous one; the first packet starts a chain with the drawn key pair. */
  lemma PacketSent(s: Session, plaintext: Bytes, nonce: nat, newPriv: Priv)
    requires Encrypt(s, plaintext, nonce, newPriv).result.Ok?
    ensures var r := Encrypt(s, plaintext, nonce, newPriv);
      var header, c := r.result.value.0, r.result.value.1;
      && c.Sealed? && c.nonce == nonce && c.plaintext == plaintext && c.header == header
      && header.Header? && header.tail == [] && r.state.dhPriv == Some(header.pub.of)
      && r.state.sendNum == header.msgNum + 1 && r.state.prevLen == header.prevLen
      && c.key.MessageKey? && r.state.sendKey == Some(NextChain(c.key.ck))
      && (if s.sendKey.Some?
          then header.msgNum == s.sendNum && header.prevLen == s.prevLen && s.dhPriv == Some(header.pub.of)
               && s.sendKey == Some(c.key.ck) && r.state.rootKey == s.rootKey
          else header.msgNum == 0 && header.prevLen == s.sendNum && header.pub.of == newPriv)
      && r.state.recvKey == s.recvKey && r.state.recvNum == s.recvNum && r.state.dhRemote == s.dhRemote
      && r.state.skipped == s.skipped && r.state.order == s.order
  {}

  /** The session after sending the packets in order, if none fails, and the packets. */
  datatype Batch = Batch(state: Session, packets: seq<(Header, Ciphertext)>)

  datatype Letter = Letter(plaintext: Bytes, nonce: nat, newPriv: Priv)

  function SendAll(s: Session, letters: seq<Letter>): Option<Batch>
    decreases |letters|
  {
    if letters == [] then Some(Batch(s, []))
    else
      var r := Encrypt(s, letters[0].plaintext, letters[0].nonce, letters[0].newPriv);
      if r.result.Err? then None
      else
        var rest := SendAll(r.state, letters[1..]);
        if rest.None? then None else Some(Batch(rest.value.state, [r.result.value] + rest.value.packets))
  }

  /** Letter i of a batch goes out under number sendNum + i of the chain, under the key i steps on, with its own
      nonce, and its header names the same key pair and previous length. */
  lemma {:induction false} BatchNumbered(s: Session, letters: seq<Letter>, i: nat)
    requires SendAll(s, letters).Some? && s.sendKey.Some? && i < |letters|
    ensures s.dhPriv.Some? && |SendAll(s, letters).value.packets| == |letters|
    ensures var header, c := SendAll(s, letters).value.packets[i].0, SendAll(s, letters).value.packets[i].1;
      && header == Header(s.sendNum + i, s.prevLen, Pub(s.dhPriv.value), [])
      && c == Sealed(MessageKey(Steps(s.sendKey.value, i)), letters[i].nonce, letters[i].plaintext, header)
    decreases |letters|
  {
    var first := letters[0];
    EncryptOkIff(s, first.plaintext, first.nonce, first.newPriv);
    PacketSent(s, first.plaintext, first.nonce, first.newPriv);
    var next := Encrypt(s, first.plaintext, first.nonce, first.newPriv).state;
    if i > 0 {
      BatchNumbered(next, letters[1..], i - 1);
      StepsAfterOne(s.sendKey.value, i - 1);
    } else if |letters| > 1 {
      BatchNumbered(next, letters[1..], 0);
    }
  }

  lemma {:induction false} StepsAfterOne(ck: Key, n: nat)
    ensures Steps(NextChain(ck), n) == Steps(ck, n + 1)
  {
    if n > 0 {
      StepsAfterOne(ck, n - 1);
    }
  }

  // ---- storing a skipped key ----

  /** Below 1000 keys a key is added; at 1000 the slot at the head of the queue, whether it still has a key or not,
      gives way, and with nothing queued the store is left alone. The slot goes to the end of the queue. */
  lemma StoredWhere(s: Session, slot: Slot<Pub>, mk: Key, x: Slot<Pub>)
    ensures var r := StoreSkipped(s, slot, mk);
      var t, full := r.state, |s.skipped| >= 1000;
      && (r.result.Err? <==> full && s.order == []) && (r.result.Err? ==> t == s && r.result.error == EvictionFromEmptyQueue)
      && (r.result.Ok? ==>
            && slot in t.skipped && t.skipped[slot] == mk
            && (x != slot ==> (x in t.skipped <==> x in s.skipped && !(full && x == s.order[0])))
            && (x != slot && x in t.skipped ==> t.skipped[x] == s.skipped[x])
            && (if full then [s.order[0]] + t.order == s.order + [slot] else t.order == s.order + [slot])
            && t == s.(skipped := t.skipped, order := t.order))
  {
    if s.order != [] {
      assert s.order == [s.order[0]] + s.order[1..];
    }
  }

  // ---- refusals of receiving ----

  lemma {:induction false} SkipNeverTooFar(s: Session, pub: Pub, until: nat)
    ensures SkipTo(s, pub, until).result != Err(SkipTooFar) && SkipTo(s, pub, until).result != Err(HeaderTooShort)
    ensures SkipTo(s, pub, until).result != Err(AuthenticationFailed)
    decreases until - s.recvNum
  {
    if s.recvNum < until && s.recvKey.Some? {
      var ck := s.recvKey.value;
      var stored := StoreSkipped(s.(recvKey := Some(NextChain(ck))), Slot(pub, s.recvNum), MessageKey(ck));
      if stored.result.Ok? {
        SkipNeverTooFar(stored.state.(recvNum := s.recvNum + 1), pub, until);
      }
    }
  }

  /** A decryption is refused for its distance exactly if more than 1000 keys of the old chain would have to be
      kept, or the message is neither stored nor within 1000 of the position reached on its chain. */
  lemma TooFarIff(s: Session, header: Header, c: Ciphertext, newPriv: Priv)
    requires header.Header?
    ensures var followed := FollowRemote(s, header, newPriv);
      && (followed.result == Err(SkipTooFar)
          <==> s.dhRemote.Some? && s.dhRemote.value != header.pub && s.recvKey.Some? && header.prevLen > s.recvNum + 1000)
      && (Decrypt(s, header, c, newPriv).result == Err(SkipTooFar)
          <==> followed.result == Err(SkipTooFar)
               || (followed.result.Ok? && Slot(header.pub, header.msgNum) !in followed.state.skipped
                   && header.msgNum > followed.state.recvNum + 1000))
  {
    if s.dhRemote.Some? {
      SkipNeverTooFar(s, s.dhRemote.value, header.prevLen);
    }
    var followed := FollowRemote(s, header, newPriv);
    SkipNeverTooFar(followed.state, header.pub, header.msgNum);
  }

  /** A message whose key was reached uses it up whether it opens or not: after a failed authentication the object
      is as it would be after reading the right ciphertext under that header, and a stored key is gone. */
  lemma FailureMovesAlike(s: Session, header: Header, c: Ciphertext, c': Ciphertext, newPriv: Priv)
    requires Decrypt(s, header, c, newPriv).result == Err(AuthenticationFailed)
    ensures header.Header?
    ensures Decrypt(s, header, c', newPriv).result.Ok? || Decrypt(s, header, c', newPriv).result == Err(AuthenticationFailed)
    ensures Decrypt(s, header, c', newPriv).state == Decrypt(s, header, c, newPriv).state
    ensures s.dhRemote == Some(header.pub) && Slot(header.pub, header.msgNum) in s.skipped ==>
      Decrypt(s, header, c, newPriv).state == s.(skipped := s.skipped - {Slot(header.pub, header.msgNum)})
  {
    if header.Header? {
      FollowNeverFailsToOpen(s, header, newPriv);
      ReceiveMovesAlike(FollowRemote(s, header, newPriv).state, header, c, c');
    }
  }

  lemma FollowNeverFailsToOpen(s: Session, header: Header, newPriv: Priv)
    requires header.Header?
    ensures FollowRemote(s, header, newPriv).result != Err(AuthenticationFailed)
  {
    if s.dhRemote.Some? {
      SkipNeverTooFar(s, s.dhRemote.value, header.prevLen);
    }
  }

  lemma ReceiveMovesAlike(s: Session, header: Header, c: Ciphertext, c': Ciphertext)
    requires header.Header? && Receive(s, header, c).result == Err(AuthenticationFailed)
    ensures Receive(s, header, c').result.Ok? || Receive(s, header, c').result == Err(AuthenticationFailed)
    ensures Receive(s, header, c').state == Receive(s, header, c).state
  {
    SkipNeverTooFar(s, header.pub, header.msgNum);
  }
}
