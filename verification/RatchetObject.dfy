/** The mutable session object of services/double_ratchet.py. Each method updates the fields step by
    step as the source does and is proved to have the effect of the corresponding function on
    `Ratchet.Session`, about which the other ratchet modules reason. */
module RatchetObject {
  import opened Basics
  import opened RatchetKeys
  import opened Ratchet

  class RatchetState {
    var dhPriv: Option<Priv>
    var dhRemote: Option<Pub>
    var rootKey: Option<Key>
    var sendKey: Option<Key>
    var recvKey: Option<Key>
    var sendNum: nat
    var recvNum: nat
    var prevLen: nat
    var skipped: map<Slot<Pub>, Key>
    var order: seq<Slot<Pub>>

    ghost function View(): Session
      reads this
    {
      State(dhPriv, dhRemote, rootKey, sendKey, recvKey, sendNum, recvNum, prevLen, skipped, order)
    }

    constructor ()
      ensures View() == EMPTY
    {
      dhPriv, dhRemote, rootKey, sendKey, recvKey := None, None, None, None, None;
      sendNum, recvNum, prevLen := 0, 0, 0;
      skipped, order := map[], [];
    }

    /** `generated` is the private key drawn when the caller supplies none. */
    method InitializeAsAlice(bobPub: Pub, secret: Key, localPriv: Option<Priv>, generated: Priv)
      modifies this
      ensures var priv := if localPriv.Some? then localPriv.value else generated;
        View() == InitAlice(bobPub, secret, priv).(skipped := old(skipped), order := old(order))
    {
      dhPriv := if localPriv.Some? then localPriv else Some(generated);
      dhRemote := Some(bobPub);
      var dh := Exchange(dhPriv.value, bobPub);
      rootKey, sendKey, recvKey := Some(RootKey(secret, dh)), Some(ChainKey(secret, dh)), None;
      sendNum, recvNum, prevLen := 0, 0, 0;
    }

    method InitializeAsBob(alicePub: Pub, secret: Key, localPriv: Option<Priv>, generated: Priv)
      modifies this
      ensures var priv := if localPriv.Some? then localPriv.value else generated;
        View() == InitBob(alicePub, secret, priv).(skipped := old(skipped), order := old(order))
    {
      dhPriv := if localPriv.Some? then localPriv else Some(generated);
      dhRemote := Some(alicePub);
      var dh := Exchange(dhPriv.value, alicePub);
      rootKey, recvKey, sendKey := Some(RootKey(secret, dh)), Some(ChainKey(secret, dh)), None;
      sendNum, recvNum, prevLen := 0, 0, 0;
    }

    method StoreSkippedKey(slot: Slot<Pub>, mk: Key) returns (r: Result<()>)
      modifies this
      ensures Effect(View(), r) == StoreSkipped(old(View()), slot, mk)
    {
      if |skipped| >= MAX_SKIPPED_KEYS {
        if order == [] {
          return Err(EvictionFromEmptyQueue);
        }
        var oldest := order[0];
        order := order[1..];
        skipped := skipped - {oldest};
      }
      skipped := skipped[slot := mk];
      order := order + [slot];
      r := Ok(());
    }

    /** The loop that stores message keys up to number `until`; `steps` counts chain derivations. */
    method StoreKeysUntil(pub: Pub, until: nat) returns (r: Result<()>, ghost steps: nat)
      modifies this
      ensures Effect(View(), r) == SkipTo(old(View()), pub, until)
      ensures steps <= if until > old(recvNum) then until - old(recvNum) else 0
    {
      steps := 0;
      while recvNum < until
        invariant SkipTo(View(), pub, until) == SkipTo(old(View()), pub, until)
        invariant old(recvNum) <= recvNum && steps == recvNum - old(recvNum)
        invariant recvNum <= until || recvNum == old(recvNum)
      {
        if recvKey.None? {
          return Err(NotInitialized), steps;
        }
        var ck := recvKey.value;
        recvKey := Some(NextChain(ck));
        steps := steps + 1;
        var stored := StoreSkippedKey(Slot(pub, recvNum), MessageKey(ck));
        if stored.Err? {
          return stored, steps;
        }
        recvNum := recvNum + 1;
      }
      r := Ok(());
    }

    method SkipRecvChain(until: nat) returns (r: Result<()>, ghost steps: nat)
      modifies this
      ensures Effect(View(), r) == SkipOldChain(old(View()), until)
      ensures steps <= 1000
    {
      steps := 0;
      if recvKey.None? || dhRemote.None? {
        return Ok(()), 0;
      }
      if until - recvNum > MAX_SKIP_DISTANCE {
        return Err(SkipTooFar), 0;
      }
      r, steps := StoreKeysUntil(dhRemote.value, until);
    }

    method DhRatchetStep(remote: Pub, newPriv: Priv) returns (r: Result<()>)
      modifies this
      ensures Effect(View(), r) == DhRatchet(old(View()), remote, newPriv)
    {
      if dhPriv.None? || rootKey.None? {
        return Err(NotInitialized);
      }
      var dhIn := Exchange(dhPriv.value, remote);
      recvKey := Some(ChainKey(rootKey.value, dhIn));
      rootKey := Some(RootKey(rootKey.value, dhIn));
      prevLen := sendNum;
      sendNum := 0;
      recvNum := 0;
      dhPriv := Some(newPriv);
      dhRemote := Some(remote);
      var dhOut := Exchange(newPriv, remote);
      sendKey := Some(ChainKey(rootKey.value, dhOut));
      rootKey := Some(RootKey(rootKey.value, dhOut));
      r := Ok(());
    }

    /** Decrypts, following a changed remote key and storing skipped keys on the way. However the
        header was chosen, at most two skip distances and one more chain step are taken. */
    method DecryptMessage(header: Header, c: Ciphertext, newPriv: Priv) returns (r: Result<Bytes>, ghost steps: nat)
      modifies this
      ensures Effect(View(), r) == Decrypt(old(View()), header, c, newPriv)
      ensures steps <= 2001
    {
      steps := 0;
      if header.ShortHeader? {
        return Err(HeaderTooShort), 0;
      }
      if dhRemote != Some(header.pub) {
        var kept;
        kept, steps := SkipRecvChain(header.prevLen);
        if kept.Err? {
          return Err(kept.error), steps;
        }
        var moved := DhRatchetStep(header.pub, newPriv);
        if moved.Err? {
          return Err(moved.error), steps;
        }
      }
      ghost var more;
      r, more := ReceiveMessage(header, c);
      steps := steps + more;
    }

    method ReceiveMessage(header: Header, c: Ciphertext) returns (r: Result<Bytes>, ghost steps: nat)
      requires header.Header?
      modifies this
      ensures Effect(View(), r) == Receive(old(View()), header, c)
      ensures steps <= 1001
    {
      steps := 0;
      var slot := Slot(header.pub, header.msgNum);
      if slot in skipped {
        var key := skipped[slot];
        skipped := skipped - {slot};
        r := DecryptWithKey(key, c, header);
        return;
      }
      if header.msgNum - recvNum > MAX_SKIP_DISTANCE {
        return Err(SkipTooFar), 0;
      }
      var advanced;
      advanced, steps := StoreKeysUntil(header.pub, header.msgNum);
      if advanced.Err? {
        return Err(advanced.error), steps;
      }
      if recvKey.None? {
        return Err(NotInitialized), steps;
      }
      var ck := recvKey.value;
      recvKey := Some(NextChain(ck));
      steps := steps + 1;
      recvNum := recvNum + 1;
      r := DecryptWithKey(MessageKey(ck), c, header);
    }

    static method DecryptWithKey(key: Key, c: Ciphertext, header: Header) returns (r: Result<Bytes>)
      ensures r.Ok? <==> c.Sealed? && c.key == key && c.header == header
      ensures r.Ok? ==> r.value == c.plaintext
      ensures r.Err? ==> r.error == AuthenticationFailed
    {
      var opening := Open(key, c, header);
      r := if opening.Some? then Ok(opening.value) else Err(AuthenticationFailed);
    }

    method EncryptMessage(plaintext: Bytes, nonce: nat, newPriv: Priv) returns (r: Result<(Header, Ciphertext)>)
      modifies this
      ensures Effect(View(), r) == Encrypt(old(View()), plaintext, nonce, newPriv)
    {
      if sendKey.None? {
        if dhRemote.None? {
          return Err(NotInitialized);
        }
        dhPriv := Some(newPriv);
        var dh := Exchange(newPriv, dhRemote.value);
        if rootKey.None? {
          return Err(NotInitialized);
        }
        sendKey := Some(ChainKey(rootKey.value, dh));
        rootKey := Some(RootKey(rootKey.value, dh));
        prevLen := sendNum;
        sendNum := 0;
      }
      var ck := sendKey.value;
      sendKey := Some(NextChain(ck));
      if dhPriv.None? {
        return Err(NotInitialized);
      }
      if sendNum >= U32 || prevLen >= U32 {
        return Err(HeaderFieldOverflow);
      }
      var header := Header(sendNum, prevLen, Pub(dhPriv.value), []);
      sendNum := sendNum + 1;
      r := Ok((header, Sealed(MessageKey(ck), nonce, plaintext, header)));
    }
  }
}
