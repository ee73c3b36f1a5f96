/** Message packets of crypto.py: flags, outer timestamp, optional key hint, signature and wrapped key,
    then the sealed body. The ciphers, signatures and key derivation are a value with ideal laws. */
module Packets {
  import opened Basics
  import opened Wire

  const TIME_STEP: nat := 30
  const WINDOW_SIZE: nat := 2

  /** The cryptographic operations. Random inputs (nonces, padding) are arguments. */
  datatype Suite = Suite(
    deriveTimeKey: (Bytes, nat) -> Bytes,
    seal: (Bytes, Bytes, Bytes, Bytes) -> Bytes,
    open: (Bytes, Bytes, Bytes) -> Option<Bytes>,
    wrapKey: (nat, Bytes, nat) -> Bytes,
    unwrapKey: (nat, Bytes) -> Option<Bytes>,
    rsaSign: (nat, Bytes, nat) -> Bytes,
    rsaVerify: (nat, Bytes, Bytes) -> bool,
    hybridSign: ((nat, nat), Bytes) -> Bytes,
    hybridVerify: ((nat, nat), Bytes, Bytes) -> bool,
    keyHint: Bytes -> (Byte, Byte))

  /** A sealed body opens under its key and associated data, and under nothing else. */
  ghost predicate OpensOnlyAsSealed(c: Suite, key: Bytes, nonce: Bytes, body: Bytes, aad: Bytes, key': Bytes, aad': Bytes) {
    c.open(key', c.seal(key, nonce, body, aad), aad') == if key' == key && aad' == aad then Some(body) else None
  }

  /** A wrapped key is unwrapped by its addressee's private key only. */
  ghost predicate UnwrapsOnlyAsWrapped(c: Suite, friend: nat, key: Bytes, pad: nat, friend': nat) {
    c.unwrapKey(friend', c.wrapKey(friend, key, pad)) == if friend' == friend then Some(key) else None
  }

  /** Different secrets or times give different keys. */
  ghost predicate DerivesApart(c: Suite, secret: Bytes, t: nat, secret': Bytes, t': nat) {
    c.deriveTimeKey(secret', t') == c.deriveTimeKey(secret, t) <==> secret' == secret && t' == t
  }

  /** A signature verifies under its signer's key on its message only. */
  ghost predicate VerifiesOnlyAsSigned(c: Suite, signer: nat, message: Bytes, pad: nat, signer': nat, message': Bytes) {
    c.rsaVerify(signer', message', c.rsaSign(signer, message, pad)) <==> signer' == signer && message' == message
  }

  ghost predicate HybridVerifiesOnlyAsSigned(c: Suite, signer: (nat, nat), message: Bytes, signer': (nat, nat), message': Bytes) {
    c.hybridVerify(signer', message', c.hybridSign(signer, message)) <==> signer' == signer && message' == message
  }

  ghost predicate RejectsEmptySignature(c: Suite, signer: nat, message: Bytes) {
    !c.rsaVerify(signer, message, [])
  }

  ghost predicate Ideal(c: Suite) {
    && (forall k, n, b, a, k', a' :: OpensOnlyAsSealed(c, k, n, b, a, k', a'))
    && (forall s, t, s', t' :: DerivesApart(c, s, t, s', t'))
    && (forall f, k, p, f' :: UnwrapsOnlyAsWrapped(c, f, k, p, f'))
    && (forall s, m, p, s', m' :: VerifiesOnlyAsSigned(c, s, m, p, s', m'))
    && (forall s, m, s', m' :: HybridVerifiesOnlyAsSigned(c, s, m, s', m'))
    && (forall s, m :: RejectsEmptySignature(c, s, m))
  }

  // ---- flags ----

  predicate Bit(flags: Byte, m: nat)
    requires m > 0
  {
    (flags / m) % 2 == 1
  }

  function Flags(hybrid: bool, sign: bool, forFriend: bool, destruct: bool): Byte {
    (if hybrid then 8 else if sign then 1 else 0) + (if forFriend then 2 else 16) + (if destruct then 4 else 0)
  }

  lemma FlagBits(hybrid: bool, sign: bool, forFriend: bool, destruct: bool)
    ensures var f := Flags(hybrid, sign, forFriend, destruct);
      && (Bit(f, 8) <==> hybrid) && (Bit(f, 1) <==> sign && !hybrid) && (Bit(f, 2) <==> forFriend)
      && (Bit(f, 4) <==> destruct) && (Bit(f, 16) <==> !forFriend) && f < 32
  {}

  // ---- building ----

  datatype Options = Options(
    sign: bool, rsaKey: Option<nat>, hybridKeys: Option<(nat, nat)>, hybridAvailable: bool,
    friend: Option<nat>, selfDestruct: Option<int>)

  /** Values the sender draws at random. */
  datatype Randomness = Randomness(sessionKey: Bytes, nonce: Bytes, wrapPad: nat, signPad: nat)

  datatype Error = FieldOverflow | Malformed | PrivateKeyRequired | CannotDecrypt | SelfDestructed | OutsideWindow

  datatype Result<+T> = Ok(value: T) | Err(error: Error)

  predicate UsesHybrid(o: Options) {
    o.sign && o.hybridKeys.Some? && o.hybridAvailable
  }

  predicate Destructs(o: Options) {
    o.selfDestruct.Some? && o.selfDestruct.value > 0
  }

  function FlagsOf(o: Options): Byte {
    Flags(UsesHybrid(o), o.sign, o.friend.Some?, Destructs(o))
  }

  predicate Fits(n: int, bound: nat) {
    0 <= n < bound
  }

  /** Timestamp, lifetime if self-destructing, plaintext. */
  function Inner(o: Options, ts: nat, plaintext: Bytes): Bytes {
    BigEndian(ts, 8) + (if Destructs(o) then BigEndian(o.selfDestruct.value, 4) else []) + plaintext
  }

  function SignatureOf(c: Suite, o: Options, inner: Bytes, pad: nat): Bytes {
    if UsesHybrid(o) then c.hybridSign(o.hybridKeys.value, inner)
    else if o.sign && o.rsaKey.Some? then c.rsaSign(o.rsaKey.value, inner, pad)
    else []
  }

  function Bucket(t: int): int {
    t / TIME_STEP * TIME_STEP
  }

  function BodyKey(c: Suite, o: Options, secret: Bytes, ts: nat, r: Randomness): Bytes {
    if o.friend.Some? then r.sessionKey else assert Bucket(ts) >= 0; c.deriveTimeKey(secret, Bucket(ts))
  }

  /** The optional length-prefixed fields between the fixed header and the body. */
  function Field(present: bool, data: Bytes): Bytes
    requires |data| < U16
  {
    if present then Pack(data) else []
  }

  function Hint(c: Suite, o: Options, secret: Bytes): Bytes {
    if o.friend.Some? then [] else [c.keyHint(secret).0, c.keyHint(secret).1]
  }

  /** The authenticated header: everything before the body except the key hint. */
  function Aad(flags: Byte, ts: nat, signed: bool, signature: Bytes, wrapped: bool, key: Bytes): Bytes
    requires |signature| < U16 && |key| < U16
  {
    [flags] + BigEndian(ts, 8) + Field(signed, signature) + Field(wrapped, key)
  }

  function Encrypt(c: Suite, plaintext: Bytes, secret: Bytes, ts: int, o: Options, r: Randomness): Result<Bytes> {
    if !Fits(ts, U64) || (Destructs(o) && !Fits(o.selfDestruct.value, U32)) then Err(FieldOverflow)
    else
      var inner := Inner(o, ts, plaintext);
      var signature := SignatureOf(c, o, inner, r.signPad);
      var key := BodyKey(c, o, secret, ts, r);
      var wrapped := if o.friend.Some? then c.wrapKey(o.friend.value, key, r.wrapPad) else [];
      if |signature| >= U16 || |wrapped| >= U16 then Err(FieldOverflow)
      else
        var aad := Aad(FlagsOf(o), ts, o.sign, signature, o.friend.Some?, wrapped);
        Ok([FlagsOf(o)] + BigEndian(ts, 8) + Hint(c, o, secret) + Field(o.sign, signature)
           + Field(o.friend.Some?, wrapped) + c.seal(key, r.nonce, inner, aad))
  }

  // ---- reading ----

  function Tail(packet: Bytes, offset: nat): Bytes {
    if offset <= |packet| then packet[offset..] else []
  }

  /** Everything the receiver reads from the outside of a packet. */
  datatype Opening = Opening(flags: Byte, ts: nat, signature: Bytes, wrapped: Bytes, aad: Bytes, body: Bytes)

  datatype Parsed = Parsed(data: Bytes, next: nat) | Bad

  function OptionalField(packet: Bytes, present: bool, offset: nat): Parsed {
    if !present then Parsed([], offset)
    else match Unpack(packet, offset)
         case Unpacked(data, next) => Parsed(data, next)
         case Truncated => Bad
  }

  function ParseOuter(packet: Bytes, hasKey: bool): Result<Opening> {
    if |packet| < 9 then Err(Malformed)
    else
      var flags, ts := packet[0], FromBigEndian(packet[1..9]);
      var signed := Bit(flags, 1) || Bit(flags, 8);
      var signature := OptionalField(packet, signed, if Bit(flags, 16) then 11 else 9);
      if signature.Bad? then Err(Malformed)
      else if Bit(flags, 2) && !hasKey then Err(PrivateKeyRequired)
      else
        var wrapped := OptionalField(packet, Bit(flags, 2), signature.next);
        if wrapped.Bad? || |signature.data| >= U16 || |wrapped.data| >= U16 then Err(Malformed)
        else Ok(Opening(flags, ts, signature.data, wrapped.data,
                        Aad(flags, ts, signed, signature.data, Bit(flags, 2), wrapped.data),
                        Tail(packet, wrapped.next)))
  }

  /** The times whose buckets are tried: the packet's own, then five around now. */
  function Candidates(outer: nat, now: int): seq<int> {
    [outer] + seq(2 * WINDOW_SIZE + 1, i => now + (i - WINDOW_SIZE) * TIME_STEP)
  }

  predicate InRange(t: int) {
    Fits(Bucket(t), U64)
  }

  /** The first candidate under which the body opens. */
  function FirstOpening(c: Suite, secret: Bytes, body: Bytes, aad: Bytes, times: seq<int>): Option<Bytes> {
    if times == [] then None
    else if !InRange(times[0]) then FirstOpening(c, secret, body, aad, times[1..])
    else
      var opening := c.open(c.deriveTimeKey(secret, Bucket(times[0])), body, aad);
      if opening.Some? then opening else FirstOpening(c, secret, body, aad, times[1..])
  }

  predicate AllInRange(times: seq<int>) {
    forall i :: 0 <= i < |times| ==> InRange(times[i])
  }

  /** Tries every candidate without stopping early; a time that does not fit eight bytes raises. */
  method DecryptWithWindow(c: Suite, secret: Bytes, body: Bytes, outer: nat, now: int, aad: Bytes)
    returns (r: Result<Bytes>)
    ensures r == OpenInWindow(c, secret, body, outer, now, aad)
  {
    var found: Option<Bytes> := None;
    var times := Candidates(outer, now);
    for i := 0 to |times|
      invariant forall k :: 0 <= k < i ==> InRange(times[k])
      invariant FirstOpening(c, secret, body, aad, times)
             == if found.Some? then found else FirstOpening(c, secret, body, aad, times[i..])
    {
      assert times[i..][1..] == times[i + 1..];
      if !InRange(times[i]) {
        return Err(FieldOverflow);
      }
      var opening := c.open(c.deriveTimeKey(secret, Bucket(times[i])), body, aad);
      if opening.Some? && found.None? {
        found := opening;
      }
    }
    r := if found.Some? then Ok(found.value) else Err(CannotDecrypt);
  }

  function OpenInWindow(c: Suite, secret: Bytes, body: Bytes, outer: nat, now: int, aad: Bytes): Result<Bytes> {
    if !AllInRange(Candidates(outer, now)) then Err(FieldOverflow)
    else
      var opening := FirstOpening(c, secret, body, aad, Candidates(outer, now));
      if opening.Some? then Ok(opening.value) else Err(CannotDecrypt)
  }

  function OpenBody(c: Suite, p: Opening, secret: Bytes, myKey: Option<nat>, now: int): Result<Bytes> {
    if Bit(p.flags, 2) then
      if myKey.None? then Err(PrivateKeyRequired)
      else
        var key := c.unwrapKey(myKey.value, p.wrapped);
        if key.None? then Err(CannotDecrypt)
        else
          var opening := c.open(key.value, p.body, p.aad);
          if opening.Some? then Ok(opening.value) else Err(CannotDecrypt)
    else OpenInWindow(c, secret, p.body, p.ts, now, p.aad)
  }

  datatype Signed = Unsigned | Verified(name: string) | Unverified

  datatype Message = Message(plaintext: Bytes, signed: Signed)

  /** The first friend whose key verifies. */
  function FirstSigner<K>(friends: seq<(string, K)>, verifies: K -> bool): Signed {
    if friends == [] then Unverified
    else if verifies(friends[0].1) then Verified(friends[0].0)
    else FirstSigner(friends[1..], verifies)
  }

  /** The receiver's contacts, and whether its library for hybrid signatures is installed. */
  datatype AddressBook = AddressBook(
    friends: seq<(string, nat)>, hybridFriends: seq<(string, (nat, nat))>, hybridAvailable: bool)

  /** Without the library no hybrid signature verifies. */
  function Contacts(c: Suite, p: Opening, data: Bytes, book: AddressBook): Signed {
    if Bit(p.flags, 8) then FirstSigner(book.hybridFriends, k => book.hybridAvailable && c.hybridVerify(k, data, p.signature))
    else if Bit(p.flags, 1) then FirstSigner(book.friends, k => c.rsaVerify(k, data, p.signature))
    else Unsigned
  }

  function ReadInner(c: Suite, p: Opening, inner: Bytes, now: int, book: AddressBook): Result<Message> {
    var destruct := Bit(p.flags, 4);
    if |inner| < 8 || (destruct && |inner| < 12) then Err(Malformed)
    else
      var ts := FromBigEndian(inner[..8]);
      var lifetime := if destruct then FromBigEndian(inner[8..12]) else 0;
      var plaintext := if destruct then inner[12..] else inner[8..];
      if destruct && now > ts + lifetime then Err(SelfDestructed)
      else if !destruct && !(ts - TIME_STEP * WINDOW_SIZE <= now <= ts + TIME_STEP * WINDOW_SIZE) then Err(OutsideWindow)
      else
        var data := BigEndian(ts, 8) + (if destruct then BigEndian(lifetime, 4) else []) + plaintext;
        Ok(Message(plaintext, Contacts(c, p, data, book)))
  }

  function Decrypt(c: Suite, packet: Bytes, secret: Bytes, myKey: Option<nat>, now: int, book: AddressBook): Result<Message> {
    var p := ParseOuter(packet, myKey.Some?);
    if p.Err? then Err(p.error)
    else
      var inner := OpenBody(c, p.value, secret, myKey, now);
      if inner.Err? then Err(inner.error)
      else ReadInner(c, p.value, inner.value, now, book)
  }
}

/** What packets promise between an honest sender and receiver. */
module PacketTheorems {
  import opened Basics
  import opened Wire
  import opened Packets

  // ---- the outside of a packet ----

  lemma OptionalFieldInverts(before: Bytes, present: bool, data: Bytes, rest: Bytes)
    requires |data| < U16
    ensures OptionalField(before + Field(present, data) + rest, present, |before|)
         == Parsed(if present then data else [], |before| + |Field(present, data)|)
  {
    if present {
      UnpackInverts(before, data, rest);
    }
  }

  /** The fixed part of a packet with an arbitrary hint in place of the sender's. */
  function Prefix(flags: Byte, ts: nat, hint: Bytes): Bytes {
    [flags] + BigEndian(ts, 8) + hint
  }

  lemma PrefixRead(flags: Byte, ts: nat, hint: Bytes, rest: Bytes)
    requires ts < U64
    ensures var packet := Prefix(flags, ts, hint) + rest;
      |packet| >= 9 && packet[0] == flags && FromBigEndian(packet[1..9]) == ts
  {
    FieldSizes();
    FromBigEndianInverts(ts, 8);
    var packet := Prefix(flags, ts, hint) + rest;
    assert packet[1..9] == BigEndian(ts, 8);
  }

  function Layout(flags: Byte, ts: nat, hint: Bytes, signed: bool, signature: Bytes, wraps: bool, wrapped: Bytes, body: Bytes): Bytes
    requires |signature| < U16 && |wrapped| < U16
  {
    Prefix(flags, ts, hint) + Field(signed, signature) + Field(wraps, wrapped) + body
  }

  /** Whatever the flags, the receiver reads back every field and rebuilds the sender's associated data. */
  lemma OuterRoundTrip(o: Options, ts: nat, hint: Bytes, signature: Bytes, wrapped: Bytes, body: Bytes, hasKey: bool)
    requires ts < U64 && |signature| < U16 && |wrapped| < U16
    requires |hint| == (if o.friend.Some? then 0 else 2)
    requires (!o.sign ==> signature == []) && (o.friend.None? ==> wrapped == [])
    ensures ParseOuter(Layout(FlagsOf(o), ts, hint, o.sign, signature, o.friend.Some?, wrapped, body), hasKey)
         == if o.friend.Some? && !hasKey then Err(PrivateKeyRequired)
            else Ok(Opening(FlagsOf(o), ts, signature, wrapped,
                            Aad(FlagsOf(o), ts, o.sign, signature, o.friend.Some?, wrapped), body))
  {
    FlagBits(UsesHybrid(o), o.sign, o.friend.Some?, Destructs(o));
    LayoutRead(FlagsOf(o), ts, hint, o.sign, signature, o.friend.Some?, wrapped, body);
  }

  /** Reading the fields of a layout one after the other. */
  lemma LayoutRead(flags: Byte, ts: nat, hint: Bytes, signed: bool, signature: Bytes, wraps: bool, wrapped: Bytes, body: Bytes)
    requires ts < U64 && |signature| < U16 && |wrapped| < U16
    requires (!signed ==> signature == []) && (!wraps ==> wrapped == [])
    ensures var packet := Layout(flags, ts, hint, signed, signature, wraps, wrapped, body);
      var first := OptionalField(packet, signed, 9 + |hint|);
      && |packet| >= 9 && packet[0] == flags && FromBigEndian(packet[1..9]) == ts
      && first.Parsed? && first.data == signature
      && OptionalField(packet, wraps, first.next).Parsed? && OptionalField(packet, wraps, first.next).data == wrapped
      && Tail(packet, OptionalField(packet, wraps, first.next).next) == body
  {
    var prefix, f1, f2 := Prefix(flags, ts, hint), Field(signed, signature), Field(wraps, wrapped);
    Regroup(prefix, f1, f2, body);
    PrefixRead(flags, ts, hint, f1 + f2 + body);
    OptionalFieldInverts(prefix, signed, signature, f2 + body);
    OptionalFieldInverts(prefix + f1, wraps, wrapped, body);
  }

  lemma Regroup(a: Bytes, b: Bytes, c: Bytes, d: Bytes)
    ensures a + b + c + d == a + (b + c + d) == a + b + (c + d)
    ensures (a + b + c + d)[|a| + |b| + |c|..] == d
  {}

  // ---- time buckets ----

  /** Any time within a minute of now falls into one of the five buckets tried around now. */
  lemma WindowCoversMinute(ts: int, now: int)
    requires -60 <= now - ts <= 60
    ensures exists i :: 1 <= i < |Candidates(0, now)| && Bucket(Candidates(0, now)[i]) == Bucket(ts)
  {
    var d := ts / 30 - now / 30;
    assert -2 <= d <= 2;
    assert (now + 30 * d) / 30 == now / 30 + d;
    assert Bucket(Candidates(0, now)[d + 3]) == Bucket(ts);
  }

  /** The clock readings for which every candidate time fits its eight-byte field. */
  predicate ClockUsable(now: int) {
    60 <= now && (now + 60) / 30 * 30 < 0x1_0000_0000_0000_0000
  }

  lemma UsableMeansInRange(ts: nat, now: int)
    requires ts < U64
    ensures AllInRange(Candidates(ts, now)) <==> ClockUsable(now)
  {
    var times := Candidates(ts, now);
    if AllInRange(times) {
      assert InRange(times[1]) && InRange(times[5]);
    }
    if ClockUsable(now) {
      forall i | 0 <= i < |times| ensures InRange(times[i]) {
        assert Bucket(times[i]) <= (if i == 0 then Bucket(ts) else Bucket(now + 60));
      }
    }
  }

  // ---- honest packets ----

  /** Which contact's name the receiver shows for the sender's signature. */
  function Owner<K(==)>(friends: seq<(string, K)>, key: K): Signed {
    if friends == [] then Unverified
    else if friends[0].1 == key then Verified(friends[0].0)
    else Owner(friends[1..], key)
  }

  lemma {:induction false} FirstSignerIsOwner<K(!new)>(friends: seq<(string, K)>, verifies: K -> bool, key: K)
    requires forall k :: verifies(k) <==> k == key
    ensures FirstSigner(friends, verifies) == Owner(friends, key)
  {
    if friends != [] {
      FirstSignerIsOwner(friends[1..], verifies, key);
    }
  }

  lemma {:induction false} NoSigner<K(!new)>(friends: seq<(string, K)>, verifies: K -> bool)
    requires forall k :: !verifies(k)
    ensures FirstSigner(friends, verifies) == Unverified
  {
    if friends != [] {
      NoSigner(friends[1..], verifies);
    }
  }

  function ExpectedSigner(o: Options, book: AddressBook): Signed {
    if !o.sign then Unsigned
    else if UsesHybrid(o) then (if book.hybridAvailable then Owner(book.hybridFriends, o.hybridKeys.value) else Unverified)
    else if o.rsaKey.Some? then Owner(book.friends, o.rsaKey.value)
    else Unverified
  }

  /** The name shown for a signature made over `inner` when `data` is what was read: over other data no signature
      counts for anybody. */
  lemma SignerShown(c: Suite, o: Options, inner: Bytes, pad: nat, p: Opening, data: Bytes, book: AddressBook)
    requires Ideal(c) && p.flags == FlagsOf(o) && p.signature == SignatureOf(c, o, inner, pad)
    ensures Contacts(c, p, data, book) == if !o.sign || data == inner then ExpectedSigner(o, book) else Unverified
  {
    FlagBits(UsesHybrid(o), o.sign, o.friend.Some?, Destructs(o));
    if UsesHybrid(o) {
      HybridSignerShown(c, o, inner, p, data, book);
    } else if o.sign {
      RsaSignerShown(c, o, inner, pad, p, data, book);
    }
  }

  lemma HybridSignerShown(c: Suite, o: Options, inner: Bytes, p: Opening, data: Bytes, book: AddressBook)
    requires Ideal(c) && UsesHybrid(o) && p.signature == c.hybridSign(o.hybridKeys.value, inner)
    ensures FirstSigner(book.hybridFriends, k => book.hybridAvailable && c.hybridVerify(k, data, p.signature))
         == if data == inner then ExpectedSigner(o, book) else Unverified
  {
    var key := o.hybridKeys.value;
    forall k ensures c.hybridVerify(k, data, p.signature) <==> k == key && data == inner {
      assert HybridVerifiesOnlyAsSigned(c, key, inner, k, data);
    }
    if book.hybridAvailable && data == inner {
      FirstSignerIsOwner(book.hybridFriends, k => book.hybridAvailable && c.hybridVerify(k, data, p.signature), key);
    } else {
      NoSigner(book.hybridFriends, k => book.hybridAvailable && c.hybridVerify(k, data, p.signature));
    }
  }

  lemma RsaSignerShown(c: Suite, o: Options, inner: Bytes, pad: nat, p: Opening, data: Bytes, book: AddressBook)
    requires Ideal(c) && o.sign && !UsesHybrid(o) && p.signature == SignatureOf(c, o, inner, pad)
    ensures FirstSigner(book.friends, k => c.rsaVerify(k, data, p.signature))
         == if data == inner then ExpectedSigner(o, book) else Unverified
  {
    forall k: nat ensures c.rsaVerify(k, data, p.signature) <==> o.rsaKey == Some(k) && data == inner {
      if o.rsaKey.Some? {
        assert VerifiesOnlyAsSigned(c, o.rsaKey.value, inner, pad, k, data);
      } else {
        assert RejectsEmptySignature(c, k, data);
      }
    }
    if o.rsaKey.Some? && data == inner {
      FirstSignerIsOwner(book.friends, k => c.rsaVerify(k, data, p.signature), o.rsaKey.value);
    } else {
      NoSigner(book.friends, k => c.rsaVerify(k, data, p.signature));
    }
  }

  /** What an honest packet of these options yields at time `now`. */
  function Verdict(o: Options, ts: nat, plaintext: Bytes, now: int, book: AddressBook): Result<Message> {
    if Destructs(o) && now > ts + o.selfDestruct.value then Err(SelfDestructed)
    else if !Destructs(o) && !(-60 <= now - ts <= 60) then Err(OutsideWindow)
    else Ok(Message(plaintext, ExpectedSigner(o, book)))
  }

  lemma InnerRead(c: Suite, o: Options, ts: nat, plaintext: Bytes, pad: nat, p: Opening, now: int, book: AddressBook)
    requires Ideal(c) && ts < U64 && (Destructs(o) ==> Packets.Fits(o.selfDestruct.value, U32))
    requires p.flags == FlagsOf(o) && p.signature == SignatureOf(c, o, Inner(o, ts, plaintext), pad)
    ensures ReadInner(c, p, Inner(o, ts, plaintext), now, book)
         == Verdict(o, ts, plaintext, now, book)
  {
    var inner := Inner(o, ts, plaintext);
    FieldSizes();
    FlagBits(UsesHybrid(o), o.sign, o.friend.Some?, Destructs(o));
    FromBigEndianInverts(ts, 8);
    assert inner[..8] == BigEndian(ts, 8);
    if Destructs(o) {
      FromBigEndianInverts(o.selfDestruct.value, 4);
      assert inner[8..12] == BigEndian(o.selfDestruct.value, 4) && inner[12..] == plaintext;
    } else {
      assert inner[8..] == plaintext;
    }
    SignerShown(c, o, inner, pad, p, inner, book);
  }

  /** A body under the key of the thirty seconds that begin at 30 k, tried with a secret at a usable clock: it opens
      exactly with the same secret and associated data, when k is the outer timestamp's or at most two away from
      the clock's. */
  lemma WindowExact(c: Suite, secret: Bytes, k: nat, nonce: Bytes, inner: Bytes, aad: Bytes,
                    secret': Bytes, outer: nat, now: int, aad': Bytes)
    requires Ideal(c) && outer < 0x1_0000_0000_0000_0000 && ClockUsable(now)
    ensures OpenInWindow(c, secret', c.seal(c.deriveTimeKey(secret, 30 * k), nonce, inner, aad), outer, now, aad')
         == if secret' == secret && aad' == aad && (k == outer / 30 || -2 <= k - now / 30 <= 2)
            then Ok(inner) else Err(CannotDecrypt)
  {
    UsableMeansInRange(outer, now);
    var times, body := Candidates(outer, now), c.seal(c.deriveTimeKey(secret, 30 * k), nonce, inner, aad);
    forall i | 0 <= i < |times|
      ensures Opens(c, secret', body, aad', times[i])
           == if secret' == secret && aad' == aad && Bucket(times[i]) == 30 * k then Some(inner) else None
    {
      CandidateOpens(c, secret, k, nonce, inner, aad, secret', aad', times[i]);
    }
    BucketsTried(outer, now, k);
    var hits := secret' == secret && aad' == aad && (exists i :: 0 <= i < |times| && Bucket(times[i]) == 30 * k);
    FirstOpeningFound(c, secret', body, aad', times, inner, hits);
  }

  lemma CandidateOpens(c: Suite, secret: Bytes, k: nat, nonce: Bytes, inner: Bytes, aad: Bytes, secret': Bytes, aad': Bytes, t: int)
    requires Ideal(c) && InRange(t)
    ensures Opens(c, secret', c.seal(c.deriveTimeKey(secret, 30 * k), nonce, inner, aad), aad', t)
         == if secret' == secret && aad' == aad && Bucket(t) == 30 * k then Some(inner) else None
  {
    assert DerivesApart(c, secret, 30 * k, secret', Bucket(t));
    assert OpensOnlyAsSealed(c, c.deriveTimeKey(secret, 30 * k), nonce, inner, aad, c.deriveTimeKey(secret', Bucket(t)), aad');
  }

  /** The first opening is the body if some candidate opens it and all that do open it to the body. */
  lemma {:induction false} FirstOpeningFound(c: Suite, secret: Bytes, body: Bytes, aad: Bytes, times: seq<int>, inner: Bytes, hits: bool)
    requires AllInRange(times)
    requires forall i :: 0 <= i < |times| ==> Opens(c, secret, body, aad, times[i]) in {None, Some(inner)}
    requires hits <==> exists i :: 0 <= i < |times| && Opens(c, secret, body, aad, times[i]).Some?
    ensures FirstOpening(c, secret, body, aad, times) == if hits then Some(inner) else None
  {
    if times != [] {
      assert InRange(times[0]);
      if Opens(c, secret, body, aad, times[0]).None? {
        forall i | 0 <= i < |times| && Opens(c, secret, body, aad, times[i]).Some?
          ensures i > 0 && Opens(c, secret, body, aad, times[1..][i - 1]).Some?
        {}
        FirstOpeningFound(c, secret, body, aad, times[1..], inner, hits);
      }
    }
  }

  function Opens(c: Suite, secret: Bytes, body: Bytes, aad: Bytes, t: int): Option<Bytes> {
    if Bucket(t) < 0 then None else c.open(c.deriveTimeKey(secret, Bucket(t)), body, aad)
  }

  /** The buckets tried begin at the outer timestamp's thirty seconds, and at those up to two away from now. */
  lemma BucketsTried(outer: nat, now: int, k: int)
    ensures (exists i :: 0 <= i < |Candidates(outer, now)| && Bucket(Candidates(outer, now)[i]) == 30 * k)
       <==> k == outer / 30 || -2 <= k - now / 30 <= 2
  {
    var times := Candidates(outer, now);
    forall i | 1 <= i < 6 ensures Bucket(times[i]) == 30 * (now / 30 + i - 3) {
      assert times[i] == now + (i - 3) * 30;
    }
    if -2 <= k - now / 30 <= 2 {
      assert Bucket(times[k - now / 30 + 3]) == 30 * k;
    }
    assert Bucket(times[0]) == 30 * (outer / 30);
  }

  /** Two bodies for holders of a secret are under the same key exactly if the secrets are the same and the
      timestamps are in the same thirty seconds; two bodies for friends, if the drawn session keys are. */
  lemma SameBodyKeyIff(c: Suite, o: Options, secret: Bytes, ts: nat, r: Randomness, o': Options, secret': Bytes, ts': nat, r': Randomness)
    requires Ideal(c) && o.friend.Some? == o'.friend.Some?
    ensures BodyKey(c, o, secret, ts, r) == BodyKey(c, o', secret', ts', r') <==>
      if o.friend.Some? then r.sessionKey == r'.sessionKey else secret == secret' && ts / 30 == ts' / 30
  {
    if o.friend.None? {
      assert Bucket(ts) == 30 * (ts / 30) && Bucket(ts') == 30 * (ts' / 30);
      assert DerivesApart(c, secret, Bucket(ts), secret', Bucket(ts'));
    }
  }

  /** What a reader with this secret and private key finds in the body of an honest packet. */
  lemma BodyOpens(c: Suite, o: Options, secret: Bytes, ts: nat, r: Randomness, inner: Bytes, p: Opening,
                  secret': Bytes, myKey: Option<nat>, now: int)
    requires Ideal(c) && ts < U64 && p.flags == FlagsOf(o) && p.ts == ts
    requires p.body == c.seal(BodyKey(c, o, secret, ts, r), r.nonce, inner, p.aad)
    requires o.friend.Some? ==> p.wrapped == c.wrapKey(o.friend.value, r.sessionKey, r.wrapPad)
    ensures OpenBody(c, p, secret', myKey, now) == BodyVerdict(o, secret, secret', myKey, now, inner)
  {
    FlagBits(UsesHybrid(o), o.sign, o.friend.Some?, Destructs(o));
    if o.friend.Some? {
      if myKey.Some? {
        assert UnwrapsOnlyAsWrapped(c, o.friend.value, r.sessionKey, r.wrapPad, myKey.value);
        assert OpensOnlyAsSealed(c, r.sessionKey, r.nonce, inner, p.aad, r.sessionKey, p.aad);
      }
    } else {
      assert Bucket(ts) == 30 * (ts / 30);
      UsableMeansInRange(ts, now);
      if ClockUsable(now) {
        WindowExact(c, secret, ts / 30, r.nonce, inner, p.aad, secret', ts, now, p.aad);
      }
    }
  }

  /** Only the addressed friend, or holders of the secret while the clock is usable, open the body. */
  function BodyVerdict(o: Options, secret: Bytes, secret': Bytes, myKey: Option<nat>, now: int, inner: Bytes): Result<Bytes> {
    if o.friend.Some? then
      if myKey.None? then Err(PrivateKeyRequired) else if myKey != o.friend then Err(CannotDecrypt) else Ok(inner)
    else if !ClockUsable(now) then Err(FieldOverflow)
    else if secret' != secret then Err(CannotDecrypt)
    else Ok(inner)
  }

  /** For every combination of signature, key and lifetime options, and every reader: decrypting an honest packet
      gives back the plaintext and names the signer exactly for those it is meant for and while it is in time, and
      says why otherwise. */
  lemma HonestPacket(c: Suite, plaintext: Bytes, secret: Bytes, ts: int, o: Options, r: Randomness,
                     secret': Bytes, myKey: Option<nat>, now: int, book: AddressBook)
    requires Ideal(c) && Encrypt(c, plaintext, secret, ts, o, r).Ok?
    ensures 0 <= ts
    ensures Decrypt(c, Encrypt(c, plaintext, secret, ts, o, r).value, secret', myKey, now, book)
         == match BodyVerdict(o, secret, secret', myKey, now, [])
            case Err(e) => Err(e)
            case Ok(_) => Verdict(o, ts, plaintext, now, book)
  {
    PacketContents(c, plaintext, secret, ts, o, r, myKey.Some?);
    if o.friend.None? || myKey.Some? {
      ContentsRead(c, plaintext, secret, ts, o, r, secret', myKey, now, book);
    }
  }

  lemma ContentsRead(c: Suite, plaintext: Bytes, secret: Bytes, ts: nat, o: Options, r: Randomness,
                     secret': Bytes, myKey: Option<nat>, now: int, book: AddressBook)
    requires Ideal(c) && Encrypt(c, plaintext, secret, ts, o, r).Ok?
    ensures var p, inner := Contents(c, plaintext, secret, ts, o, r), Inner(o, ts, plaintext);
      && OpenBody(c, p, secret', myKey, now) == BodyVerdict(o, secret, secret', myKey, now, inner)
      && ReadInner(c, p, inner, now, book) == Verdict(o, ts, plaintext, now, book)
  {
    var p := Contents(c, plaintext, secret, ts, o, r);
    assert Bucket(ts) == 30 * (ts / 30);
    BodyOpens(c, o, secret, ts, r, Inner(o, ts, plaintext), p, secret', myKey, now);
    InnerRead(c, o, ts, plaintext, r.signPad, p, now, book);
  }

  /** What a packet shows on the outside: the header fields, with the signature over the timestamp, the lifetime if
      there is one and the plaintext; and the sealed body, bound to the header bytes without the hint. */
  function Contents(c: Suite, plaintext: Bytes, secret: Bytes, ts: nat, o: Options, r: Randomness): Opening
    requires Encrypt(c, plaintext, secret, ts, o, r).Ok?
  {
    var inner := BigEndian(ts, 8) + (if o.selfDestruct.Some? && o.selfDestruct.value > 0 then BigEndian(o.selfDestruct.value, 4) else []) + plaintext;
    var signature :=
      if !o.sign then []
      else if o.hybridKeys.Some? && o.hybridAvailable then c.hybridSign(o.hybridKeys.value, inner)
      else if o.rsaKey.Some? then c.rsaSign(o.rsaKey.value, inner, r.signPad)
      else [];
    var key := if o.friend.Some? then r.sessionKey else c.deriveTimeKey(secret, 30 * (ts / 30));
    var wrapped := if o.friend.Some? then c.wrapKey(o.friend.value, r.sessionKey, r.wrapPad) else [];
    var aad := Aad(FlagsOf(o), ts, o.sign, signature, o.friend.Some?, wrapped);
    Opening(FlagsOf(o), ts, signature, wrapped, aad, c.seal(key, r.nonce, inner, aad))
  }

  /** The bytes of a packet: the flags, the timestamp, the two bytes of the hint unless it is for a friend, each with
      its length the signature if signed and the wrapped key if for a friend, and the sealed body. */
  lemma PacketBytes(c: Suite, plaintext: Bytes, secret: Bytes, ts: int, o: Options, r: Randomness)
    requires Encrypt(c, plaintext, secret, ts, o, r).Ok?
    ensures 0 <= ts
    ensures var p := Contents(c, plaintext, secret, ts, o, r);
      var hybrid := o.sign && o.hybridKeys.Some? && o.hybridAvailable;
      && p.flags as int == (if hybrid then 8 else if o.sign then 1 else 0) + (if o.friend.Some? then 2 else 16)
                           + (if o.selfDestruct.Some? && o.selfDestruct.value > 0 then 4 else 0)
      && Encrypt(c, plaintext, secret, ts, o, r).value
         == [p.flags] + BigEndian(ts, 8) + (if o.friend.Some? then [] else [c.keyHint(secret).0, c.keyHint(secret).1])
            + (if o.sign then BigEndian(|p.signature|, 2) + p.signature else [])
            + (if o.friend.Some? then BigEndian(|p.wrapped|, 2) + p.wrapped else []) + p.body
  {
    assert Bucket(ts) == 30 * (ts / 30);
  }

  lemma PacketContents(c: Suite, plaintext: Bytes, secret: Bytes, ts: int, o: Options, r: Randomness, hasKey: bool)
    requires Encrypt(c, plaintext, secret, ts, o, r).Ok?
    ensures 0 <= ts
    ensures ParseOuter(Encrypt(c, plaintext, secret, ts, o, r).value, hasKey)
         == if o.friend.Some? && !hasKey then Err(PrivateKeyRequired) else Ok(Contents(c, plaintext, secret, ts, o, r))
  {
    var p := Contents(c, plaintext, secret, ts, o, r);
    assert Bucket(ts) == 30 * (ts / 30);
    assert Encrypt(c, plaintext, secret, ts, o, r).value
        == Layout(FlagsOf(o), ts, Hint(c, o, secret), o.sign, p.signature, o.friend.Some?, p.wrapped, p.body);
    OuterRoundTrip(o, ts, Hint(c, o, secret), p.signature, p.wrapped, p.body, hasKey);
  }

  /** Encrypting fails exactly when timestamp, lifetime, signature or wrapped key does not fit its field. */
  lemma EncryptOkIff(c: Suite, plaintext: Bytes, secret: Bytes, ts: int, o: Options, r: Randomness)
    ensures var timed := 0 <= ts < 0x1_0000_0000_0000_0000
                         && (o.selfDestruct.Some? && o.selfDestruct.value > 0 ==> o.selfDestruct.value < 0x1_0000_0000);
      && (Encrypt(c, plaintext, secret, ts, o, r).Ok? <==>
            timed && |SignatureOf(c, o, Inner(o, ts, plaintext), r.signPad)| < 0x1_0000
            && (o.friend.Some? ==> |c.wrapKey(o.friend.value, r.sessionKey, r.wrapPad)| < 0x1_0000))
      && (Encrypt(c, plaintext, secret, ts, o, r).Err? ==> Encrypt(c, plaintext, secret, ts, o, r).error == FieldOverflow)
  {}

  /** A signature on the outside counts only for the message it was made for: whatever body it is put in front of,
      by whoever can seal one, the reader sees the signer's name exactly over the signed timestamp, lifetime and
      plaintext. */
  lemma SignatureNotLifted(c: Suite, o: Options, signed: Bytes, pad: nat, p: Opening, inner: Bytes, now: int, book: AddressBook)
    requires Ideal(c) && p.flags == FlagsOf(o) && p.signature == SignatureOf(c, o, signed, pad)
    requires ReadInner(c, p, inner, now, book).Ok?
    ensures ReadInner(c, p, inner, now, book).value
         == Message(if Destructs(o) then inner[12..] else inner[8..],
                    if !o.sign || inner == signed then ExpectedSigner(o, book) else Unverified)
  {
    FieldSizes();
    FlagBits(UsesHybrid(o), o.sign, o.friend.Some?, Destructs(o));
    BigEndianInverts(inner[..8]);
    if Destructs(o) {
      BigEndianInverts(inner[8..12]);
      assert inner == inner[..8] + inner[8..12] + inner[12..];
    } else {
      assert inner == inner[..8] + [] + inner[8..];
    }
    SignerShown(c, o, signed, pad, p, inner, book);
  }

  // ---- what is and is not authenticated ----

  /** With the sealed body of an honest packet, any other flags, timestamp, signature or wrapped key
      makes the body unreadable under the same body key. */
  lemma ChangedHeaderRejected(c: Suite, key: Bytes, nonce: Bytes, inner: Bytes, aad: Bytes, p: Opening, secret: Bytes,
                              myKey: Option<nat>, now: int)
    requires Ideal(c) && p.body == c.seal(key, nonce, inner, aad) && p.aad != aad
    ensures OpenBody(c, p, secret, myKey, now).Err?
  {
    forall k ensures c.open(k, p.body, p.aad) == None {
      assert OpensOnlyAsSealed(c, key, nonce, inner, aad, k, p.aad);
    }
    if !Bit(p.flags, 2) {
      NothingOpens(c, secret, p.body, p.aad, Candidates(p.ts, now));
    }
  }

  lemma {:induction false} NothingOpens(c: Suite, secret: Bytes, body: Bytes, aad: Bytes, times: seq<int>)
    requires forall k :: c.open(k, body, aad) == None
    ensures FirstOpening(c, secret, body, aad, times) == None
  {
    if times != [] {
      NothingOpens(c, secret, body, aad, times[1..]);
    }
  }

  /** Different header fields give different associated data. */
  lemma AadDetermines(flags: Byte, ts: nat, flags': Byte, ts': nat, signed: bool, signature: Bytes, signature': Bytes,
                      wraps: bool, wrapped: Bytes, wrapped': Bytes)
    requires ts < U64 && ts' < U64 && |signature| < U16 && |signature'| < U16 && |wrapped| < U16 && |wrapped'| < U16
    requires Aad(flags, ts, signed, signature, wraps, wrapped) == Aad(flags', ts', signed, signature', wraps, wrapped')
    ensures flags == flags' && ts == ts' && (signed ==> signature == signature') && (wraps ==> wrapped == wrapped')
  {
    AadReads(flags, ts, signed, signature, wraps, wrapped);
    AadReads(flags', ts', signed, signature', wraps, wrapped');
  }

  /** All header fields can be read back from the associated data. */
  lemma AadReads(flags: Byte, ts: nat, signed: bool, signature: Bytes, wraps: bool, wrapped: Bytes)
    requires ts < U64 && |signature| < U16 && |wrapped| < U16
    ensures var a := Aad(flags, ts, signed, signature, wraps, wrapped);
      var f1 := OptionalField(a, signed, 9);
      && |a| >= 9 && a[0] == flags && FromBigEndian(a[1..9]) == ts
      && f1.Parsed? && (signed ==> f1.data == signature)
      && (wraps ==> OptionalField(a, wraps, f1.next).Parsed? && OptionalField(a, wraps, f1.next).data == wrapped)
  {
    var f1, f2, prefix := Field(signed, signature), Field(wraps, wrapped), Prefix(flags, ts, []);
    Regroup(prefix, f1, f2, []);
    assert Aad(flags, ts, signed, signature, wraps, wrapped) == prefix + f1 + f2 + [];
    PrefixRead(flags, ts, [], f1 + f2 + []);
    OptionalFieldInverts(prefix, signed, signature, f2 + []);
    OptionalFieldInverts(prefix + f1, wraps, wrapped, []);
  }

  /** The header fields a receiver reads. */
  predicate SameHeader(p: Opening, q: Opening) {
    p.flags == q.flags && p.ts == q.ts && p.signature == q.signature && p.wrapped == q.wrapped
  }

  /** What parsing makes of the header fields, and the associated data it rebuilds from them. */
  lemma ParsedShape(packet: Bytes, hasKey: bool)
    requires ParseOuter(packet, hasKey).Ok?
    ensures var p := ParseOuter(packet, hasKey).value;
      var signed := Bit(p.flags, 1) || Bit(p.flags, 8);
      && p.ts < U64 && |p.signature| < U16 && |p.wrapped| < U16
      && p.aad == Aad(p.flags, p.ts, signed, p.signature, Bit(p.flags, 2), p.wrapped)
      && (!signed ==> p.signature == []) && (!Bit(p.flags, 2) ==> p.wrapped == [])
  {
    FieldSizes();
    BigEndianInverts(packet[1..9]);
  }

  /** An optional field that was read is the packed form of what was read. */
  lemma OptionalFieldRebuilds(packet: Bytes, present: bool, offset: nat)
    requires OptionalField(packet, present, offset).Parsed? && (!present ==> offset <= |packet|)
    ensures var f := OptionalField(packet, present, offset);
      && offset <= f.next <= |packet| && |f.data| < U16 && packet[offset..f.next] == Field(present, f.data)
  {
    if present {
      PackInverts(packet, offset);
    }
  }

  /** Where the hint ends: it is cut short in a packet of nine or ten bytes. */
  function HintEnd(packet: Bytes): nat
    requires |packet| >= 9
  {
    if !Bit(packet[0], 16) then 9 else if |packet| < 11 then |packet| else 11
  }

  /** Whatever packet is read, it is the layout of what was read, byte for byte, and the associated data is
      exactly the bytes before the body without the hint. */
  lemma ParsedRebuilds(packet: Bytes, hasKey: bool)
    requires ParseOuter(packet, hasKey).Ok?
    ensures var p, h := ParseOuter(packet, hasKey).value, HintEnd(packet);
      var start := |packet| - |p.body|;
      && h <= start && packet[start..] == p.body && p.aad == packet[..9] + packet[h..start]
      && p.ts < U64 && |p.signature| < U16 && |p.wrapped| < U16
      && packet == Layout(p.flags, p.ts, packet[9..h], Bit(p.flags, 1) || Bit(p.flags, 8), p.signature, Bit(p.flags, 2), p.wrapped, p.body)
  {
    var p, h := ParseOuter(packet, hasKey).value, HintEnd(packet);
    var signed, wraps := Bit(p.flags, 1) || Bit(p.flags, 8), Bit(p.flags, 2);
    var from := if Bit(p.flags, 16) then 11 else 9;
    ParsedShape(packet, hasKey);
    HeadRebuilds(packet);
    if signed || wraps || |packet| >= from {
      FieldsRebuild(packet, signed, wraps, from);
      var first := OptionalField(packet, signed, from);
      PiecesRebuild(packet, p, h, first.next, OptionalField(packet, wraps, first.next).next);
    } else {
      PiecesRebuild(packet, p, h, h, h);
    }
  }

  lemma PiecesRebuild(packet: Bytes, p: Opening, h: nat, m: nat, n: nat)
    requires 9 <= h <= m <= n <= |packet| && p.body == packet[n..]
    requires packet[..9] == [p.flags] + BigEndian(p.ts, 8) && |p.signature| < U16 && |p.wrapped| < U16
    requires var signed, wraps := Bit(p.flags, 1) || Bit(p.flags, 8), Bit(p.flags, 2);
      && packet[h..m] == Field(signed, p.signature) && packet[m..n] == Field(wraps, p.wrapped)
      && p.aad == Aad(p.flags, p.ts, signed, p.signature, wraps, p.wrapped)
    ensures var signed, wraps := Bit(p.flags, 1) || Bit(p.flags, 8), Bit(p.flags, 2);
      && n == |packet| - |p.body| && packet[n..] == p.body && p.aad == packet[..9] + packet[h..n]
      && packet == Layout(p.flags, p.ts, packet[9..h], signed, p.signature, wraps, p.wrapped, p.body)
  {
    Pieces(packet, h, m, n);
  }

  lemma HeadRebuilds(packet: Bytes)
    requires |packet| >= 9
    ensures packet[..9] == [packet[0]] + BigEndian(FromBigEndian(packet[1..9]), 8)
  {
    BigEndianInverts(packet[1..9]);
    assert packet[..9] == packet[..1] + packet[1..9];
  }

  lemma Pieces(packet: Bytes, h: nat, m: nat, n: nat)
    requires 9 <= h <= m <= n <= |packet|
    ensures packet == packet[..9] + packet[9..h] + packet[h..m] + packet[m..n] + packet[n..]
    ensures packet[h..n] == packet[h..m] + packet[m..n] && packet[|packet| - |packet[n..]|..] == packet[n..]
  {}

  lemma FieldsRebuild(packet: Bytes, signed: bool, wraps: bool, from: nat)
    requires OptionalField(packet, signed, from).Parsed?
    requires OptionalField(packet, wraps, OptionalField(packet, signed, from).next).Parsed?
    requires signed || wraps || from <= |packet|
    ensures var first := OptionalField(packet, signed, from);
      var second := OptionalField(packet, wraps, first.next);
      && from <= first.next <= second.next <= |packet| && |first.data| < U16 && |second.data| < U16
      && packet[from..first.next] == Field(signed, first.data) && packet[first.next..second.next] == Field(wraps, second.data)
  {
    var first := OptionalField(packet, signed, from);
    OptionalFieldRebuilds(packet, signed, from);
    OptionalFieldRebuilds(packet, wraps, first.next);
  }

  /** Packets with different header fields have different associated data. */
  lemma HeadersDetermined(packet: Bytes, hasKey: bool, packet': Bytes, hasKey': bool)
    requires ParseOuter(packet, hasKey).Ok? && ParseOuter(packet', hasKey').Ok?
    requires !SameHeader(ParseOuter(packet, hasKey).value, ParseOuter(packet', hasKey').value)
    ensures ParseOuter(packet, hasKey).value.aad != ParseOuter(packet', hasKey').value.aad
  {
    var p, q := ParseOuter(packet, hasKey).value, ParseOuter(packet', hasKey').value;
    ParsedShape(packet, hasKey);
    ParsedShape(packet', hasKey');
    var signed, wraps := Bit(p.flags, 1) || Bit(p.flags, 8), Bit(p.flags, 2);
    assert p.aad[0] == p.flags && q.aad[0] == q.flags;
    if p.flags == q.flags && p.aad == q.aad {
      AadDetermines(p.flags, p.ts, q.flags, q.ts, signed, p.signature, q.signature, wraps, p.wrapped, q.wrapped);
    }
  }

  /** The body of an honest packet behind any other flags, timestamp, signature or wrapped key is refused, by
      every receiver at every time, with every secret and private key. */
  lemma TamperedPacketRejected(c: Suite, plaintext: Bytes, secret: Bytes, ts: int, o: Options, r: Randomness, packet: Bytes,
                               secret': Bytes, myKey: Option<nat>, now: int, book: AddressBook)
    requires Ideal(c) && Encrypt(c, plaintext, secret, ts, o, r).Ok?
    ensures ParseOuter(Encrypt(c, plaintext, secret, ts, o, r).value, true).Ok?
    ensures var p, q := ParseOuter(Encrypt(c, plaintext, secret, ts, o, r).value, true).value, ParseOuter(packet, myKey.Some?);
      (q.Ok? && q.value.body == p.body && !SameHeader(p, q.value)) ==>
        Decrypt(c, packet, secret', myKey, now, book).Err?
  {
    PacketContents(c, plaintext, secret, ts, o, r, true);
    var honest, inner := Encrypt(c, plaintext, secret, ts, o, r).value, Inner(o, ts, plaintext);
    var p, q := ParseOuter(honest, true).value, ParseOuter(packet, myKey.Some?);
    var key := BodyKey(c, o, secret, ts, r);
    assert Bucket(ts) == 30 * (ts / 30);
    assert p.body == c.seal(key, r.nonce, inner, p.aad);
    if q.Ok? && q.value.body == p.body && !SameHeader(p, q.value) {
      HeadersDetermined(honest, true, packet, myKey.Some?);
      ChangedHeaderRejected(c, key, r.nonce, inner, p.aad, q.value, secret', myKey, now);
    }
  }

  /** The key hint, alone, can be replaced without being noticed: the receiver reads the same. */
  lemma HintNotAuthenticated(o: Options, ts: nat, hint: Bytes, hint': Bytes, signature: Bytes, wrapped: Bytes, body: Bytes, hasKey: bool)
    requires ts < U64 && |signature| < U16 && |wrapped| < U16 && o.friend.None? && |hint| == |hint'| == 2
    requires (!o.sign ==> signature == []) && wrapped == []
    ensures ParseOuter(Layout(FlagsOf(o), ts, hint, o.sign, signature, false, wrapped, body), hasKey)
         == ParseOuter(Layout(FlagsOf(o), ts, hint', o.sign, signature, false, wrapped, body), hasKey)
  {
    OuterRoundTrip(o, ts, hint, signature, wrapped, body, hasKey);
    OuterRoundTrip(o, ts, hint', signature, wrapped, body, hasKey);
  }

  // ---- the key hint ----

  function ExtractKeyHint(packet: Bytes): Option<Bytes> {
    if |packet| < 1 || !Bit(packet[0], 16) || |packet| < 11 then None else Some(packet[9..11])
  }

  /** A packet carries its sender's hint exactly when it is not addressed to a friend's key. */
  lemma HintReadable(c: Suite, plaintext: Bytes, secret: Bytes, ts: int, o: Options, r: Randomness)
    requires Encrypt(c, plaintext, secret, ts, o, r).Ok?
    ensures ExtractKeyHint(Encrypt(c, plaintext, secret, ts, o, r).value)
         == if o.friend.Some? then None else Some([c.keyHint(secret).0, c.keyHint(secret).1])
  {
    FlagBits(UsesHybrid(o), o.sign, o.friend.Some?, Destructs(o));
    var packet := Encrypt(c, plaintext, secret, ts, o, r).value;
    assert packet[0] == FlagsOf(o);
    if o.friend.None? {
      assert packet[9..11] == Hint(c, o, secret);
    }
  }
}

/** The ideal laws are consistent: a toy suite that frames its inputs satisfies them all. */
module IdealSuite {
  import opened Basics
  import opened Wire
  import opened Packets

  /** A self-delimiting form: every byte preceded by 1, then 0. */
  function Frame(x: Bytes): Bytes {
    if x == [] then [0] else [1, x[0]] + Frame(x[1..])
  }

  /** The framed string at the front, and what follows it. */
  function Unframe(s: Bytes): Option<(Bytes, Bytes)> {
    if s == [] then None
    else if s[0] == 0 then Some(([], s[1..]))
    else if |s| < 2 then None
    else
      var rest := Unframe(s[2..]);
      if rest.None? then None else Some(([s[1]] + rest.value.0, rest.value.1))
  }

  lemma {:induction false} UnframeInverts(x: Bytes, rest: Bytes)
    ensures Unframe(Frame(x) + rest) == Some((x, rest))
  {
    var s := Frame(x) + rest;
    if x == [] {
      assert s[1..] == rest;
    } else {
      assert s[2..] == Frame(x[1..]) + rest;
      UnframeInverts(x[1..], rest);
      assert [x[0]] + x[1..] == x;
    }
  }

  function Open(key: Bytes, s: Bytes, aad: Bytes): Option<Bytes> {
    var first := Unframe(s);
    if first.None? || first.value.0 != key then None
    else
      var second := Unframe(first.value.1);
      if second.None? || second.value.0 != aad then None else Some(second.value.1)
  }

  function Tag(n: nat, rest: Bytes): Bytes {
    Frame(seq(n, _ => 0)) + rest
  }

  lemma TagInjective(m: nat, a: Bytes, n: nat, b: Bytes)
    ensures Tag(m, a) == Tag(n, b) <==> m == n && a == b
  {
    UnframeInverts(seq(m, _ => 0), a);
    UnframeInverts(seq(n, _ => 0), b);
    assert |seq(m, _ => 0 as Byte)| == m && |seq(n, _ => 0 as Byte)| == n;
  }

  /** What is tagged with n, if it is. */
  function Untagged(n: nat, s: Bytes): Option<Bytes> {
    var first := Unframe(s);
    if first.Some? && first.value.0 == seq(n, _ => 0) then Some(first.value.1) else None
  }

  lemma UntaggedInverts(m: nat, a: Bytes, n: nat)
    ensures Untagged(n, Tag(m, a)) == if n == m then Some(a) else None
  {
    UnframeInverts(seq(m, _ => 0), a);
    assert |seq(m, _ => 0 as Byte)| == m && |seq(n, _ => 0 as Byte)| == n;
  }

  function Framing(): Suite {
    Suite(
      (secret: Bytes, t: nat) => Tag(t, secret),
      (key: Bytes, nonce: Bytes, body: Bytes, aad: Bytes) => Frame(key) + (Frame(aad) + body),
      Open,
      (friend: nat, key: Bytes, pad: nat) => Tag(friend, key),
      Untagged,
      (signer: nat, m: Bytes, pad: nat) => Tag(signer, m),
      (signer: nat, m: Bytes, s: Bytes) => s == Tag(signer, m),
      (signer: (nat, nat), m: Bytes) => Tag(signer.0, Tag(signer.1, m)),
      (signer: (nat, nat), m: Bytes, s: Bytes) => s == Tag(signer.0, Tag(signer.1, m)),
      (secret: Bytes) => (0, 0))
  }

  lemma FramingIsIdeal()
    ensures Ideal(Framing())
  {
    var c := Framing();
    forall k, n, b, a, k', a' ensures OpensOnlyAsSealed(c, k, n, b, a, k', a') {
      UnframeInverts(k, Frame(a) + b);
      UnframeInverts(a, b);
    }
    forall s, t, s', t' ensures DerivesApart(c, s, t, s', t') {
      TagInjective(t, s, t', s');
    }
    forall f, k, p, f' ensures UnwrapsOnlyAsWrapped(c, f, k, p, f') {
      UntaggedInverts(f, k, f');
    }
    forall s, m, p, s', m' ensures VerifiesOnlyAsSigned(c, s, m, p, s', m') {
      TagInjective(s, m, s', m');
    }
    forall s: (nat, nat), m, s': (nat, nat), m' ensures HybridVerifiesOnlyAsSigned(c, s, m, s', m') {
      TagInjective(s.0, Tag(s.1, m), s'.0, Tag(s'.1, m'));
      TagInjective(s.1, m, s'.1, m');
    }
    forall s, m ensures RejectsEmptySignature(c, s, m) {
      assert Tag(s, m) != [];
    }
  }
}
