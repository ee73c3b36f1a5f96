/** Ratchet and post-quantum envelopes of models/envelope.py. */
module Envelopes {
  import opened Basics
  import opened Wire
  import Packets

  const RATCHET_MAGIC: Byte := 0xD0
  const PQC_MAGIC: Byte := 0x50
  const NONCE_LENGTH: nat := 12
  const TAG_LENGTH: nat := 16

  /** A text codec such as UTF-8: encoding fails on some strings, decoding on some byte strings. */
  datatype Codec = Codec(encode: string -> Option<Bytes>, decode: Bytes -> Option<string>)

  ghost predicate Matches(c: Codec, s: string, b: Bytes) {
    c.encode(s) == Some(b) <==> c.decode(b) == Some(s)
  }

  /** Decoding is exactly the inverse of encoding, and the empty string is the empty encoding. */
  ghost predicate Faithful(c: Codec) {
    (forall s, b :: Matches(c, s, b)) && c.encode("") == Some([])
  }

  function EncodeLatin(s: string): Option<Bytes> {
    if s == "" then Some([])
    else
      var rest := EncodeLatin(s[1..]);
      if s[0] as int >= 256 || rest.None? then None else Some([s[0] as int] + rest.value)
  }

  function DecodeLatin(b: Bytes): string {
    if b == [] then "" else [b[0] as char] + DecodeLatin(b[1..])
  }

  /** Such codecs exist: one byte per character is one. */
  lemma LatinIsFaithful()
    ensures Faithful(Codec(EncodeLatin, b => Some(DecodeLatin(b))))
  {
    var c := Codec(EncodeLatin, b => Some(DecodeLatin(b)));
    forall s, b ensures Matches(c, s, b) {
      LatinMatches(s, b);
    }
  }

  lemma {:induction false} LatinMatches(s: string, b: Bytes)
    ensures EncodeLatin(s) == Some(b) <==> DecodeLatin(b) == s
  {
    if s != "" && b != [] {
      LatinMatches(s[1..], b[1..]);
      assert b == [b[0]] + b[1..] && s == [s[0]] + s[1..];
    }
  }

  datatype Result<+T> = Ok(value: T) | Err

  datatype RatchetEnvelope = RatchetEnvelope(sender: string, header: Bytes, ciphertext: Bytes)

  datatype PqcEnvelope = PqcEnvelope(kem: Bytes, nonce: Bytes, aes: Bytes)

  // ---- ratchet envelopes ----

  function BuildRatchet(c: Codec, e: RatchetEnvelope): Result<Bytes> {
    var name := c.encode(e.sender);
    if name.None? || |name.value| > 255 || |e.header| >= U16 then Err
    else Ok([RATCHET_MAGIC, |name.value|] + name.value + Pack(e.header) + e.ciphertext)
  }

  /** Reads field after field, advancing an offset. */
  method ParseRatchet(c: Codec, packet: Bytes) returns (r: Result<RatchetEnvelope>)
    ensures r == RatchetOf(c, packet)
  {
    if |packet| < 4 || packet[0] != RATCHET_MAGIC {
      return Err;
    }
    var offset := 1;
    var length := packet[offset];
    offset := offset + 1;
    if offset + length > |packet| {
      return Err;
    }
    var sender := c.decode(packet[offset..offset + length]);
    if sender.None? || sender.value == "" {
      return Err;
    }
    offset := offset + length;
    var header := Unpack(packet, offset);
    if header.Truncated? {
      return Err;
    }
    offset := header.next;
    var ciphertext := packet[offset..];
    if |ciphertext| == 0 {
      return Err;
    }
    r := Ok(RatchetEnvelope(sender.value, header.data, ciphertext));
  }

  function RatchetOf(c: Codec, packet: Bytes): Result<RatchetEnvelope> {
    if |packet| < 4 || packet[0] != RATCHET_MAGIC || 2 + packet[1] > |packet| then Err
    else
      var end: nat := packet[1] as int + 2;
      var sender, header := c.decode(packet[2..end]), Unpack(packet, end);
      if sender.None? || sender.value == "" || header.Truncated? || header.next >= |packet| then Err
      else Ok(RatchetEnvelope(sender.value, header.data, packet[header.next..]))
  }

  /** Parsing what was built returns the envelope exactly when it has a sender and a ciphertext. */
  lemma RatchetParseOfBuild(c: Codec, e: RatchetEnvelope)
    requires Faithful(c) && BuildRatchet(c, e).Ok?
    ensures RatchetOf(c, BuildRatchet(c, e).value) == if e.sender != "" && e.ciphertext != [] then Ok(e) else Err
  {
    var name := c.encode(e.sender).value;
    var before := [RATCHET_MAGIC, |name|] + name;
    var packet := BuildRatchet(c, e).value;
    assert Matches(c, e.sender, name) && Matches(c, "", name);
    UnpackInverts(before, e.header, e.ciphertext);
    assert packet == before + Pack(e.header) + e.ciphertext;
    assert packet[2..2 + |name|] == name;
    assert packet[|before| + 2 + |e.header|..] == e.ciphertext;
  }

  /** Rebuilding what was accepted gives back the packet, byte for byte. */
  lemma RatchetBuildOfParse(c: Codec, packet: Bytes)
    requires Faithful(c) && RatchetOf(c, packet).Ok?
    ensures BuildRatchet(c, RatchetOf(c, packet).value) == Ok(packet)
  {
    var e := RatchetOf(c, packet).value;
    var end: nat := packet[1] as int + 2;
    var u := Unpack(packet, end);
    assert Matches(c, e.sender, packet[2..end]);
    PackInverts(packet, end);
    assert packet == packet[..2] + packet[2..end] + packet[end..u.next] + packet[u.next..];
    assert packet[..2] == [RATCHET_MAGIC, packet[1]];
  }

  // ---- post-quantum envelopes ----

  function BuildPqc(e: PqcEnvelope): Result<Bytes> {
    if |e.nonce| != NONCE_LENGTH || |e.kem| >= U16 then Err
    else Ok([PQC_MAGIC] + Pack(e.kem) + e.nonce + e.aes)
  }

  function PqcOf(packet: Bytes): Result<PqcEnvelope> {
    if |packet| < 3 || packet[0] != PQC_MAGIC then Err
    else
      var kem := Unpack(packet, 1);
      if kem.Truncated? || kem.next + NONCE_LENGTH > |packet| || kem.next + NONCE_LENGTH + TAG_LENGTH > |packet| then Err
      else Ok(PqcEnvelope(kem.data, packet[kem.next..kem.next + NONCE_LENGTH], packet[kem.next + NONCE_LENGTH..]))
  }

  method ParsePqc(packet: Bytes) returns (r: Result<PqcEnvelope>)
    ensures r == PqcOf(packet)
  {
    if |packet| < 3 || packet[0] != PQC_MAGIC {
      return Err;
    }
    var kem := Unpack(packet, 1);
    if kem.Truncated? {
      return Err;
    }
    var offset := kem.next;
    var nonceEnd := offset + NONCE_LENGTH;
    if nonceEnd > |packet| {
      return Err;
    }
    var nonce := packet[offset..nonceEnd];
    offset := nonceEnd;
    var aes := packet[offset..];
    if |aes| < TAG_LENGTH {
      return Err;
    }
    r := Ok(PqcEnvelope(kem.data, nonce, aes));
  }

  /** Parsing what was built returns the envelope exactly when the payload is long enough for its tag. */
  lemma PqcParseOfBuild(e: PqcEnvelope)
    requires BuildPqc(e).Ok?
    ensures PqcOf(BuildPqc(e).value) == if |e.aes| >= TAG_LENGTH then Ok(e) else Err
  {
    var packet, next := BuildPqc(e).value, 3 + |e.kem|;
    assert packet == [PQC_MAGIC] + Pack(e.kem) + (e.nonce + e.aes);
    UnpackInverts([PQC_MAGIC], e.kem, e.nonce + e.aes);
    assert packet[next..next + NONCE_LENGTH] == e.nonce;
    assert packet[next + NONCE_LENGTH..] == e.aes;
  }

  lemma PqcBuildOfParse(packet: Bytes)
    requires PqcOf(packet).Ok?
    ensures BuildPqc(PqcOf(packet).value) == Ok(packet)
  {
    var next := Unpack(packet, 1).next;
    PackInverts(packet, 1);
    assert packet == packet[..1] + packet[1..next] + packet[next..next + NONCE_LENGTH] + packet[next + NONCE_LENGTH..];
    assert packet[..1] == [PQC_MAGIC];
  }

  // ---- the bytes ----

  /** A ratchet envelope is built exactly if sender and header fit their length fields, and reads: 0xD0, the length
      of the name in one byte, the name, the length of the header in two, the header, the ciphertext. */
  lemma RatchetBytes(c: Codec, e: RatchetEnvelope)
    ensures BuildRatchet(c, e).Ok? <==> c.encode(e.sender).Some? && |c.encode(e.sender).value| < 256 && |e.header| < 65536
    ensures BuildRatchet(c, e).Ok? ==>
      var b, name, h := BuildRatchet(c, e).value, c.encode(e.sender).value, 4 + |c.encode(e.sender).value|;
      && |b| == h + |e.header| + |e.ciphertext|
      && b[0] == 0xD0 && b[1] == |name| && b[2..h - 2] == name
      && 256 * b[h - 2] as int + b[h - 1] as int == |e.header|
      && b[h..h + |e.header|] == e.header && b[h + |e.header|..] == e.ciphertext
  {
    if BuildRatchet(c, e).Ok? {
      TwoBytes(|e.header|);
    }
  }

  lemma TwoBytes(n: nat)
    requires n < 65536
    ensures 256 * BigEndian(n, 2)[0] as int + BigEndian(n, 2)[1] as int == n
  {
    assert BigEndian(n, 2) == BigEndian(n / 256, 1) + [n % 256];
    assert BigEndian(n / 256, 1) == [] + [n / 256 % 256];
  }

  /** A post-quantum envelope is built exactly if the nonce has twelve bytes and the key capsule fits its length
      field, and reads: 0x50, the length of the capsule in two bytes, the capsule, the nonce, the payload. */
  lemma PqcBytes(e: PqcEnvelope)
    ensures BuildPqc(e).Ok? <==> |e.nonce| == 12 && |e.kem| < 65536
    ensures BuildPqc(e).Ok? ==>
      var b, n := BuildPqc(e).value, 3 + |e.kem|;
      && |b| == n + 12 + |e.aes|
      && b[0] == 0x50 && 256 * b[1] as int + b[2] as int == |e.kem|
      && b[3..n] == e.kem && b[n..n + 12] == e.nonce && b[n + 12..] == e.aes
  {
    if BuildPqc(e).Ok? {
      TwoBytes(|e.kem|);
    }
  }

  /** Exactly the bytes of some complete envelope are accepted: a sender and a ciphertext for one kind, a payload
      of at least sixteen bytes for the other. */
  lemma AcceptedIff(c: Codec, packet: Bytes)
    requires Faithful(c)
    ensures RatchetOf(c, packet).Ok? <==>
      exists e: RatchetEnvelope :: BuildRatchet(c, e) == Ok(packet) && e.sender != "" && e.ciphertext != []
    ensures PqcOf(packet).Ok? <==> exists e: PqcEnvelope :: BuildPqc(e) == Ok(packet) && |e.aes| >= 16
  {
    if RatchetOf(c, packet).Ok? {
      RatchetBuildOfParse(c, packet);
      RatchetParseOfBuild(c, RatchetOf(c, packet).value);
    }
    if e: RatchetEnvelope :| BuildRatchet(c, e) == Ok(packet) && e.sender != "" && e.ciphertext != [] {
      RatchetParseOfBuild(c, e);
    }
    if PqcOf(packet).Ok? {
      PqcBuildOfParse(packet);
      PqcParseOfBuild(PqcOf(packet).value);
    }
    if e: PqcEnvelope :| BuildPqc(e) == Ok(packet) && |e.aes| >= 16 {
      PqcParseOfBuild(e);
    }
  }

  // ---- telling packets apart ----

  datatype Kind = Ratchet | Pqc | Neither

  function Identify(packet: Bytes): Kind {
    if packet == [] then Neither
    else if packet[0] == RATCHET_MAGIC then Ratchet
    else if packet[0] == PQC_MAGIC then Pqc
    else Neither
  }

  /** Every envelope is recognised as what it is, and only packets with its first byte are. */
  lemma EnvelopesIdentified(c: Codec, packet: Bytes)
    ensures Identify(packet) == Ratchet <==> packet != [] && packet[0] == 0xD0
    ensures Identify(packet) == Pqc <==> packet != [] && packet[0] == 0x50
    ensures forall e :: BuildRatchet(c, e) == Ok(packet) ==> Identify(packet) == Ratchet
    ensures forall e :: BuildPqc(e) == Ok(packet) ==> Identify(packet) == Pqc
    ensures RatchetOf(c, packet).Ok? ==> Identify(packet) == Ratchet
    ensures PqcOf(packet).Ok? ==> Identify(packet) == Pqc
  {}

  /** No message packet looks like an envelope. */
  lemma MessagePacketsAreNotEnvelopes(s: Packets.Suite, plaintext: Bytes, secret: Bytes, ts: int, o: Packets.Options,
                                      r: Packets.Randomness, c: Codec)
    requires Packets.Encrypt(s, plaintext, secret, ts, o, r).Ok?
    ensures var packet := Packets.Encrypt(s, plaintext, secret, ts, o, r).value;
      Identify(packet) == Neither && RatchetOf(c, packet) == Err && PqcOf(packet) == Err
  {
    Packets.FlagBits(Packets.UsesHybrid(o), o.sign, o.friend.Some?, Packets.Destructs(o));
    assert Packets.Encrypt(s, plaintext, secret, ts, o, r).value[0] == Packets.FlagsOf(o);
  }
}
