/** The byte level of services/xchacha20_poly1305.py: little-endian words, the subkey block with its
    length checks, and the split of the 24-byte nonce. The inner cipher is a value with ideal laws. */
module XChaCha20 {
  import opened Basics
  import opened Wire
  import opened QuarterRounds
  import opened Words32
  import HChaCha20
  import opened IdealSuite

  // ---- little-endian words ----

  function ReadWord(b: Bytes): Word
    requires |b| == 4
  {
    b[0] as int + 0x100 * (b[1] as int) + 0x1_0000 * (b[2] as int) + 0x100_0000 * (b[3] as int)
  }

  function WriteWord(w: Word): (b: Bytes)
    ensures |b| == 4
  {
    [w as int % 0x100, w as int / 0x100 % 0x100, w as int / 0x1_0000 % 0x100, w as int / 0x100_0000]
  }

  lemma WriteReads(w: Word)
    ensures ReadWord(WriteWord(w)) == w
  {
    var x: int := w;
    var y, z := x / 0x100, x / 0x1_0000;
    assert z == y / 0x100 && x / 0x100_0000 == z / 0x100;
    assert x == 0x100 * y + x % 0x100 && y == 0x100 * z + y % 0x100 && z == 0x100 * (z / 0x100) + z % 0x100;
  }

  lemma LowByte(low: int, rest: int)
    requires 0 <= low < 0x100
    ensures (low + 0x100 * rest) % 0x100 == low && (low + 0x100 * rest) / 0x100 == rest
  {}

  lemma ReadWrites(b: Bytes)
    requires |b| == 4
    ensures WriteWord(ReadWord(b)) == b
  {
    var w, b3: int := ReadWord(b), b[3];
    var r2 := b[2] as int + 0x100 * b3;
    var r1 := b[1] as int + 0x100 * r2;
    assert w == b[0] as int + 0x100 * r1;
    LowByte(b[0], r1);
    LowByte(b[1], r2);
    LowByte(b[2], b3);
    assert w / 0x1_0000 == r1 / 0x100 && w / 0x100_0000 == r2 / 0x100;
  }

  function ReadWords(b: Bytes): (ws: seq<Word>)
    requires |b| % 4 == 0
    ensures 4 * |ws| == |b|
  {
    if b == [] then [] else [ReadWord(b[..4])] + ReadWords(b[4..])
  }

  function WriteWords(ws: seq<Word>): (b: Bytes)
    ensures |b| == 4 * |ws|
  {
    if ws == [] then [] else WriteWord(ws[0]) + WriteWords(ws[1..])
  }

  /** Reading and writing words are inverse to each other, so no key or nonce bit is lost. */
  lemma {:induction false} WordsRoundTrip(ws: seq<Word>)
    ensures ReadWords(WriteWords(ws)) == ws
  {
    if ws != [] {
      var b := WriteWords(ws);
      WordsRoundTrip(ws[1..]);
      WriteReads(ws[0]);
      assert b[..4] == WriteWord(ws[0]) && b[4..] == WriteWords(ws[1..]);
    }
  }

  lemma {:induction false} BytesRoundTrip(b: Bytes)
    requires |b| % 4 == 0
    ensures WriteWords(ReadWords(b)) == b
  {
    if b != [] {
      BytesRoundTrip(b[4..]);
      ReadWrites(b[..4]);
      assert b == b[..4] + b[4..];
    }
  }

  // ---- the block ----

  datatype Error = BadKeyLength | BadNonceLength | InvalidTag

  datatype Result<+T> = Ok(value: T) | Err(error: Error)

  /** The final state of the core for a key and a 16-byte nonce. */
  function Core(key: Bytes, nonce: Bytes): seq<Word>
    requires |key| == 32 && |nonce| == 16
  {
    Apply(HChaCha20.WORDS, HChaCha20.CONSTANTS + ReadWords(key) + ReadWords(nonce), DoubleRounds(10))
  }

  /** Different keys or nonces never reach the same final state. */
  lemma CoreInjective(k1: Bytes, n1: Bytes, k2: Bytes, n2: Bytes)
    requires |k1| == |k2| == 32 && |n1| == |n2| == 16
    ensures Core(k1, n1) == Core(k2, n2) <==> k1 == k2 && n1 == n2
  {
    var s1 := HChaCha20.CONSTANTS + ReadWords(k1) + ReadWords(n1);
    var s2 := HChaCha20.CONSTANTS + ReadWords(k2) + ReadWords(n2);
    HChaCha20.CoreIsBijection(s1);
    HChaCha20.CoreIsBijection(s2);
    assert s1[4..12] == ReadWords(k1) && s2[4..12] == ReadWords(k2);
    assert s1[12..] == ReadWords(n1) && s2[12..] == ReadWords(n2);
    BytesRoundTrip(k1);
    BytesRoundTrip(k2);
    BytesRoundTrip(n1);
    BytesRoundTrip(n2);
  }

  /** The i-th four bytes, the first one lowest. */
  function LittleEndian(b: Bytes, i: nat): int
    requires 4 * i + 4 <= |b|
  {
    b[4 * i] as int + 256 * (b[4 * i + 1] as int) + 65536 * (b[4 * i + 2] as int) + 16777216 * (b[4 * i + 3] as int)
  }

  lemma {:induction false} ReadWordsAt(b: Bytes, i: nat)
    requires |b| % 4 == 0 && 4 * i < |b|
    ensures ReadWords(b)[i] == LittleEndian(b, i)
  {
    if i > 0 {
      ReadWordsAt(b[4..], i - 1);
      assert b[4..][4 * (i - 1)..4 * (i - 1) + 4] == b[4 * i..4 * i + 4];
    }
  }

  function Ascii(text: string): (b: Bytes)
    ensures |b| == |text|
  {
    seq(|text|, i requires 0 <= i < |text| => (text[i] as int % 128) as Byte)
  }

  /** The sixteen bytes in front of the key. */
  lemma ConstantsSpell()
    ensures |HChaCha20.CONSTANTS| == 4
    ensures forall i :: 0 <= i < 4 ==> HChaCha20.CONSTANTS[i] == LittleEndian(Ascii("expand 32-byte k"), i)
  {}

  lemma WordOfParts(a: Bytes, b: Bytes, c: Bytes, i: nat)
    requires |a| == |c| == 16 && |b| == 32 && i < 16
    ensures LittleEndian(a + b + c, i)
         == if i < 4 then LittleEndian(a, i) else if i < 12 then LittleEndian(b, i - 4) else LittleEndian(c, i - 12)
  {}

  lemma InputWord(key: Bytes, nonce: Bytes, i: nat)
    requires |key| == 32 && |nonce| == 16 && i < 16
    ensures |HChaCha20.CONSTANTS| == 4
    ensures (HChaCha20.CONSTANTS + ReadWords(key) + ReadWords(nonce))[i]
         == LittleEndian(Ascii("expand 32-byte k") + key + nonce, i)
  {
    WordOfParts(Ascii("expand 32-byte k"), key, nonce, i);
    if i < 4 {
      ConstantsSpell();
    } else if i < 12 {
      ReadWordsAt(key, i - 4);
    } else {
      ReadWordsAt(nonce, i - 12);
    }
  }

  /** The words of the bytes "expand 32-byte k", key and nonce. */
  ghost predicate Start(key: Bytes, nonce: Bytes, start: seq<Word>)
    requires |key| == 32 && |nonce| == 16
  {
    |start| == 16 && forall i: nat :: i < 16 ==> start[i] == LittleEndian(Ascii("expand 32-byte k") + key + nonce, i)
  }

  lemma StartIsInput(key: Bytes, nonce: Bytes, start: seq<Word>)
    requires |key| == 32 && |nonce| == 16 && Start(key, nonce, start)
    ensures start == HChaCha20.CONSTANTS + ReadWords(key) + ReadWords(nonce)
  {
    var input := HChaCha20.CONSTANTS + ReadWords(key) + ReadWords(nonce);
    forall i: nat | i < 16 ensures start[i] == input[i] {
      InputWord(key, nonce, i);
    }
  }

  /** The core is eighty quarter rounds on those words. */
  lemma CoreOfBytes(key: Bytes, nonce: Bytes, start: seq<Word>)
    requires |key| == 32 && |nonce| == 16 && Start(key, nonce, start)
    ensures Core(key, nonce) == HChaCha20.Rounds(start, 80)
  {
    StartIsInput(key, nonce, start);
    HChaCha20.CoreIsRounds(start, 80);
    TakeAll(DoubleRounds(10), 80);
  }

  lemma TakeAll<T>(s: seq<T>, n: nat)
    requires |s| == n
    ensures s[..n] == s
  {}

  /** Wrong lengths are refused, the key's first; otherwise the subkey is, word for word, the first and
      the last row of the final state. */
  method Block(key: Bytes, nonce: Bytes) returns (r: Result<Bytes>)
    ensures r == Err(BadKeyLength) <==> |key| != 32
    ensures r == Err(BadNonceLength) <==> |key| == 32 && |nonce| != 16
    ensures |key| == 32 && |nonce| == 16 ==>
      && r.Ok? && |r.value| == 32 && |Core(key, nonce)| == 16
      && ReadWords(r.value) == Core(key, nonce)[0..4] + Core(key, nonce)[12..16]
  {
    if |key| != 32 {
      return Err(BadKeyLength);
    }
    if |nonce| != 16 {
      return Err(BadNonceLength);
    }
    var subkey := HChaCha20.Block(ReadWords(key), ReadWords(nonce));
    WordsRoundTrip(subkey);
    r := Ok(WriteWords(subkey));
  }

  // ---- the cipher ----

  /** The inner cipher: seals and opens under a 32-byte key and a 12-byte nonce. */
  datatype Aead = Aead(seal: (Bytes, Bytes, Bytes, Bytes) -> Bytes, open: (Bytes, Bytes, Bytes, Bytes) -> Option<Bytes>)

  ghost predicate OpensOnlyAsSealed(c: Aead, k: Bytes, n: Bytes, p: Bytes, a: Bytes, k': Bytes, n': Bytes, a': Bytes) {
    c.open(k', n', c.seal(k, n, p, a), a') == if k' == k && n' == n && a' == a then Some(p) else None
  }

  ghost predicate Ideal(c: Aead) {
    forall k, n, p, a, k', n', a' :: OpensOnlyAsSealed(c, k, n, p, a, k', n', a')
  }

  function Subkey(key: Bytes, nonce: Bytes): (subkey: Bytes)
    requires |key| == 32 && |nonce| == 24
  {
    var out := Core(key, nonce[..16]);
    if |out| == 16 then WriteWords(out[0..4] + out[12..16]) else []
  }

  function InnerNonce(nonce: Bytes): (inner: Bytes)
    requires |nonce| == 24
    ensures |inner| == 12
  {
    [0, 0, 0, 0] + nonce[16..24]
  }

  method Encrypt(c: Aead, key: Bytes, nonce: Bytes, plaintext: Bytes, aad: Bytes) returns (r: Result<Bytes>)
    ensures r == Sealing(c, key, nonce, plaintext, aad)
    ensures r == Err(BadKeyLength) <==> |key| != 32
    ensures r == Err(BadNonceLength) <==> |key| == 32 && |nonce| != 24
  {
    if |key| != 32 {
      return Err(BadKeyLength);
    }
    if |nonce| != 24 {
      return Err(BadNonceLength);
    }
    var subkey := Block(key, nonce[..16]);
    BytesRoundTrip(subkey.value);
    r := Ok(c.seal(subkey.value, [0, 0, 0, 0] + nonce[16..24], plaintext, aad));
  }

  method Decrypt(c: Aead, key: Bytes, nonce: Bytes, ciphertext: Bytes, aad: Bytes) returns (r: Result<Bytes>)
    ensures r == Opening(c, key, nonce, ciphertext, aad)
    ensures r == Err(BadKeyLength) <==> |key| != 32
    ensures r == Err(BadNonceLength) <==> |key| == 32 && |nonce| != 24
  {
    if |key| != 32 {
      return Err(BadKeyLength);
    }
    if |nonce| != 24 {
      return Err(BadNonceLength);
    }
    var subkey := Block(key, nonce[..16]);
    BytesRoundTrip(subkey.value);
    var p := c.open(subkey.value, [0, 0, 0, 0] + nonce[16..24], ciphertext, aad);
    r := if p.Some? then Ok(p.value) else Err(InvalidTag);
  }

  function Sealing(c: Aead, key: Bytes, nonce: Bytes, plaintext: Bytes, aad: Bytes): Result<Bytes> {
    if |key| != 32 then Err(BadKeyLength)
    else if |nonce| != 24 then Err(BadNonceLength)
    else Ok(c.seal(Subkey(key, nonce), InnerNonce(nonce), plaintext, aad))
  }

  function Opening(c: Aead, key: Bytes, nonce: Bytes, ciphertext: Bytes, aad: Bytes): Result<Bytes> {
    if |key| != 32 then Err(BadKeyLength)
    else if |nonce| != 24 then Err(BadNonceLength)
    else
      var p := c.open(Subkey(key, nonce), InnerNonce(nonce), ciphertext, aad);
      if p.Some? then Ok(p.value) else Err(InvalidTag)
  }

  lemma CoreSize(key: Bytes, nonce: Bytes)
    requires |key| == 32 && |nonce| == 16
    ensures |Core(key, nonce)| == 16
  {
    HChaCha20.ApplySize(HChaCha20.CONSTANTS + ReadWords(key) + ReadWords(nonce), DoubleRounds(10));
  }

  /** The key bytes are the first and the last four words of the state, lowest bytes first. */
  ghost predicate Rows(k: Bytes, out: seq<Word>)
    requires |k| == 32 && |out| == 16
  {
    forall i: nat :: i < 8 ==> LittleEndian(k, i) == out[if i < 4 then i else i + 8]
  }

  lemma RowsAreWritten(k: Bytes, out: seq<Word>)
    requires |k| == 32 && |out| == 16
    ensures Rows(k, out) <==> k == WriteWords(out[0..4] + out[12..16])
  {
    var ws := out[0..4] + out[12..16];
    BytesRoundTrip(k);
    WordsRoundTrip(ws);
    forall i: nat | i < 8 ensures ReadWords(k)[i] == LittleEndian(k, i) && ws[i] == out[if i < 4 then i else i + 8] {
      ReadWordsAt(k, i);
    }
    if Rows(k, out) {
      assert ReadWords(k) == ws;
    }
  }

  /** Sealing is the inner cipher's under the first and the last row of the core's final state for the first
      sixteen nonce bytes, with the other eight as its nonce. */
  lemma SealingUnderCore(c: Aead, key: Bytes, nonce: Bytes, plaintext: Bytes, aad: Bytes, k: Bytes)
    requires |key| == 32 && |nonce| == 24 && |k| == 32
    ensures |Core(key, nonce[..16])| == 16
    ensures Rows(k, Core(key, nonce[..16])) ==>
      Sealing(c, key, nonce, plaintext, aad) == Ok(c.seal(k, [0, 0, 0, 0] + nonce[16..24], plaintext, aad))
  {
    CoreSize(key, nonce[..16]);
    RowsAreWritten(k, Core(key, nonce[..16]));
  }

  lemma SubkeysEqualIff(key: Bytes, nonce: Bytes, key': Bytes, nonce': Bytes)
    requires |key| == |key'| == 32 && |nonce| == |nonce'| == 24
    ensures |Core(key, nonce[..16])| == |Core(key', nonce'[..16])| == 16
    ensures var a, b := Core(key, nonce[..16]), Core(key', nonce'[..16]);
      Subkey(key, nonce) == Subkey(key', nonce') <==> a[0..4] == b[0..4] && a[12..16] == b[12..16]
  {
    CoreSize(key, nonce[..16]);
    CoreSize(key', nonce'[..16]);
    var a, b := Core(key, nonce[..16]), Core(key', nonce'[..16]);
    var x, y := a[0..4] + a[12..16], b[0..4] + b[12..16];
    WordsRoundTrip(x);
    WordsRoundTrip(y);
    assert x[..4] == a[0..4] && x[4..] == a[12..16] && y[..4] == b[0..4] && y[4..] == b[12..16];
  }

  /** What was sealed opens for any key, nonce and data of the right lengths if and only if the first and last
      rows of the core's final states, the last eight nonce bytes and the data agree. */
  lemma SealThenOpen(c: Aead, key: Bytes, nonce: Bytes, plaintext: Bytes, aad: Bytes, key': Bytes, nonce': Bytes, aad': Bytes)
    requires Ideal(c) && |key| == |key'| == 32 && |nonce| == |nonce'| == 24
    ensures Sealing(c, key, nonce, plaintext, aad).Ok?
    ensures |Core(key, nonce[..16])| == |Core(key', nonce'[..16])| == 16
    ensures var a, b := Core(key, nonce[..16]), Core(key', nonce'[..16]);
      Opening(c, key', nonce', Sealing(c, key, nonce, plaintext, aad).value, aad')
      == if b[0..4] == a[0..4] && b[12..16] == a[12..16] && nonce'[16..24] == nonce[16..24] && aad' == aad
         then Ok(plaintext) else Err(InvalidTag)
  {
    SubkeysEqualIff(key, nonce, key', nonce');
    InnerNonceInjective(nonce, nonce');
    OpenSealed(c, Subkey(key, nonce), InnerNonce(nonce), plaintext, aad, Subkey(key', nonce'), InnerNonce(nonce'), aad');
  }

  lemma InnerNonceInjective(nonce: Bytes, nonce': Bytes)
    requires |nonce| == |nonce'| == 24
    ensures InnerNonce(nonce) == InnerNonce(nonce') <==> nonce[16..24] == nonce'[16..24]
  {
    assert InnerNonce(nonce)[4..] == nonce[16..24] && InnerNonce(nonce')[4..] == nonce'[16..24];
  }

  lemma OpenSealed(c: Aead, k: Bytes, n: Bytes, p: Bytes, a: Bytes, k': Bytes, n': Bytes, a': Bytes)
    requires Ideal(c)
    ensures c.open(k', n', c.seal(k, n, p, a), a') == if k' == k && n' == n && a' == a then Some(p) else None
  {
    assert OpensOnlyAsSealed(c, k, n, p, a, k', n', a');
  }

  /** Such ciphers exist: one that frames key and nonce in front of a framed suite is one. */
  function Framing(): Aead {
    Aead((k: Bytes, n: Bytes, p: Bytes, a: Bytes) => Frame(k) + (Frame(n) + (Frame(a) + p)),
         (k: Bytes, n: Bytes, s: Bytes, a: Bytes) =>
           var rest := Unframe(s);
           if rest.None? || rest.value.0 != k then None else Open(n, rest.value.1, a))
  }

  lemma FramingIsIdeal()
    ensures Ideal(Framing())
  {
    forall k, n, p, a, k', n', a' ensures OpensOnlyAsSealed(Framing(), k, n, p, a, k', n', a') {
      UnframeInverts(k, Frame(n) + (Frame(a) + p));
      UnframeInverts(n, Frame(a) + p);
      UnframeInverts(a, p);
    }
  }
}
