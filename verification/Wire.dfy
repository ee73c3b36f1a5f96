/** Bytes and big-endian fields, as written and read with `struct`. */
module Wire {
  import opened Basics

  type Bytes = seq<Byte>

  function Pow256(k: nat): nat {
    if k == 0 then 1 else 256 * Pow256(k - 1)
  }

  /** The k-byte big-endian form of n; higher digits are lost if n does not fit. */
  function BigEndian(n: nat, k: nat): (bytes: Bytes)
    ensures |bytes| == k
  {
    if k == 0 then [] else BigEndian(n / 256, k - 1) + [n % 256]
  }

  function FromBigEndian(bytes: Bytes): nat {
    if bytes == [] then 0 else 256 * FromBigEndian(bytes[..|bytes| - 1]) + bytes[|bytes| - 1]
  }

  lemma {:induction false} FromBigEndianInverts(n: nat, k: nat)
    requires n < Pow256(k)
    ensures FromBigEndian(BigEndian(n, k)) == n
  {
    if k > 0 {
      FromBigEndianInverts(n / 256, k - 1);
      var bytes := BigEndian(n, k);
      assert bytes[..|bytes| - 1] == BigEndian(n / 256, k - 1);
    }
  }

  lemma {:induction false} BigEndianInverts(bytes: Bytes)
    ensures FromBigEndian(bytes) < Pow256(|bytes|)
    ensures BigEndian(FromBigEndian(bytes), |bytes|) == bytes
  {
    if bytes != [] {
      var front, last := bytes[..|bytes| - 1], bytes[|bytes| - 1];
      BigEndianInverts(front);
      assert FromBigEndian(bytes) == 256 * FromBigEndian(front) + last;
      assert FromBigEndian(bytes) / 256 == FromBigEndian(front) && FromBigEndian(bytes) % 256 == last;
      assert bytes == front + [last];
    }
  }

  lemma FieldSizes()
    ensures Pow256(2) == U16 && Pow256(4) == U32 && Pow256(8) == U64
  {
    assert Pow256(1) == 256;
    assert Pow256(3) == 256 * Pow256(2);
    assert Pow256(5) == 256 * Pow256(4);
    assert Pow256(6) == 256 * Pow256(5);
    assert Pow256(7) == 256 * Pow256(6);
  }

  /** A length-prefixed field. */
  function Pack(data: Bytes): Bytes
    requires |data| < U16
  {
    BigEndian(|data|, 2) + data
  }

  datatype Unpacked = Unpacked(data: Bytes, next: nat) | Truncated

  function Unpack(packet: Bytes, offset: nat): Unpacked {
    if offset + 2 > |packet| then Truncated
    else
      var length := FromBigEndian(packet[offset..offset + 2]);
      if offset + 2 + length > |packet| then Truncated
      else Unpacked(packet[offset + 2..offset + 2 + length], offset + 2 + length)
  }

  /** Reading a packed field returns it and the position after it, whatever follows. */
  lemma UnpackInverts(before: Bytes, data: Bytes, rest: Bytes)
    requires |data| < U16
    ensures Unpack(before + Pack(data) + rest, |before|) == Unpacked(data, |before| + 2 + |data|)
  {
    FieldSizes();
    FromBigEndianInverts(|data|, 2);
    var packet, o := before + Pack(data) + rest, |before|;
    var field := packet[o..o + 2 + |data|];
    assert field == Pack(data);
    assert packet[o..o + 2] == field[..2] == BigEndian(|data|, 2);
    assert packet[o + 2..o + 2 + |data|] == field[2..] == data;
  }

  /** An accepted field is the packing of what was read. */
  lemma PackInverts(packet: Bytes, offset: nat)
    requires Unpack(packet, offset).Unpacked?
    ensures var u := Unpack(packet, offset);
      |u.data| < U16 && offset < u.next <= |packet| && packet[offset..u.next] == Pack(u.data)
  {
    var u := Unpack(packet, offset);
    FieldSizes();
    BigEndianInverts(packet[offset..offset + 2]);
    var length := FromBigEndian(packet[offset..offset + 2]);
    assert u.data == packet[offset + 2..u.next] && |u.data| == length;
    assert packet[offset..u.next] == packet[offset..offset + 2] + packet[offset + 2..u.next];
  }
}
