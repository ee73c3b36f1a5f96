/** A dictionary written as text and read back, for any printer and parser that fit together. */
module TextMap {
  import opened Basics
  import opened RatchetKeys

  /** Parsing undoes printing on one value. */
  predicate Inverts<T(==)>(show: T -> string, parse: string -> Option<T>, x: T) {
    parse(show(x)) == Some(x)
  }

  function ToText<K(==, !new), V>(m: map<K, V>, printKey: K -> string, parseKey: string -> Option<K>, printValue: V -> string): map<string, string>
    requires forall k :: k in m ==> Inverts(printKey, parseKey, k)
  {
    assert forall a, b :: a in m && b in m && printKey(a) == printKey(b) ==> Inverts(printKey, parseKey, a) && a == b;
    map k | k in m :: printKey(k) := printValue(m[k])
  }

  /** `loaded` holds, for every entry, its parsed key with a value some entry for that key decodes to,
      and nothing else. */
  ghost predicate Reads<K(!new), V>(texts: map<string, string>, loaded: map<K, V>, parseKey: string -> Option<K>, parseValue: string -> Option<V>) {
    && (forall t :: t in texts ==> parseKey(t).Some? && parseValue(texts[t]).Some? && parseKey(t).value in loaded)
    && (forall k :: k in loaded ==>
          exists t :: t in texts && parseKey(t) == Some(k) && parseValue(texts[t]) == Some(loaded[k]))
  }

  /** What was written reads back as exactly what was written. */
  lemma ReadsBack<K(!new), V(!new)>(m: map<K, V>, loaded: map<K, V>,
      printKey: K -> string, parseKey: string -> Option<K>, printValue: V -> string, parseValue: string -> Option<V>)
    requires forall k :: k in m ==> Inverts(printKey, parseKey, k)
    requires forall v :: Inverts(printValue, parseValue, v)
    ensures Reads(ToText(m, printKey, parseKey, printValue), loaded, parseKey, parseValue) <==> loaded == m
  {
    var texts := ToText(m, printKey, parseKey, printValue);
    forall k | k in m
      ensures printKey(k) in texts && parseKey(printKey(k)) == Some(k) && parseValue(texts[printKey(k)]) == Some(m[k])
    {
      assert Inverts(printValue, parseValue, m[k]);
    }
    forall t | t in texts ensures exists k :: k in m && t == printKey(k) && parseKey(t) == Some(k) {
      var k :| k in m && t == printKey(k);
    }
    if Reads(texts, loaded, parseKey, parseValue) {
      forall k | k in loaded ensures k in m && loaded[k] == m[k] {
        var t :| t in texts && parseKey(t) == Some(k) && parseValue(texts[t]) == Some(loaded[k]);
      }
      forall k | k in m ensures k in loaded {
        assert printKey(k) in texts;
      }
    }
  }
}

/** Storage form of a ratchet state  (services/double_ratchet.py, `serialize` and `deserialize`):
    keys as hexadecimal text, skipped keys under the text "hex:number". */
module RatchetCodec {
  import opened Basics
  import opened RatchetKeys
  import opened Ratchet
  import opened TextMap

  type KeyBytes = seq<Byte>

  type StoredState = State<KeyBytes, KeyBytes, KeyBytes>

  /** The dictionary handed to the JSON writer. */
  datatype Blob = Blob(
    rootKey: Option<string>, sendKey: Option<string>, recvKey: Option<string>,
    sendNum: nat, recvNum: nat, prevLen: nat,
    dhPriv: Option<string>, dhRemote: Option<string>, skipped: map<string, string>)

  // ---- hexadecimal ----

  function HexDigit(d: nat): char
    requires d < 16
  {
    if d < 10 then '0' + d as char else 'a' + (d - 10) as char
  }

  function HexValue(c: char): Option<nat> {
    if '0' <= c <= '9' then Some(c as int - '0' as int)
    else if 'a' <= c <= 'f' then Some(c as int - 'a' as int + 10)
    else if 'A' <= c <= 'F' then Some(c as int - 'A' as int + 10)
    else None
  }

  function Hex(bytes: KeyBytes): string {
    if bytes == [] then ""
    else [HexDigit(bytes[0] / 16), HexDigit(bytes[0] % 16)] + Hex(bytes[1..])
  }

  function FromHex(text: string): Option<KeyBytes> {
    if text == "" then Some([])
    else if |text| == 1 then None
    else
      var high, low, rest := HexValue(text[0]), HexValue(text[1]), FromHex(text[2..]);
      if high.Some? && low.Some? && rest.Some? && high.value < 16 && low.value < 16
      then Some([16 * high.value + low.value] + rest.value) else None
  }

  lemma HexDigitValue(d: nat)
    requires d < 16
    ensures HexValue(HexDigit(d)) == Some(d) && HexDigit(d) != ':'
  {}

  lemma {:induction false} FromHexInverts(bytes: KeyBytes)
    ensures FromHex(Hex(bytes)) == Some(bytes)
    ensures ':' !in Hex(bytes) && |Hex(bytes)| == 2 * |bytes|
  {
    if bytes != [] {
      FromHexInverts(bytes[1..]);
      HexPair(bytes[0], Hex(bytes[1..]), bytes[1..]);
      assert bytes == [bytes[0]] + bytes[1..];
    }
  }

  lemma HexPair(b: Byte, text: string, rest: KeyBytes)
    requires FromHex(text) == Some(rest) && ':' !in text
    ensures var pair := [HexDigit(b / 16), HexDigit(b % 16)] + text;
      FromHex(pair) == Some([b] + rest) && ':' !in pair
  {
    HexDigitValue(b / 16);
    HexDigitValue(b % 16);
    var pair := [HexDigit(b / 16), HexDigit(b % 16)] + text;
    assert pair[2..] == text;
  }

  const HEX_DIGITS: string := "0123456789abcdef"

  /** Two digits for each byte, the high half first. */
  lemma {:induction false} HexAt(bytes: KeyBytes, i: nat)
    requires i < |bytes|
    ensures |Hex(bytes)| == 2 * |bytes|
    ensures Hex(bytes)[2 * i] == HEX_DIGITS[bytes[i] / 16] && Hex(bytes)[2 * i + 1] == HEX_DIGITS[bytes[i] % 16]
  {
    if |bytes| > 1 {
      HexAt(bytes[1..], if i > 0 then i - 1 else 0);
    }
    HexDigitShown(bytes[0] / 16);
    HexDigitShown(bytes[0] % 16);
  }

  lemma HexDigitShown(d: nat)
    requires d < 16
    ensures HexDigit(d) == HEX_DIGITS[d]
  {}

  function LowerHex(c: char): char {
    if 'A' <= c <= 'F' then (c - 'A') + 'a' else c
  }

  function Lower(text: string): string {
    if text == "" then "" else [LowerHex(text[0])] + Lower(text[1..])
  }

  /** A text parses as these bytes exactly if it is their hexadecimal text, in letters of either case. */
  lemma {:induction false} FromHexIff(text: string, bytes: KeyBytes)
    ensures FromHex(text) == Some(bytes) <==> Lower(text) == Hex(bytes)
  {
    if |text| >= 2 {
      LowerPair(text);
      if bytes != [] {
        FromHexIff(text[2..], bytes[1..]);
        HexPairIff(text[0], text[1], bytes[0]);
        FromHexPair(text, bytes);
        SamePair(LowerHex(text[0]), LowerHex(text[1]), Lower(text[2..]),
                 HexDigit(bytes[0] / 16), HexDigit(bytes[0] % 16), Hex(bytes[1..]));
      }
    }
  }

  lemma LowerPair(text: string)
    requires |text| >= 2
    ensures Lower(text) == [LowerHex(text[0]), LowerHex(text[1])] + Lower(text[2..])
  {
    var rest, tail := text[1..], text[2..];
    assert rest != "" && rest[0] == text[1] && rest[1..] == tail;
    TwoInFront(LowerHex(text[0]), LowerHex(text[1]), Lower(tail));
  }

  lemma TwoInFront(a: char, b: char, rest: string)
    ensures [a] + ([b] + rest) == [a, b] + rest
  {}

  lemma FromHexPair(text: string, bytes: KeyBytes)
    requires |text| >= 2 && bytes != []
    ensures FromHex(text) == Some(bytes) <==>
      && FromHex(text[2..]) == Some(bytes[1..])
      && HexValue(text[0]).Some? && HexValue(text[1]).Some?
      && 16 * HexValue(text[0]).value + HexValue(text[1]).value == bytes[0]
  {
    var high, low, rest := HexValue(text[0]), HexValue(text[1]), FromHex(text[2..]);
    if high.Some? && low.Some? && rest.Some? {
      HexValueBound(text[0]);
      HexValueBound(text[1]);
      ConsIs(16 * high.value + low.value, rest.value, bytes);
    }
  }

  lemma HexValueBound(c: char)
    ensures HexValue(c).Some? ==> HexValue(c).value < 16
  {}

  lemma ConsIs(b: Byte, rest: KeyBytes, bytes: KeyBytes)
    requires bytes != []
    ensures [b] + rest == bytes <==> b == bytes[0] && rest == bytes[1..]
  {
    assert bytes == [bytes[0]] + bytes[1..] && ([b] + rest)[1..] == rest && ([b] + rest)[0] == b;
  }

  lemma SamePair(a: char, b: char, rest: string, a': char, b': char, rest': string)
    ensures [a, b] + rest == [a', b'] + rest' <==> a == a' && b == b' && rest == rest'
  {
    var s, s' := [a, b] + rest, [a', b'] + rest';
    assert s[2..] == rest && s'[2..] == rest';
    if s == s' {
      assert s[0] == s'[0] && s[1] == s'[1];
    }
  }

  lemma HexPairIff(a: char, b: char, byte: Byte)
    ensures LowerHex(a) == HexDigit(byte / 16) && LowerHex(b) == HexDigit(byte % 16) <==>
      HexValue(a).Some? && HexValue(b).Some? && 16 * HexValue(a).value + HexValue(b).value == byte
  {}

  // ---- decimal ----

  function Digit(d: nat): char
    requires d < 10
  {
    '0' + d as char
  }

  function Decimal(n: nat): string {
    if n < 10 then [Digit(n)] else Decimal(n / 10) + [Digit(n % 10)]
  }

  predicate IsDigit(c: char) {
    '0' <= c <= '9'
  }

  /** The number a nonempty digit string denotes. */
  function FromDecimal(text: string): Option<nat> {
    if text == "" || !IsDigit(text[|text| - 1]) then None
    else
      var d := text[|text| - 1] as int - '0' as int;
      if |text| == 1 then Some(d)
      else
        var front := FromDecimal(text[..|text| - 1]);
        if front.Some? then Some(10 * front.value + d) else None
  }

  lemma {:induction false} FromDecimalInverts(n: nat)
    ensures FromDecimal(Decimal(n)) == Some(n) && ':' !in Decimal(n) && Decimal(n) != ""
  {
    if n >= 10 {
      FromDecimalInverts(n / 10);
      var text := Decimal(n);
      assert text[..|text| - 1] == Decimal(n / 10);
    }
  }

  /** Decimal text has the number's digits, the lowest one last, and no zero in front. */
  lemma {:induction false} DecimalAt(n: nat, i: nat)
    requires i < |Decimal(n)|
    ensures Decimal(n)[|Decimal(n)| - 1 - i] as int == '0' as int + Tenth(n, i) % 10
    ensures n > 0 ==> Decimal(n)[0] != '0'
    ensures Tenth(n, |Decimal(n)|) == 0
  {
    if n >= 10 {
      var front := Decimal(n / 10);
      assert Decimal(n) == front + [Digit(n % 10)] && front != "";
      DecimalAt(n / 10, if i > 0 then i - 1 else 0);
    }
  }

  /** n without its last i digits. */
  function Tenth(n: nat, i: nat): nat {
    if i == 0 then n else Tenth(n / 10, i - 1)
  }

  // ---- slot text ----

  function SlotText(slot: Slot<KeyBytes>): string {
    Hex(slot.pub) + ":" + Decimal(slot.num)
  }

  /** The text before the first colon, or all of it. */
  function BeforeColon(text: string): string {
    if text == "" || text[0] == ':' then "" else [text[0]] + BeforeColon(text[1..])
  }

  function ParseSlot(text: string): Option<Slot<KeyBytes>> {
    var first := BeforeColon(text);
    if |first| >= |text| then None
    else
      var pub, num := FromHex(first), FromDecimal(BeforeColon(text[|first| + 1..]));
      if pub.Some? && num.Some? then Some(Slot(pub.value, num.value)) else None
  }

  lemma {:induction false} BeforeColonStops(a: string, rest: string)
    requires ':' !in a && (rest == "" || rest[0] == ':')
    ensures BeforeColon(a + rest) == a
  {
    if a == "" {
      assert a + rest == rest;
    } else {
      assert (a + rest)[1..] == a[1..] + rest;
      BeforeColonStops(a[1..], rest);
    }
  }

  /** Reading back the text of a slot gives the slot, so no two slots share a text. */
  lemma ParseSlotInverts(slot: Slot<KeyBytes>)
    ensures ParseSlot(SlotText(slot)) == Some(slot)
  {
    FromHexInverts(slot.pub);
    FromDecimalInverts(slot.num);
    SplitAtColon(Hex(slot.pub), Decimal(slot.num));
  }

  /** Splitting at the first colon, and again after it, recovers two colon-free parts. */
  lemma SplitAtColon(a: string, b: string)
    requires ':' !in a && ':' !in b
    ensures BeforeColon(a + ":" + b) == a && BeforeColon((a + ":" + b)[|a| + 1..]) == b
  {
    AroundColon(a, b);
    BeforeColonStops(a, ":" + b);
    BeforeColonStops(b, "");
    assert b + "" == b;
  }

  lemma AroundColon(a: string, b: string)
    ensures a + ":" + b == a + (":" + b) && (a + ":" + b)[|a| + 1..] == b
  {
    var text, head := a + ":" + b, a + ":";
    assert |head| == |a| + 1 && text == head + b;
  }

  // ---- the dictionary ----

  function HexOption(k: Option<KeyBytes>): Option<string> {
    if k.Some? then Some(Hex(k.value)) else None
  }

  function SkippedText(skipped: map<Slot<KeyBytes>, KeyBytes>): map<string, string> {
    assert forall slot :: slot in skipped ==> Inverts(SlotText, ParseSlot, slot) by {
      forall slot | slot in skipped ensures Inverts(SlotText, ParseSlot, slot) {
        ParseSlotInverts(slot);
      }
    }
    ToText(skipped, SlotText, ParseSlot, Hex)
  }

  function Serialize(s: StoredState): Blob {
    Blob(HexOption(s.rootKey), HexOption(s.sendKey), HexOption(s.recvKey),
         s.sendNum, s.recvNum, s.prevLen, HexOption(s.dhPriv), HexOption(s.dhRemote), SkippedText(s.skipped))
  }

  /** The dictionary: counters as they are, keys as hexadecimal text, and for every skipped key an entry
      "key:number", and no other. */
  lemma StoredForm(s: StoredState)
    ensures var b := Serialize(s);
      && b.sendNum == s.sendNum && b.recvNum == s.recvNum && b.prevLen == s.prevLen
      && (s.rootKey.None? ==> b.rootKey.None?) && (s.rootKey.Some? ==> b.rootKey == Some(Hex(s.rootKey.value)))
      && (s.sendKey.None? ==> b.sendKey.None?) && (s.sendKey.Some? ==> b.sendKey == Some(Hex(s.sendKey.value)))
      && (s.recvKey.None? ==> b.recvKey.None?) && (s.recvKey.Some? ==> b.recvKey == Some(Hex(s.recvKey.value)))
      && (s.dhPriv.None? ==> b.dhPriv.None?) && (s.dhPriv.Some? ==> b.dhPriv == Some(Hex(s.dhPriv.value)))
      && (s.dhRemote.None? ==> b.dhRemote.None?) && (s.dhRemote.Some? ==> b.dhRemote == Some(Hex(s.dhRemote.value)))
      && (forall slot :: slot in s.skipped ==>
            var text := Hex(slot.pub) + ":" + Decimal(slot.num); text in b.skipped && b.skipped[text] == Hex(s.skipped[slot]))
      && |b.skipped| == |s.skipped|
  {
    SkippedEntries(s.skipped);
  }

  lemma SkippedEntries(skipped: map<Slot<KeyBytes>, KeyBytes>)
    ensures forall slot :: slot in skipped ==> SlotText(slot) in SkippedText(skipped) && SkippedText(skipped)[SlotText(slot)] == Hex(skipped[slot])
    ensures |SkippedText(skipped)| == |skipped|
  {
    forall slot | slot in skipped ensures Inverts(SlotText, ParseSlot, slot) {
      ParseSlotInverts(slot);
    }
    SameCount(skipped.Keys, SkippedText(skipped).Keys);
  }

  /** Distinct slots have distinct texts, so there are as many texts as slots. */
  lemma {:induction false} SameCount(slots: set<Slot<KeyBytes>>, texts: set<string>)
    requires forall slot :: slot in slots ==> SlotText(slot) in texts
    requires forall t :: t in texts ==> exists slot :: slot in slots && t == SlotText(slot)
    ensures |texts| == |slots|
    decreases slots
  {
    if slots == {} {
      assert texts == {};
    } else {
      var slot :| slot in slots;
      ParseSlotInverts(slot);
      forall x | x in slots - {slot} ensures SlotText(x) in texts - {SlotText(slot)} {
        ParseSlotInverts(x);
      }
      SameCount(slots - {slot}, texts - {SlotText(slot)});
    }
  }

  /** A key read into a zeroed 32-byte buffer; longer data does not fit. */
  function Buffered(bytes: KeyBytes): Option<KeyBytes> {
    if |bytes| > 32 then None else Some(bytes + seq(32 - |bytes|, _ => 0))
  }

  function Exactly32(bytes: KeyBytes): Option<KeyBytes> {
    if |bytes| == 32 then Some(bytes) else None
  }

  datatype Loaded<+T> = Loaded(value: T) | Corrupt

  /** Absent and empty texts mean no key; others must decode. */
  function ReadKey(text: Option<string>, convert: KeyBytes -> Option<KeyBytes>): Loaded<Option<KeyBytes>> {
    if text.None? || text.value == "" then Loaded(None)
    else
      var bytes := FromHex(text.value);
      if bytes.None? then Corrupt
      else
        var key := convert(bytes.value);
        if key.None? then Corrupt else Loaded(key)
  }

  ghost predicate SkippedLoads(texts: map<string, string>, skipped: map<Slot<KeyBytes>, KeyBytes>) {
    Reads(texts, skipped, ParseSlot, FromHex)
  }

  predicate Readable(text: string, value: string) {
    ParseSlot(text).Some? && FromHex(value).Some?
  }

  /** The state the dictionary describes; the eviction queue starts empty. */
  ghost predicate Loads(b: Blob, s: StoredState) {
    && ReadKey(b.rootKey, Buffered) == Loaded(s.rootKey) && ReadKey(b.sendKey, Buffered) == Loaded(s.sendKey)
    && ReadKey(b.recvKey, Buffered) == Loaded(s.recvKey)
    && ReadKey(b.dhPriv, Exactly32) == Loaded(s.dhPriv) && ReadKey(b.dhRemote, Exactly32) == Loaded(s.dhRemote)
    && s.sendNum == b.sendNum && s.recvNum == b.recvNum && s.prevLen == b.prevLen
    && SkippedLoads(b.skipped, s.skipped) && s.order == []
  }

  method DeserializeSkipped(texts: map<string, string>) returns (r: Loaded<map<Slot<KeyBytes>, KeyBytes>>)
    ensures r.Loaded? <==> forall t :: t in texts ==> Readable(t, texts[t])
    ensures r.Loaded? ==> SkippedLoads(texts, r.value)
  {
    var left, skipped := texts.Keys, map[];
    while left != {}
      invariant left <= texts.Keys
      invariant forall t :: t in texts && t !in left ==> Readable(t, texts[t]) && ParseSlot(t).value in skipped
      invariant forall slot :: slot in skipped ==>
        exists t :: t in texts && ParseSlot(t) == Some(slot) && FromHex(texts[t]) == Some(skipped[slot])
      decreases left
    {
      var t :| t in left;
      var slot, key := ParseSlot(t), FromHex(texts[t]);
      if slot.None? || key.None? {
        return Corrupt;
      }
      skipped := skipped[slot.value := key.value];
      left := left - {t};
    }
    r := Loaded(skipped);
  }

  method Deserialize(b: Blob) returns (r: Loaded<StoredState>)
    ensures r.Loaded? ==> Loads(b, r.value)
    ensures r.Corrupt? ==> !exists s :: Loads(b, s)
  {
    var root, send, recv := ReadKey(b.rootKey, Buffered), ReadKey(b.sendKey, Buffered), ReadKey(b.recvKey, Buffered);
    var priv, remote := ReadKey(b.dhPriv, Exactly32), ReadKey(b.dhRemote, Exactly32);
    var skipped := DeserializeSkipped(b.skipped);
    if root.Corrupt? || send.Corrupt? || recv.Corrupt? || priv.Corrupt? || remote.Corrupt? || skipped.Corrupt? {
      return Corrupt;
    }
    r := Loaded(State(priv.value, remote.value, root.value, send.value, recv.value,
                      b.sendNum, b.recvNum, b.prevLen, skipped.value, []));
  }

  // ---- round trip ----

  predicate Is32(k: Option<KeyBytes>) {
    k.Some? ==> |k.value| == 32
  }

  predicate KeysAre32(s: StoredState) {
    Is32(s.rootKey) && Is32(s.sendKey) && Is32(s.recvKey) && Is32(s.dhPriv) && Is32(s.dhRemote)
  }

  lemma ReadKeyInverts(k: Option<KeyBytes>)
    requires Is32(k)
    ensures ReadKey(HexOption(k), Buffered) == Loaded(k) && ReadKey(HexOption(k), Exactly32) == Loaded(k)
  {
    if k.Some? {
      FromHexInverts(k.value);
      ReadText(Hex(k.value), k.value);
    }
  }

  lemma ReadText(text: string, bytes: KeyBytes)
    requires text != "" && FromHex(text) == Some(bytes) && |bytes| == 32
    ensures ReadKey(Some(text), Buffered) == Loaded(Some(bytes)) && ReadKey(Some(text), Exactly32) == Loaded(Some(bytes))
  {
    assert bytes + seq(0, _ => 0) == bytes;
  }

  /** The only thing the stored skipped keys load as is the skipped keys. */
  lemma SkippedRoundTrip(skipped: map<Slot<KeyBytes>, KeyBytes>, loaded: map<Slot<KeyBytes>, KeyBytes>)
    ensures SkippedLoads(SkippedText(skipped), loaded) <==> loaded == skipped
  {
    forall slot | slot in skipped ensures Inverts(SlotText, ParseSlot, slot) {
      ParseSlotInverts(slot);
    }
    forall bytes ensures Inverts(Hex, FromHex, bytes) {
      FromHexInverts(bytes);
    }
    ReadsBack(skipped, loaded, SlotText, ParseSlot, Hex, FromHex);
  }

  /** A stored state loads as exactly itself, with every key, counter and skipped key, except that the
      eviction queue is empty. */
  lemma RoundTrip(s: StoredState, t: StoredState)
    requires KeysAre32(s)
    ensures Loads(Serialize(s), t) <==> t == s.(order := [])
  {
    ReadKeyInverts(s.rootKey);
    ReadKeyInverts(s.sendKey);
    ReadKeyInverts(s.recvKey);
    ReadKeyInverts(s.dhPriv);
    ReadKeyInverts(s.dhRemote);
    SkippedRoundTrip(s.skipped, t.skipped);
  }
}
