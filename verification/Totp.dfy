/** Six-digit codes of one counter: RFC 4226 truncation and the padded text, services/totp_service.py. */
module Hotp {
  import opened Basics
  import opened Wire

  type Digest = d: Bytes | |d| == 20 witness seq(20, _ => 0)

  /** HMAC-SHA1 of a key and a message. */
  type Hmac = (Bytes, Bytes) -> Digest

  predicate AsciiDigit(c: char) {
    '0' <= c <= '9'
  }

  const MODULUS: nat := 1000000

  function Truncate(d: Digest): (code: nat)
    ensures code < MODULUS
  {
    var offset := d[19] % 16;
    FromBigEndian(d[offset..offset + 4]) % 0x8000_0000 % MODULUS
  }

  lemma FourBytes(b: Bytes)
    requires |b| == 4
    ensures FromBigEndian(b) == 0x100_0000 * (b[0] as int) + 0x1_0000 * (b[1] as int) + 0x100 * (b[2] as int) + b[3] as int
  {
    assert b[..3][..2] == b[..2] && b[..2][..1] == b[..1] && b[..1][..0] == [];
    assert FromBigEndian(b[..1]) == 256 * FromBigEndian([]) + b[0];
    assert FromBigEndian(b[..2]) == 256 * FromBigEndian(b[..1]) + b[1];
    assert FromBigEndian(b[..3]) == 256 * FromBigEndian(b[..2]) + b[2];
  }

  lemma DropTopBit(top: nat, rest: nat)
    requires rest < 0x100_0000
    ensures (0x100_0000 * top + rest) % 0x8000_0000 == 0x100_0000 * (top % 128) + rest
  {
    var q, r := top / 128, top % 128;
    assert 0x100_0000 * top + rest == 0x8000_0000 * q + (0x100_0000 * r + rest);
  }

  /** Dynamic truncation as section 5.3 of RFC 4226 writes it: four bytes, the top bit of the first dropped. */
  lemma TruncateIsRfc4226(d: Digest)
    ensures var o := d[19] % 16;
            Truncate(d) == (0x100_0000 * (d[o] as int % 128) + 0x1_0000 * (d[o + 1] as int) + 0x100 * (d[o + 2] as int)
                            + d[o + 3] as int) % MODULUS
  {
    var o := d[19] % 16;
    var four := d[o..o + 4];
    FourBytes(four);
    DropTopBit(four[0], 0x1_0000 * (four[1] as int) + 0x100 * (four[2] as int) + four[3]);
  }

  /** No code for a counter that does not fit eight bytes. */
  function Code(hmac: Hmac, secret: Bytes, counter: int): (code: Option<nat>)
    ensures code.Some? ==> code.value < MODULUS
  {
    if 0 <= counter < U64 then Some(Truncate(hmac(secret, BigEndian(counter, 8)))) else None
  }

  /** The code of a counter is the truncated HMAC of the secret over the counter's eight bytes, highest first. */
  lemma CodeOfMessage(hmac: Hmac, secret: Bytes, m: Bytes, counter: int)
    requires |m| == 8 && FromBigEndian(m) == counter
    ensures var d := hmac(secret, m);
            var o := d[19] % 16;
            Code(hmac, secret, counter)
            == Some((0x100_0000 * (d[o] as int % 128) + 0x1_0000 * (d[o + 1] as int) + 0x100 * (d[o + 2] as int)
                     + d[o + 3] as int) % 1000000)
  {
    FieldSizes();
    BigEndianInverts(m);
    TruncateIsRfc4226(hmac(secret, m));
  }

  /** A number zero-padded to a fixed width. */
  function Padded(n: nat, width: nat): (text: string)
    ensures |text| == width
    ensures forall c <- text :: AsciiDigit(c)
  {
    if width == 0 then [] else Padded(n / 10, width - 1) + [(n % 10) as char + '0']
  }

  function Number(text: string): int {
    if text == [] then 0 else 10 * Number(text[..|text| - 1]) + (text[|text| - 1] as int - '0' as int)
  }

  function Power10(k: nat): nat {
    if k == 0 then 1 else 10 * Power10(k - 1)
  }

  /** Padding loses nothing below ten to the width, so comparing texts is comparing codes. */
  lemma {:induction false} PaddedReads(n: nat, width: nat)
    requires n < Power10(width)
    ensures Number(Padded(n, width)) == n
  {
    if width > 0 {
      PaddedReads(n / 10, width - 1);
      var text := Padded(n, width);
      assert text[..width - 1] == Padded(n / 10, width - 1);
    }
  }

  function Text(n: nat): (text: string)
    ensures |text| == 6
    ensures forall c <- text :: AsciiDigit(c)
  {
    Padded(n, 6)
  }

  /** n without its last k digits. */
  function Shifted(n: nat, k: nat): nat {
    if k == 0 then n else Shifted(n / 10, k - 1)
  }

  lemma {:induction false} PaddedAt(n: nat, width: nat, i: nat)
    requires i < width
    ensures Padded(n, width)[i] as int == '0' as int + Shifted(n, width - 1 - i) % 10
  {
    if i < width - 1 {
      PaddedAt(n / 10, width - 1, i);
    }
  }

  lemma ShiftedValues(n: nat)
    ensures Shifted(n, 0) == n && Shifted(n, 1) == n / 10 && Shifted(n, 2) == n / 100 && Shifted(n, 3) == n / 1000
    ensures Shifted(n, 4) == n / 10000 && Shifted(n, 5) == n / 100000
  {
    var n1, n2, n3, n4 := n / 10, n / 100, n / 1000, n / 10000;
    assert Shifted(n, 2) == Shifted(n1, 1) == n1 / 10;
    assert Shifted(n, 3) == Shifted(n1, 2) == Shifted(n1 / 10, 1) == n2 / 10;
    assert Shifted(n, 4) == Shifted(n1, 3) == Shifted(n2, 2) == Shifted(n3, 1) == n3 / 10;
    assert Shifted(n, 5) == Shifted(n1, 4) == Shifted(n2, 3) == Shifted(n3, 2) == Shifted(n4, 1) == n4 / 10;
  }

  /** The text is the six decimal digits of n. */
  predicate Spells(text: string, n: nat) {
    && |text| == 6 && text[0] as int == '0' as int + n / 100000 % 10 && text[1] as int == '0' as int + n / 10000 % 10
    && text[2] as int == '0' as int + n / 1000 % 10 && text[3] as int == '0' as int + n / 100 % 10
    && text[4] as int == '0' as int + n / 10 % 10 && text[5] as int == '0' as int + n % 10
  }

  lemma TextDigits(n: nat)
    ensures Spells(Text(n), n)
  {
    ShiftedValues(n);
    PaddedAt(n, 6, 0);
    PaddedAt(n, 6, 1);
    PaddedAt(n, 6, 2);
    PaddedAt(n, 6, 3);
    PaddedAt(n, 6, 4);
    PaddedAt(n, 6, 5);
  }

  lemma TextInjective(m: nat, n: nat)
    requires m < MODULUS && n < MODULUS && Text(m) == Text(n)
    ensures m == n
  {
    assert Power10(3) == 1000;
    assert Power10(6) == MODULUS;
    PaddedReads(m, 6);
    PaddedReads(n, 6);
  }
}

/** The drift window and replay counter of services/totp_service.py, with the stored counter and the
    secret loading of services/totp_persistence.py. */
module Totp {
  import opened Basics
  import opened Wire
  import Hotp

  datatype Error = SecretNotSet | NoCode | NotAscii | SecretTooShort

  datatype Result<+T> = Ok(value: T) | Err(error: Error)

  /** What a run depends on from outside: the code text of a secret and counter, if there is one, and
      the character classes of `strip` and `isdigit`. */
  datatype Platform = Platform(code: (Bytes, int) -> Option<string>, space: char -> bool, digit: char -> bool)

  /** Codes are texts of six digits, and digits are not white space. */
  ghost predicate Sane(p: Platform) {
    forall secret, counter :: p.code(secret, counter).Some? ==>
      var text := p.code(secret, counter).value;
      WellFormed(p, text) && Ascii(text) && !p.space(text[0]) && !p.space(text[5])
  }

  /** The code of RFC 4226 as text. */
  function CodeText(hmac: Hotp.Hmac): (Bytes, int) -> Option<string> {
    (secret: Bytes, counter: int) =>
      var code := Hotp.Code(hmac, secret, counter);
      if code.None? then None else Some(Hotp.Text(code.value))
  }

  lemma HotpIsSane(p: Platform, hmac: Hotp.Hmac)
    requires p.code == CodeText(hmac)
    requires forall c: char :: Hotp.AsciiDigit(c) ==> p.digit(c) && !p.space(c)
    ensures Sane(p)
    ensures forall secret, c :: p.code(secret, c).Some? <==> 0 <= c < U64
    ensures forall secret, b, c :: p.code(secret, b).Some? && p.code(secret, b) == p.code(secret, c) ==>
              Hotp.Code(hmac, secret, b) == Hotp.Code(hmac, secret, c)
  {
    forall secret, b, c | p.code(secret, b).Some? && p.code(secret, b) == p.code(secret, c)
      ensures Hotp.Code(hmac, secret, b) == Hotp.Code(hmac, secret, c)
    {
      Hotp.TextInjective(Hotp.Code(hmac, secret, b).value, Hotp.Code(hmac, secret, c).value);
    }
  }

  predicate Ascii(text: string) {
    forall c <- text :: c as int < 128
  }

  function StripLeft(p: Platform, text: string): string {
    if text != [] && p.space(text[0]) then StripLeft(p, text[1..]) else text
  }

  function StripRight(p: Platform, text: string): string {
    if text != [] && p.space(text[|text| - 1]) then StripRight(p, text[..|text| - 1]) else text
  }

  function Strip(p: Platform, text: string): string {
    StripRight(p, StripLeft(p, text))
  }

  predicate WellFormed(p: Platform, text: string) {
    |text| == 6 && forall c <- text :: p.digit(c)
  }

  /** `int(timestamp)`: toward zero. */
  function Seconds(t: real): int {
    if t >= 0.0 then t.Floor else -((-t).Floor)
  }

  /** Floor division, like Euclidean division for a positive divisor. */
  function Step(t: real): int {
    Seconds(t) / 30
  }

  // ---- State ----------------------------------------------------------------------------------

  /** The settings row of the last accepted counter. */
  datatype CounterRow = Missing | Garbled | Counter(value: int)

  /** One service object and the stored row; `wired` when its save callback is registered. */
  datatype Device = Device(secret: Option<Bytes>, last: int, wired: bool, row: CounterRow)

  datatype Checked = Checked(device: Device, result: Result<bool>)

  function StoredCounter(row: CounterRow, readable: bool): int {
    if readable && row.Counter? then row.value else -1
  }

  function Install(d: Device, secret: Bytes): Result<Device> {
    if |secret| < 20 then Err(SecretTooShort) else Ok(d.(secret := Some(secret[..20]), last := -1))
  }

  function WireCounter(d: Device, readable: bool): Device {
    var stored := StoredCounter(d.row, readable);
    d.(wired := true, last := if stored > d.last then stored else d.last)
  }

  function Generate(p: Platform, d: Device, step: int): Result<string> {
    if d.secret.None? then Err(SecretNotSet)
    else
      var code := p.code(d.secret.value, step);
      if code.None? then Err(NoCode) else Ok(code.value)
  }

  /** Whether a counter's code is the given text; computing or comparing it may raise. */
  function Matches(p: Platform, secret: Bytes, text: string, counter: int): Result<bool> {
    var code := p.code(secret, counter);
    if code.None? then Err(NoCode)
    else if !Ascii(text) then Err(NotAscii)
    else Ok(text == code.value)
  }

  /** The first of the counters from..until whose code is the given text. */
  function FirstMatch(p: Platform, secret: Bytes, text: string, from: int, until: int): Result<Option<int>>
    decreases until - from
  {
    if from > until then Ok(None)
    else
      var m := Matches(p, secret, text, from);
      if m.Err? then Err(m.error)
      else if m.value then Ok(Some(from))
      else FirstMatch(p, secret, text, from + 1, until)
  }

  /** The write of the counter is swallowed when it fails; `saved` says whether it succeeded. */
  function Accept(d: Device, counter: int, saved: bool): Device {
    d.(last := counter, row := if d.wired && saved then Counter(counter) else d.row)
  }

  /** The check at time step `base`. */
  function Verify(p: Platform, d: Device, code: string, base: int, track: bool, saved: bool): Checked {
    var text := Strip(p, code);
    if d.secret.None? then Checked(d, Err(SecretNotSet))
    else if !WellFormed(p, text) then Checked(d, Ok(false))
    else
      var m := FirstMatch(p, d.secret.value, text, base - 1, base + 1);
      if m.Err? then Checked(d, Err(m.error))
      else if m.value.None? then Checked(d, Ok(false))
      else if !track then Checked(d, Ok(true))
      else if m.value.value <= d.last then Checked(d, Ok(false))
      else Checked(Accept(d, m.value.value, saved), Ok(true))
  }

  /** c is the earliest counter of the window whose code is the text, with other codes at all before it. */
  ghost predicate Earliest(p: Platform, secret: Bytes, text: string, from: int, until: int, c: int) {
    from <= c <= until && Ascii(text) && p.code(secret, c) == Some(text)
    && forall b :: from <= b < c ==> p.code(secret, b).Some? && p.code(secret, b) != Some(text)
  }

  lemma {:induction false} FirstMatchExact(p: Platform, secret: Bytes, text: string, from: int, until: int, c: int)
    ensures FirstMatch(p, secret, text, from, until) == Ok(Some(c)) <==> Earliest(p, secret, text, from, until, c)
    decreases until - from
  {
    if from <= until {
      FirstMatchExact(p, secret, text, from + 1, until, c);
      EarliestStep(p, secret, text, from, until, c);
    }
  }

  lemma EarliestStep(p: Platform, secret: Bytes, text: string, from: int, until: int, c: int)
    requires from <= until
    ensures Earliest(p, secret, text, from, until, c) <==>
      match Matches(p, secret, text, from)
      case Err(_) => false
      case Ok(found) => if found then c == from else Earliest(p, secret, text, from + 1, until, c)
  {}

  /** A check accepts counter c exactly when c is the earliest match within one step of the clock and
      above the last accepted counter; whatever it does not accept changes nothing. */
  lemma VerifyExact(p: Platform, d: Device, code: string, base: int, saved: bool, c: int)
    ensures var r := Verify(p, d, code, base, true, saved);
            (r.result == Ok(true) && r.device.last == c) <==>
            (d.secret.Some? && WellFormed(p, Strip(p, code)) && c > d.last
             && Earliest(p, d.secret.value, Strip(p, code), base - 1, base + 1, c))
    ensures Verify(p, d, code, base, true, saved).result != Ok(true) ==> Verify(p, d, code, base, true, saved).device == d
    ensures var r := Verify(p, d, code, base, true, saved);
            r.result == Ok(true) ==>
              r.device == Device(d.secret, r.device.last, d.wired, if d.wired && saved then Counter(r.device.last) else d.row)
  {
    if d.secret.Some? {
      FirstMatchExact(p, d.secret.value, Strip(p, code), base - 1, base + 1, c);
    }
  }

  /** What a check refuses to decide: no secret, a counter without a code before any match, or, once there is a
      code to compare with, a text of digits that are not ASCII. Anything but six digits is just wrong. */
  lemma VerifyRaises(p: Platform, d: Device, code: string, base: int, track: bool, saved: bool)
    ensures var r, text := Verify(p, d, code, base, track, saved).result, Strip(p, code);
            var six := |text| == 6 && forall c <- text :: p.digit(c);
            && (r == Err(SecretNotSet) <==> d.secret.None?)
            && (d.secret.Some? ==>
                  var c0, c1, c2 := p.code(d.secret.value, base - 1), p.code(d.secret.value, base), p.code(d.secret.value, base + 1);
                  && (!six ==> r == Ok(false))
                  && (r == Err(NotAscii) <==> six && c0.Some? && !Ascii(text))
                  && (r == Err(NoCode) <==>
                        six && (c0.None? || (Ascii(text) && c0 != Some(text) && (c1.None? || (c1 != Some(text) && c2.None?))))))
  {
    if d.secret.Some? {
      ThreeTried(p, d.secret.value, Strip(p, code), base);
    }
  }

  lemma ThreeTried(p: Platform, secret: Bytes, text: string, base: int)
    ensures var c0, c1, c2 := p.code(secret, base - 1), p.code(secret, base), p.code(secret, base + 1);
            FirstMatch(p, secret, text, base - 1, base + 1) ==
            if c0.None? then Err(NoCode)
            else if !Ascii(text) then Err(NotAscii)
            else if c0 == Some(text) then Ok(Some(base - 1))
            else if c1.None? then Err(NoCode)
            else if c1 == Some(text) then Ok(Some(base))
            else if c2.None? then Err(NoCode)
            else if c2 == Some(text) then Ok(Some(base + 1))
            else Ok(None)
  {
    assert FirstMatch(p, secret, text, base + 2, base + 1) == Ok(None);
    TryOne(p, secret, text, base + 1, base + 1);
    TryOne(p, secret, text, base, base + 1);
    TryOne(p, secret, text, base - 1, base + 1);
  }

  lemma TryOne(p: Platform, secret: Bytes, text: string, c: int, until: int)
    requires c <= until
    ensures FirstMatch(p, secret, text, c, until) ==
            if p.code(secret, c).None? then Err(NoCode)
            else if !Ascii(text) then Err(NotAscii)
            else if p.code(secret, c) == Some(text) then Ok(Some(c))
            else FirstMatch(p, secret, text, c + 1, until)
  {}

  /** Stripping takes off the white space at both ends and nothing else. */
  lemma {:induction false} StripExact(p: Platform, left: string, middle: string, right: string)
    requires (forall c <- left :: p.space(c)) && (forall c <- right :: p.space(c))
    requires middle != [] ==> !p.space(middle[0]) && !p.space(middle[|middle| - 1])
    ensures Strip(p, left + middle + right) == middle
    decreases |left|, |right|
  {
    var text := left + middle + right;
    if left != [] {
      assert text[1..] == left[1..] + middle + right && p.space(text[0]);
      StripExact(p, left[1..], middle, right);
    } else if middle == [] {
      assert text == right;
      AllSpace(p, right);
    } else {
      assert text == middle + right && StripLeft(p, text) == text;
      StripEnd(p, middle, right);
    }
  }

  lemma {:induction false} AllSpace(p: Platform, text: string)
    requires forall c <- text :: p.space(c)
    ensures StripLeft(p, text) == [] && Strip(p, text) == []
  {
    if text != [] {
      AllSpace(p, text[1..]);
    }
  }

  lemma {:induction false} StripEnd(p: Platform, middle: string, right: string)
    requires middle != [] && !p.space(middle[|middle| - 1]) && forall c <- right :: p.space(c)
    ensures StripRight(p, middle + right) == middle
    decreases |right|
  {
    if right == [] {
      assert middle + right == middle;
    } else {
      var text, front := middle + right, right[..|right| - 1];
      assert text[..|text| - 1] == middle + front && text[|text| - 1] == right[|right| - 1];
      StripEnd(p, middle, front);
    }
  }

  /** A match with codes at every counter before it has an earliest match, found before anything raises. */
  lemma {:induction false} EarliestExists(p: Platform, secret: Bytes, text: string, from: int, c: int)
    returns (first: int)
    requires Ascii(text) && from <= c && Matches(p, secret, text, c) == Ok(true)
    requires forall b :: from <= b <= c ==> p.code(secret, b).Some?
    ensures from <= first <= c && Matches(p, secret, text, first) == Ok(true)
    ensures forall b :: from <= b < first ==> Matches(p, secret, text, b) == Ok(false)
    decreases c - from
  {
    if Matches(p, secret, text, from) == Ok(true) {
      first := from;
    } else {
      assert p.code(secret, from).Some?;
      first := EarliestExists(p, secret, text, from + 1, c);
    }
  }

  /** The code generated at a step is accepted one step either way exactly when that step is above the
      last accepted counter and no consumed counter of the window has the same code. Untracked, it
      always passes. */
  lemma FreshCode(p: Platform, d: Device, made: int, base: int, saved: bool)
    requires Sane(p) && d.secret.Some? && base - 1 <= made <= base + 1
    requires forall b :: base - 1 <= b <= made ==> p.code(d.secret.value, b).Some?
    ensures Generate(p, d, made) == Ok(p.code(d.secret.value, made).value)
    ensures var code := p.code(d.secret.value, made).value;
            Verify(p, d, code, base, false, saved) == Checked(d, Ok(true))
            && (Verify(p, d, code, base, true, saved).result == Ok(true) <==>
                made > d.last
                && forall b :: base - 1 <= b < made && b <= d.last ==>
                     p.code(d.secret.value, b) != p.code(d.secret.value, made))
  {
    var secret := d.secret.value;
    assert p.code(secret, made).Some?;
    var text := p.code(secret, made).value;
    StripIdle(p, text);
    var first := EarliestExists(p, secret, text, base - 1, made);
    FirstMatchExact(p, secret, text, base - 1, base + 1, first);
    assert p.code(secret, first) == p.code(secret, made);
    forall b | base - 1 <= b < made && b <= d.last && first > d.last
      ensures p.code(secret, b) != p.code(secret, made)
    {
      assert Matches(p, secret, text, b) == Ok(false);
    }
  }

  /** Clock readings at most 30 seconds apart are at most one step apart, and at most one step apart
      means less than 60 seconds. */
  lemma DriftWindow(t: real, u: real)
    requires 0.0 <= t <= u
    ensures u - t <= 30.0 ==> Step(t) <= Step(u) <= Step(t) + 1
    ensures Step(u) <= Step(t) + 1 ==> u - t < 60.0
  {
    assert t.Floor as real <= t < t.Floor as real + 1.0 && u.Floor as real <= u < u.Floor as real + 1.0;
    if u - t <= 30.0 {
      assert u.Floor <= t.Floor + 30;
    }
    if Step(u) <= Step(t) + 1 {
      assert u.Floor <= t.Floor + 59;
    }
  }

  /** The code shown at a time is the six digits of the truncated HMAC over the number of whole 30 seconds so far,
      written as eight bytes. */
  lemma ShownCode(p: Platform, hmac: Hotp.Hmac, d: Device, made: real, m: Bytes)
    requires p.code == CodeText(hmac) && d.secret.Some? && made >= 0.0
    requires |m| == 8 && FromBigEndian(m) == made.Floor / 30
    ensures var t := hmac(d.secret.value, m);
            var o := t[19] % 16;
            Generate(p, d, Step(made)).Ok?
            && Hotp.Spells(Generate(p, d, Step(made)).value,
                           (0x100_0000 * (t[o] as int % 128) + 0x1_0000 * (t[o + 1] as int) + 0x100 * (t[o + 2] as int)
                            + t[o + 3] as int) % 1000000)
  {
    Hotp.CodeOfMessage(hmac, d.secret.value, m, made.Floor / 30);
    Hotp.TextDigits(Hotp.Code(hmac, d.secret.value, made.Floor / 30).value);
  }

  /** With the HMAC codes and a clock past the first step: a code shown at `made` and entered up to 30
      seconds later is accepted exactly when its step is unused and no used step of the window
      happens to have the same code. */
  lemma HonestLogin(p: Platform, hmac: Hotp.Hmac, d: Device, made: real, entered: real, saved: bool)
    requires p.code == CodeText(hmac)
    requires forall c: char :: Hotp.AsciiDigit(c) ==> p.digit(c) && !p.space(c)
    requires d.secret.Some? && 0.0 <= made <= entered <= made + 30.0 && 1 <= Step(entered) < U64
    ensures Generate(p, d, Step(made)).Ok?
    ensures Verify(p, d, Generate(p, d, Step(made)).value, Step(entered), true, saved).result == Ok(true) <==>
            made.Floor / 30 > d.last
            && forall b :: entered.Floor / 30 - 1 <= b < made.Floor / 30 && b <= d.last ==>
                 Hotp.Code(hmac, d.secret.value, b) != Hotp.Code(hmac, d.secret.value, made.Floor / 30)
  {
    HotpIsSane(p, hmac);
    DriftWindow(made, entered);
    FreshCode(p, d, Step(made), Step(entered), saved);
    var secret := d.secret.value;
    forall b | Hotp.Code(hmac, secret, b) == Hotp.Code(hmac, secret, Step(made))
      ensures p.code(secret, b) == p.code(secret, Step(made))
    {
    }
  }

  lemma StripIdle(p: Platform, text: string)
    requires text != [] && !p.space(text[0]) && !p.space(text[|text| - 1])
    ensures Strip(p, text) == text
  {
  }

  // ---- Loading the stored secret ---------------------------------------------------------------

  /** A secret one strategy decrypted, with the time steps at which its self-test makes and checks a code. */
  datatype Candidate = Candidate(secret: Option<Bytes>, made: int, checked: int)

  /** What a load finds: a stored secret tried under the password and then under the global secret,
      or no stored secret and the global secret itself. `readable` is the counter row's read. */
  datatype Source =
    | Stored(byPassword: Candidate, byGlobal: Candidate, readable: bool)
    | Legacy(global: Bytes, readable: bool)

  datatype Loaded = Loaded(device: Device, ok: bool)

  function Try(p: Platform, d: Device, c: Candidate, readable: bool): Loaded {
    if c.secret.None? || |c.secret.value| < 20 then Loaded(d, false)
    else
      var installed := Install(d, c.secret.value).value;
      var code := Generate(p, installed, c.made);
      if code.Ok? && Verify(p, installed, code.value, c.checked, false, false).result == Ok(true)
      then Loaded(WireCounter(installed, readable), true)
      else Loaded(installed, false)
  }

  function Load(p: Platform, d: Device, src: Source): Loaded {
    match src
    case Stored(byPassword, byGlobal, readable) =>
      var first := Try(p, d, byPassword, readable);
      if first.ok then first else Try(p, first.device, byGlobal, readable)
    case Legacy(global, readable) =>
      if |global| < 20 then Loaded(d, false) else Loaded(WireCounter(Install(d, global).value, readable), true)
  }

  /** The strategy yields a secret long enough to be installed. */
  predicate Installs(c: Candidate) {
    c.secret.Some? && |c.secret.value| >= 20
  }

  /** The code made at one step is found in the window of the other before anything raises. */
  ghost predicate Passes(p: Platform, c: Candidate)
    requires Installs(c)
  {
    var secret := c.secret.value[..20];
    && p.code(secret, c.made).Some?
    && exists k :: c.checked - 1 <= k <= c.checked + 1 && p.code(secret, k) == p.code(secret, c.made)
                   && forall b :: c.checked - 1 <= b <= k ==> p.code(secret, b).Some?
  }

  /** The self-test succeeds exactly under that condition on its secret and its two clock readings. */
  lemma SelfTestIff(p: Platform, d: Device, c: Candidate, readable: bool)
    requires Sane(p) && Installs(c)
    ensures Try(p, d, c, readable).ok <==> Passes(p, c)
  {
    var secret := c.secret.value[..20];
    if p.code(secret, c.made).Some? {
      var text := p.code(secret, c.made).value;
      StripIdle(p, text);
      if Passes(p, c) {
        PassesFound(p, c, secret, text);
      }
      if Try(p, d, c, readable).ok {
        FoundPasses(p, c, secret, text);
      }
    }
  }

  lemma PassesFound(p: Platform, c: Candidate, secret: Bytes, text: string)
    requires Sane(p) && Installs(c) && secret == c.secret.value[..20] && p.code(secret, c.made) == Some(text) && Passes(p, c)
    ensures var m := FirstMatch(p, secret, text, c.checked - 1, c.checked + 1); m.Ok? && m.value.Some?
  {
    var k :| c.checked - 1 <= k <= c.checked + 1 && p.code(secret, k) == p.code(secret, c.made)
             && forall b :: c.checked - 1 <= b <= k ==> p.code(secret, b).Some?;
    var first := EarliestExists(p, secret, text, c.checked - 1, k);
    FirstMatchExact(p, secret, text, c.checked - 1, c.checked + 1, first);
  }

  lemma FoundPasses(p: Platform, c: Candidate, secret: Bytes, text: string)
    requires Installs(c) && secret == c.secret.value[..20] && p.code(secret, c.made) == Some(text)
    requires var m := FirstMatch(p, secret, text, c.checked - 1, c.checked + 1); m.Ok? && m.value.Some?
    ensures Passes(p, c)
  {
    var k := FirstMatch(p, secret, text, c.checked - 1, c.checked + 1).value.value;
    FirstMatchExact(p, secret, text, c.checked - 1, c.checked + 1, k);
    forall b | c.checked - 1 <= b <= k ensures p.code(secret, b).Some? {
      assert b < k ==> Matches(p, secret, text, b) == Ok(false);
    }
  }

  /** In particular when the clock moves at most one step and every code of the window exists. */
  lemma PromptSelfTest(p: Platform, c: Candidate)
    requires Installs(c) && c.checked - 1 <= c.made <= c.checked + 1
    requires forall b :: c.checked - 1 <= b <= c.made ==> p.code(c.secret.value[..20], b).Some?
    ensures Passes(p, c)
  {
    assert p.code(c.secret.value[..20], c.made).Some?;
  }

  /** The last secret a load installs passes its self-test and finds its counter, or none is installed. */
  ghost predicate SafeLoad(p: Platform, src: Source) {
    match src
    case Stored(a, b, readable) =>
      if Installs(a) && Passes(p, a) then readable
      else if Installs(b) then Passes(p, b) && readable
      else !Installs(a)
    case Legacy(global, readable) => |global| >= 20 ==> readable
  }

  function Restarted(d: Device): Device {
    Device(None, -1, false, d.row)
  }

  // ---- Runs -----------------------------------------------------------------------------------

  datatype Event =
    | Check(code: string, step: int, track: bool, saved: bool)
    | Reload(src: Source)
    | Clear
    | Restart

  function Next(p: Platform, d: Device, e: Event): Device {
    match e
    case Check(code, step, track, saved) => Verify(p, d, code, step, track, saved).device
    case Reload(src) => Load(p, d, src).device
    case Clear => d.(secret := None)
    case Restart => Restarted(d)
  }

  function Took(p: Platform, d: Device, e: Event): seq<int> {
    if e.Check? && e.track && Verify(p, d, e.code, e.step, true, e.saved).result == Ok(true)
    then [Verify(p, d, e.code, e.step, true, e.saved).device.last] else []
  }

  function Accepted(p: Platform, d: Device, events: seq<Event>): seq<int>
    decreases |events|
  {
    if events == [] then [] else Took(p, d, events[0]) + Accepted(p, Next(p, d, events[0]), events[1..])
  }

  /** Counter writes succeed and loads are safe. */
  ghost predicate Sound(p: Platform, e: Event) {
    match e
    case Check(_, _, _, saved) => saved
    case Reload(src) => SafeLoad(p, src)
    case _ => true
  }

  /** Every counter up to `floor` stays refused, now and after a restart. */
  predicate Protected(d: Device, floor: int) {
    StoredCounter(d.row, true) >= floor && (d.secret.Some? ==> d.wired && d.last >= floor)
  }

  /** A load keeps what is protected if and only if it is safe. */
  lemma LoadProtectsIff(p: Platform, d: Device, src: Source, floor: int)
    requires Sane(p) && Protected(d, floor) && floor >= 0
    ensures Protected(Load(p, d, src).device, floor) <==> SafeLoad(p, src)
  {
    LoadedCounter(p, d, src);
    LoadSucceeds(p, d, src);
  }

  lemma LoadProtects(p: Platform, d: Device, src: Source, floor: int)
    requires Sane(p) && Protected(d, floor) && SafeLoad(p, src)
    ensures Protected(Load(p, d, src).device, floor)
  {
    LoadedCounter(p, d, src);
    LoadSucceeds(p, d, src);
  }

  /** When a load reports success. */
  lemma LoadSucceeds(p: Platform, d: Device, src: Source)
    requires Sane(p)
    ensures Load(p, d, src).ok <==>
      match src
      case Stored(a, b, _) => (Installs(a) && Passes(p, a)) || (Installs(b) && Passes(p, b))
      case Legacy(global, _) => |global| >= 20
    ensures Load(p, d, src).ok ==> (
      Load(p, d, src).device.secret == match src
        case Stored(a, b, _) => if Installs(a) && Passes(p, a) then Some(a.secret.value[..20]) else Some(b.secret.value[..20])
        case Legacy(global, _) => Some(global[..20]))
  {
    if src.Stored? {
      if Installs(src.byPassword) {
        SelfTestIff(p, d, src.byPassword, src.readable);
      }
      if Installs(src.byGlobal) {
        SelfTestIff(p, Try(p, d, src.byPassword, src.readable).device, src.byGlobal, src.readable);
      }
    }
  }

  lemma StepProtects(p: Platform, d: Device, e: Event, floor: int)
    requires Sane(p) && Protected(d, floor) && Sound(p, e)
    ensures var took := Took(p, d, e);
            if took == [] then Protected(Next(p, d, e), floor)
            else took[0] > floor && |took| == 1 && Protected(Next(p, d, e), took[0])
  {
    match e
    case Check(code, step, track, saved) => VerifyExact(p, d, code, step, saved, Verify(p, d, code, step, true, saved).device.last);
    case Reload(src) => LoadProtects(p, d, src, floor);
    case _ =>
  }

  ghost predicate StrictlyIncreasing(s: seq<int>) {
    forall i, j :: 0 <= i < j < |s| ==> s[i] < s[j]
  }

  lemma Prepend(took: seq<int>, rest: seq<int>, floor: int)
    requires StrictlyIncreasing(rest) && |took| <= 1
    requires took == [] ==> forall c <- rest :: c > floor
    requires took != [] ==> took[0] > floor && forall c <- rest :: c > took[0]
    ensures StrictlyIncreasing(took + rest) && forall c <- took + rest :: c > floor
  {
    if took == [] {
      assert took + rest == rest;
    } else {
      forall i, j | 0 <= i < j < |took + rest| ensures (took + rest)[i] < (took + rest)[j] {
        assert (took + rest)[j] == rest[j - 1] && rest[j - 1] in rest;
      }
    }
  }

  /** Over checks, clock values in any order, reloads and restarts, accepted counters strictly
      increase and stay above every counter accepted before: no time step is accepted twice. */
  lemma {:induction false} AcceptedIncrease(p: Platform, d: Device, events: seq<Event>, floor: int)
    requires Sane(p) && Protected(d, floor) && forall e <- events :: Sound(p, e)
    ensures StrictlyIncreasing(Accepted(p, d, events))
    ensures forall c <- Accepted(p, d, events) :: c > floor
    decreases |events|
  {
    if events != [] {
      var took, next := Took(p, d, events[0]), Next(p, d, events[0]);
      assert events[0] in events;
      StepProtects(p, d, events[0], floor);
      var above := if took == [] then floor else took[0];
      AcceptedIncrease(p, next, events[1..], above);
      var rest := Accepted(p, next, events[1..]);
      assert Accepted(p, d, events) == took + rest;
      Prepend(took, rest, floor);
    }
  }

  /** A code accepted once is accepted again, after a restart and a load of the same secret, if and only if
      its counter write had failed or the load was not a safe one. */
  lemma ReplayIff(p: Platform, d: Device, code: string, step: int, saved: bool, src: Source)
    requires Sane(p) && d.secret.Some? && d.wired && StoredCounter(d.row, true) <= d.last && -1 <= d.last
    requires Verify(p, d, code, step, true, saved).result == Ok(true)
    requires Load(p, Restarted(Verify(p, d, code, step, true, saved).device), src).device.secret == d.secret
    ensures var first := Verify(p, d, code, step, true, saved).device;
            var second := Verify(p, Load(p, Restarted(first), src).device, code, step, true, true);
            (second.result == Ok(true) <==> !saved || !SafeLoad(p, src))
            && (second.result == Ok(true) ==> second.device.last == first.last)
  {
    var first := Verify(p, d, code, step, true, saved).device;
    var back := Load(p, Restarted(first), src).device;
    LoadedCounter(p, Restarted(first), src);
    LoadSucceeds(p, Restarted(first), src);
    assert back.last == if SafeLoad(p, src) then Max(-1, StoredCounter(first.row, true)) else -1;
  }

  function Max(a: int, b: int): int {
    if a < b then b else a
  }

  /** Some secret the load finds is long enough to be installed. */
  predicate InstallsAny(src: Source) {
    match src
    case Stored(a, b, _) => Installs(a) || Installs(b)
    case Legacy(global, _) => |global| >= 20
  }

  /** A successful load restores the stored counter. One that fails leaves the counter at -1 if it installed a
      secret on the way, and changes nothing otherwise. */
  lemma LoadedCounter(p: Platform, d: Device, src: Source)
    ensures var r := Load(p, d, src);
            r.device.row == d.row
            && (r.ok ==> r.device.wired && r.device.secret.Some?
                         && r.device.last == Max(-1, StoredCounter(d.row, src.readable)))
            && (!r.ok && InstallsAny(src) ==> r.device.last == -1 && r.device.secret.Some? && r.device.wired == d.wired)
            && (!InstallsAny(src) ==> !r.ok && r.device == d)
  {
  }

  // ---- The object -----------------------------------------------------------------------------

  /** The settings table's counter row, shared by every service object of the process. */
  class Settings {
    var counter: CounterRow

    constructor (row: CounterRow)
      ensures counter == row
    {
      counter := row;
    }
  }

  class TotpService {
    const settings: Settings
    var secret: Option<Bytes>
    var lastCounter: int
    var wired: bool

    function State(): Device
      reads this, settings
    {
      Device(secret, lastCounter, wired, settings.counter)
    }

    constructor (settings: Settings)
      ensures this.settings == settings
      ensures State() == Restarted(State()) && settings.counter == old(settings.counter)
    {
      this.settings := settings;
      secret, lastCounter, wired := None, -1, false;
    }

    method SetSecret(bytes: Bytes) returns (r: Result<()>)
      modifies this
      ensures match Install(old(State()), bytes)
              case Ok(installed) => r == Ok(()) && State() == installed
              case Err(e) => r == Err(e) && State() == old(State())
      ensures r.Ok? <==> |bytes| >= 20
      ensures r.Ok? ==> secret == Some(bytes[..20]) && lastCounter == -1 && wired == old(wired)
      ensures settings.counter == old(settings.counter)
    {
      if |bytes| < 20 {
        return Err(SecretTooShort);
      }
      secret, lastCounter := Some(bytes[..20]), -1;
      return Ok(());
    }

    method SetCounterPersistence(initial: int)
      modifies this
      ensures secret == old(secret) && wired && settings.counter == old(settings.counter)
      ensures lastCounter == Max(old(lastCounter), initial)
    {
      wired := true;
      if initial > lastCounter {
        lastCounter := initial;
      }
    }

    method WireReplayCounter(readable: bool)
      modifies this
      ensures State() == WireCounter(old(State()), readable)
    {
      var initial := if readable && settings.counter.Counter? then settings.counter.value else -1;
      SetCounterPersistence(initial);
    }

    /** The drift loop: the first matching counter decides, and only acceptance changes anything. */
    method VerifyStep(p: Platform, code: string, base: int, track: bool, saved: bool) returns (r: Result<bool>)
      modifies this, settings
      ensures State() == Verify(p, old(State()), code, base, track, saved).device
      ensures r == Verify(p, old(State()), code, base, track, saved).result
    {
      if secret.None? {
        return Err(SecretNotSet);
      }
      var text := Strip(p, code);
      if !WellFormed(p, text) {
        return Ok(false);
      }
      var offset := -1;
      while offset < 2
        invariant -1 <= offset <= 2
        invariant State() == old(State())
        invariant FirstMatch(p, secret.value, text, base - 1, base + 1) ==
                  FirstMatch(p, secret.value, text, base + offset, base + 1)
      {
        var candidate := base + offset;
        var m := Matches(p, secret.value, text, candidate);
        if m.Err? {
          return Err(m.error);
        }
        if m.value {
          if !track {
            return Ok(true);
          }
          if candidate <= lastCounter {
            return Ok(false);
          }
          lastCounter := candidate;
          if wired && saved {
            settings.counter := Counter(candidate);
          }
          return Ok(true);
        }
        offset := offset + 1;
      }
      return Ok(false);
    }

    method VerifyCode(p: Platform, code: string, t: real, track: bool, saved: bool) returns (r: Result<bool>)
      modifies this, settings
      ensures State() == Verify(p, old(State()), code, Step(t), track, saved).device
      ensures r == Verify(p, old(State()), code, Step(t), track, saved).result
    {
      r := VerifyStep(p, code, Step(t), track, saved);
    }

    /** One decryption strategy: install the secret, test it untracked, then restore the counter. */
    method TryCandidate(p: Platform, c: Candidate, readable: bool) returns (ok: bool)
      modifies this, settings
      ensures Loaded(State(), ok) == Try(p, old(State()), c, readable)
    {
      if c.secret.None? {
        return false;
      }
      var installed := SetSecret(c.secret.value);
      if installed.Err? {
        return false;
      }
      var code := Generate(p, State(), c.made);
      if code.Err? {
        return false;
      }
      ghost var before := State();
      var passed := VerifyStep(p, code.value, c.checked, false, false);
      assert State() == before;
      if passed != Ok(true) {
        return false;
      }
      WireReplayCounter(readable);
      return true;
    }

    method LoadSecret(p: Platform, src: Source) returns (ok: bool)
      modifies this, settings
      ensures Loaded(State(), ok) == Load(p, old(State()), src)
    {
      match src {
        case Stored(byPassword, byGlobal, readable) =>
          ok := TryCandidate(p, byPassword, readable);
          if !ok {
            ok := TryCandidate(p, byGlobal, readable);
          }
        case Legacy(global, readable) =>
          var installed := SetSecret(global);
          ok := installed.Ok?;
          if ok {
            WireReplayCounter(readable);
          }
      }
    }
  }
}
