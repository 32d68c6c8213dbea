/** Padded base64 (section 4 of RFC 4648) as Go's `base64.StdEncoding` reads and writes it.
    The challenge store keys its entries by the encoding of the random bytes, and the
    enrolment handler re-encodes the attested bytes before it looks them up. */
module Base64 {
  import opened Prelude

  function Digit(v: int): (c: char)
    requires 0 <= v < 64
  {
    if v < 26 then ('A' as int + v) as char
    else if v < 52 then ('a' as int + (v - 26)) as char
    else if v < 62 then ('0' as int + (v - 52)) as char
    else if v == 62 then '+'
    else '/'
  }

  function Value(c: char): Option<int> {
    if 'A' <= c <= 'Z' then Some(c as int - 'A' as int)
    else if 'a' <= c <= 'z' then Some(c as int - 'a' as int + 26)
    else if '0' <= c <= '9' then Some(c as int - '0' as int + 52)
    else if c == '+' then Some(62)
    else if c == '/' then Some(63)
    else None
  }

  function EncodeToString(b: bytes): string {
    if |b| == 0 then ""
    else if |b| == 1 then [Digit(b[0] / 4), Digit(b[0] % 4 * 16), '=', '=']
    else if |b| == 2 then
      [Digit(b[0] / 4), Digit(b[0] % 4 * 16 + b[1] / 16), Digit(b[1] % 16 * 4), '=']
    else Quantum(b[0], b[1], b[2]) + EncodeToString(b[3..])
  }

  function Quantum(x: byte, y: byte, z: byte): string {
    [Digit(x / 4), Digit(x % 4 * 16 + y / 16), Digit(y % 16 * 4 + z / 64), Digit(z % 64)]
  }

  /** Go's decoder skips line breaks wherever they occur. */
  function WithoutLineBreaks(s: string): string {
    if |s| == 0 then ""
    else if s[0] == '\n' || s[0] == '\r' then WithoutLineBreaks(s[1..])
    else [s[0]] + WithoutLineBreaks(s[1..])
  }

  function DecodeString(s: string): Option<bytes> {
    DecodeQuanta(WithoutLineBreaks(s))
  }

  /** Padding may only close the input; the unused low bits before it are not looked at. */
  function DecodeQuanta(s: string): Option<bytes> {
    if |s| == 0 then Some([])
    else if |s| < 4 then None
    else
      var v0, v1, v2, v3 := Value(s[0]), Value(s[1]), Value(s[2]), Value(s[3]);
      if v0.None? || v1.None? then None
      else if s[2] == '=' && s[3] == '=' && |s| == 4 then
        Some([First(v0.value, v1.value)])
      else if v2.None? then None
      else if s[3] == '=' && |s| == 4 then
        Some([First(v0.value, v1.value), Second(v1.value, v2.value)])
      else if v3.None? then None
      else
        match DecodeQuanta(s[4..])
        case None => None
        case Some(rest) =>
          Some([First(v0.value, v1.value), Second(v1.value, v2.value), Third(v2.value, v3.value)] + rest)
  }

  function First(v0: int, v1: int): byte { (v0 * 4 + v1 / 16) % 256 }

  function Second(v1: int, v2: int): byte { (v1 % 16 * 16 + v2 / 4) % 256 }

  function Third(v2: int, v3: int): byte { (v2 % 4 * 64 + v3) % 256 }

  lemma DigitValue(v: int)
    requires 0 <= v < 64
    ensures Value(Digit(v)) == Some(v)
    ensures Digit(v) != '=' && Digit(v) != '\n' && Digit(v) != '\r'
  {
  }

  lemma {:induction false} EncodingHasNoLineBreaks(b: bytes)
    ensures WithoutLineBreaks(EncodeToString(b)) == EncodeToString(b)
  {
    if |b| >= 3 {
      EncodingHasNoLineBreaks(b[3..]);
      NoBreaksInFront(Quantum(b[0], b[1], b[2]), EncodeToString(b[3..]));
    } else {
      NoBreaksInFront(EncodeToString(b), "");
      assert EncodeToString(b) + "" == EncodeToString(b);
    }
  }

  lemma {:induction false} NoBreaksInFront(s: string, t: string)
    requires forall i :: 0 <= i < |s| ==> s[i] != '\n' && s[i] != '\r'
    ensures WithoutLineBreaks(s + t) == s + WithoutLineBreaks(t)
  {
    if |s| == 0 {
      assert s + t == t;
    } else {
      NoBreaksInFront(s[1..], t);
      assert (s + t)[1..] == s[1..] + t;
    }
  }

  /** The decoder reads a full quantum back, whatever follows it. */
  lemma QuantumDecodes(x: byte, y: byte, z: byte, rest: string)
    ensures DecodeQuanta(Quantum(x, y, z) + rest) ==
            match DecodeQuanta(rest) case None => None case Some(b) => Some([x, y, z] + b)
  {
    var s := Quantum(x, y, z) + rest;
    DigitValue(x / 4);
    DigitValue(x % 4 * 16 + y / 16);
    DigitValue(y % 16 * 4 + z / 64);
    DigitValue(z % 64);
    assert s[4..] == rest;
    FirstBack(x, y / 16);
    SecondBack(x % 4, y, z / 64);
    ThirdBack(y % 16, z);
  }

  lemma FirstBack(x: byte, low: int)
    requires 0 <= low < 16
    ensures First(x / 4, x % 4 * 16 + low) == x
  {
    assert (x % 4 * 16 + low) / 16 == x % 4;
  }

  lemma SecondBack(high: int, y: byte, low: int)
    requires 0 <= high < 4 && 0 <= low < 4
    ensures Second(high * 16 + y / 16, y % 16 * 4 + low) == y
  {
    assert (high * 16 + y / 16) % 16 == y / 16;
    assert (y % 16 * 4 + low) / 4 == y % 16;
  }

  lemma ThirdBack(high: int, z: byte)
    requires 0 <= high < 16
    ensures Third(high * 4 + z / 64, z % 64) == z
  {
    assert (high * 4 + z / 64) % 4 == z / 64;
  }

  /** Decoding undoes encoding, for every byte string. */
  lemma RoundTrip(b: bytes)
    ensures DecodeString(EncodeToString(b)) == Some(b)
  {
    EncodingHasNoLineBreaks(b);
    FilledReads(EncodeToString(b), b);
  }

  /** Two byte strings share an encoding only when they are the same bytes. */
  lemma EncodingInjective(a: bytes, b: bytes)
    ensures EncodeToString(a) == EncodeToString(b) <==> a == b
  {
    RoundTrip(a);
    RoundTrip(b);
  }

  /** The key the handler re-encodes from the attested bytes names a store entry exactly
      when the attested bytes are bytes that were issued. */
  lemma KeyHitsExactlyIssuedBytes(issued: set<bytes>, keys: set<string>, attested: bytes)
    requires keys == set b | b in issued :: EncodeToString(b)
    ensures EncodeToString(attested) in keys <==> attested in issued
  {
    if EncodeToString(attested) in keys {
      var b :| b in issued && EncodeToString(b) == EncodeToString(attested);
      EncodingInjective(attested, b);
    }
  }

  // ---------------------------------------------------------- the encoding itself

  /** The alphabet of section 4 of RFC 4648: A to Z, a to z, 0 to 9, plus and slash. */
  lemma AlphabetInOrder()
    ensures Digit(0) == 'A' && Digit(26) == 'a' && Digit(52) == '0' && Digit(62) == '+' && Digit(63) == '/'
    ensures forall v :: 0 <= v < 25 || 26 <= v < 51 || 52 <= v < 61 ==> Digit(v + 1) as int == Digit(v) as int + 1
  {
  }

  /** Three bytes as one number of 24 bits. */
  function Bits(x: byte, y: byte, z: byte): int {
    x * 0x1_0000 + y * 0x100 + z
  }

  /** Byte `i`, or zero behind the end. */
  function ByteAt(b: bytes, i: nat): byte {
    if i < |b| then b[i] else 0
  }

  /** The four digits from `k` on stand for the three bytes from `i` on. */
  ghost predicate GroupEncoded(b: bytes, s: string, i: nat, k: nat) {
    var n := Bits(ByteAt(b, i), ByteAt(b, i + 1), ByteAt(b, i + 2));
    && k + 4 <= |s| && s[k] == Digit(n / 0x4_0000) && s[k + 1] == Digit(n / 0x1000 % 64)
    && s[k + 2] == (if i + 1 < |b| then Digit(n / 64 % 64) else '=')
    && s[k + 3] == (if i + 2 < |b| then Digit(n % 64) else '=')
  }

  /** Every group of three bytes becomes four digits, the 24 bits from the most significant down; one
      or two bytes that are left over are filled up with zero bits and padded. */
  lemma {:induction false} EncodesBits(b: bytes, g: nat)
    requires 3 * g < |b|
    ensures GroupEncoded(b, EncodeToString(b), 3 * g, 4 * g)
  {
    if g == 0 {
      GroupBits(b[0], ByteAt(b, 1), ByteAt(b, 2));
      FirstFour(b);
    } else {
      EncodesBits(b[3..], g - 1);
      ShiftedGroup(b, Quantum(b[0], b[1], b[2]), EncodeToString(b[3..]), 3 * (g - 1), 4 * (g - 1));
    }
  }

  lemma ShiftedGroup(b: bytes, q: string, s: string, i: nat, k: nat)
    requires |b| >= 3 && |q| == 4 && GroupEncoded(b[3..], s, i, k)
    ensures GroupEncoded(b, q + s, i + 3, k + 4)
  {
    var rest, t := b[3..], q + s;
    assert ByteAt(rest, i) == ByteAt(b, i + 3) && ByteAt(rest, i + 1) == ByteAt(b, i + 4);
    assert ByteAt(rest, i + 2) == ByteAt(b, i + 5);
    assert t[k + 4] == s[k] && t[k + 5] == s[k + 1] && t[k + 6] == s[k + 2] && t[k + 7] == s[k + 3];
  }

  lemma FirstFour(b: bytes)
    requires |b| > 0
    ensures var s := EncodeToString(b);
            && |s| >= 4 && s[0] == Digit(b[0] / 4) && s[1] == Digit(b[0] % 4 * 16 + ByteAt(b, 1) / 16)
            && s[2] == (if |b| > 1 then Digit(ByteAt(b, 1) % 16 * 4 + ByteAt(b, 2) / 64) else '=')
            && s[3] == (if |b| > 2 then Digit(ByteAt(b, 2) % 64) else '=')
  {
  }

  lemma {:induction false} EncodedLength(b: bytes)
    ensures |EncodeToString(b)| == (|b| + 2) / 3 * 4
  {
    if |b| >= 3 {
      EncodedLength(b[3..]);
      assert EncodeToString(b) == Quantum(b[0], b[1], b[2]) + EncodeToString(b[3..]);
      assert |b[3..]| == |b| - 3 && (|b| - 3 + 2) / 3 + 1 == (|b| + 2) / 3;
    } else if |b| > 0 {
      assert |EncodeToString(b)| == 4 && (|b| + 2) / 3 == 1;
    }
  }

  lemma GroupBits(x: byte, y: byte, z: byte)
    ensures var n := Bits(x, y, z);
            && n / 0x4_0000 == x / 4 && n / 0x1000 % 64 == x % 4 * 16 + y / 16
            && n / 64 % 64 == y % 16 * 4 + z / 64 && n % 64 == z % 64
  {
    var n, d0, d1 := Bits(x, y, z), x / 4, x % 4 * 16 + y / 16;
    var d2, d3 := y % 16 * 4 + z / 64, z % 64;
    assert x == 4 * d0 + x % 4 && y == 16 * (y / 16) + y % 16 && z == 64 * (z / 64) + d3;
    FourDigits(n, d0, d1, d2, d3);
  }

  lemma FourDigits(n: int, d0: int, d1: int, d2: int, d3: int)
    requires 0 <= d0 < 64 && 0 <= d1 < 64 && 0 <= d2 < 64 && 0 <= d3 < 64
    requires n == d0 * 0x4_0000 + d1 * 0x1000 + d2 * 64 + d3
    ensures n / 0x4_0000 == d0 && n / 0x1000 % 64 == d1 && n / 64 % 64 == d2 && n % 64 == d3
  {
    assert n / 64 == d0 * 4096 + d1 * 64 + d2;
    assert n / 0x1000 == d0 * 64 + d1;
  }

  /** A line break is skipped wherever it stands. */
  lemma {:induction false} LineBreaksIgnored(s: string, c: char, t: string)
    requires c == '\n' || c == '\r'
    ensures DecodeString(s + [c] + t) == DecodeString(s + t)
    ensures WithoutLineBreaks(s + [c] + t) == WithoutLineBreaks(s + t)
  {
    if |s| == 0 {
      assert s + [c] + t == [c] + t && ([c] + t)[1..] == t && s + t == t;
    } else {
      assert (s + [c] + t)[1..] == s[1..] + [c] + t && (s + t)[1..] == s[1..] + t;
      LineBreaksIgnored(s[1..], c, t);
    }
  }

  /** Two texts agree up to the bits that padding leaves unused: all their characters are equal, save
      that before two padding characters only the upper two bits of the last digit count, and before
      one only the upper four. */
  ghost predicate SameUsedBits(s: string, t: string) {
    && |s| == |t|
    && forall i :: 0 <= i < |s| ==> s[i] == t[i] || SameUsedDigit(s, t, i)
  }

  predicate SameUsedDigit(s: string, t: string, i: int)
    requires 0 <= i < |s| == |t|
  {
    && Value(s[i]).Some? && Value(t[i]).Some?
    && ((i + 3 == |s| && s[i + 1] == t[i + 1] == '=' && s[i + 2] == t[i + 2] == '='
         && Value(s[i]).value / 16 == Value(t[i]).value / 16)
        || (i + 2 == |s| && s[i + 1] == t[i + 1] == '=' && Value(s[i]).value / 4 == Value(t[i]).value / 4))
  }

  lemma DigitOfValue(c: char)
    requires Value(c).Some?
    ensures 0 <= Value(c).value < 64 && Digit(Value(c).value) == c && c != '='
  {
  }

  /** What is decoded has the text as its encoding, up to unused bits. */
  lemma {:induction false} DecodedReads(t: string)
    requires DecodeQuanta(t).Some?
    ensures SameUsedBits(t, EncodeToString(DecodeQuanta(t).value))
    decreases |t|
  {
    if |t| > 0 {
      var b := DecodeQuanta(t).value;
      if t[2] == '=' && t[3] == '=' && |t| == 4 {
        OneByteRead(t);
      } else if t[3] == '=' && |t| == 4 {
        TwoBytesRead(t);
      } else {
        DecodedReads(t[4..]);
        QuantumRead(t);
        assert b[3..] == DecodeQuanta(t[4..]).value;
        SameBehindQuantum(t, EncodeToString(b));
      }
    }
  }

  lemma OneByteRead(t: string)
    requires |t| == 4 && t[2] == '=' && t[3] == '=' && Value(t[0]).Some? && Value(t[1]).Some?
    ensures SameUsedBits(t, EncodeToString([First(Value(t[0]).value, Value(t[1]).value)]))
  {
    var v0, v1 := Value(t[0]).value, Value(t[1]).value;
    DigitOfValue(t[0]);
    DigitOfValue(t[1]);
    var x := First(v0, v1);
    ByteParts(v0, v1);
    DigitValue(x % 4 * 16);
    assert EncodeToString([x]) == [t[0], Digit(x % 4 * 16), '=', '='];
  }

  lemma TwoBytesRead(t: string)
    requires |t| == 4 && t[3] == '=' && Value(t[0]).Some? && Value(t[1]).Some? && Value(t[2]).Some?
    ensures var v0, v1, v2 := Value(t[0]).value, Value(t[1]).value, Value(t[2]).value;
            SameUsedBits(t, EncodeToString([First(v0, v1), Second(v1, v2)]))
  {
    var v0, v1, v2 := Value(t[0]).value, Value(t[1]).value, Value(t[2]).value;
    DigitOfValue(t[0]);
    DigitOfValue(t[1]);
    DigitOfValue(t[2]);
    var x, y := First(v0, v1), Second(v1, v2);
    ByteParts(v0, v1);
    NibbleParts(v1, v2);
    assert x % 4 * 16 + y / 16 == v1;
    assert v2 / 4 == y % 16 * 4 / 4;
    DigitValue(y % 16 * 4);
    assert EncodeToString([x, y]) == [t[0], t[1], Digit(y % 16 * 4), '='];
  }

  lemma QuantumRead(t: string)
    requires |t| >= 4 && Value(t[0]).Some? && Value(t[1]).Some? && Value(t[2]).Some? && Value(t[3]).Some?
    ensures var v0, v1, v2, v3 := Value(t[0]).value, Value(t[1]).value, Value(t[2]).value, Value(t[3]).value;
            Quantum(First(v0, v1), Second(v1, v2), Third(v2, v3)) == t[..4]
  {
    var v0, v1, v2, v3 := Value(t[0]).value, Value(t[1]).value, Value(t[2]).value, Value(t[3]).value;
    DigitOfValue(t[0]);
    DigitOfValue(t[1]);
    DigitOfValue(t[2]);
    DigitOfValue(t[3]);
    ByteParts(v0, v1);
    NibbleParts(v1, v2);
    SextetParts(v2, v3);
    BytesOfSextets(First(v0, v1), Second(v1, v2), Third(v2, v3), v0, v1, v2, v3);
  }

  lemma SextetParts(v2: int, v3: int)
    requires 0 <= v2 < 64 && 0 <= v3 < 64
    ensures Third(v2, v3) / 64 == v2 % 4 && Third(v2, v3) % 64 == v3
  {
  }

  lemma BytesOfSextets(x: byte, y: byte, z: byte, v0: int, v1: int, v2: int, v3: int)
    requires 0 <= v0 < 64 && 0 <= v1 < 64 && 0 <= v2 < 64 && 0 <= v3 < 64
    requires x / 4 == v0 && x % 4 == v1 / 16 && y / 16 == v1 % 16
    requires y % 16 == v2 / 4 && z / 64 == v2 % 4 && z % 64 == v3
    ensures Quantum(x, y, z) == [Digit(v0), Digit(v1), Digit(v2), Digit(v3)]
  {
  }

  lemma ByteParts(v0: int, v1: int)
    requires 0 <= v0 < 64 && 0 <= v1 < 64
    ensures First(v0, v1) / 4 == v0 && First(v0, v1) % 4 == v1 / 16
  {
  }

  lemma NibbleParts(v1: int, v2: int)
    requires 0 <= v1 < 64 && 0 <= v2 < 64
    ensures Second(v1, v2) / 16 == v1 % 16 && Second(v1, v2) % 16 == v2 / 4
  {
  }

  lemma SameBehindQuantum(t: string, s: string)
    requires |t| >= 4 && |s| >= 4
    ensures t[..4] == s[..4] && SameUsedBits(t[4..], s[4..]) ==> SameUsedBits(t, s)
  {
    if t[..4] == s[..4] && SameUsedBits(t[4..], s[4..]) {
      assert |t| == |s|;
      forall i | 0 <= i < |t|
        ensures t[i] == s[i] || SameUsedDigit(t, s, i)
      {
        if i < 4 {
          assert t[..4][i] == s[..4][i];
        } else {
          assert t[4..][i - 4] == s[4..][i - 4] || SameUsedDigit(t[4..], s[4..], i - 4);
        }
      }
    }
  }

  lemma OneByteFilled(t: string, x: byte)
    requires SameUsedBits(t, EncodeToString([x]))
    ensures DecodeQuanta(t) == Some([x])
  {
    var s := EncodeToString([x]);
    assert s == [Digit(x / 4), Digit(x % 4 * 16), '=', '='];
    DigitValue(x / 4);
    DigitValue(x % 4 * 16);
    assert t[0] == s[0] && t[2] == '=' && t[3] == '=';
    assert Value(t[1]).Some? && Value(t[1]).value / 16 == x % 4;
    DigitOfValue(t[1]);
    FirstFilled(x, Value(t[1]).value);
  }

  lemma FirstFilled(x: byte, v: int)
    requires 0 <= v && v / 16 == x % 4
    ensures First(x / 4, v) == x
  {
  }

  lemma TwoBytesFilled(t: string, x: byte, y: byte)
    requires SameUsedBits(t, EncodeToString([x, y]))
    ensures DecodeQuanta(t) == Some([x, y])
  {
    var s := EncodeToString([x, y]);
    var v1 := x % 4 * 16 + y / 16;
    assert s == [Digit(x / 4), Digit(v1), Digit(y % 16 * 4), '='];
    DigitValue(x / 4);
    DigitValue(v1);
    DigitValue(y % 16 * 4);
    assert t[0] == s[0] && t[1] == s[1] && t[3] == '=';
    assert Value(t[2]).Some? && Value(t[2]).value / 4 == y % 16;
    DigitOfValue(t[2]);
    FirstBack(x, y / 16);
    SecondFilled(x % 4, y, Value(t[2]).value);
  }

  lemma SecondFilled(high: int, y: byte, v: int)
    requires 0 <= high < 4 && 0 <= v && v / 4 == y % 16
    ensures Second(high * 16 + y / 16, v) == y
  {
    assert (high * 16 + y / 16) % 16 == y / 16;
  }

  lemma FullQuantumSame(t: string, x: byte, y: byte, z: byte, rest: string)
    requires SameUsedBits(t, Quantum(x, y, z) + rest) && (rest == "" || |rest| >= 4)
    ensures |t| >= 4 && t == Quantum(x, y, z) + t[4..] && SameUsedBits(t[4..], rest)
  {
    var s := Quantum(x, y, z) + rest;
    DigitValue(x / 4);
    DigitValue(x % 4 * 16 + y / 16);
    DigitValue(y % 16 * 4 + z / 64);
    DigitValue(z % 64);
    assert s[4..] == rest && t[0] == s[0] && t[1] == s[1] && t[2] == s[2] && t[3] == s[3];
    forall i | 0 <= i < |t| - 4
      ensures t[4..][i] == rest[i] || SameUsedDigit(t[4..], rest, i)
    {
      assert t[i + 4] == s[i + 4] || SameUsedDigit(t, s, i + 4);
    }
  }

  /** Whatever fills the unused bits, the bytes are read back. */
  lemma {:induction false} FilledReads(t: string, b: bytes)
    requires SameUsedBits(t, EncodeToString(b))
    ensures DecodeQuanta(t) == Some(b)
  {
    if |b| == 1 {
      assert b == [b[0]];
      OneByteFilled(t, b[0]);
    } else if |b| == 2 {
      assert b == [b[0], b[1]];
      TwoBytesFilled(t, b[0], b[1]);
    } else if |b| >= 3 {
      var rest := b[3..];
      if |rest| > 0 {
        FirstFour(rest);
      }
      FullQuantumSame(t, b[0], b[1], b[2], EncodeToString(rest));
      FilledReads(t[4..], rest);
      QuantumBehind(t, t[4..], b[0], b[1], b[2], rest);
      assert b == [b[0], b[1], b[2]] + rest;
    }
  }

  lemma QuantumBehind(t: string, u: string, x: byte, y: byte, z: byte, rest: bytes)
    requires t == Quantum(x, y, z) + u && DecodeQuanta(u) == Some(rest)
    ensures DecodeQuanta(t) == Some([x, y, z] + rest)
  {
    QuantumDecodes(x, y, z, u);
  }

  /** A text is decoded to `b` exactly when, line breaks aside, it is the encoding of `b` up to the bits
      that padding leaves unused. */
  lemma DecodesExactly(s: string, b: bytes)
    ensures DecodeString(s) == Some(b) <==> SameUsedBits(WithoutLineBreaks(s), EncodeToString(b))
  {
    if DecodeString(s) == Some(b) {
      DecodedReads(WithoutLineBreaks(s));
    }
    if SameUsedBits(WithoutLineBreaks(s), EncodeToString(b)) {
      FilledReads(WithoutLineBreaks(s), b);
    }
  }
}
