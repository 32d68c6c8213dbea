/** The tag-length-value layer of DER that the attestation verifier reads: what Go's
    `encoding/asn1` accepts when it decodes a SEQUENCE into raw values and an INTEGER into
    an int, and the DER printer of ITU-T X.690 (sections 8.1.2.4, 8.1.3, 8.3 and 10.1). */
module Der {
  import opened Prelude

  const MAX_INT32 := 0x7fff_ffff
  const MAX_LENGTH := 0x8000_0000
  const MIN_INT64 := -0x8000_0000_0000_0000
  const MAX_INT64 := 0x7fff_ffff_ffff_ffff

  const UNIVERSAL := 0
  const CONTEXT_SPECIFIC := 2
  const TAG_INTEGER := 2
  const TAG_SEQUENCE := 16

  datatype DerError =
    | Truncated
    | TagTooLarge
    | TagNotMinimal
    | IndefiniteLength
    | LengthTooLarge
    | LengthNotMinimal
    | TagMismatch
    | EmptyInteger
    | IntegerNotMinimal
    | IntegerTooLarge

  datatype Header = Header(cls: int, tag: int, compound: bool, length: int)

  /** Go's asn1.RawValue without FullBytes. */
  datatype RawValue = RawValue(cls: int, tag: int, compound: bool, content: bytes)

  // ---------------------------------------------------------------- reading

  /** A base-128 number, most significant group first, and the bytes after it. */
  function ParseBase128(b: bytes, acc: nat, shifted: nat): Result<(nat, bytes), DerError>
    decreases |b|
  {
    if |b| == 0 then Err(Truncated)
    else if shifted == 5 then Err(TagTooLarge)
    else if shifted == 0 && b[0] == 0x80 then Err(TagNotMinimal)
    else
      var acc' := acc * 128 + b[0] % 128;
      if b[0] >= 128 then ParseBase128(b[1..], acc', shifted + 1)
      else if acc' > MAX_INT32 then Err(TagTooLarge)
      else Ok((acc', b[1..]))
  }

  /** The `count` bytes of a long-form length, and the bytes after them. */
  function ParseLongLength(b: bytes, count: nat, acc: nat): Result<(nat, bytes), DerError> {
    if count == 0 then
      if acc < 0x80 then Err(LengthNotMinimal) else Ok((acc, b))
    else if |b| == 0 then Err(Truncated)
    else if acc >= 0x80_0000 then Err(LengthTooLarge)
    else
      var acc' := acc * 256 + b[0];
      if acc' == 0 then Err(LengthNotMinimal) else ParseLongLength(b[1..], count - 1, acc')
  }

  function ParseLength(b: bytes): Result<(nat, bytes), DerError> {
    if |b| == 0 then Err(Truncated)
    else if b[0] < 0x80 then Ok((b[0], b[1..]))
    else if b[0] == 0x80 then Err(IndefiniteLength)
    else ParseLongLength(b[1..], b[0] - 0x80, 0)
  }

  function ParseTag(b: bytes): Result<(nat, bytes), DerError>
    requires |b| > 0
  {
    if b[0] % 32 != 31 then Ok((b[0] % 32, b[1..]))
    else
      match ParseBase128(b[1..], 0, 0)
      case Err(e) => Err(e)
      case Ok((tag, rest)) => if tag < 31 then Err(TagNotMinimal) else Ok((tag, rest))
  }

  function ParseHeader(b: bytes): Result<(Header, bytes), DerError> {
    if |b| == 0 then Err(Truncated)
    else
      match ParseTag(b)
      case Err(e) => Err(e)
      case Ok((tag, rest)) =>
        match ParseLength(rest)
        case Err(e) => Err(e)
        case Ok((length, rest')) => Ok((Header(b[0] / 64, tag, b[0] / 32 % 2 == 1, length), rest'))
  }

  /** One element and the bytes after it. */
  function ParseElement(b: bytes): Result<(RawValue, bytes), DerError> {
    match ParseHeader(b)
    case Err(e) => Err(e)
    case Ok((h, rest)) =>
      if h.length > |rest| then Err(Truncated)
      else Ok((RawValue(h.cls, h.tag, h.compound, rest[..h.length]), rest[h.length..]))
  }

  lemma ParseBase128Shrinks(b: bytes, acc: nat, shifted: nat)
    ensures ParseBase128(b, acc, shifted).Ok? ==> |ParseBase128(b, acc, shifted).value.1| < |b|
    decreases |b|
  {
  }

  lemma ParseLongLengthShrinks(b: bytes, count: nat, acc: nat)
    ensures ParseLongLength(b, count, acc).Ok? ==> |ParseLongLength(b, count, acc).value.1| <= |b|
  {
  }

  lemma ParseElementShrinks(b: bytes)
    ensures ParseElement(b).Ok? ==> |ParseElement(b).value.1| < |b|
  {
    if |b| > 0 {
      ParseBase128Shrinks(b[1..], 0, 0);
      var t := ParseTag(b);
      if t.Ok? && |t.value.1| > 0 {
        var rest := t.value.1;
        ParseLongLengthShrinks(rest[1..], if rest[0] > 0x80 then rest[0] - 0x80 else 0, 0);
      }
    }
  }

  /** The elements of a constructed encoding's content. */
  function ParseElements(b: bytes): Result<seq<RawValue>, DerError>
    decreases |b|
  {
    if |b| == 0 then Ok([])
    else
      match ParseElement(b)
      case Err(e) => Err(e)
      case Ok((item, rest)) =>
        ParseElementShrinks(b);
        match ParseElements(rest)
        case Err(e) => Err(e)
        case Ok(items) => Ok([item] + items)
  }

  /** asn1.Unmarshal into []asn1.RawValue; bytes after the SEQUENCE are ignored. */
  function UnmarshalRawValues(b: bytes): Result<seq<RawValue>, DerError> {
    match ParseElement(b)
    case Err(e) => Err(e)
    case Ok((item, _)) =>
      if item.cls != UNIVERSAL || item.tag != TAG_SEQUENCE || !item.compound then Err(TagMismatch)
      else ParseElements(item.content)
  }

  /** Base-256 value of the bytes after `acc`. */
  function Unsigned(b: bytes, acc: int): int {
    if |b| == 0 then acc else Unsigned(b[1..], acc * 256 + b[0])
  }

  function SignedByte(x: byte): int {
    var v: int := x;
    if v < 128 then v else v - 256
  }

  /** Two's-complement value. */
  function Signed(b: bytes): int
    requires |b| > 0
  {
    Unsigned(b[1..], SignedByte(b[0]))
  }

  function ParseInt64(b: bytes): Result<int, DerError> {
    if |b| == 0 then Err(EmptyInteger)
    else if |b| > 1 && ((b[0] == 0 && b[1] < 128) || (b[0] == 0xff && b[1] >= 128)) then Err(IntegerNotMinimal)
    else if |b| > 8 then Err(IntegerTooLarge)
    else Ok(Signed(b))
  }

  /** asn1.Unmarshal into a 64-bit int; bytes after the INTEGER are ignored. */
  function UnmarshalInt(b: bytes): Result<int, DerError> {
    match ParseElement(b)
    case Err(e) => Err(e)
    case Ok((item, _)) =>
      if item.cls != UNIVERSAL || item.tag != TAG_INTEGER || item.compound then Err(TagMismatch)
      else ParseInt64(item.content)
  }

  // --------------------------------------------------------------- printing

  /** Base-128 groups of `n`, each with its continuation bit set. */
  function Groups(n: nat): bytes {
    if n == 0 then [] else Groups(n / 128) + [128 + n % 128]
  }

  function Base256(n: nat): bytes {
    if n == 0 then [] else Base256(n / 256) + [n % 256]
  }

  function Lead(cls: int, compound: bool, low: int): byte
    requires 0 <= cls < 4 && 0 <= low < 32
  {
    cls * 64 + (if compound then 32 else 0) + low
  }

  function PrintTag(cls: int, compound: bool, tag: nat): bytes
    requires 0 <= cls < 4
  {
    if tag < 31 then [Lead(cls, compound, tag)]
    else [Lead(cls, compound, 31)] + Groups(tag / 128) + [tag % 128]
  }

  function PrintLength(n: nat): bytes
    requires |Base256(n)| < 127
  {
    if n < 128 then [n] else [128 + |Base256(n)|] + Base256(n)
  }

  ghost predicate Printable(e: RawValue) {
    0 <= e.cls < 4 && 0 <= e.tag <= MAX_INT32 && |e.content| < MAX_LENGTH
  }

  function PrintElement(e: RawValue): bytes
    requires Printable(e)
  {
    Base256Size(|e.content|);
    PrintTag(e.cls, e.compound, e.tag) + PrintLength(|e.content|) + e.content
  }

  function PrintElements(es: seq<RawValue>): bytes
    requires forall e :: e in es ==> Printable(e)
  {
    if |es| == 0 then [] else PrintElement(es[0]) + PrintElements(es[1..])
  }

  ghost predicate PrintableList(es: seq<RawValue>) {
    (forall e :: e in es ==> Printable(e)) && |PrintElements(es)| < MAX_LENGTH
  }

  /** A SEQUENCE of the elements: an authorization list. */
  function PrintList(es: seq<RawValue>): bytes
    requires PrintableList(es)
  {
    PrintElement(RawValue(UNIVERSAL, TAG_SEQUENCE, true, PrintElements(es)))
  }

  /** Minimal two's complement, most significant byte first. */
  function IntegerContent(v: int): bytes
    decreases if v < 0 then -v else v
  {
    if -128 <= v < 128 then [v % 256] else IntegerContent(v / 256) + [v % 256]
  }

  // ------------------------------------------------------------ round trips

  lemma {:induction false} GroupsSize(n: nat, k: nat, bound: nat)
    requires k <= 5 && bound == Pow128(k) && n < bound
    ensures |Groups(n)| <= k
  {
    if n > 0 {
      assert k > 0 && bound == 128 * Pow128(k - 1);
      assert n / 128 < Pow128(k - 1);
      GroupsSize(n / 128, k - 1, Pow128(k - 1));
      assert Groups(n) == Groups(n / 128) + [128 + n % 128];
    }
  }

  function Pow128(k: nat): nat {
    if k == 0 then 1 else 128 * Pow128(k - 1)
  }

  lemma {:induction false} DigitsSize(n: nat, k: nat, bound: nat)
    requires bound == Pow256(k) && n < bound
    ensures |Base256(n)| <= k
  {
    if n > 0 {
      assert k > 0 && bound == 256 * Pow256(k - 1);
      assert n / 256 < Pow256(k - 1);
      DigitsSize(n / 256, k - 1, Pow256(k - 1));
      assert Base256(n) == Base256(n / 256) + [n % 256];
    }
  }

  lemma Base256Size(n: nat)
    ensures n < MAX_LENGTH ==> |Base256(n)| <= 4
  {
    if n < MAX_LENGTH {
      assert Pow256(4) == 0x1_0000_0000 by { assert Pow256(2) == 0x1_0000; }
      DigitsSize(n, 4, Pow256(4));
    }
  }

  /** Reading the groups of `m` leaves `m` accumulated. */
  lemma {:induction false} GroupsParse(m: nat, t: bytes)
    requires 0 < m && |Groups(m)| <= 4
    ensures ParseBase128(Groups(m) + t, 0, 0) == ParseBase128(t, m, |Groups(m)|)
  {
    var tail := [128 + m % 128] + t;
    assert Groups(m) + t == Groups(m / 128) + tail;
    assert tail[1..] == t;
    if m / 128 == 0 {
      assert Groups(m / 128) + tail == tail;
    } else {
      GroupsParse(m / 128, tail);
    }
  }

  lemma LeadParses(cls: int, compound: bool, low: int)
    requires 0 <= cls < 4 && 0 <= low < 32
    ensures var x := Lead(cls, compound, low);
            x / 64 == cls && (x / 32 % 2 == 1) == compound && x % 32 == low
  {
  }

  /** The group without a continuation bit ends the number. */
  lemma LastGroupParses(tag: nat, t: bytes, shifted: nat)
    requires 31 <= tag <= MAX_INT32 && shifted <= 4
    ensures ParseBase128([tag % 128] + t, tag / 128, shifted) == Ok((tag, t))
  {
    assert ([tag % 128] + t)[1..] == t;
    assert tag / 128 * 128 + tag % 128 == tag;
  }

  lemma FourGroups(n: nat)
    requires n < 0x1000_0000
    ensures |Groups(n)| <= 4
  {
    assert Pow128(4) == 0x1000_0000 by { assert Pow128(2) == 0x4000; }
    GroupsSize(n, 4, Pow128(4));
  }

  lemma HighTagParses(tag: nat, t: bytes)
    requires 31 <= tag <= MAX_INT32
    ensures ParseBase128(Groups(tag / 128) + [tag % 128] + t, 0, 0) == Ok((tag, t))
  {
    var m := tag / 128;
    var last := [tag % 128] + t;
    assert Groups(m) + [tag % 128] + t == Groups(m) + last;
    FourGroups(m);
    if m == 0 {
      assert Groups(m) + last == last;
    } else {
      GroupsParse(m, last);
    }
    LastGroupParses(tag, t, |Groups(m)|);
  }

  lemma LowFormReads(lead: byte, t: bytes)
    requires lead % 32 != 31
    ensures ParseTag([lead] + t) == Ok((lead % 32, t))
  {
    assert ([lead] + t)[1..] == t;
  }

  lemma HighFormReads(lead: byte, tag: nat, t: bytes)
    requires lead % 32 == 31 && 31 <= tag <= MAX_INT32
    ensures ParseTag([lead] + (Groups(tag / 128) + [tag % 128] + t)) == Ok((tag, t))
  {
    HighTagParses(tag, t);
    assert ([lead] + (Groups(tag / 128) + [tag % 128] + t))[1..] == Groups(tag / 128) + [tag % 128] + t;
  }

  lemma TagParses(cls: int, compound: bool, tag: nat, t: bytes)
    requires 0 <= cls < 4 && tag <= MAX_INT32
    ensures var b := PrintTag(cls, compound, tag) + t;
            b[0] / 64 == cls && (b[0] / 32 % 2 == 1) == compound && ParseTag(b) == Ok((tag, t))
  {
    var lead := Lead(cls, compound, if tag < 31 then tag else 31);
    LeadParses(cls, compound, if tag < 31 then tag else 31);
    if tag < 31 {
      LowFormReads(lead, t);
    } else {
      HighFormReads(lead, tag, t);
      assert PrintTag(cls, compound, tag) + t == [lead] + (Groups(tag / 128) + [tag % 128] + t);
    }
  }

  /** Reading the base-256 digits of `m` leaves `m` accumulated, until it no longer fits. */
  lemma {:induction false} Base256Parse(m: nat, t: bytes, k: nat)
    requires 0 < m
    ensures ParseLongLength(Base256(m) + t, |Base256(m)| + k, 0) ==
            if m < MAX_LENGTH then ParseLongLength(t, k, m) else Err(LengthTooLarge)
  {
    var tail := [m % 256] + t;
    assert Base256(m) + t == Base256(m / 256) + tail;
    assert tail[1..] == t;
    if m / 256 == 0 {
      assert Base256(m / 256) + tail == tail;
    } else {
      Base256Parse(m / 256, tail, k + 1);
    }
  }

  lemma LongFormReads(digits: bytes, t: bytes)
    requires 0 < |digits| < 127
    ensures ParseLength([128 + |digits|] + digits + t) == ParseLongLength(digits + t, |digits|, 0)
  {
    var b := [128 + |digits|] + digits + t;
    assert b[1..] == digits + t;
  }

  /** A printed length is read back exactly when it is below 2^31. */
  lemma LengthParses(n: nat, t: bytes)
    requires |Base256(n)| < 127
    ensures ParseLength(PrintLength(n) + t) == if n < MAX_LENGTH then Ok((n, t)) else Err(LengthTooLarge)
  {
    var b := PrintLength(n) + t;
    if n < 128 {
      assert b[1..] == t;
    } else {
      var digits := Base256(n);
      assert |digits| > 0;
      LongFormReads(digits, t);
      assert b == [128 + |digits|] + digits + t;
      Base256Parse(n, t, 0);
    }
  }

  /** One printed element is read back with its class, tag and content, whatever follows. */
  lemma ElementRoundTrip(e: RawValue, t: bytes)
    requires Printable(e)
    ensures ParseElement(PrintElement(e) + t) == Ok((e, t))
  {
    Base256Size(|e.content|);
    var afterTag := PrintLength(|e.content|) + (e.content + t);
    assert PrintElement(e) + t == PrintTag(e.cls, e.compound, e.tag) + afterTag;
    TagParses(e.cls, e.compound, e.tag, afterTag);
    LengthParses(|e.content|, e.content + t);
    assert (e.content + t)[..|e.content|] == e.content;
    assert (e.content + t)[|e.content|..] == t;
  }

  lemma {:induction false} ElementsRoundTrip(es: seq<RawValue>)
    requires forall e :: e in es ==> Printable(e)
    ensures ParseElements(PrintElements(es)) == Ok(es)
  {
    if |es| > 0 {
      ElementRoundTrip(es[0], PrintElements(es[1..]));
      ElementsRoundTrip(es[1..]);
      assert [es[0]] + es[1..] == es;
    }
  }

  /** A printed list, with anything after it, is read back element for element. */
  lemma ListRoundTrip(es: seq<RawValue>, t: bytes)
    requires PrintableList(es)
    ensures UnmarshalRawValues(PrintList(es) + t) == Ok(es)
  {
    ElementRoundTrip(RawValue(UNIVERSAL, TAG_SEQUENCE, true, PrintElements(es)), t);
    ElementsRoundTrip(es);
  }

  lemma {:induction false} UnsignedAppend(b: bytes, x: byte, acc: int)
    ensures Unsigned(b + [x], acc) == Unsigned(b, acc) * 256 + x
  {
    if |b| == 0 {
      assert b + [x] == [x];
    } else {
      assert (b + [x])[1..] == b[1..] + [x];
      UnsignedAppend(b[1..], x, acc * 256 + b[0]);
    }
  }

  lemma {:induction false} IntegerContentValue(v: int)
    ensures |IntegerContent(v)| > 0 && Signed(IntegerContent(v)) == v
    decreases if v < 0 then -v else v
  {
    if v < -128 || v >= 128 {
      IntegerContentValue(v / 256);
      var b := IntegerContent(v / 256);
      assert IntegerContent(v)[1..] == b[1..] + [v % 256];
      UnsignedAppend(b[1..], v % 256, SignedByte(b[0]));
    }
  }

  /** The first nine bits are not all alike. */
  predicate Minimal(b: bytes) {
    |b| > 0 && (|b| > 1 ==> !(b[0] == 0 && b[1] < 128) && !(b[0] == 0xff && b[1] >= 128))
  }

  /** No shorter two's-complement form exists. */
  lemma {:induction false} IntegerContentMinimal(v: int)
    ensures Minimal(IntegerContent(v))
    decreases if v < 0 then -v else v
  {
    if v < -128 || v >= 128 {
      IntegerContentMinimal(v / 256);
      var b := IntegerContent(v / 256);
      assert IntegerContent(v) == b + [v % 256];
      if -128 <= v / 256 < 128 {
        assert b == [v / 256 % 256];
        assert b[0] == 0 ==> v / 256 == 0 && v % 256 == v;
        assert b[0] == 0xff ==> v / 256 == -1 && v % 256 == v + 256;
      } else {
        assert |b| > 1 by { IntegerContentNonEmpty(v / 256 / 256); }
      }
    }
  }

  function Pow256(k: nat): nat {
    if k == 0 then 1 else 256 * Pow256(k - 1)
  }

  /** `k` bytes are enough exactly for the values of `8 * k` bits. */
  lemma {:induction false} IntegerContentSize(v: int, k: nat)
    requires k > 0
    ensures |IntegerContent(v)| <= k <==> -128 * Pow256(k - 1) <= v < 128 * Pow256(k - 1)
    decreases if v < 0 then -v else v
  {
    Pow256Positive(k - 1);
    if -128 <= v < 128 {
    } else {
      IntegerContentNonEmpty(v / 256);
      if k > 1 {
        IntegerContentSize(v / 256, k - 1);
      }
    }
  }

  lemma IntegerContentNonEmpty(v: int)
    ensures |IntegerContent(v)| > 0
  {
  }

  lemma {:induction false} Pow256Positive(k: nat)
    ensures Pow256(k) >= 1
  {
    if k > 0 {
      Pow256Positive(k - 1);
    }
  }

  function PrintInteger(v: int): bytes
    requires |IntegerContent(v)| < MAX_LENGTH
  {
    PrintElement(RawValue(UNIVERSAL, TAG_INTEGER, false, IntegerContent(v)))
  }

  /** A printed INTEGER, with anything after it, is read back exactly when it fits 64 bits. */
  lemma IntegerRoundTrip(v: int, t: bytes)
    requires |IntegerContent(v)| < MAX_LENGTH
    ensures UnmarshalInt(PrintInteger(v) + t) ==
            if MIN_INT64 <= v <= MAX_INT64 then Ok(v) else Err(IntegerTooLarge)
  {
    ElementRoundTrip(RawValue(UNIVERSAL, TAG_INTEGER, false, IntegerContent(v)), t);
    IntegerContentValue(v);
    IntegerContentMinimal(v);
    IntegerContentSize(v, 8);
    assert Pow256(7) == 0x100_0000_0000_0000 by {
      assert Pow256(3) == 0x100_0000;
      assert Pow256(5) == 0x100_0000_0000;
    }
  }

  // --------------------------------------------------------------- canonicity

  /** What a base-128 read consumed is the one way to print the number it returned. */
  lemma {:induction false} Base128Canonical(b: bytes, acc: nat, shifted: nat)
    requires ParseBase128(b, acc, shifted).Ok? && (shifted == 0 ==> acc == 0) && (shifted > 0 ==> acc > 0)
    ensures var (n, rest) := ParseBase128(b, acc, shifted).value;
            n <= MAX_INT32 && Groups(acc) + b == Groups(n / 128) + [n % 128] + rest
    decreases |b|
  {
    var acc' := acc * 128 + b[0] % 128;
    assert b == [b[0]] + b[1..];
    if b[0] >= 128 {
      assert acc' / 128 == acc && acc' % 128 == b[0] - 128;
      assert Groups(acc') == Groups(acc) + [b[0]];
      Base128Canonical(b[1..], acc', shifted + 1);
      assert Groups(acc') + b[1..] == Groups(acc) + b;
    } else {
      assert acc' / 128 == acc && acc' % 128 == b[0];
    }
  }

  lemma {:induction false} LongLengthCanonical(b: bytes, count: nat, acc: nat)
    requires ParseLongLength(b, count, acc).Ok? && acc < MAX_LENGTH
    ensures var (n, rest) := ParseLongLength(b, count, acc).value;
            && 128 <= n < MAX_LENGTH && Base256(acc) + b == Base256(n) + rest
            && |Base256(n)| == |Base256(acc)| + count
  {
    if count > 0 {
      var acc' := acc * 256 + b[0];
      assert b == [b[0]] + b[1..];
      assert acc' / 256 == acc && acc' % 256 == b[0];
      assert Base256(acc') == Base256(acc) + [b[0]];
      LongLengthCanonical(b[1..], count - 1, acc');
      assert Base256(acc') + b[1..] == Base256(acc) + b;
    }
  }

  lemma LongFormPrinted(lead: byte, digits: bytes)
    requires lead > 0x80 && ParseLongLength(digits, lead - 0x80, 0).Ok?
    ensures var (n, rest) := ParseLongLength(digits, lead - 0x80, 0).value;
            n < MAX_LENGTH && |Base256(n)| < 127 && [lead] + digits == PrintLength(n) + rest
  {
    var (n, rest) := ParseLongLength(digits, lead - 0x80, 0).value;
    LongLengthCanonical(digits, lead - 0x80, 0);
    assert Base256(0) + digits == digits;
    Base256Size(n);
    assert lead == 128 + |Base256(n)| && digits == Base256(n) + rest;
    assert [lead] + (Base256(n) + rest) == [lead] + Base256(n) + rest;
  }

  lemma LengthCanonical(b: bytes)
    requires ParseLength(b).Ok?
    ensures var (n, rest) := ParseLength(b).value;
            n < MAX_LENGTH && |Base256(n)| < 127 && b == PrintLength(n) + rest
  {
    var (n, rest) := ParseLength(b).value;
    assert b == [b[0]] + b[1..];
    Base256Size(n);
    if b[0] >= 0x80 {
      LongFormPrinted(b[0], b[1..]);
    }
  }

  lemma HighFormPrinted(lead: byte, b: bytes)
    requires lead % 32 == 31 && ParseBase128(b, 0, 0).Ok? && ParseBase128(b, 0, 0).value.0 >= 31
    ensures var (tag, rest) := ParseBase128(b, 0, 0).value;
            tag <= MAX_INT32 && [lead] + b == PrintTag(lead / 64, lead / 32 % 2 == 1, tag) + rest
  {
    var (tag, rest) := ParseBase128(b, 0, 0).value;
    Base128Canonical(b, 0, 0);
    assert Groups(0) + b == b;
    TagPrintedAs(lead, tag, b, rest);
  }

  lemma TagPrintedAs(lead: byte, tag: nat, b: bytes, rest: bytes)
    requires lead % 32 == 31 && 31 <= tag && b == Groups(tag / 128) + [tag % 128] + rest
    ensures [lead] + b == PrintTag(lead / 64, lead / 32 % 2 == 1, tag) + rest
  {
    LeadCanonical(lead);
    var groups, last := Groups(tag / 128), [tag % 128];
    assert [lead] + (groups + last + rest) == [lead] + groups + last + rest;
  }

  lemma TagCanonical(b: bytes)
    requires |b| > 0 && ParseTag(b).Ok?
    ensures var (tag, rest) := ParseTag(b).value;
            tag <= MAX_INT32 && b == PrintTag(b[0] / 64, b[0] / 32 % 2 == 1, tag) + rest
  {
    assert b == [b[0]] + b[1..];
    LeadCanonical(b[0]);
    if b[0] % 32 == 31 {
      HighFormPrinted(b[0], b[1..]);
    }
  }

  lemma LeadCanonical(x: byte)
    ensures Lead(x / 64, x / 32 % 2 == 1, x % 32) == x
  {
  }

  lemma Regroup(a: bytes, b: bytes, c: bytes, d: bytes)
    ensures a + (b + (c + d)) == a + b + c + d
  {
  }

  /** The reader accepts nothing but DER: the bytes it consumed are exactly the printing of the
      element it returned, so no two encodings stand for the same element. */
  lemma ElementCanonical(b: bytes)
    requires ParseElement(b).Ok?
    ensures var (e, rest) := ParseElement(b).value;
            Printable(e) && b == PrintElement(e) + rest
  {
    var (h, afterLength) := ParseHeader(b).value;
    var (tag, afterTag) := ParseTag(b).value;
    var (e, rest) := ParseElement(b).value;
    TagCanonical(b);
    LengthCanonical(afterTag);
    assert afterLength == e.content + rest;
    Base256Size(h.length);
    var t, l := PrintTag(h.cls, h.compound, h.tag), PrintLength(h.length);
    assert b == t + (l + (e.content + rest));
    Regroup(t, l, e.content, rest);
  }

  lemma {:induction false} ElementsCanonical(b: bytes)
    requires ParseElements(b).Ok?
    ensures var es := ParseElements(b).value;
            (forall e :: e in es ==> Printable(e)) && b == PrintElements(es)
    decreases |b|
  {
    if |b| > 0 {
      ElementCanonical(b);
      ParseElementShrinks(b);
      var (e, rest) := ParseElement(b).value;
      ElementsCanonical(rest);
      var tail := ParseElements(rest).value;
      assert ([e] + tail)[1..] == tail;
    }
  }

  /** An authorization list is read as the elements `es` exactly when it is the printing of
      `es`, followed by anything. */
  lemma ListReadExactly(b: bytes, es: seq<RawValue>)
    ensures UnmarshalRawValues(b) == Ok(es) <==>
            exists trailing :: PrintableList(es) && b == PrintList(es) + trailing
  {
    if UnmarshalRawValues(b) == Ok(es) {
      ElementCanonical(b);
      var (item, rest) := ParseElement(b).value;
      ElementsCanonical(item.content);
      assert b == PrintList(es) + rest;
    }
    if exists trailing :: PrintableList(es) && b == PrintList(es) + trailing {
      var trailing :| PrintableList(es) && b == PrintList(es) + trailing;
      ListRoundTrip(es, trailing);
    }
  }

  lemma {:induction false} MinimalIsCanonical(b: bytes)
    requires Minimal(b)
    ensures IntegerContent(Signed(b)) == b
    decreases |b|
  {
    if |b| == 1 {
      assert b == [b[0]] && b[1..] == [];
    } else {
      var init, last := b[..|b| - 1], b[|b| - 1];
      assert b[1..] == init[1..] + [last];
      UnsignedAppend(init[1..], last, SignedByte(b[0]));
      assert Signed(b) == Signed(init) * 256 + last;
      MinimalIsCanonical(init);
      assert Signed(b) / 256 == Signed(init) && Signed(b) % 256 == last;
      MinimalIsLong(b);
      assert b == init + [last];
    }
  }

  /** Two or more minimal bytes hold a value that one byte cannot. */
  lemma {:induction false} MinimalIsLong(b: bytes)
    requires Minimal(b) && |b| > 1
    ensures Signed(b) < -128 || Signed(b) >= 128
    decreases |b|
  {
    var init, last := b[..|b| - 1], b[|b| - 1];
    assert b[1..] == init[1..] + [last];
    UnsignedAppend(init[1..], last, SignedByte(b[0]));
    assert Signed(b) == Signed(init) * 256 + last;
    if |b| > 2 {
      MinimalIsLong(init);
    } else {
      assert init == [b[0]] && init[1..] == [];
    }
  }

  /** An INTEGER is read as `v` exactly when it is the printing of `v`, followed by anything, and
      `v` fits 64 bits. */
  lemma IntegerReadExactly(b: bytes, v: int)
    ensures UnmarshalInt(b) == Ok(v) <==>
            && MIN_INT64 <= v <= MAX_INT64
            && exists trailing :: |IntegerContent(v)| < MAX_LENGTH && b == PrintInteger(v) + trailing
  {
    if UnmarshalInt(b) == Ok(v) {
      ElementCanonical(b);
      var (item, rest) := ParseElement(b).value;
      MinimalIsCanonical(item.content);
      assert b == PrintInteger(v) + rest;
      IntegerRoundTrip(v, rest);
    }
    if exists trailing :: |IntegerContent(v)| < MAX_LENGTH && b == PrintInteger(v) + trailing {
      var trailing :| |IntegerContent(v)| < MAX_LENGTH && b == PrintInteger(v) + trailing;
      IntegerRoundTrip(v, trailing);
    }
  }

  // --------------------------------------------------------- the octets themselves

  /** Identifier octets: class, constructed bit and number in one octet below 31, and otherwise 31 there
      and the number in groups of seven bits. */
  lemma IdentifierOctets(cls: int, compound: bool, tag: nat)
    requires 0 <= cls < 4 && tag < 16384
    ensures var first := 64 * cls + if compound then 32 else 0;
            PrintTag(cls, compound, tag) ==
            if tag < 31 then [first + tag]
            else if tag < 128 then [first + 31, tag]
            else [first + 31, 128 + tag / 128, tag % 128]
  {
    if tag >= 128 {
      assert Groups(tag / 128) == Groups(0) + [128 + tag / 128];
    }
  }

  lemma OneDigit(n: nat)
    requires 0 < n < 256
    ensures Base256(n) == [n]
  {
    assert n / 256 == 0 && n % 256 == n;
    assert Base256(n) == Base256(0) + [n];
  }

  lemma TwoDigits(n: nat)
    requires 256 <= n < 65536
    ensures Base256(n) == [n / 256, n % 256]
  {
    OneDigit(n / 256);
    assert Base256(n) == Base256(n / 256) + [n % 256];
  }

  lemma LongFormOctets(n: nat, digits: bytes)
    requires n >= 128 && Base256(n) == digits && |digits| < 127
    ensures PrintLength(n) == [128 + |digits|] + digits
  {
  }

  /** The length octets of section 8.1.3: one below 128, and otherwise a count and the length in that many
      octets. */
  function LengthOctetsOf(n: nat): bytes
    requires n < 65536
  {
    if n < 128 then [n] else if n < 256 then [0x81, n] else [0x82, n / 256, n % 256]
  }

  lemma LengthOctets(n: nat)
    requires n < 65536
    ensures |Base256(n)| <= 2 && PrintLength(n) == LengthOctetsOf(n)
  {
    if n < 128 {
      ShortLength(n);
    } else if n < 256 {
      OneDigit(n);
      LongFormOctets(n, [n]);
      assert [128 + |[n]|] + [n] == LengthOctetsOf(n);
    } else {
      TwoDigits(n);
      TwoLengthOctets(n, n / 256, n % 256);
    }
  }

  lemma ShortLength(n: nat)
    requires n < 128
    ensures |Base256(n)| <= 1 && PrintLength(n) == [n]
  {
    if n > 0 {
      OneDigit(n);
    }
  }

  lemma TwoLengthOctets(n: nat, high: byte, low: byte)
    requires n >= 256 && Base256(n) == [high, low]
    ensures PrintLength(n) == [0x82, high, low]
  {
    LongFormOctets(n, [high, low]);
  }

  /** A SEQUENCE begins with octet 0x30 and an INTEGER with 0x02; the authorization tags 704 to 709 have
      the identifier octets of constructed context-specific elements. */
  lemma LeadingOctets(es: seq<RawValue>, v: int)
    requires PrintableList(es) && |IntegerContent(v)| < MAX_LENGTH
    ensures PrintList(es)[0] == 0x30 && PrintInteger(v)[0] == 0x02
    ensures PrintTag(2, true, 704) == [0xBF, 0x85, 0x40]
    ensures PrintTag(2, true, 705) == [0xBF, 0x85, 0x41]
    ensures PrintTag(2, true, 706) == [0xBF, 0x85, 0x42]
    ensures PrintTag(2, true, 709) == [0xBF, 0x85, 0x45]
  {
    IdentifierOctets(2, true, 704);
    IdentifierOctets(2, true, 705);
    IdentifierOctets(2, true, 706);
    IdentifierOctets(2, true, 709);
  }

  /** The elements of a list of short elements stand one after the other behind its two-octet header. */
  lemma ShortListOctets(es: seq<RawValue>)
    requires (forall e :: e in es ==> Printable(e)) && |PrintElements(es)| < 128
    ensures PrintableList(es) && PrintList(es) == [0x30, |PrintElements(es)|] + PrintElements(es)
  {
    IdentifierOctets(0, true, 16);
    ShortElementOctets(RawValue(0, 16, true, PrintElements(es)));
  }

  lemma ShortElementOctets(e: RawValue)
    requires Printable(e) && |e.content| < 128
    ensures PrintElement(e) == PrintTag(e.cls, e.compound, e.tag) + [|e.content|] + e.content
  {
    LengthOctets(|e.content|);
  }

  /** Contents octets of integers around the limits of one and two octets, and an OS version. */
  lemma IntegerOctets()
    ensures IntegerContent(0) == [0x00] && IntegerContent(127) == [0x7F] && IntegerContent(-128) == [0x80]
    ensures IntegerContent(128) == [0x00, 0x80] && IntegerContent(-129) == [0xFF, 0x7F]
    ensures IntegerContent(256) == [0x01, 0x00] && IntegerContent(140000) == [0x02, 0x22, 0xE0]
  {
    assert IntegerContent(140000) == IntegerContent(546) + [0xE0];
    assert IntegerContent(546) == IntegerContent(2) + [0x22];
  }

  /** The empty list. */
  lemma EmptyListOctets()
    ensures UnmarshalRawValues([0x30, 0x00]) == Ok([])
  {
    ShortListOctets([]);
    assert PrintList([]) + [] == [0x30, 0x00];
    ListRoundTrip([], []);
  }

  const OS_VERSION_ELEMENT := RawValue(2, 705, true, [0x02, 0x03, 0x02, 0x22, 0xE0])

  lemma OsVersionOctets()
    ensures PrintInteger(140000) == [0x02, 0x03, 0x02, 0x22, 0xE0]
    ensures Printable(OS_VERSION_ELEMENT)
    ensures PrintElement(OS_VERSION_ELEMENT) == [0xBF, 0x85, 0x41, 0x05, 0x02, 0x03, 0x02, 0x22, 0xE0]
  {
    IntegerOctets();
    IdentifierOctets(0, false, 2);
    ShortElementOctets(RawValue(0, 2, false, [0x02, 0x22, 0xE0]));
    IdentifierOctets(2, true, 705);
    ShortElementOctets(OS_VERSION_ELEMENT);
  }

  lemma OsVersionElements()
    ensures Printable(OS_VERSION_ELEMENT)
    ensures PrintElements([OS_VERSION_ELEMENT]) == [0xBF, 0x85, 0x41, 0x05, 0x02, 0x03, 0x02, 0x22, 0xE0]
  {
    OsVersionOctets();
    var list := [OS_VERSION_ELEMENT];
    assert PrintElements(list) == PrintElement(OS_VERSION_ELEMENT) + PrintElements([]);
  }

  /** A list that holds the INTEGER 140000 under tag 705, octet by octet. */
  lemma OsVersionListOctets()
    ensures UnmarshalRawValues([0x30, 0x09, 0xBF, 0x85, 0x41, 0x05, 0x02, 0x03, 0x02, 0x22, 0xE0])
            == Ok([OS_VERSION_ELEMENT])
  {
    var list := [OS_VERSION_ELEMENT];
    OsVersionElements();
    ShortListOctets(list);
    assert PrintList(list) + [] == PrintList(list);
    ListRoundTrip(list, []);
  }

  /** And its content read as an integer. */
  lemma OsVersionRead()
    ensures UnmarshalInt([0x02, 0x03, 0x02, 0x22, 0xE0]) == Ok(140000)
  {
    OsVersionOctets();
    IntegerOctets();
    assert PrintInteger(140000) + [] == PrintInteger(140000);
    IntegerRoundTrip(140000, []);
  }
}
