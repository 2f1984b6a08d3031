/** Byte-level arithmetic: the wire is a sequence of bytes, and every numeric field on it is an
    unsigned big-endian integer. */
module Bytes {

  datatype Option<+T> = None | Some(value: T) {
    predicate IsFailure() {
      None?
    }

    function PropagateFailure<U>(): Option<U>
      requires None?
    {
      None
    }

    function Extract(): T
      requires Some?
    {
      value
    }
  }

  const TWO_TO_THE_16: int := 0x1_0000
  const TWO_TO_THE_32: int := 0x1_0000_0000
  const TWO_TO_THE_48: int := 0x1_0000_0000_0000
  const TWO_TO_THE_64: int := 0x1_0000_0000_0000_0000

  // The fixed-width unsigned integers of the program.
  type Byte = x: int | 0 <= x < 256
  type U16 = x: int | 0 <= x < TWO_TO_THE_16
  type U32 = x: int | 0 <= x < TWO_TO_THE_32
  type U48 = x: int | 0 <= x < TWO_TO_THE_48
  type U64 = x: int | 0 <= x < TWO_TO_THE_64

  function Pow256(n: nat): (p: nat)
    ensures p > 0
  {
    if n == 0 then 1 else 256 * Pow256(n - 1)
  }

  /** The widths of the wire format, as powers of 256. */
  lemma Pow256Widths()
    ensures Pow256(1) == 256 && Pow256(2) == TWO_TO_THE_16 && Pow256(4) == TWO_TO_THE_32
    ensures Pow256(6) == TWO_TO_THE_48 && Pow256(8) == TWO_TO_THE_64
  {
    assert Pow256(3) == 0x1_00_0000;
    assert Pow256(5) == 0x1_00_0000_0000;
    assert Pow256(7) == 0x1_00_0000_0000_0000;
  }

  /** The positional base-256 value of `bytes`, most significant first. This is what the standard
      means by a field, and what Python's struct.unpack(">...") returns. */
  function BigEndianValue(bytes: seq<Byte>): (value: nat)
    ensures value < Pow256(|bytes|)
  {
    if bytes == [] then 0
    else
      MulMonotone(bytes[0], 255, Pow256(|bytes| - 1));
      bytes[0] * Pow256(|bytes| - 1) + BigEndianValue(bytes[1..])
  }

  /** The same value read from the other end, a byte at a time. */
  lemma {:induction false} BigEndianDigits(bytes: seq<Byte>)
    ensures BigEndianValue([]) == 0
    ensures bytes != [] ==>
              BigEndianValue(bytes) == 256 * BigEndianValue(bytes[..|bytes| - 1]) + bytes[|bytes| - 1]
  {
    if |bytes| > 1 {
      var rest, n := bytes[1..], |bytes| - 1;
      BigEndianDigits(rest);
      assert bytes[..n][1..] == rest[..n - 1];
      ScaleByByte(bytes[0], Pow256(n - 1));
    }
  }

  lemma ScaleByByte(digit: nat, p: nat)
    ensures digit * (256 * p) == 256 * (digit * p)
  {
  }

  lemma MulMonotone(a: nat, b: nat, p: nat)
    requires a <= b
    ensures 0 <= a * p <= b * p
  {
  }

  lemma MulStrictlyMonotone(a: nat, b: nat, p: nat)
    requires a < b
    ensures a * p + p <= b * p
  {
    MulMonotone(a + 1, b, p);
  }

  // What memcpy into an integer yields on a little-endian host.
  function LittleEndianValue(bytes: seq<Byte>): (value: nat)
    ensures value < Pow256(|bytes|)
  {
    if bytes == [] then 0 else bytes[0] + 256 * LittleEndianValue(bytes[1..])
  }

  // __builtin_bswap16/32/64: the bytes of a `width`-byte integer, reversed.
  function ByteSwap(value: nat, width: nat): nat {
    if width == 0 then 0
    else value % 256 * Pow256(width - 1) + ByteSwap(value / 256, width - 1)
  }

  // load_big_endian: a host-order load followed by one byte swap.
  function LoadBigEndian(source: seq<Byte>): nat {
    ByteSwap(LittleEndianValue(source), |source|)
  }

  /** The load-then-swap the reader performs is the positional value, at every width. */
  lemma {:induction false} LoadIsPositional(source: seq<Byte>)
    ensures LoadBigEndian(source) == BigEndianValue(source) < Pow256(|source|)
  {
    if source != [] {
      var rest := LittleEndianValue(source[1..]);
      assert (source[0] + 256 * rest) % 256 == source[0] && (source[0] + 256 * rest) / 256 == rest;
      LoadIsPositional(source[1..]);
    }
  }

  // read_u48: six bytes copied behind two zero bytes, then loaded as eight.
  function LoadU48(source: seq<Byte>): nat
    requires |source| == 6
  {
    LoadBigEndian([0, 0] + source)
  }

  lemma LeadingZero(bytes: seq<Byte>)
    ensures BigEndianValue([0] + bytes) == BigEndianValue(bytes)
  {
    assert ([0] + bytes)[1..] == bytes;
  }

  /** Zero-widening changes nothing: the eight-byte load is the six-byte value, below 2^48. */
  lemma LoadU48IsPositional(source: seq<Byte>)
    requires |source| == 6
    ensures LoadU48(source) == BigEndianValue(source) < TWO_TO_THE_48
  {
    hide ByteSwap, LittleEndianValue;
    LoadIsPositional([0, 0] + source);
    LeadingZero(source);
    LeadingZero([0] + source);
    assert [0, 0] + source == [0] + ([0] + source);
    Pow256Widths();
  }

  // The encoder's digits: byte i of `width` is (value >> 8 * (width - 1 - i)) & 0xFF.
  function BigEndianBytes(value: nat, width: nat): (bytes: seq<Byte>)
    ensures |bytes| == width
  {
    if width == 0 then []
    else [value / Pow256(width - 1) % 256] + BigEndianBytes(value, width - 1)
  }

  lemma TwoBytes(value: nat)
    ensures BigEndianBytes(value, 2) == [value / 256 % 256, value % 256]
  {
    assert Pow256(1) == 256 && Pow256(0) == 1;
  }

  lemma DivModStep(value: nat, p: nat)
    requires p > 0
    ensures value % (256 * p) == value / p % 256 * p + value % p
  {
    var q := value / p;
    assert value == q * p + value % p;
    assert q == q / 256 * 256 + q % 256;
    assert value == (q / 256) * (256 * p) + (q % 256 * p + value % p);
    MulMonotone(q % 256, 255, p);
    ModUnique(value, 256 * p, q / 256, q % 256 * p + value % p);
  }

  lemma DivMod(value: nat, m: nat, q: int)
    requires m > 0 && q == value / m
    ensures value == q * m + value % m
  {
  }

  lemma QuotientUnique(m: nat, a: nat, b: nat, q: nat, r: nat)
    requires b < m && r < m && a * m + b == q * m + r
    ensures a == q && b == r
  {
    if a > q {
      MulStrictlyMonotone(q, a, m);
    } else if a < q {
      MulStrictlyMonotone(a, q, m);
    }
  }

  lemma ModUnique(value: nat, m: nat, q: nat, r: nat)
    requires m > 0 && r < m && value == q * m + r
    ensures value % m == r && value / m == q
  {
    DivMod(value, m, value / m);
    QuotientUnique(m, value / m, value % m, q, r);
  }

  /** Decoding what the encoder wrote gives the value truncated to the field's width. */
  lemma {:induction false} EncodeThenDecode(value: nat, width: nat)
    ensures BigEndianValue(BigEndianBytes(value, width)) == value % Pow256(width)
  {
    if width > 0 {
      EncodeThenDecode(value, width - 1);
      DivModStep(value, Pow256(width - 1));
    }
  }

  lemma {:induction false} BigEndianInjective(a: seq<Byte>, b: seq<Byte>)
    requires |a| == |b| && BigEndianValue(a) == BigEndianValue(b)
    ensures a == b
  {
    if a != [] {
      var p := Pow256(|a| - 1);
      ModUnique(BigEndianValue(a), p, a[0], BigEndianValue(a[1..]));
      ModUnique(BigEndianValue(b), p, b[0], BigEndianValue(b[1..]));
      BigEndianInjective(a[1..], b[1..]);
      assert a == [a[0]] + a[1..] && b == [b[0]] + b[1..];
    }
  }

  /** Encoding what was decoded gives the same bytes back. */
  lemma DecodeThenEncode(bytes: seq<Byte>)
    ensures BigEndianBytes(BigEndianValue(bytes), |bytes|) == bytes
  {
    var value := BigEndianValue(bytes);
    EncodeThenDecode(value, |bytes|);
    ModUnique(value, Pow256(|bytes|), 0, value);
    BigEndianInjective(BigEndianBytes(value, |bytes|), bytes);
  }

  /** On values that fit the width the encoder and the reader are two-sided inverses. */
  lemma FieldRoundTrip(value: nat, width: nat)
    requires value < Pow256(width)
    ensures LoadBigEndian(BigEndianBytes(value, width)) == value
  {
    EncodeThenDecode(value, width);
    ModUnique(value, Pow256(width), 0, value);
    LoadIsPositional(BigEndianBytes(value, width));
  }
}
