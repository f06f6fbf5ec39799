/** Affine points packed into 64 bits as fixed-point numbers. */
module PackPoint {
  import opened Wrappers
  import opened PlotGeometry

  /** Conversion to an integer drops the fraction. */
  function Truncated(x: real): int { if x >= 0.0 then x.Floor else -((-x).Floor) }

  function Clamp(value: int, low: int, high: int): (r: int)
    requires low <= high
    ensures low <= r <= high && (low <= value <= high ==> r == value)
    ensures (value < low ==> r == low) && (value > high ==> r == high)
  {
    if value < low then low else if value > high then high else value
  }

  /** A fixed-point format: numbers of `magnitude` times two values, in units of 1 / multiplier. */
  datatype Format = Format(multiplier: int, magnitude: int)
  {
    predicate Valid() { multiplier > 0 && magnitude > 0 }

    /** The nearest unit towards zero, clamped, as a two's complement number. */
    function Pack(value: real): (packed: nat)
      requires Valid()
      ensures packed < 2 * magnitude
    {
      var clamped := Clamped(value);
      if clamped < 0 then clamped + 2 * magnitude else clamped
    }

    function Clamped(value: real): (n: int)
      requires Valid()
      ensures -magnitude <= n < magnitude
    {
      Clamp(Truncated(value * multiplier as real), -magnitude, magnitude - 1)
    }

    function Unpack(packed: nat): real
      requires Valid()
    {
      (if packed >= magnitude then packed - 2 * magnitude else packed) as real / multiplier as real
    }

    function Lowest(): real
      requires Valid()
    {
      (-magnitude) as real / multiplier as real
    }

    function Highest(): real
      requires Valid()
    {
      (magnitude - 1) as real / multiplier as real
    }

    function Unit(): real
      requires Valid()
    {
      1.0 / multiplier as real
    }
  }

  function FormatOf(integerBits: nat, fractionBits: nat): (f: Format)
    requires integerBits > 0
    ensures f.Valid()
  {
    Format(TwoTo(fractionBits), TwoTo(fractionBits + integerBits - 1))
  }

  function ScaleFormat(): (f: Format)
    ensures f.Valid()
  {
    FormatOf(2, 13)
  }

  function OffsetFormat(): (f: Format)
    ensures f.Valid()
  {
    FormatOf(6, 10)
  }

  // ----- Precision -----

  lemma TruncatedIsNear(x: real, n: int)
    requires n == Truncated(x)
    ensures -1.0 < n as real - x < 1.0
  {
  }

  lemma TruncatedOutside(x: real, bound: int)
    ensures x < bound as real && bound <= 0 ==> Truncated(x) <= bound
    ensures x > bound as real && bound >= 0 ==> Truncated(x) >= bound
    ensures x >= bound as real && bound <= 0 ==> Truncated(x) >= bound
    ensures x <= bound as real && bound >= 0 ==> Truncated(x) <= bound
  {
  }

  /** Comparing with a quotient is comparing the product. */
  lemma Scaled(value: real, bound: real, m: real)
    requires m > 0.0
    ensures value < bound / m <==> value * m < bound
    ensures value > bound / m <==> value * m > bound
  {
    var b := bound / m;
    assert b * m == bound;
    if value < b { Product(b - value, m); }
    if value > b { Product(value - b, m); }
  }

  lemma Product(x: real, m: real)
    requires x > 0.0 && m > 0.0
    ensures x * m > 0.0
  {
  }

  lemma Divided(n: real, value: real, m: real)
    requires m > 0.0 && -1.0 < n - value * m < 1.0
    ensures -(1.0 / m) < n / m - value < 1.0 / m
  {
    Scaled(value, n - 1.0, m);
    Scaled(value, n + 1.0, m);
    Shifted(n, 1.0, m);
  }

  lemma Shifted(n: real, d: real, m: real)
    requires m > 0.0
    ensures (n + d) / m == n / m + d / m && (n - d) / m == n / m - d / m
  {
  }

  lemma UnpackInvertsPack(f: Format, value: real)
    requires f.Valid()
    ensures f.Unpack(f.Pack(value)) == f.Clamped(value) as real / f.multiplier as real
  {
    hide Clamp, Truncated;
  }

  lemma RangeScaled(f: Format, value: real)
    requires f.Valid()
    ensures value < f.Lowest() <==> value * f.multiplier as real < (-f.magnitude) as real
    ensures value > f.Highest() <==> value * f.multiplier as real > (f.magnitude - 1) as real
  {
    Scaled(value, (-f.magnitude) as real, f.multiplier as real);
    Scaled(value, (f.magnitude - 1) as real, f.multiplier as real);
  }

  /** Clamping happens exactly outside the range. */
  lemma ClampedIs(f: Format, x: real, n: int)
    requires f.Valid() && n == Clamp(Truncated(x), -f.magnitude, f.magnitude - 1)
    ensures x < (-f.magnitude) as real ==> n == -f.magnitude
    ensures x > (f.magnitude - 1) as real ==> n == f.magnitude - 1
    ensures (-f.magnitude) as real <= x <= (f.magnitude - 1) as real ==> n == Truncated(x)
  {
    TruncatedOutside(x, -f.magnitude);
    TruncatedOutside(x, f.magnitude - 1);
    hide Truncated, Clamp;
  }

  /** Unpacking gives a value in the format's range back up to the last bit; beyond the range it
      gives the end of the range. */
  lemma FixedPointPrecision(f: Format, value: real)
    requires f.Valid()
    ensures
      var unpacked := f.Unpack(f.Pack(value));
      if value < f.Lowest() then unpacked == f.Lowest()
      else if value > f.Highest() then unpacked == f.Highest()
      else -f.Unit() < unpacked - value < f.Unit()
  {
    var n := f.Clamped(value);
    var x := value * f.multiplier as real;
    UnpackInvertsPack(f, value);
    RangeScaled(f, value);
    ClampedIs(f, x, n);
    hide Truncated, Clamp, Format.Pack, Format.Unpack, Format.Clamped, Format.Unit;
    if value < f.Lowest() {
      assert n == -f.magnitude;
    } else if value > f.Highest() {
      assert n == f.magnitude - 1;
    } else {
      TruncatedIsNear(x, n);
      WithinUnit(f, n, value);
    }
  }

  lemma WithinUnit(f: Format, n: int, value: real)
    requires f.Valid() && -1.0 < n as real - value * f.multiplier as real < 1.0
    ensures -f.Unit() < n as real / f.multiplier as real - value < f.Unit()
  {
    Divided(n as real, value, f.multiplier as real);
  }

  // ----- Fields -----

  const LOW_HALF := 0x1_0000
  const WORD := 0x1_0000_0000
  const SIGN := 0x8000_0000_0000_0000

  // Fields are joined by adding: each one is smaller than the unit of the next one, so no bits meet.

  /** A scale of 15 bits above an offset of 16 bits. */
  function PackCoordinate(c: AffineCoordinate): nat {
    ScaleFormat().Pack(c.scale) * LOW_HALF + OffsetFormat().Pack(c.offset)
  }

  /** The preview mask in bit 63, x in bits 32 to 62, y in bits 0 to 30. */
  function PackPoint(p: AffinePoint, isMasked: bool): nat {
    (if isMasked then SIGN else 0) + PackCoordinate(p.x) * WORD + PackCoordinate(p.y)
  }

  function UnpackCoordinate(field: nat): AffineCoordinate {
    AffineCoordinate(ScaleFormat().Unpack(field / LOW_HALF), OffsetFormat().Unpack(field % LOW_HALF))
  }

  /** What a client reads: the fields by their bit positions. */
  function UnpackPoint(packed: nat): (AffinePoint, bool) {
    (AffinePoint(UnpackCoordinate(packed / WORD % 0x8000_0000), UnpackCoordinate(packed % 0x8000_0000)),
     packed / SIGN == 1)
  }

  lemma FormatSizes()
    ensures ScaleFormat().multiplier == 8192 && ScaleFormat().magnitude == 16384
    ensures OffsetFormat().multiplier == 1024 && OffsetFormat().magnitude == 32768
  {
    assert TwoTo(5) == 32 && TwoTo(10) == 1024;
  }

  lemma CoordinateFields(c: AffineCoordinate)
    ensures PackCoordinate(c) < 0x8000_0000
    ensures PackCoordinate(c) / LOW_HALF == ScaleFormat().Pack(c.scale)
    ensures PackCoordinate(c) % LOW_HALF == OffsetFormat().Pack(c.offset)
  {
    FormatSizes();
    hide Format.Pack, ScaleFormat, OffsetFormat;
    HalfWords(ScaleFormat().Pack(c.scale), OffsetFormat().Pack(c.offset));
  }

  lemma HalfWords(high: nat, low: nat)
    requires low < LOW_HALF
    ensures (high * LOW_HALF + low) / LOW_HALF == high && (high * LOW_HALF + low) % LOW_HALF == low
  {
  }

  lemma Words(high: nat, low: nat)
    requires low < WORD
    ensures (high * WORD + low) / WORD == high && (high * WORD + low) % WORD == low
  {
  }

  lemma SignedWord(x: nat, isMasked: bool)
    requires x < 0x8000_0000
    ensures
      var high := x + if isMasked then 0x8000_0000 else 0;
      high % 0x8000_0000 == x && (high / 0x8000_0000 == 1 <==> isMasked) && high < WORD
  {
  }

  lemma SignBit(high: nat, low: nat)
    requires high < WORD && low < WORD
    ensures (high * WORD + low) / SIGN == high / 0x8000_0000
  {
    var q, r := high / 0x8000_0000, high % 0x8000_0000;
    assert high * WORD + low == q * SIGN + (r * WORD + low);
    assert r * WORD + low < SIGN;
  }

  /** The word fits in 64 bits, and every field comes back from its own bits: the mask exactly, and
      the coordinates as their packed formats allow. */
  lemma FieldsComeBack(p: AffinePoint, isMasked: bool)
    ensures PackPoint(p, isMasked) < 0x1_0000_0000_0000_0000
    ensures
      UnpackPoint(PackPoint(p, isMasked)) ==
      (AffinePoint(UnpackCoordinate(PackCoordinate(p.x)), UnpackCoordinate(PackCoordinate(p.y))), isMasked)
  {
    CoordinateFields(p.x);
    CoordinateFields(p.y);
    JoinedFields(PackCoordinate(p.x), PackCoordinate(p.y), isMasked);
    hide PackCoordinate, UnpackCoordinate, UnpackPoint;
    UnpackWord(PackPoint(p, isMasked), PackCoordinate(p.x), PackCoordinate(p.y), isMasked);
  }

  lemma UnpackWord(word: nat, x: nat, y: nat, isMasked: bool)
    requires word / WORD % 0x8000_0000 == x && word % 0x8000_0000 == y && (word / SIGN == 1 <==> isMasked)
    ensures UnpackPoint(word) == (AffinePoint(UnpackCoordinate(x), UnpackCoordinate(y)), isMasked)
  {
    hide UnpackCoordinate;
  }

  lemma JoinedFields(x: nat, y: nat, isMasked: bool)
    requires x < 0x8000_0000 && y < 0x8000_0000
    ensures
      var word := (if isMasked then SIGN else 0) + x * WORD + y;
      && word < 0x1_0000_0000_0000_0000
      && word / WORD % 0x8000_0000 == x && word % 0x8000_0000 == y && (word / SIGN == 1 <==> isMasked)
  {
    var high := x + if isMasked then 0x8000_0000 else 0;
    assert (if isMasked then SIGN else 0) + x * WORD + y == high * WORD + y;
    SignedWord(x, isMasked);
    Words(high, y);
    SignBit(high, y);
    LowWord(high, y);
    BelowTwoWords(high, y);
  }

  lemma BelowTwoWords(high: nat, low: nat)
    requires high < WORD && low < WORD
    ensures high * WORD + low < 0x1_0000_0000_0000_0000
  {
  }

  lemma LowWord(high: nat, low: nat)
    requires low < 0x8000_0000
    ensures (high * WORD + low) % 0x8000_0000 == low
  {
  }

  /** Unpacking a packed coordinate: scales come back within 2^-13, offsets within 2^-10, when they
      are in range; otherwise the end of the range comes back. */
  lemma CoordinatePrecision(c: AffineCoordinate)
    ensures
      var u := UnpackCoordinate(PackCoordinate(c));
      && (if c.scale < -2.0 then u.scale == -2.0
          else if c.scale > 16383.0 / 8192.0 then u.scale == 16383.0 / 8192.0
          else -1.0 / 8192.0 < u.scale - c.scale < 1.0 / 8192.0)
      && (if c.offset < -32.0 then u.offset == -32.0
          else if c.offset > 32767.0 / 1024.0 then u.offset == 32767.0 / 1024.0
          else -1.0 / 1024.0 < u.offset - c.offset < 1.0 / 1024.0)
  {
    CoordinateFields(c);
    FormatSizes();
    hide ScaleFormat, OffsetFormat, Format.Pack, Format.Unpack, PackCoordinate;
    FixedPointPrecision(ScaleFormat(), c.scale);
    FixedPointPrecision(OffsetFormat(), c.offset);
  }
}
