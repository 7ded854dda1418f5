// Machine integers where they wrap, and the rounding used in reports.
module Numbers {
  const TWO_63 := 0x8000_0000_0000_0000
  const TWO_64 := 0x1_0000_0000_0000_0000

  // An int64 or uint64 result, reduced to its range.
  function Int64(x: int): (r: int)
    ensures -TWO_63 <= r < TWO_63
    ensures -TWO_63 <= x < TWO_63 ==> r == x
  {
    (x + TWO_63) % TWO_64 - TWO_63
  }

  function UInt64(x: int): (r: int)
    ensures 0 <= r < TWO_64
    ensures 0 <= x < TWO_64 ==> r == x
  {
    x % TWO_64
  }

  // Adding to a wrapped sum.
  lemma Int64Add(a: int, b: int)
    ensures Int64(Int64(a) + b) == Int64(a + b)
  {
    var k := (a + TWO_63) / TWO_64;
    assert Int64(a) == a - k * TWO_64;
    Int64Shift(a + b + TWO_63, k);
  }

  lemma Int64Shift(x: int, k: int)
    ensures (x - k * TWO_64) % TWO_64 == x % TWO_64
  {
    var q := x / TWO_64;
    assert x - k * TWO_64 == (q - k) * TWO_64 + x % TWO_64;
  }

  lemma UInt64Add(a: int, b: int)
    ensures UInt64(UInt64(a) + b) == UInt64(a + b)
  {
    UInt64Shift(a + b, a / TWO_64);
  }

  lemma UInt64Shift(x: int, k: int)
    ensures UInt64(x - k * TWO_64) == UInt64(x)
  {
    assert x - k * TWO_64 == (x / TWO_64 - k) * TWO_64 + x % TWO_64;
  }

  lemma UInt64Sub(a: int, b: int)
    ensures UInt64(UInt64(a) - UInt64(b)) == UInt64(a - b)
  {
    UInt64Shift(a - UInt64(b), a / TWO_64);
    UInt64Shift(a - b, -(b / TWO_64));
  }

  function Min(a: int, b: int): int { if a <= b then a else b }

  function Max(a: int, b: int): int { if a >= b then a else b }

  // math.Round over the reals: to the nearest integer, halves away from zero.
  function Round(x: real): int {
    if x >= 0.0 then (x + 0.5).Floor else -((-x + 0.5).Floor)
  }

  // round1: one decimal place.
  function Round1(x: real): real {
    Round(x * 10.0) as real / 10.0
  }

  lemma RoundNear(x: real)
    ensures Round(x) as real - 0.5 <= x <= Round(x) as real + 0.5
  {
  }

  // A reported value is a whole number of tenths within a twentieth of the measured one.
  lemma Round1Near(x: real)
    ensures Round1(x) - 0.05 <= x <= Round1(x) + 0.05
    ensures Round1(x) * 10.0 == Round(x * 10.0) as real
  {
    RoundNear(x * 10.0);
  }

  // Both are the number they are given but for a multiple of 2^64.
  lemma WrappedExactly(x: int)
    ensures exists k :: Int64(x) == x - k * 0x1_0000_0000_0000_0000
    ensures exists k :: UInt64(x) == x - k * 0x1_0000_0000_0000_0000
    ensures -0x8000_0000_0000_0000 <= Int64(x) < 0x8000_0000_0000_0000
    ensures 0 <= UInt64(x) < 0x1_0000_0000_0000_0000
  {
    var k, m := (x + TWO_63) / TWO_64, x / TWO_64;
    assert Int64(x) == x - k * TWO_64;
    assert UInt64(x) == x - m * TWO_64;
  }

  // The nearest integer, and of two the one further from zero.
  lemma RoundExactly(x: real, n: int)
    ensures Round(x) == n <==>
      if x >= 0.0 then n as real - 0.5 <= x < n as real + 0.5 else n as real - 0.5 < x <= n as real + 0.5
  {
  }
}
