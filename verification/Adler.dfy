/** The chunk checksum: Adler-32 started at zero instead of one. */
module Adler {
  import opened Common

  const MOD := 65521

  function ByteSum(d: Bytes): nat {
    if d == [] then 0 else d[0] + ByteSum(d[1..])
  }

  /** Each byte weighted by its distance from the end of the data. */
  function WeightedSum(d: Bytes): nat {
    if d == [] then 0 else |d| * d[0] + WeightedSum(d[1..])
  }

  function Low(d: Bytes): nat {
    ByteSum(d) % MOD
  }

  function High(d: Bytes): nat {
    WeightedSum(d) % MOD
  }

  function Checksum(d: Bytes): nat {
    High(d) * 0x1_0000 + Low(d)
  }

  lemma {:induction false} SumsOfConcat(x: Bytes, y: Bytes)
    ensures ByteSum(x + y) == ByteSum(x) + ByteSum(y)
    ensures WeightedSum(x + y) == WeightedSum(x) + ByteSum(x) * |y| + WeightedSum(y)
  {
    if x == [] {
      assert x + y == y;
    } else {
      SumsOfConcat(x[1..], y);
      assert (x + y)[1..] == x[1..] + y;
      Distribute(|x|, |y|, x[0]);
      Distribute(x[0], ByteSum(x[1..]), |y|);
    }
  }

  lemma {:induction false} SumsOfAppend(d: Bytes, b: byte)
    ensures ByteSum(d + [b]) == ByteSum(d) + b
    ensures WeightedSum(d + [b]) == WeightedSum(d) + ByteSum(d) + b
  {
    SumsOfConcat(d, [b]);
    assert [b][1..] == [];
  }

  lemma AddMod(a: nat, b: nat)
    ensures (a % MOD + b) % MOD == (a + b) % MOD
  {
  }

  lemma DropMultiple(a: nat, q: nat)
    ensures (q * MOD + a) % MOD == a % MOD
  {
  }

  /** One byte more. */
  lemma Step(d: Bytes, b: byte)
    ensures Low(d + [b]) == (Low(d) + b) % MOD
    ensures High(d + [b]) == (High(d) + Low(d + [b])) % MOD
  {
    SumsOfAppend(d, b);
    AddMod(ByteSum(d), b);
    AddBoth(WeightedSum(d), ByteSum(d + [b]));
  }

  lemma AddBoth(a: nat, b: nat)
    ensures (a + b) % MOD == (a % MOD + b % MOD) % MOD
  {
    AddMod(b, a % MOD);
    AddMod(a, b);
  }

  function Add32(a: nat, b: nat): nat {
    (a + b) % TWO_32
  }

  lemma NoWrap(a: nat, b: nat)
    requires a < MOD && b < MOD
    ensures Add32(a, b) == a + b
  {
  }

  /** The checksum loop on 32-bit words; no addition wraps. */
  method Adler32Seed0(data: Bytes) returns (r: nat)
    ensures r == Checksum(data) && r < TWO_32
  {
    var a, b := 0, 0;
    for i := 0 to |data|
      invariant a == Low(data[..i]) && b == High(data[..i])
    {
      assert data[..i + 1] == data[..i] + [data[i]];
      Step(data[..i], data[i]);
      NoWrap(a, data[i]);
      a := Add32(a, data[i]) % MOD;
      NoWrap(b, a);
      b := Add32(b, a) % MOD;
    }
    assert data[..|data|] == data;
    r := b * 0x1_0000 + a;
  }

  /** The weighted sum is the high half: two bytes 1 and 2. */
  lemma TwoByteExample()
    ensures Checksum([1, 2]) == 262147
  {
    assert [1, 2][1..] == [2] && [2][1..] == [];
    assert ByteSum([2]) == 2 && WeightedSum([2]) == 2;
  }

  /** Checksum of a concatenation from the checksums of its parts. */
  lemma ConcatenationLaw(x: Bytes, y: Bytes)
    ensures Low(x + y) == (Low(x) + Low(y)) % MOD
    ensures High(x + y) == (High(x) + Low(x) * |y| + High(y)) % MOD
  {
    SumsOfConcat(x, y);
    AddMod(ByteSum(x), ByteSum(y));
    AddMod(ByteSum(y), Low(x));
    HighOfSum(WeightedSum(x), ByteSum(x), |y|, WeightedSum(y));
  }

  lemma HighOfSum(wx: nat, sx: nat, n: nat, wy: nat)
    ensures (sx % MOD) * n >= 0
    ensures (wx + sx * n + wy) % MOD == (wx % MOD + (sx % MOD) * n + wy % MOD) % MOD
  {
    var q, r := sx / MOD, sx % MOD;
    Distribute(q * MOD, r, n);
    assert sx == q * MOD + r;
    assert q * MOD * n == q * n * MOD;
    NonNegativeProduct(r, n);
    NonNegativeProduct(q, n);
    var rn := r * n;
    DropMultiple(wx + rn + wy, q * n);
    AddMod(wx, rn + wy);
    AddMod(wy, wx % MOD + rn);
  }

  /** The standard checksum's two sums (section 8.2 of RFC 1950), byte by byte from one and zero. */
  function StandardSums(d: Bytes): (nat, nat)
    decreases |d|
  {
    if d == [] then (1, 0) else StandardStep(StandardSums(d[..|d| - 1]), d[|d| - 1])
  }

  function StandardStep(sums: (nat, nat), b: byte): (nat, nat) {
    var low := (sums.0 + b) % MOD;
    (low, (sums.1 + low) % MOD)
  }

  function Shifted(low: nat, high: nat, n: nat): (nat, nat) {
    ((low + 1) % MOD, (high + n) % MOD)
  }

  lemma ShiftedStep(low: nat, high: nat, n: nat, b: byte)
    ensures
      var next := (low + b) % MOD;
      StandardStep(Shifted(low, high, n), b) == Shifted(next, (high + next) % MOD, n + 1)
  {
    var next := (low + b) % MOD;
    AddMod(low + 1, b);
    AddMod(low + b, 1);
    AddMod(high + n, (next + 1) % MOD);
    AddMod(next + 1, high + n);
    AddMod(high + next, n + 1);
  }

  /** The standard checksum is this one with 1 added to the low and the length to the high sum. */
  lemma {:induction false} StandardIsShifted(d: Bytes)
    ensures StandardSums(d) == ((Low(d) + 1) % MOD, (High(d) + |d|) % MOD)
    decreases |d|
  {
    if d == [] {
      assert Low(d) == 0 && High(d) == 0;
    } else {
      var front, b := d[..|d| - 1], d[|d| - 1];
      StandardIsShifted(front);
      assert d == front + [b];
      Step(front, b);
      ShiftedStep(Low(front), High(front), |front|, b);
    }
  }
}
