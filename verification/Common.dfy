/** Small datatypes and the little-endian integers shared by the project. */
module Common {

  datatype Option<+T> = None | Some(value: T)

  datatype Result<+T> = Ok(value: T) | Err

  /** A byte, kept as an integer so that sums and positions stay in linear arithmetic. */
  type byte = x: int | 0 <= x < 256

  type Bytes = seq<byte>

  /** Bytes in a 32-bit word. */
  const WORD: nat := 4

  /** Bytes in a 64-bit word. */
  const LONG: nat := 8

  const TWO_32 := 0x1_0000_0000
  const TWO_63 := 0x8000_0000_0000_0000
  const TWO_64 := 0x1_0000_0000_0000_0000

  // ----- little-endian unsigned integers -----

  function Le(n: nat, width: nat): (s: Bytes)
    ensures |s| == width
  {
    if width == 0 then [] else [n % 256] + Le(n / 256, width - 1)
  }

  function LeValue(s: Bytes): nat {
    if s == [] then 0 else s[0] + 256 * LeValue(s[1..])
  }

  function Power256(width: nat): (r: nat)
    ensures r > 0
  {
    if width == 0 then 1 else 256 * Power256(width - 1)
  }

  /** Reading back a number that fits its width. */
  lemma {:induction false} LeRoundTrip(n: nat, width: nat)
    requires n < Power256(width)
    ensures LeValue(Le(n, width)) == n
  {
    if width > 0 {
      LeRoundTrip(n / 256, width - 1);
      assert Le(n, width)[1..] == Le(n / 256, width - 1);
    }
  }

  lemma {:induction false} LeBound(s: Bytes)
    ensures LeValue(s) < Power256(|s|)
  {
    if s != [] {
      LeBound(s[1..]);
    }
  }

  lemma Le4RoundTrip(n: nat)
    requires n < TWO_32
    ensures LeValue(Le(n, WORD)) == n
  {
    LeRoundTrip(n, WORD);
  }

  lemma Le8RoundTrip(n: nat)
    requires n < TWO_64
    ensures LeValue(Le(n, LONG)) == n
  {
    LeRoundTrip(n, LONG);
  }

  /** The low byte of a word comes first. */
  lemma {:induction false} WordIsLowByteFirst(s: Bytes)
    requires |s| == 4
    ensures LeValue(s) == s[0] as int + 0x100 * (s[1] as int) + 0x1_0000 * (s[2] as int) + 0x100_0000 * (s[3] as int)
  {
    assert s[1..][1..] == s[2..] && s[2..][1..] == s[3..] && s[3..][1..] == [];
    assert LeValue(s[3..]) == s[3] + 256 * LeValue([]);
    assert LeValue(s[2..]) == s[2] + 256 * LeValue(s[3..]);
    assert LeValue(s[1..]) == s[1] + 256 * LeValue(s[2..]);
  }

  lemma {:induction false} LongIsLowWordFirst(s: Bytes)
    requires |s| == 8
    ensures LeValue(s) == LeValue(s[..4]) + 0x1_0000_0000 * LeValue(s[4..])
  {
    WordIsLowByteFirst(s[..4]);
    assert s[1..][1..] == s[2..] && s[2..][1..] == s[3..] && s[3..][1..] == s[4..];
    assert LeValue(s) == s[0] + 256 * LeValue(s[1..]);
    assert LeValue(s[1..]) == s[1] + 256 * LeValue(s[2..]);
    assert LeValue(s[2..]) == s[2] + 256 * LeValue(s[3..]);
    assert LeValue(s[3..]) == s[3] + 256 * LeValue(s[4..]);
  }

  lemma ConcatAssoc<T>(a: seq<T>, b: seq<T>, c: seq<T>)
    ensures a + (b + c) == (a + b) + c
  {
  }

  // ----- remainders -----

  lemma Distribute(a: int, b: int, c: int)
    ensures (a + b) * c == a * c + b * c
  {
  }

  /** Quotient and remainder are determined by the division equation. */
  lemma RemainderIs(a: int, q: int, r: int, n: int)
    requires n > 0 && 0 <= r < n && a == q * n + r
    ensures a % n == r
  {
    var d := q - a / n;
    assert a == a / n * n + a % n;
    Distribute(d, a / n, n);
    assert d * n == a % n - r;
    if d >= 1 {
      Distribute(d - 1, 1, n);
      NonNegativeProduct(d - 1, n);
    } else if d <= -1 {
      Distribute(d + 1, -d - 1, n);
      Distribute(-1 - d, 1, n);
      NonNegativeProduct(-1 - d, n);
      Distribute(d, -d, n);
    }
  }

  lemma NonNegativeProduct(a: int, b: int)
    requires a >= 0 && b >= 0
    ensures a * b >= 0
  {
  }
}
