/** The envelope around depot data: an ECB-encrypted IV, CBC, and PKCS#7 padding, over any block cipher. */
module SteamCrypto {
  import opened Common

  type Octets = seq<bv8>

  const BLOCK := 16
  const KEY_SIZE := 32

  ghost predicate InverseAt(enc: Octets -> Octets, dec: Octets -> Octets, b: Octets) {
    dec(enc(b)) == b && enc(dec(b)) == b
  }

  /** Encryption and decryption of single blocks under one key: inverse to each other. */
  ghost predicate BlockCipher(enc: Octets -> Octets, dec: Octets -> Octets) {
    && KeepsBlocks(enc) && KeepsBlocks(dec)
    && forall b: Octets {:trigger InverseAt(enc, dec, b)} :: |b| == BLOCK ==> InverseAt(enc, dec, b)
  }

  ghost predicate KeepsBlocks(dec: Octets -> Octets) {
    forall b: Octets {:trigger dec(b)} :: |b| == BLOCK ==> |dec(b)| == BLOCK
  }

  function Xor(a: Octets, b: Octets): (r: Octets)
    requires |a| == |b|
    ensures |r| == |a| && forall i :: 0 <= i < |r| ==> r[i] == a[i] ^ b[i]
  {
    seq(|a|, i requires 0 <= i < |a| => a[i] ^ b[i])
  }

  lemma XorTwice(a: Octets, b: Octets)
    requires |a| == |b|
    ensures Xor(Xor(a, b), b) == a
  {
    var r := Xor(Xor(a, b), b);
    forall i | 0 <= i < |a| ensures r[i] == a[i] {
      assert (a[i] ^ b[i]) ^ b[i] == a[i];
    }
  }

  // ----- cipher block chaining (sections 6.1 and 6.2 of NIST SP 800-38A) -----

  ghost function CbcEncrypt(enc: Octets -> Octets, iv: Octets, p: Octets): (r: Octets)
    requires KeepsBlocks(enc) && |iv| == BLOCK && |p| % BLOCK == 0
    ensures |r| == |p|
    decreases |p|
  {
    if p == [] then [] else
    var c := enc(Xor(p[..BLOCK], iv));
    c + CbcEncrypt(enc, c, p[BLOCK..])
  }

  ghost function CbcDecrypt(dec: Octets -> Octets, iv: Octets, c: Octets): (r: Octets)
    requires KeepsBlocks(dec) && |iv| == BLOCK && |c| % BLOCK == 0
    ensures |r| == |c|
    decreases |c|
  {
    if c == [] then [] else
    Xor(dec(c[..BLOCK]), iv) + CbcDecrypt(dec, c[..BLOCK], c[BLOCK..])
  }

  lemma {:induction false} DecryptInvertsEncrypt(enc: Octets -> Octets, dec: Octets -> Octets, iv: Octets, p: Octets)
    requires BlockCipher(enc, dec) && |iv| == BLOCK && |p| % BLOCK == 0
    ensures CbcDecrypt(dec, iv, CbcEncrypt(enc, iv, p)) == p
    decreases |p|
  {
    if p != [] {
      var b, rest := p[..BLOCK], p[BLOCK..];
      var x := Xor(b, iv);
      DecryptInvertsEncrypt(enc, dec, enc(x), rest);
      XorTwice(b, iv);
      assert p == b + rest && InverseAt(enc, dec, x);
    }
  }

  /** A block that is decrypted and encrypted again under the same chaining value. */
  lemma {:induction false} ReencryptStep(enc: Octets -> Octets, dec: Octets -> Octets, iv: Octets, b: Octets,
                                         inner: Octets)
    requires BlockCipher(enc, dec) && |iv| == BLOCK && |b| == BLOCK && |inner| % BLOCK == 0
    ensures CbcEncrypt(enc, iv, Xor(dec(b), iv) + inner) == b + CbcEncrypt(enc, b, inner)
  {
    XorTwice(dec(b), iv);
    assert InverseAt(enc, dec, b);
  }

  lemma {:induction false} EncryptInvertsDecrypt(enc: Octets -> Octets, dec: Octets -> Octets, iv: Octets, c: Octets)
    requires BlockCipher(enc, dec) && |iv| == BLOCK && |c| % BLOCK == 0
    ensures CbcEncrypt(enc, iv, CbcDecrypt(dec, iv, c)) == c
    decreases |c|
  {
    if c != [] {
      var b, rest := c[..BLOCK], c[BLOCK..];
      EncryptInvertsDecrypt(enc, dec, b, rest);
      ReencryptStep(enc, dec, iv, b, CbcDecrypt(dec, b, rest));
      assert c == b + rest;
    }
  }

  /** Block `k` is decrypted on its own and combined with the ciphertext block before it. */
  lemma {:induction false} BlockByBlock(dec: Octets -> Octets, iv: Octets, c: Octets, k: nat)
    requires KeepsBlocks(dec) && |iv| == 16 && |c| % 16 == 0 && 16 * k + 16 <= |c|
    ensures CbcDecrypt(dec, iv, c)[16 * k..16 * k + 16] ==
            Xor(dec(c[16 * k..16 * k + 16]), if k == 0 then iv else c[16 * k - 16..16 * k])
    decreases k
  {
    if k > 0 {
      var at, rest := 16 * k, c[16..];
      BlockByBlock(dec, c[..16], rest, k - 1);
      var first, more := Xor(dec(c[..16]), iv), CbcDecrypt(dec, c[..16], rest);
      assert (first + more)[at..at + 16] == more[at - 16..at];
      assert rest[at - 16..at] == c[at..at + 16];
      assert k > 1 ==> rest[at - 32..at - 16] == c[at - 16..at];
    }
  }

  // ----- padding (section 6.3 of RFC 5652) -----

  function Padding(n: nat): (r: Octets)
    requires 1 <= n <= BLOCK
    ensures |r| == n
  {
    seq(n, _ => n as bv8)
  }

  function Pad(m: Octets): (r: Octets)
    ensures |r| % BLOCK == 0 && |r| > |m|
  {
    m + Padding(BLOCK - |m| % BLOCK)
  }

  /** `data` is `m` followed by some padding, aligned or not. */
  ghost predicate IsPadded(data: Octets, m: Octets) {
    exists n :: 1 <= n <= BLOCK && data == m + Padding(n)
  }

  /** The padding is known from the last byte. */
  lemma LastByteTells(m: Octets, n: nat)
    requires 1 <= n <= BLOCK
    ensures
      var data := m + Padding(n);
      data[|data| - 1] as int == n && m == data[..|data| - n]
  {
    assert (n as bv8) as int == n;
  }

  /** On aligned data the padded messages are exactly the results of padding. */
  lemma AlignedPaddingIsPad(data: Octets, m: Octets)
    requires |data| % BLOCK == 0
    ensures IsPadded(data, m) <==> data == Pad(m)
  {
    if IsPadded(data, m) {
      var n :| 1 <= n <= BLOCK && data == m + Padding(n);
      assert (|m| + n) % BLOCK == 0;
      assert n == BLOCK - |m| % BLOCK;
    }
  }

  /** The same, from the last byte. */
  lemma PaddedByLastByte(data: Octets, m: Octets)
    requires data != []
    ensures
      var n := data[|data| - 1] as int;
      IsPadded(data, m) <==> 1 <= n <= BLOCK && n <= |data| && data == m + Padding(n)
  {
    if n :| 1 <= n <= BLOCK && data == m + Padding(n) {
      LastByteTells(m, n);
    }
  }

  /** Padding is one to sixteen bytes, each of them their number. */
  lemma PaddedExactly(data: Octets, m: Octets)
    ensures IsPadded(data, m) <==>
            m <= data && 1 <= |data| - |m| <= 16 && forall i :: |m| <= i < |data| ==> data[i] as int == |data| - |m|
  {
    var n := |data| - |m|;
    if 1 <= n <= 16 {
      PaddingBytes(data[|m|..], n);
      assert m <= data ==> data == m + data[|m|..];
      assert forall i :: |m| <= i < |data| ==> data[i] == data[|m|..][i - |m|];
    }
  }

  lemma PaddingBytes(s: Octets, n: nat)
    requires 1 <= n <= 16 && |s| == n
    ensures s == Padding(n) <==> forall i :: 0 <= i < n ==> s[i] as int == n
  {
    assert (n as bv8) as int == n;
    assert forall i :: 0 <= i < n ==> (s[i] as int == n <==> s[i] == n as bv8);
  }

  method RemovePkcs7Padding(data: Octets) returns (r: Result<Octets>)
    ensures data == [] ==> r == Ok([])
    ensures data != [] ==> forall m :: r == Ok(m) <==> IsPadded(data, m)
  {
    if |data| == 0 {
      return Ok(data);
    }
    var padLen := data[|data| - 1] as int;
    forall m {
      PaddedByLastByte(data, m);
    }
    if padLen == 0 || padLen > BLOCK || padLen > |data| {
      return Err;
    }
    for i := |data| - padLen to |data|
      invariant forall k :: |data| - padLen <= k < i ==> data[k] == padLen as bv8
    {
      if data[i] != padLen as bv8 {
        return Err;
      }
    }
    var m := data[..|data| - padLen];
    assert data == m + Padding(padLen);
    return Ok(m);
  }

  // ----- the whole envelope -----

  ghost function SteamEncrypted(enc: Octets -> Octets, iv: Octets, m: Octets): Octets
    requires KeepsBlocks(enc) && |iv| == BLOCK
  {
    enc(iv) + CbcEncrypt(enc, iv, Pad(m))
  }

  /** What a message looks like on the wire; a bare IV block also stands for no data. */
  ghost predicate IsEnvelope(enc: Octets -> Octets, data: Octets, m: Octets)
    requires KeepsBlocks(enc)
  {
    (|data| == BLOCK && m == []) || exists iv :: |iv| == BLOCK && data == SteamEncrypted(enc, iv, m)
  }

  /** `steamDecrypt` with its two buffers; `dec` is the block decryption under `key`. */
  method SteamDecrypt(data: Octets, key: Octets, dec: Octets -> Octets) returns (r: Result<Octets>)
    requires KeepsBlocks(dec)
    ensures |key| != 32 || |data| < 16 || |data| % 16 != 0 ==> r.Err?
    ensures |key| == 32 && |data| == 16 ==> r == Ok([])
    ensures |key| == 32 && |data| > 16 && |data| % 16 == 0 ==>
              forall m :: r == Ok(m) <==> CbcDecrypt(dec, dec(data[..16]), data[16..]) == Pad(m)
  {
    if |key| != KEY_SIZE || |data| < BLOCK {
      return Err;
    }
    var iv := dec(data[..BLOCK]);
    var ciphertext := data[BLOCK..];
    if |ciphertext| == 0 {
      return Ok([]);
    }
    if |ciphertext| % BLOCK != 0 {
      return Err;
    }
    var plaintext := new bv8[|ciphertext|];
    CryptBlocks(plaintext, ciphertext, iv, dec);
    var padded := plaintext[..];
    r := RemovePkcs7Padding(padded);
    forall m ensures IsPadded(padded, m) <==> padded == Pad(m) {
      AlignedPaddingIsPad(padded, m);
    }
  }

  /** CBC decryption into a buffer, block by block. */
  method CryptBlocks(dst: array<bv8>, src: Octets, iv: Octets, dec: Octets -> Octets)
    requires KeepsBlocks(dec) && |iv| == BLOCK && dst.Length == |src| && |src| % BLOCK == 0
    modifies dst
    ensures dst[..] == CbcDecrypt(dec, iv, src)
  {
    var pos, prev := 0, iv;
    assert src[0..] == src && dst[..0] == [];
    while pos < |src|
      invariant 0 <= pos <= |src| && DecryptedTo(dec, iv, src, dst[..pos], prev, pos)
    {
      var block := src[pos..pos + BLOCK];
      ghost var done := dst[..pos];
      var plain := Xor(dec(block), prev);
      StoreBlock(dst, pos, plain);
      assert dst[..pos + BLOCK] == done + plain;
      DecryptFront(dec, iv, src, done, prev, pos);
      pos, prev := pos + BLOCK, block;
    }
    assert src[pos..] == [] && dst[..pos] == dst[..];
  }

  /** The block loop has put `done` out and stands at `pos` with chaining value `prev`. */
  ghost predicate DecryptedTo(dec: Octets -> Octets, iv: Octets, src: Octets, done: Octets, prev: Octets, pos: nat)
    requires KeepsBlocks(dec) && |iv| == BLOCK && |src| % BLOCK == 0
  {
    && pos <= |src| && pos % BLOCK == 0 && |prev| == BLOCK
    && CbcDecrypt(dec, iv, src) == done + CbcDecrypt(dec, prev, src[pos..])
  }

  /** One round of the block loop. */
  lemma DecryptFront(dec: Octets -> Octets, iv: Octets, src: Octets, done: Octets, prev: Octets, pos: nat)
    requires KeepsBlocks(dec) && |iv| == BLOCK && |src| % BLOCK == 0
    requires pos < |src| && DecryptedTo(dec, iv, src, done, prev, pos)
    ensures pos + BLOCK <= |src|
    ensures
      var block := src[pos..pos + BLOCK];
      DecryptedTo(dec, iv, src, done + Xor(dec(block), prev), block, pos + BLOCK)
  {
    var block, rest := src[pos..pos + BLOCK], src[pos + BLOCK..];
    assert src[pos..] == block + rest;
    ConcatAssoc(done, Xor(dec(block), prev), CbcDecrypt(dec, block, rest));
  }

  method StoreBlock(dst: array<bv8>, pos: nat, plain: Octets)
    requires pos + |plain| <= dst.Length
    modifies dst
    ensures dst[..pos + |plain|] == old(dst[..pos]) + plain
  {
    for i := 0 to |plain|
      invariant dst[..pos + i] == old(dst[..pos]) + plain[..i]
    {
      dst[pos + i] := plain[i];
      assert dst[..pos + i + 1] == dst[..pos + i] + [plain[i]];
      assert plain[..i + 1] == plain[..i] + [plain[i]];
    }
    assert plain[..|plain|] == plain;
  }

  /** Decryption returns a message exactly for that message's envelopes. */
  lemma DecryptsExactlyEnvelopes(enc: Octets -> Octets, dec: Octets -> Octets, data: Octets, m: Octets)
    requires BlockCipher(enc, dec) && |data| > BLOCK && |data| % BLOCK == 0
    ensures CbcDecrypt(dec, dec(data[..BLOCK]), data[BLOCK..]) == Pad(m) <==> IsEnvelope(enc, data, m)
  {
    var head, body := data[..BLOCK], data[BLOCK..];
    assert data == head + body && InverseAt(enc, dec, head);
    if CbcDecrypt(dec, dec(head), body) == Pad(m) {
      EncryptInvertsDecrypt(enc, dec, dec(head), body);
      assert data == SteamEncrypted(enc, dec(head), m);
    }
    if iv :| |iv| == BLOCK && data == SteamEncrypted(enc, iv, m) {
      assert InverseAt(enc, dec, iv);
      assert head == enc(iv) && body == CbcEncrypt(enc, iv, Pad(m));
      DecryptInvertsEncrypt(enc, dec, iv, Pad(m));
    }
  }
}
