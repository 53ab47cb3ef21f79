/** Fixed-width unsigned integers as bytes, in both byte orders. */
module Words {
  import opened Blocks

  function Pow256(n: nat): (r: nat)
    ensures 0 < r
  {
    if n == 0 then 1 else 256 * Pow256(n - 1)
  }

  function Big(n: nat, v: nat): (r: seq<byte>)
    ensures |r| == n
  {
    seq(n, i requires 0 <= i < n => v / Pow256(n - 1 - i) % 256)
  }

  function FromBig(b: seq<byte>): nat {
    if b == [] then 0 else FromBig(b[..|b| - 1]) * 256 + b[|b| - 1]
  }

  function Little(n: nat, v: nat): (r: seq<byte>)
    ensures |r| == n
  {
    seq(n, i requires 0 <= i < n => v / Pow256(i) % 256)
  }

  function FromLittle(b: seq<byte>): nat {
    if b == [] then 0 else b[0] + 256 * FromLittle(b[1..])
  }

  /** The widths in use. */
  lemma WordSizes()
    ensures Pow256(2) == TWO_16 && Pow256(4) == TWO_32 && Pow256(8) == TWO_64
  {
    assert Pow256(4) == 256 * 256 * Pow256(2);
    assert Pow256(8) == 256 * 256 * 256 * 256 * Pow256(4);
  }

  lemma DivDiv(v: nat, m: nat)
    requires 0 < m
    ensures (v / 256) / m == v / (256 * m)
  {
    var q, r := v / (256 * m), v % (256 * m);
    assert v == 256 * (m * q) + r;
    assert v / 256 == m * q + r / 256;
    assert 0 <= r / 256 < m;
    DivUnique(v / 256, m, q, r / 256);
  }

  lemma {:induction false} MulStep(m: nat, a: nat, b: nat)
    requires a < b
    ensures m * a + m <= m * b
  {
    if a + 1 < b {
      MulStep(m, a, b - 1);
    }
  }

  lemma DivUnique(x: nat, m: nat, q: nat, r: nat)
    requires 0 < m && x == m * q + r && r < m
    ensures x / m == q
  {
    var d := x / m;
    assert m * d <= x < m * d + m;
    if d < q {
      MulStep(m, d, q);
    } else if q < d {
      MulStep(m, q, d);
    }
  }

  lemma BigStep(n: nat, v: nat)
    requires n > 0
    ensures Big(n, v) == Big(n - 1, v / 256) + [v % 256]
  {
    forall i | 0 <= i < n - 1
      ensures Big(n, v)[i] == Big(n - 1, v / 256)[i]
    {
      DivDiv(v, Pow256(n - 2 - i));
      assert Pow256(n - 1 - i) == 256 * Pow256(n - 2 - i);
    }
    assert Pow256(0) == 1 && Big(n, v)[n - 1] == v % 256;
  }

  lemma LittleStep(n: nat, v: nat)
    requires n > 0
    ensures Little(n, v) == [v % 256] + Little(n - 1, v / 256)
  {
    forall i | 0 < i < n
      ensures Little(n, v)[i] == Little(n - 1, v / 256)[i - 1]
    {
      DivDiv(v, Pow256(i - 1));
    }
  }

  lemma {:induction false} BigRoundTrip(n: nat, v: nat)
    requires v < Pow256(n)
    ensures FromBig(Big(n, v)) == v
  {
    if n > 0 {
      BigRoundTrip(n - 1, v / 256);
      BigStep(n, v);
      assert Big(n, v)[..n - 1] == Big(n - 1, v / 256);
    }
  }

  lemma {:induction false} FromBigRoundTrip(b: seq<byte>)
    ensures FromBig(b) < Pow256(|b|)
    ensures Big(|b|, FromBig(b)) == b
  {
    if b != [] {
      FromBigRoundTrip(b[..|b| - 1]);
      assert FromBig(b) % 256 == b[|b| - 1] && FromBig(b) / 256 == FromBig(b[..|b| - 1]);
      BigStep(|b|, FromBig(b));
      assert b == b[..|b| - 1] + [b[|b| - 1]];
    }
  }

  lemma {:induction false} LittleRoundTrip(n: nat, v: nat)
    requires v < Pow256(n)
    ensures FromLittle(Little(n, v)) == v
  {
    if n > 0 {
      LittleRoundTrip(n - 1, v / 256);
      LittleStep(n, v);
      assert Little(n, v)[1..] == Little(n - 1, v / 256);
    }
  }

  lemma {:induction false} FromLittleRoundTrip(b: seq<byte>)
    ensures FromLittle(b) < Pow256(|b|)
    ensures Little(|b|, FromLittle(b)) == b
  {
    if b != [] {
      FromLittleRoundTrip(b[1..]);
      assert FromLittle(b) % 256 == b[0] && FromLittle(b) / 256 == FromLittle(b[1..]);
      LittleStep(|b|, FromLittle(b));
      assert b == [b[0]] + b[1..];
    }
  }

  lemma {:induction false} FromLittleSnoc(b: seq<byte>, x: byte)
    ensures FromLittle(b + [x]) == FromLittle(b) + x * Pow256(|b|)
  {
    if b != [] {
      FromLittleSnoc(b[1..], x);
      assert (b + [x])[1..] == b[1..] + [x];
      assert 256 * (x * Pow256(|b| - 1)) == x * Pow256(|b|);
    }
  }

  lemma SliceSlice(s: seq<byte>, a: nat, b: nat, i: nat, j: nat)
    requires a <= b <= |s| && i <= j <= b - a
    ensures s[a..b][i..j] == s[a + i..a + j]
  {
    forall k | 0 <= k < j - i
      ensures s[a..b][i..j][k] == s[a + i..a + j][k]
    {
      assert s[a..b][i..j][k] == s[a..b][i + k];
    }
  }

  /** Adjacent slices join. */
  lemma SliceJoin(s: seq<byte>, a: nat, b: nat, c: nat)
    requires a <= b <= c <= |s|
    ensures s[a..b] + s[b..c] == s[a..c]
  {
  }

  lemma Regroup(a: seq<byte>, b: seq<byte>, c: seq<byte>)
    ensures (a + b) + c == a + (b + c)
  {
  }

  /** PutU16, PutU32 and PutU64 of the wire codec, for widths 2, 4 and 8. */
  method PutBig(out: array<byte>, offset: nat, n: nat, v: nat)
    requires offset + n <= out.Length
    modifies out
    ensures out[..] == old(out[..offset]) + Big(n, v) + old(out[offset + n..])
  {
    for i := 0 to n
      invariant forall j :: 0 <= j < i ==> out[offset + j] == Big(n, v)[j]
      invariant out[..offset] == old(out[..offset]) && out[offset + n..] == old(out[offset + n..])
    {
      out[offset + i] := v / Pow256(n - 1 - i) % 256;
    }
    assert out[offset..offset + n] == Big(n, v);
    assert out[..] == out[..offset] + out[offset..offset + n] + out[offset + n..];
  }

  /** GetU16, GetU32 and GetU64 of the wire codec. */
  method GetBig(data: seq<byte>, offset: nat, n: nat) returns (v: nat)
    requires offset + n <= |data|
    ensures v == FromBig(data[offset..offset + n])
  {
    v := 0;
    for i := 0 to n
      invariant v == FromBig(data[offset..offset + i])
    {
      assert data[offset..offset + i + 1][..i] == data[offset..offset + i];
      v := v * 256 + data[offset + i];
    }
  }

  /** PutU16, PutU32 and PutU64 of the block codec: appends `v`. */
  method PutLittle(blob: seq<byte>, n: nat, v: nat) returns (r: seq<byte>)
    ensures r == blob + Little(n, v)
  {
    r := blob;
    for i := 0 to n
      invariant r == blob + Little(n, v)[..i]
    {
      r := r + [v / Pow256(i) % 256];
    }
  }

  /** GetU16, GetU32 and GetU64 of the block codec. */
  method GetLittle(data: seq<byte>, offset: nat, n: nat) returns (v: nat)
    requires offset + n <= |data|
    ensures v == FromLittle(data[offset..offset + n])
  {
    v := 0;
    for i := 0 to n
      invariant v == FromLittle(data[offset..offset + i])
    {
      FromLittleSnoc(data[offset..offset + i], data[offset + i]);
      assert data[offset..offset + i + 1] == data[offset..offset + i] + [data[offset + i]];
      v := v + data[offset + i] * Pow256(i);
    }
  }
}
