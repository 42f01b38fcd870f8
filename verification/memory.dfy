/** Byte-addressed guest memory: little-endian words, and the memcpy the hypervisors use
    to move bytes between a host buffer and a guest. */
module Memory {

  type byte = x: int | 0 <= x < 256
  type word = x: int | 0 <= x < 0x1_0000_0000
  type int32 = x: int | -0x8000_0000 <= x < 0x8000_0000

  /** The memory every virtual machine of the second assignment is given (2 MB). */
  const MEM_SIZE: nat := 0x20_0000

  // ---------- Little-endian integers ----------

  function Pow256(n: nat): (p: nat)
    ensures p > 0
  {
    if n == 0 then 1 else 256 * Pow256(n - 1)
  }

  function FromLE(s: seq<byte>): (v: nat)
    ensures v < Pow256(|s|)
  {
    if s == [] then 0 else s[0] + 256 * FromLE(s[1..])
  }

  function ToLE(v: nat, n: nat): (s: seq<byte>)
    ensures |s| == n
  {
    if n == 0 then [] else [v % 256] + ToLE(v / 256, n - 1)
  }

  /** Reading back a stored integer gives that integer. */
  lemma {:induction false} FromToLE(v: nat, n: nat)
    requires v < Pow256(n)
    ensures FromLE(ToLE(v, n)) == v
  {
    if n != 0 {
      FromToLE(v / 256, n - 1);
      assert ToLE(v, n)[1..] == ToLE(v / 256, n - 1);
    }
  }

  /** Storing what was read changes no byte. */
  lemma {:induction false} ToFromLE(s: seq<byte>)
    ensures ToLE(FromLE(s), |s|) == s
  {
    if s != [] {
      ToFromLE(s[1..]);
      var r := FromLE(s[1..]);
      assert (s[0] + 256 * r) % 256 == s[0] && (s[0] + 256 * r) / 256 == r;
    }
  }

  lemma Pow256Values()
    ensures Pow256(2) == 0x1_0000
    ensures Pow256(4) == 0x1_0000_0000
    ensures Pow256(8) == 0x1_0000_0000_0000_0000
  {
    assert Pow256(1) == 256 && Pow256(2) == 0x1_0000;
    assert Pow256(3) == 0x100_0000 && Pow256(4) == 0x1_0000_0000;
    assert Pow256(5) == 0x100_0000_0000 && Pow256(6) == 0x1_0000_0000_0000;
    assert Pow256(7) == 0x100_0000_0000_0000;
  }

  // ---------- Unsigned 32-bit arithmetic ----------

  function Wrap32(n: nat): word {
    n % 0x1_0000_0000
  }

  lemma Wrap32Small(a: word)
    ensures Wrap32(a) == a
  {
  }

  lemma Wrap32Add(a: nat, b: nat)
    ensures Wrap32(Wrap32(a) + b) == Wrap32(a + b)
  {
    var q := a / 0x1_0000_0000;
    assert a + b == (Wrap32(a) + b) + 0x1_0000_0000 * q;
  }

  // ---------- C int in two's complement ----------

  function ToUnsigned(i: int32): word {
    if i < 0 then i + 0x1_0000_0000 else i
  }

  function ToSigned(v: word): int32 {
    if v >= 0x8000_0000 then v - 0x1_0000_0000 else v
  }

  function WordBytes(v: word): (s: seq<byte>)
    ensures |s| == 4
  {
    ToLE(v, 4)
  }

  function BytesWord(s: seq<byte>): word
    requires |s| == 4
  {
    Pow256Values();
    FromLE(s)
  }

  function IntBytes(i: int32): (s: seq<byte>)
    ensures |s| == 4
  {
    WordBytes(ToUnsigned(i))
  }

  function BytesInt(s: seq<byte>): int32
    requires |s| == 4
  {
    ToSigned(BytesWord(s))
  }

  /** A four-byte word survives being stored and loaded, as unsigned and as int. */
  lemma WordRoundTrip(v: word)
    ensures BytesWord(WordBytes(v)) == v
    ensures BytesInt(WordBytes(v)) == ToSigned(v)
  {
    Pow256Values();
    FromToLE(v, 4);
  }

  lemma IntRoundTrip(i: int32)
    ensures BytesInt(IntBytes(i)) == i
  {
    WordRoundTrip(ToUnsigned(i));
  }

  lemma BytesRoundTrip(s: seq<byte>)
    requires |s| == 4
    ensures IntBytes(BytesInt(s)) == s
    ensures WordBytes(BytesWord(s)) == s
  {
    ToFromLE(s);
  }

  // ---------- Arrays of int ----------

  function IntsBytes(ws: seq<int32>): (bs: seq<byte>)
    ensures |bs| == 4 * |ws|
  {
    if ws == [] then [] else IntBytes(ws[0]) + IntsBytes(ws[1..])
  }

  function IntAt(bs: seq<byte>, k: nat): int32
    requires 4 * k + 4 <= |bs|
  {
    BytesInt(bs[4 * k..4 * k + 4])
  }

  lemma {:induction false} IntAtIntsBytes(ws: seq<int32>, k: nat)
    requires k < |ws|
    ensures IntAt(IntsBytes(ws), k) == ws[k]
  {
    var bs := IntsBytes(ws);
    if k == 0 {
      IntRoundTrip(ws[0]);
      assert bs[0..4] == IntBytes(ws[0]);
    } else {
      IntAtIntsBytes(ws[1..], k - 1);
      assert bs[4 * k..4 * k + 4] == IntsBytes(ws[1..])[4 * (k - 1)..4 * (k - 1) + 4];
    }
  }

  lemma {:induction false} IntsBytesUnique(ws: seq<int32>, bs: seq<byte>)
    requires |bs| == 4 * |ws|
    requires forall k :: 0 <= k < |ws| ==> IntAt(bs, k) == ws[k]
    ensures IntsBytes(ws) == bs
  {
    if ws != [] {
      var tail := bs[4..];
      forall k | 0 <= k < |ws| - 1
        ensures IntAt(tail, k) == ws[1..][k]
      {
        assert tail[4 * k..4 * k + 4] == bs[4 * (k + 1)..4 * (k + 1) + 4];
        assert IntAt(bs, k + 1) == ws[k + 1];
      }
      IntsBytesUnique(ws[1..], tail);
      assert IntAt(bs, 0) == ws[0];
      BytesRoundTrip(bs[0..4]);
    }
  }

  // ---------- memcpy ----------

  /** Memory m after the bytes bs are copied to address a. */
  function Splice(m: seq<byte>, a: nat, bs: seq<byte>): (r: seq<byte>)
    requires a + |bs| <= |m|
    ensures |r| == |m|
    ensures r[a..a + |bs|] == bs
    ensures forall i :: 0 <= i < |m| && !(a <= i < a + |bs|) ==> r[i] == m[i]
  {
    m[..a] + bs + m[a + |bs|..]
  }

  /** A copy leaves every range it does not touch as it was. */
  lemma SpliceFrame(m: seq<byte>, a: nat, bs: seq<byte>, b: nat, n: nat)
    requires a + |bs| <= |m| && b + n <= |m|
    requires b + n <= a || a + |bs| <= b
    ensures Splice(m, a, bs)[b..b + n] == m[b..b + n]
  {
  }

  /** Copying a range onto itself is no change. */
  lemma SpliceSame(m: seq<byte>, a: nat, n: nat)
    requires a + n <= |m|
    ensures Splice(m, a, m[a..a + n]) == m
  {
  }

  /** A later copy to the same range wins. */
  lemma SpliceTwice(m: seq<byte>, a: nat, bs: seq<byte>, cs: seq<byte>)
    requires a + |bs| <= |m| && |bs| == |cs|
    ensures Splice(Splice(m, a, bs), a, cs) == Splice(m, a, cs)
  {
  }

  /** Two copies to adjacent ranges are one. */
  lemma SpliceExtend(m: seq<byte>, a: nat, bs: seq<byte>, cs: seq<byte>)
    requires a + |bs| + |cs| <= |m|
    ensures Splice(Splice(m, a, bs), a + |bs|, cs) == Splice(m, a, bs + cs)
  {
    var s := Splice(m, a, bs);
    assert s[..a + |bs|] == m[..a] + bs;
    assert s[a + |bs| + |cs|..] == m[a + |bs| + |cs|..];
    assert m[..a] + bs + cs + m[a + |bs| + |cs|..] == m[..a] + (bs + cs) + m[a + |bs| + |cs|..];
  }

  /** A copy inside a copied range is a change of what was copied. */
  lemma SpliceInside(m: seq<byte>, a: nat, bs: seq<byte>, b: nat, cs: seq<byte>)
    requires a + |bs| <= |m| && b + |cs| <= |bs|
    ensures Splice(Splice(m, a, bs), a + b, cs) == Splice(m, a, Splice(bs, b, cs))
  {
    var s := Splice(m, a, bs);
    assert s[..a + b] == m[..a] + bs[..b];
    assert s[a + b + |cs|..] == bs[b + |cs|..] + m[a + |bs|..];
    assert m[..a] + bs[..b] + cs + (bs[b + |cs|..] + m[a + |bs|..])
        == m[..a] + (bs[..b] + cs + bs[b + |cs|..]) + m[a + |bs|..];
  }

  /** memcpy from a host buffer into a guest's memory. */
  method Memcpy(dst: array<byte>, a: nat, src: seq<byte>)
    requires a + |src| <= dst.Length
    modifies dst
    ensures dst[..] == Splice(old(dst[..]), a, src)
  {
    for i := 0 to |src|
      invariant dst[a..a + i] == src[..i]
      invariant forall k :: 0 <= k < dst.Length && !(a <= k < a + i) ==> dst[k] == old(dst[k])
    {
      dst[a + i] := src[i];
    }
    assert dst[a..a + |src|] == src;
    assert dst[..] == dst[..a] + dst[a..a + |src|] + dst[a + |src|..];
  }
}
