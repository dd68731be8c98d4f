// Bytes and the little-endian numbers write_val writes and read_value reads.
module Bytes {
  import opened Options

  type byte = b: int | 0 <= b < 256

  // `bytes` stands at p in f.
  ghost predicate At(f: seq<byte>, p: nat, bytes: seq<byte>) {
    p + |bytes| <= |f| && forall i :: 0 <= i < |bytes| ==> f[p + i] == bytes[i]
  }

  lemma AtParts(f: seq<byte>, p: nat, a: seq<byte>, b: seq<byte>)
    requires At(f, p, a + b)
    ensures At(f, p, a) && At(f, p + |a|, b)
  {
    forall i | 0 <= i < |a| ensures f[p + i] == a[i] { assert (a + b)[i] == a[i]; }
    forall i | 0 <= i < |b| ensures f[p + |a| + i] == b[i] { assert (a + b)[|a| + i] == b[i]; }
  }

  lemma AtFirst(f: seq<byte>, g: seq<byte>, p: nat, bytes: seq<byte>)
    requires At(f, p, bytes)
    ensures At(f + g, p, bytes)
  {
  }

  lemma AtSecond(f: seq<byte>, g: seq<byte>, p: nat, bytes: seq<byte>)
    requires At(g, p, bytes)
    ensures At(f + g, |f| + p, bytes)
  {
    forall i | 0 <= i < |bytes| ensures (f + g)[|f| + p + i] == bytes[i] { assert g[p + i] == bytes[i]; }
  }

  lemma AtEnd(f: seq<byte>, bytes: seq<byte>)
    ensures At(f + bytes, |f|, bytes)
  {
  }

  lemma AtFits(f: seq<byte>, p: nat, bytes: seq<byte>)
    requires At(f, p, bytes)
    ensures p + |bytes| <= |f|
  {
  }

  lemma AtSlice(f: seq<byte>, p: nat, bytes: seq<byte>)
    requires At(f, p, bytes)
    ensures f[p..p + |bytes|] == bytes
  {
  }

  // A write_val of `width` bytes, truncating as the cast does.
  function Le(width: nat, v: nat): (r: seq<byte>)
    ensures |r| == width
  {
    if width == 0 then [] else [v % 256] + Le(width - 1, v / 256)
  }

  function FromLe(bytes: seq<byte>): nat {
    if bytes == [] then 0 else bytes[0] + 256 * FromLe(bytes[1..])
  }

  function Pow256(n: nat): (r: nat)
    ensures r >= 1
  {
    if n == 0 then 1 else 256 * Pow256(n - 1)
  }

  // Reading a written number back gives it modulo the width's range.
  lemma {:induction false} LeRoundTrip(width: nat, v: nat)
    ensures v < Pow256(width) ==> FromLe(Le(width, v)) == v
    ensures FromLe(Le(width, v)) < Pow256(width)
  {
    if width > 0 {
      LeRoundTrip(width - 1, v / 256);
      assert Le(width, v)[1..] == Le(width - 1, v / 256);
    }
  }

  lemma Widths()
    ensures Pow256(1) == 0x100 && Pow256(2) == 0x1_0000 && Pow256(4) == 0x1_0000_0000
    ensures Pow256(8) == 0x1_0000_0000_0000_0000
  {
    assert Pow256(3) == 0x100_0000 && Pow256(4) == 0x1_0000_0000;
    assert Pow256(5) == 0x100_0000_0000 && Pow256(6) == 0x1_0000_0000_0000;
    assert Pow256(7) == 0x100_0000_0000_0000;
  }

  // A number read at p, when the file reaches that far.
  function ReadLe(f: seq<byte>, p: nat, width: nat): Option<nat> {
    if p + width <= |f| then Some(FromLe(f[p..p + width])) else None
  }

  lemma {:induction false} ReadsBack(f: seq<byte>, p: nat, width: nat, v: nat)
    requires At(f, p, Le(width, v)) && v < Pow256(width)
    ensures ReadLe(f, p, width) == Some(v)
  {
    AtSlice(f, p, Le(width, v));
    LeRoundTrip(width, v);
  }
}
