// Paged dictionary files (src/blob_file.cpp, src/blob_file.hpp): a cursor over fixed-size pages that
// must read exactly what a plain pointer into the whole file would.
module PagedFile {
  import opened Bytes

  // page_cache::lookahead_bytes
  const LOOKAHEAD := 16

  function ZeroBytes(n: nat): (r: seq<byte>)
    ensures |r| == n && forall i :: 0 <= i < n ==> r[i] == 0
  {
    seq(n, _ => 0)
  }

  // The file and the zeros behind it that a page's lookahead shows.
  function Padded(f: seq<byte>): (r: seq<byte>)
    ensures |r| == |f| + LOOKAHEAD
  {
    f + ZeroBytes(LOOKAHEAD)
  }

  function PageStart(pageBytes: nat, index: nat): nat { pageBytes * index }

  function PageSize(f: seq<byte>, pageBytes: nat, index: nat): (n: nat)
    requires PageStart(pageBytes, index) <= |f|
    ensures n <= pageBytes && PageStart(pageBytes, index) + n <= |f|
  {
    var remaining := |f| - PageStart(pageBytes, index);
    if pageBytes < remaining then pageBytes else remaining
  }

  // What the cache hands out for a page: its bytes, and the lookahead.
  function PageData(f: seq<byte>, pageBytes: nat, index: nat): (r: seq<byte>)
    requires PageStart(pageBytes, index) <= |f|
    ensures |r| == PageSize(f, pageBytes, index) + LOOKAHEAD
  {
    var start := PageStart(pageBytes, index);
    Padded(f)[start..start + PageSize(f, pageBytes, index) + LOOKAHEAD]
  }

  lemma PageOf(pageBytes: nat, offset: nat)
    requires pageBytes > 0
    ensures PageStart(pageBytes, offset / pageBytes) <= offset < PageStart(pageBytes, offset / pageBytes) + pageBytes
    ensures offset == PageStart(pageBytes, offset / pageBytes) + offset % pageBytes
  {
    assert offset == pageBytes * (offset / pageBytes) + offset % pageBytes;
  }

  lemma NextPage(pageBytes: nat, index: nat)
    ensures PageStart(pageBytes, index + 1) == PageStart(pageBytes, index) + pageBytes
  {
  }

  // A stretch of a page is that stretch of the file.
  lemma StretchOf(f: seq<byte>, pageBytes: nat, index: nat, inPage: nat, n: nat)
    requires PageStart(pageBytes, index) <= |f| && inPage + n <= PageSize(f, pageBytes, index) + LOOKAHEAD
    ensures var at := PageStart(pageBytes, index) + inPage;
            && at + n <= |f| + LOOKAHEAD
            && PageData(f, pageBytes, index)[inPage..inPage + n] == Padded(f)[at..at + n]
  {
    hide PageStart;
  }

  // ---- Copying a range

  // What a page adds to a copy that has come to `offset`.
  lemma OnePage(f: seq<byte>, pageBytes: nat, offset: nat, length: nat) returns (index: nat, inPage: nat, n: nat)
    requires pageBytes > 0 && length > 0 && offset + length <= |f|
    ensures index == offset / pageBytes && inPage == offset % pageBytes
    ensures PageStart(pageBytes, index) <= |f| && inPage <= PageSize(f, pageBytes, index)
    ensures var left := PageSize(f, pageBytes, index) - inPage;
            n == (if length < left then length else left) && n > 0
    ensures PageData(f, pageBytes, index)[inPage..inPage + n] == f[offset..offset + n]
  {
    PageOf(pageBytes, offset);
    index, inPage := offset / pageBytes, offset % pageBytes;
    hide PageStart;
    var left := PageSize(f, pageBytes, index) - inPage;
    n := if length < left then length else left;
    StretchOf(f, pageBytes, index, inPage, n);
    assert Padded(f)[offset..offset + n] == f[offset..offset + n];
  }

  // A buffer with bytes copied into the middle of it.
  function Spliced(buffer: seq<byte>, dst: nat, bytes: seq<byte>): (r: seq<byte>)
    requires dst + |bytes| <= |buffer|
    ensures |r| == |buffer|
  {
    buffer[..dst] + bytes + buffer[dst + |bytes|..]
  }

  method CopyInto(out: array<byte>, dst: nat, page: seq<byte>, from: nat, count: nat)
    requires dst + count <= out.Length && from + count <= |page|
    modifies out
    ensures out[..] == Spliced(old(out[..]), dst, page[from..from + count])
  {
    forall i | 0 <= i < count { out[dst + i] := page[from + i]; }
  }

  // The buffer once the first n bytes of the range have been copied to its front.
  function CopiedTo(f: seq<byte>, was: seq<byte>, offset: nat, n: nat): (r: seq<byte>)
    requires offset + n <= |f| && n <= |was|
    ensures |r| == |was|
  {
    Spliced(was, 0, f[offset..offset + n])
  }

  lemma CopyStarts(f: seq<byte>, was: seq<byte>, offset: nat)
    requires offset <= |f|
    ensures CopiedTo(f, was, offset, 0) == was
  {
  }

  // The copy has come `n` bytes further.
  lemma CopyGrows(f: seq<byte>, was: seq<byte>, offset: nat, dst: nat, n: nat)
    requires offset + dst + n <= |f| && dst + n <= |was|
    ensures Spliced(CopiedTo(f, was, offset, dst), dst, f[offset + dst..offset + dst + n])
         == CopiedTo(f, was, offset, dst + n)
  {
    assert f[offset..offset + dst] + f[offset + dst..offset + dst + n] == f[offset..offset + (dst + n)];
  }

  // One page's part of the copy.
  method CopyPage(f: seq<byte>, pageBytes: nat, offset: nat, length: nat, out: array<byte>, dst: nat)
    returns (count: nat)
    requires pageBytes > 0 && length > 0 && offset + length <= |f| && dst + length <= out.Length
    modifies out
    ensures 0 < count <= length
    ensures out[..] == Spliced(old(out[..]), dst, f[offset..offset + count])
  {
    hide PageData, PageSize, PageStart;
    ghost var index, inPage, n := OnePage(f, pageBytes, offset, length);
    var page := PageData(f, pageBytes, offset / pageBytes);
    var from := offset % pageBytes;
    var left := |page| - LOOKAHEAD - from;
    count := if length < left then length else left;
    CopyInto(out, dst, page, from, count);
  }

  method CopyPages(f: seq<byte>, pageBytes: nat, offset: nat, length: nat, out: array<byte>)
    requires pageBytes > 0 && out.Length >= length && offset + length <= |f|
    modifies out
    ensures out[..] == CopiedTo(f, old(out[..]), offset, length)
  {
    hide *;
    ghost var was := out[..];
    CopyStarts(f, was, offset);
    var dst: nat := 0;
    while dst < length
      invariant dst <= length
      invariant out[..] == CopiedTo(f, was, offset, dst)
    {
      var count := CopyPage(f, pageBytes, offset + dst, length - dst, out, dst);
      CopyGrows(f, was, offset, dst, count);
      dst := dst + count;
    }
  }

  // BlobFile::copy of a paged file: the slice of the file, or the exception for a range outside it.
  method Copy(f: seq<byte>, pageBytes: nat, offset: nat, length: nat, out: array<byte>) returns (ok: bool)
    requires pageBytes > 0 && out.Length >= length
    modifies out
    ensures ok <==> offset + length <= |f|
    ensures out[..] == if ok then CopiedTo(f, old(out[..]), offset, length) else old(out[..])
  {
    if offset > |f| || length > |f| - offset { return false; }
    CopyPages(f, pageBytes, offset, length, out);
    return true;
  }
}
