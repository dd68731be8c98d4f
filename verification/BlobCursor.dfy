// BlobCursor (src/blob_file.hpp, src/blob_file.cpp): reading a record field by field through pinned
// pages, against the plain pointer walk of a mapped file.
module BlobCursor {
  import opened Options
  import opened Bytes
  import opened PagedFile

  // A range a read handed out: inside a pinned page, or a copy of its own. The window's pointer is
  // null before the first page is pinned.
  datatype Range = Null | InPage(page: nat, start: nat, length: nat) | InSpill(spill: nat, length: nat)

  // The pages a query read and the copies it made. They only grow while the query runs.
  class Pins {
    var pages: seq<seq<byte>>
    var spills: seq<seq<byte>>

    constructor ()
      ensures pages == [] && spills == []
    {
      pages, spills := [], [];
    }
  }

  // The range's bytes and the lookahead behind them.
  ghost predicate Shows(pages: seq<seq<byte>>, spills: seq<seq<byte>>, r: Range, bytes: seq<byte>) {
    match r
    case Null => false
    case InPage(page, start, length) =>
      && page < |pages| && start + length + LOOKAHEAD <= |pages[page]|
      && pages[page][start..start + length + LOOKAHEAD] == bytes
    case InSpill(spill, length) => spill < |spills| && spills[spill] == bytes && |bytes| == length + LOOKAHEAD
  }

  // A range stays valid as long as the pins live: they only grow.
  lemma RangeStays(pages: seq<seq<byte>>, spills: seq<seq<byte>>, pages': seq<seq<byte>>, spills': seq<seq<byte>>,
                   r: Range, bytes: seq<byte>)
    requires Shows(pages, spills, r, bytes) && pages <= pages' && spills <= spills'
    ensures Shows(pages', spills', r, bytes)
  {
  }

  // The window's page is page `index` of the file, as the cache handed it out.
  ghost predicate Windowed(f: seq<byte>, pageBytes: nat, page: seq<byte>, index: nat, end: nat, endOffset: nat) {
    && PageStart(pageBytes, index) <= |f|
    && page == PageData(f, pageBytes, index)
    && end == PageSize(f, pageBytes, index)
    && endOffset == PageStart(pageBytes, index) + end
  }

  // Reading inside the window reads the file.
  lemma WindowShows(f: seq<byte>, pageBytes: nat, page: seq<byte>, index: nat, end: nat, endOffset: nat,
                    pos: nat, length: nat)
    requires Windowed(f, pageBytes, page, index, end, endOffset) && pos + length <= end
    ensures var at := endOffset - (end - pos);
            && 0 <= at && at + length <= |f| && end + LOOKAHEAD == |page|
            && page[pos..pos + length + LOOKAHEAD] == Padded(f)[at..at + length + LOOKAHEAD]
  {
    StretchOf(f, pageBytes, index, pos, length + LOOKAHEAD);
    hide PageStart, PageData, PageSize, Padded;
  }

  class Cursor {
    const file: seq<byte>
    const pageBytes: nat
    const pins: Pins
    var window: Option<nat>
    ghost var index: nat
    var pos: nat
    var end: nat
    var endOffset: nat

    ghost predicate Valid()
      reads this, pins
    {
      && pageBytes > 0 && pos <= end && endOffset <= |file|
      && if window.None? then end == 0
         else window.value < |pins.pages|
              && Windowed(file, pageBytes, pins.pages[window.value], index, end, endOffset)
    }

    // Where the next read starts.
    function Offset(): nat
      requires Valid()
      reads this, pins
    {
      WindowInside();
      endOffset - (end - pos)
    }

    lemma WindowInside()
      requires Valid()
      ensures end - pos <= endOffset
    {
    }

    constructor Open(file: seq<byte>, pageBytes: nat, offset: nat, pins: Pins)
      requires pageBytes > 0 && offset <= |file|
      ensures Valid() && Offset() == offset && this.file == file && this.pageBytes == pageBytes && this.pins == pins
    {
      this.file, this.pageBytes, this.pins := file, pageBytes, pins;
      window, index, pos, end, endOffset := None, 0, 0, 0, offset;
    }

    // pin
    method Pin(index: nat) returns (page: seq<byte>)
      requires PageStart(pageBytes, index) <= |file|
      modifies pins
      ensures page == PageData(file, pageBytes, index)
      ensures pins.pages == old(pins.pages) + [page] && pins.spills == old(pins.spills)
    {
      page := PageData(file, pageBytes, index);
      pins.pages := pins.pages + [page];
    }

    method Bytes(length: nat) returns (r: Option<Range>)
      requires Valid()
      modifies this, pins
      ensures r.Some? <==> old(Offset()) + length <= |file|
      ensures r.Some? ==>
                && Valid() && Offset() == old(Offset()) + length
                && old(pins.pages) <= pins.pages && old(pins.spills) <= pins.spills
                && (length > 0 ==>
                      Shows(pins.pages, pins.spills, r.value,
                            Padded(file)[old(Offset())..old(Offset()) + length + LOOKAHEAD]))
      ensures r.None? ==> unchanged(this) && unchanged(pins)
    {
      if end - pos >= length {
        if window.None? { return Some(Null); }
        WindowShows(file, pageBytes, pins.pages[window.value], index, end, endOffset, pos, length);
        r := Some(InPage(window.value, pos, length));
        pos := pos + length;
      } else {
        r := BytesSlow(length);
      }
    }

    // The spill's copy, page by page, and the lookahead behind it.
    method Spill(start: nat, length: nat, first: nat, inFirst: nat, firstPage: seq<byte>)
      returns (spill: seq<byte>, index: nat, page: seq<byte>, inPage: nat)
      requires pageBytes > 0 && length > 0 && start + length <= |file|
      requires OnPage(file, pageBytes, first, firstPage, inFirst, start) && inFirst < |firstPage| - LOOKAHEAD
      requires pins.pages != [] && pins.pages[|pins.pages| - 1] == firstPage
      modifies pins
      ensures old(pins.pages) <= pins.pages && pins.spills == old(pins.spills)
      ensures pins.pages[|pins.pages| - 1] == page && OnPage(file, pageBytes, index, page, inPage, start + length)
      ensures spill == Padded(file)[start..start + length + LOOKAHEAD]
    {
      hide OnPage, PageStart, PageData, PageSize, Padded, CopiedTo, Spliced;
      ghost var padded := Padded(file);
      var buffer := new byte[length + LOOKAHEAD];
      ghost var was := buffer[..];
      CopyStarts(padded, was, start);
      index, page, inPage := first, firstPage, inFirst;
      var copied: nat := 0;
      while true
        invariant copied < length && start + copied < |file|
        invariant OnPage(file, pageBytes, index, page, inPage, start + copied) && inPage < |page| - LOOKAHEAD
        invariant old(pins.pages) <= pins.pages && pins.spills == old(pins.spills)
        invariant pins.pages[|pins.pages| - 1] == page
        invariant buffer[..] == CopiedTo(padded, was, start, copied)
        decreases length - copied
      {
        var left := |page| - LOOKAHEAD - inPage;
        var n := if length - copied < left then length - copied else left;
        StretchRead(file, pageBytes, index, page, inPage, start + copied, n);
        CopyInto(buffer, copied, page, inPage, n);
        CopyGrows(padded, was, start, copied, n);
        copied := copied + n;
        inPage := inPage + n;
        if copied == length { break; }
        PageDone(file, pageBytes, index, page, inPage, start + copied);
        index := index + 1;
        page := Pin(index);
        inPage := 0;
      }
      StretchRead(file, pageBytes, index, page, inPage, start + length, LOOKAHEAD);
      CopyInto(buffer, length, page, inPage, LOOKAHEAD);
      CopyGrows(padded, was, start, length, LOOKAHEAD);
      CopyEnds(padded, was, start);
      spill := buffer[..];
    }

    // The range that starts at `start`: inside the first page it touches, or spilled.
    method ReadRange(start: nat, length: nat) returns (r: Range, index: nat, page: seq<byte>, inPage: nat)
      requires pageBytes > 0 && length > 0 && start + length <= |file|
      modifies pins
      ensures old(pins.pages) < pins.pages && old(pins.spills) <= pins.spills
      ensures pins.pages[|pins.pages| - 1] == page && OnPage(file, pageBytes, index, page, inPage, start + length)
      ensures Shows(pins.pages, pins.spills, r, Padded(file)[start..start + length + LOOKAHEAD])
    {
      PageOf(pageBytes, start);
      hide OnPage, PageStart, PageData, PageSize, Padded;
      index := start / pageBytes;
      inPage := start - PageStart(pageBytes, index);
      page := Pin(index);
      FirstPage(file, pageBytes, index, start, page);
      if |page| - LOOKAHEAD - inPage >= length {
        StretchRead(file, pageBytes, index, page, inPage, start, length + LOOKAHEAD);
        StretchRead(file, pageBytes, index, page, inPage, start, length);
        r := InPage(|pins.pages| - 1, inPage, length);
        inPage := inPage + length;
      } else {
        var spill;
        spill, index, page, inPage := Spill(start, length, index, inPage, page);
        pins.spills := pins.spills + [spill];
        r := InSpill(|pins.spills| - 1, length);
      }
    }

    // bytes_slow, for a range the window does not hold: afterwards the window is the last page it touched.
    method BytesSlow(length: nat) returns (r: Option<Range>)
      requires Valid() && end - pos < length
      modifies this, pins
      ensures r.Some? <==> old(Offset()) + length <= |file|
      ensures r.Some? ==>
                && Valid() && Offset() == old(Offset()) + length
                && old(pins.pages) <= pins.pages && old(pins.spills) <= pins.spills
                && Shows(pins.pages, pins.spills, r.value,
                         Padded(file)[old(Offset())..old(Offset()) + length + LOOKAHEAD])
      ensures r.None? ==> unchanged(this) && unchanged(pins)
    {
      var start := Offset();
      if length > |file| || start > |file| - length { return None; }
      hide PageStart, PageData, PageSize, Padded, Shows;
      var range, last, page, inPage := ReadRange(start, length);
      window, pos, end := Some(|pins.pages| - 1), inPage, |page| - LOOKAHEAD;
      endOffset := PageStart(pageBytes, last) + end;
      index := last;
      r := Some(range);
    }

    // skip and skip_slow
    method Skip(length: nat) returns (ok: bool)
      requires Valid()
      modifies this
      ensures ok <==> old(Offset()) + length <= |file|
      ensures ok ==> Valid() && Offset() == old(Offset()) + length
      ensures !ok ==> unchanged(this)
    {
      if end - pos >= length {
        if window.Some? { WindowShows(file, pageBytes, pins.pages[window.value], index, end, endOffset, pos, length); }
        pos := pos + length;
        return true;
      }
      var start := Offset();
      if length > |file| || start > |file| - length { return false; }
      window, pos, end, endOffset := None, 0, 0, start + length;
      return true;
    }
  }

  // `page` is page `index` of the file, and `inPage` its place for the file's `offset`.
  ghost predicate OnPage(f: seq<byte>, pageBytes: nat, index: nat, page: seq<byte>, inPage: nat, offset: nat) {
    && PageStart(pageBytes, index) <= |f| && page == PageData(f, pageBytes, index)
    && inPage <= PageSize(f, pageBytes, index) && PageStart(pageBytes, index) + inPage == offset
  }

  lemma FirstPage(f: seq<byte>, pageBytes: nat, index: nat, offset: nat, page: seq<byte>)
    requires PageStart(pageBytes, index) <= offset < PageStart(pageBytes, index) + pageBytes && offset < |f|
    requires page == PageData(f, pageBytes, index)
    ensures OnPage(f, pageBytes, index, page, offset - PageStart(pageBytes, index), offset)
    ensures offset - PageStart(pageBytes, index) < |page| - LOOKAHEAD
  {
    hide PageStart;
  }

  lemma StretchRead(f: seq<byte>, pageBytes: nat, index: nat, page: seq<byte>, inPage: nat, offset: nat, n: nat)
    requires OnPage(f, pageBytes, index, page, inPage, offset) && inPage + n <= |page|
    ensures |page| >= LOOKAHEAD && offset + n <= |Padded(f)| == |f| + LOOKAHEAD
    ensures page[inPage..inPage + n] == Padded(f)[offset..offset + n]
    ensures inPage + n <= |page| - LOOKAHEAD ==> OnPage(f, pageBytes, index, page, inPage + n, offset + n)
  {
    StretchOf(f, pageBytes, index, inPage, n);
    hide PageStart, PageData, Padded;
  }

  // A page read to its end in the middle of the file is a whole page, so the next one carries on.
  lemma PageDone(f: seq<byte>, pageBytes: nat, index: nat, page: seq<byte>, inPage: nat, offset: nat)
    requires OnPage(f, pageBytes, index, page, inPage, offset) && inPage == |page| - LOOKAHEAD && offset < |f|
    requires pageBytes > 0
    ensures PageStart(pageBytes, index + 1) == offset
    ensures OnPage(f, pageBytes, index + 1, PageData(f, pageBytes, index + 1), 0, offset)
    ensures |PageData(f, pageBytes, index + 1)| > LOOKAHEAD
  {
    NextPage(pageBytes, index);
    hide PageStart, Padded;
  }

  lemma CopyEnds(f: seq<byte>, was: seq<byte>, offset: nat)
    requires offset + |was| <= |f|
    ensures CopiedTo(f, was, offset, |was|) == f[offset..offset + |was|]
  {
  }

  // ---- Whole runs against the plain pointer

  datatype Op = Read(length: nat) | Pass(length: nat)

  // Where a MappedCursor from `at` points after these operations.
  function Moved(at: nat, ops: seq<Op>): nat {
    if ops == [] then at else Moved(at, ops[..|ops| - 1]) + ops[|ops| - 1].length
  }

  // What it reads, each range with the bytes behind it.
  function MappedReads(f: seq<byte>, at: nat, ops: seq<Op>): seq<seq<byte>>
    requires Moved(at, ops) <= |f|
  {
    if ops == [] then []
    else
      var before, last := ops[..|ops| - 1], ops[|ops| - 1];
      var place := Moved(at, before);
      MappedReads(f, at, before) + if last.Read? then [Padded(f)[place..place + last.length + LOOKAHEAD]] else []
  }

  lemma {:induction false} MovedStep(at: nat, ops: seq<Op>, n: nat)
    requires n < |ops|
    ensures Moved(at, ops[..n + 1]) == Moved(at, ops[..n]) + ops[n].length
  {
    assert ops[..n + 1][..n] == ops[..n];
  }

  lemma {:induction false} ReadsStep(f: seq<byte>, at: nat, ops: seq<Op>, n: nat)
    requires n < |ops| && Moved(at, ops[..n + 1]) <= |f|
    ensures Moved(at, ops[..n]) + ops[n].length <= |f|
    ensures var place := Moved(at, ops[..n]);
            MappedReads(f, at, ops[..n + 1]) ==
            MappedReads(f, at, ops[..n])
            + if ops[n].Read? then [Padded(f)[place..place + ops[n].length + LOOKAHEAD]] else []
  {
    hide Padded;
    assert ops[..n + 1][..n] == ops[..n];
  }

  lemma {:induction false} MovedOn(at: nat, ops: seq<Op>, n: nat)
    requires n <= |ops|
    ensures Moved(at, ops[..n]) <= Moved(at, ops)
    decreases |ops| - n
  {
    if n < |ops| {
      MovedStep(at, ops, n);
      MovedOn(at, ops, n + 1);
    } else {
      assert ops[..n] == ops;
    }
  }

  // Every range handed out shows, in the pins, what the pointer walk reads. (A read of no bytes may
  // come before any page is pinned.)
  ghost predicate AllShow(pages: seq<seq<byte>>, spills: seq<seq<byte>>, ranges: seq<Range>, shown: seq<seq<byte>>) {
    |ranges| == |shown| &&
    forall k :: 0 <= k < |ranges| && |shown[k]| > LOOKAHEAD ==> Shows(pages, spills, ranges[k], shown[k])
  }

  lemma AllStay(pages: seq<seq<byte>>, spills: seq<seq<byte>>, pages': seq<seq<byte>>, spills': seq<seq<byte>>,
                ranges: seq<Range>, shown: seq<seq<byte>>)
    requires AllShow(pages, spills, ranges, shown) && pages <= pages' && spills <= spills'
    ensures AllShow(pages', spills', ranges, shown)
  {
    hide Shows;
    forall k | 0 <= k < |ranges| && |shown[k]| > LOOKAHEAD ensures Shows(pages', spills', ranges[k], shown[k]) {
      RangeStays(pages, spills, pages', spills', ranges[k], shown[k]);
    }
  }

  // Any run of reads and skips throws exactly when it leaves the file; else every range it handed out
  // still shows, at its end, what a mapped file would have shown.
  method Run(cursor: Cursor, ops: seq<Op>) returns (ranges: seq<Range>, threw: bool)
    requires cursor.Valid()
    modifies cursor, cursor.pins
    ensures threw <==> Moved(old(cursor.Offset()), ops) > |cursor.file|
    ensures !threw ==>
              && cursor.Valid() && cursor.Offset() == Moved(old(cursor.Offset()), ops)
              && AllShow(cursor.pins.pages, cursor.pins.spills, ranges,
                         MappedReads(cursor.file, old(cursor.Offset()), ops))
  {
    hide MappedReads, Moved, Padded, Shows, Windowed;
    ghost var at := cursor.Offset();
    ranges := [];
    NothingRead(cursor.file, at);
    assert ops[..0] == [];
    for i := 0 to |ops|
      invariant cursor.Valid() && cursor.Offset() == Moved(at, ops[..i]) <= |cursor.file|
      invariant AllShow(cursor.pins.pages, cursor.pins.spills, ranges, MappedReads(cursor.file, at, ops[..i]))
    {
      MovedStep(at, ops, i);
      MovedOn(at, ops, i + 1);
      ghost var pages, spills := cursor.pins.pages, cursor.pins.spills;
      ghost var shown := MappedReads(cursor.file, at, ops[..i]);
      match ops[i]
      case Read(length) =>
        var r := cursor.Bytes(length);
        if r.None? { return ranges, true; }
        ReadsStep(cursor.file, at, ops, i);
        AllStay(pages, spills, cursor.pins.pages, cursor.pins.spills, ranges, shown);
        ranges := ranges + [r.value];
      case Pass(length) =>
        var ok := cursor.Skip(length);
        if !ok { return ranges, true; }
        ReadsStep(cursor.file, at, ops, i);
    }
    assert ops[..|ops|] == ops;
    return ranges, false;
  }

  lemma {:induction false} NothingRead(f: seq<byte>, at: nat)
    requires at <= |f|
    ensures Moved(at, []) == at && MappedReads(f, at, []) == []
  {
  }
}
