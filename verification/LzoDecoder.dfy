// lzokay's decompressor (external/lzokay/lzokay.cpp): one instruction at a time, with
// the meaning of opcodes 0..15 depending on the literals the last instruction copied.
module LzoDecoder {
  import opened Bytes
  import opened LzoFormat

  // What one instruction asks for. `next` is the input position after its header.
  datatype Inst =
    | Match(distance: nat, length: nat, literals: nat, next: nat)
    | Literals(count: nat, next: nat)
    | Stop(length: nat, next: nat)
    | Bad(code: EResult)

  datatype Outcome = Outcome(code: EResult, out: seq<byte>)

  // A length whose short form is zero: `base` plus the length field at p.
  datatype LongLength = Long(length: nat, next: nat) | Overlong(code: EResult)

  function ReadLong(src: seq<byte>, p: nat, base: nat): (r: LongLength)
    requires p <= |src|
    ensures r.Long? ==> p < r.next <= |src|
  {
    var zeros := ZeroRun(src, p);
    if zeros > MAX_255_COUNT then Overlong(Error)
    else if p + zeros + 1 > |src| then Overlong(InputOverrun)
    else
      var last: nat := src[p + zeros];
      Long(zeros * 255 + base + last, p + zeros + 1)
  }

  function Le16(src: seq<byte>, p: nat): nat
    requires p + 2 <= |src|
  {
    var low: nat, high: nat := src[p], src[p + 1];
    low + 256 * high
  }

  // The M3 and M4 instructions, once their length is known.
  function FarMatch(src: seq<byte>, length: nat, p: nat, base: nat): (r: Inst)
    requires p <= |src|
    ensures !r.Bad? ==> (r.Match? || r.Stop?) && r.next == p + 2 <= |src|
    ensures r.Match? ==> r.literals <= 3 && r.distance >= 1
  {
    if p + 2 > |src| then Bad(InputOverrun)
    else
      var v := Le16(src, p);
      if base == 0 then Match(v / 4 + 1, length, v % 4, p + 2)
      // base is 1 + (H << 14): distance 0 before the final 16384 ends the stream.
      else if base - 1 + v / 4 == 0 then Stop(length, p + 2)
      else Match(base - 1 + v / 4 + 16384, length, v % 4, p + 2)
  }

  // The instructions 16..63, from behind their first byte.
  function ReadFar(src: seq<byte>, inst: byte, p: nat): (r: Inst)
    requires p <= |src| && 16 <= inst < 64
    ensures !r.Bad? ==> p < r.next <= |src|
    ensures r.Match? ==> r.literals <= 3 && r.distance >= 1
  {
    if inst >= 32 then
      if inst % 32 != 0 then FarMatch(src, inst % 32 + 2, p, 0)
      else
        match ReadLong(src, p, 2 + 31)
        case Overlong(e) => Bad(e)
        case Long(length, n) => FarMatch(src, length, n, 0)
    else
      var base := 1 + inst / 8 % 2 * 16384;
      if inst % 8 != 0 then FarMatch(src, inst % 8 + 2, p, base)
      else
        match ReadLong(src, p, 2 + 7)
        case Overlong(e) => Bad(e)
        case Long(length, n) => FarMatch(src, length, n, base)
  }

  function ReadInst(src: seq<byte>, p: nat, state: nat): (r: Inst)
    requires p <= |src|
    ensures !r.Bad? ==> p < r.next <= |src|
    ensures r.Match? ==> r.literals <= 3 && r.distance >= 1
  {
    if p + 1 > |src| then Bad(InputOverrun)
    else
      var inst: nat := src[p];
      var q := p + 1;
      if inst >= 64 then
        if q + 1 > |src| then Bad(InputOverrun)
        else
          var h: nat := src[q];
          Match(h * 8 + inst / 4 % 8 + 1, inst / 32 + 1, inst % 4, q + 1)
      else if inst >= 16 then ReadFar(src, inst, q)
      else if state == 0 then
        if inst != 0 then Literals(inst + 3, q)
        else
          match ReadLong(src, q, 3 + 15)
          case Overlong(e) => Bad(e)
          case Long(length, n) => Literals(length, n)
      else if q + 1 > |src| then Bad(InputOverrun)
      else
        var h: nat := src[q];
        if state != 4 then Match(inst / 4 + h * 4 + 1, 2, inst % 4, q + 1)
        else Match(inst / 4 + h * 4 + 2049, 3, inst % 4, q + 1)
  }

  // A lookbehind copy, byte by byte, so it may read what it wrote.
  function CopyBack(out: seq<byte>, distance: nat, length: nat): (r: seq<byte>)
    requires 1 <= distance <= |out|
    ensures |r| == |out| + length && r[..|out|] == out
  {
    if length == 0 then out
    else
      var shorter := CopyBack(out, distance, length - 1);
      shorter + [shorter[|shorter| - distance]]
  }

  // What the main loop yields from an instruction on.
  function Perform(src: seq<byte>, capacity: nat, inst: Inst, out: seq<byte>): Outcome
    requires !inst.Bad? ==> inst.next <= |src|
    requires inst.Match? ==> inst.distance >= 1
    decreases if inst.Bad? then 0 else |src| - inst.next + 1, 1
  {
    match inst
    case Bad(e) => Outcome(e, out)
    case Literals(count, q) =>
      if q + count > |src| then Outcome(InputOverrun, out)
      else if |out| + count > capacity then Outcome(OutputOverrun, out)
      else DecodeFrom(src, capacity, q + count, 4, out + src[q..q + count])
    case Match(distance, length, literals, q) =>
      if distance > |out| then Outcome(LookbehindOverrun, out)
      else if q + literals > |src| then Outcome(InputOverrun, out)
      else if |out| + length + literals > capacity then Outcome(OutputOverrun, out)
      else DecodeFrom(src, capacity, q + literals, literals,
                      CopyBack(out, distance, length) + src[q..q + literals])
    case Stop(length, q) =>
      if length != 3 then Outcome(Error, out)
      else if q == |src| then Outcome(Success, out)
      else Outcome(InputNotConsumed, out)
  }

  // The main loop from input position p.
  function DecodeFrom(src: seq<byte>, capacity: nat, p: nat, state: nat, out: seq<byte>): Outcome
    requires p <= |src|
    decreases |src| - p + 1, 0
  {
    Perform(src, capacity, ReadInst(src, p, state), out)
  }

  // decompress: the first byte, then the main loop.
  function Decode(src: seq<byte>, capacity: nat): Outcome {
    if |src| < 3 then Outcome(InputOverrun, [])
    else if src[0] >= 18 then
      var count: nat := src[0] - 17;
      if 1 + count > |src| then Outcome(InputOverrun, [])
      else if count > capacity then Outcome(OutputOverrun, [])
      else DecodeFrom(src, capacity, 1 + count, if src[0] >= 22 then 4 else count, src[1..1 + count])
    else DecodeFrom(src, capacity, 0, 0, [])
  }

  method ConsumeZeros(src: seq<byte>, p: nat) returns (q: nat)
    requires p <= |src|
    ensures q == p + ZeroRun(src, p)
  {
    q := p;
    while q < |src| && src[q] == 0
      invariant p <= q <= |src|
      invariant q + ZeroRun(src, q) == p + ZeroRun(src, p)
    {
      q := q + 1;
    }
  }

  method CopyLiterals(src: seq<byte>, p: nat, count: nat, dst: array<byte>, outp: nat)
    requires p + count <= |src| && outp + count <= dst.Length
    modifies dst
    ensures dst[..outp + count] == old(dst[..outp]) + src[p..p + count]
  {
    for i := 0 to count
      invariant dst[..outp + i] == old(dst[..outp]) + src[p..p + i]
    {
      dst[outp + i] := src[p + i];
      assert dst[..outp + i + 1] == dst[..outp + i] + [src[p + i]];
    }
  }

  method CopyLookbehind(dst: array<byte>, outp: nat, distance: nat, length: nat)
    requires 1 <= distance <= outp && outp + length <= dst.Length
    modifies dst
    ensures dst[..outp + length] == CopyBack(old(dst[..outp]), distance, length)
  {
    ghost var was := dst[..outp];
    for i := 0 to length
      invariant dst[..outp + i] == CopyBack(was, distance, i)
    {
      dst[outp + i] := dst[outp + i - distance];
      assert dst[..outp + i + 1] == dst[..outp + i] + [dst[outp + i - distance]];
    }
  }

  // A length field, read behind its instruction byte.
  method FetchLong(src: seq<byte>, p: nat, base: nat) returns (r: LongLength)
    requires p <= |src|
    ensures r == ReadLong(src, p, base)
  {
    var inp := ConsumeZeros(src, p);
    var zeros := inp - p;
    if zeros > MAX_255_COUNT { return Overlong(Error); }
    if inp + 1 > |src| { return Overlong(InputOverrun); }
    return Long(zeros * 255 + base + src[inp], inp + 1);
  }

  // The rest of an M3 or M4 header.
  method FetchFar(src: seq<byte>, inst: byte, p: nat) returns (r: Inst)
    requires p <= |src| && 16 <= inst < 64
    ensures r == ReadFar(src, inst, p)
  {
    hide ReadLong;
    var wide := inst >= 32;
    var inp := p;
    var lblen: nat := if wide then inst % 32 + 2 else inst % 8 + 2;
    if lblen == 2 {
      var long := FetchLong(src, inp, if wide then 2 + 31 else 2 + 7);
      if long.Overlong? { return Bad(long.code); }
      lblen, inp := long.length, long.next;
    }
    if inp + 2 > |src| { return Bad(InputOverrun); }
    var v := Le16(src, inp);
    inp := inp + 2;
    if wide { return Match(v / 4 + 1, lblen, v % 4, inp); }
    var back := inst / 8 % 2 * 16384 + v / 4;
    if back == 0 { return Stop(lblen, inp); }
    return Match(back + 16384, lblen, v % 4, inp);
  }

  // One instruction header, advancing inp past it.
  method FetchInst(src: seq<byte>, p: nat, state: nat) returns (r: Inst)
    requires p <= |src|
    ensures r == ReadInst(src, p, state)
  {
    hide ReadLong, ReadFar;
    var inp := p;
    if inp + 1 > |src| { return Bad(InputOverrun); }
    var inst: nat := src[inp];
    inp := inp + 1;
    if inst >= 64 {
      if inp + 1 > |src| { return Bad(InputOverrun); }
      var h: nat := src[inp];
      return Match(h * 8 + inst / 4 % 8 + 1, inst / 32 + 1, inst % 4, inp + 1);
    } else if inst >= 16 {
      r := FetchFar(src, inst, inp);
      return;
    } else if state == 0 {
      if inst != 0 { return Literals(inst + 3, inp); }
      var long := FetchLong(src, inp, 3 + 15);
      return if long.Overlong? then Bad(long.code) else Literals(long.length, long.next);
    }
    if inp + 1 > |src| { return Bad(InputOverrun); }
    var h: nat := src[inp];
    if state != 4 { return Match(inst / 4 + h * 4 + 1, 2, inst % 4, inp + 1); }
    return Match(inst / 4 + h * 4 + 2049, 3, inst % 4, inp + 1);
  }

  // Carries out an instruction: its lookbehind copy and literals, or the end of the run.
  method Execute(src: seq<byte>, inst: Inst, dst: array<byte>, outp: nat)
    returns (done: bool, code: EResult, inp: nat, outp': nat, state: nat)
    requires outp <= dst.Length
    requires !inst.Bad? ==> inst.next <= |src|
    requires inst.Match? ==> inst.distance >= 1
    modifies dst
    ensures outp' <= dst.Length && inp <= |src|
    ensures done ==> Outcome(code, dst[..outp']) == Perform(src, dst.Length, inst, old(dst[..outp]))
    ensures !done ==> (inst.Literals? || inst.Match?) && inst.next <= inp
    ensures !done ==>
      DecodeFrom(src, dst.Length, inp, state, dst[..outp']) == Perform(src, dst.Length, inst, old(dst[..outp]))
  {
    done, inp, outp', state := true, 0, outp, 0;
    match inst {
      case Bad(e) => code := e;
      case Stop(lblen, next) =>
        code := if lblen != 3 then Error else if next == |src| then Success else InputNotConsumed;
      case Literals(len, next) =>
        if next + len > |src| { code := InputOverrun; return; }
        if outp + len > dst.Length { code := OutputOverrun; return; }
        CopyLiterals(src, next, len, dst, outp);
        done, code, inp, outp', state := false, Success, next + len, outp + len, 4;
      case Match(distance, lblen, nstate, next) =>
        if distance > outp { code := LookbehindOverrun; return; }
        if next + nstate > |src| { code := InputOverrun; return; }
        if outp + lblen + nstate > dst.Length { code := OutputOverrun; return; }
        CopyLookbehind(dst, outp, distance, lblen);
        CopyLiterals(src, next, nstate, dst, outp + lblen);
        done, code, inp, outp', state := false, Success, next + nstate, outp + lblen + nstate, nstate;
    }
  }

  // The decompressor over a caller's buffer: the result code, and dst[..size] the output.
  method Decompress(src: seq<byte>, dst: array<byte>) returns (code: EResult, size: nat)
    modifies dst
    ensures size <= dst.Length
    ensures Outcome(code, dst[..size]) == Decode(src, dst.Length)
  {
    if |src| < 3 { return InputOverrun, 0; }
    var inp: nat, outp: nat, state: nat := 0, 0, 0;
    if src[0] >= 18 {
      var count: nat := src[0] - 17;
      if 1 + count > |src| { return InputOverrun, 0; }
      if count > dst.Length { return OutputOverrun, 0; }
      CopyLiterals(src, 1, count, dst, 0);
      assert dst[..count] == src[1..1 + count];
      inp, outp := 1 + count, count;
      state := if src[0] >= 22 then 4 else count;
    }
    assert inp == 0 ==> dst[..outp] == [];
    while true
      invariant inp <= |src| && outp <= dst.Length
      invariant DecodeFrom(src, dst.Length, inp, state, dst[..outp]) == Decode(src, dst.Length)
      decreases |src| - inp
    {
      var inst := FetchInst(src, inp, state);
      var done, result, next, outp', state' := Execute(src, inst, dst, outp);
      if done { return result, outp'; }
      inp, outp, state := next, outp', state';
    }
  }
}
