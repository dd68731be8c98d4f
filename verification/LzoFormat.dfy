// The LZO1X stream format of external/lzokay: constants, byte arithmetic and the
// length field that both sides write as a run of zero bytes and a final byte.
module LzoFormat {
  import opened Bytes

  const M1_MAX_OFFSET := 0x0400
  const M2_MAX_OFFSET := 0x0800
  const M3_MAX_OFFSET := 0x4000
  const M4_MAX_OFFSET := 0xbfff

  const M2_MIN_LEN := 3
  const M2_MAX_LEN := 8
  const M3_MAX_LEN := 33
  const M4_MAX_LEN := 9

  const M1_MARKER := 0x00
  const M3_MARKER := 0x20
  const M4_MARKER := 0x10

  // The match finder's limits: DictBase::MaxMatchLen and the length of best_off.
  const MAX_MATCH_LEN := 0x800
  const MAX_MATCH_BY_LENGTH_LEN := 34

  // std::size_t(~0) / 255 - 2, for a 64-bit size_t.
  const MAX_255_COUNT := 0xFFFF_FFFF_FFFF_FFFF / 255 - 2

  // lit_len is a uint32_t.
  const UINT32_RANGE := 0x1_0000_0000

  datatype EResult =
    | LookbehindOverrun
    | OutputOverrun
    | InputOverrun
    | Error
    | Success
    | InputNotConsumed

  // The terminating M4 instruction.
  const TERMINATOR: seq<byte> := [M4_MARKER + 1, 0, 0]

  // x | y for a y of two bits.
  function OrTwoBits(x: byte, y: nat): (r: byte)
    requires y <= 3
    ensures x % 4 == 0 ==> r == x + y
    ensures r / 4 == x / 4
  {
    var low := (if x % 2 == 1 || y % 2 == 1 then 1 else 0) + (if x / 2 % 2 == 1 || y / 2 == 1 then 2 else 0);
    x - x % 4 + low
  }

  // What WRITE_ZERO_BYTE_LENGTH writes.
  function LengthField(length: nat): (r: seq<byte>)
    requires length >= 1
    ensures |r| == (length - 1) / 255 + 1
    decreases length
  {
    if length > 255 then [0] + LengthField(length - 255) else [length]
  }

  // The number of zero bytes from p on, as far as the input goes.
  function ZeroRun(src: seq<byte>, p: nat): (n: nat)
    requires p <= |src|
    ensures p + n <= |src|
    decreases |src| - p
  {
    if p < |src| && src[p] == 0 then 1 + ZeroRun(src, p + 1) else 0
  }

  // Reading a length field back: its zero bytes and its last byte give the length.
  lemma {:induction false} ReadLengthField(src: seq<byte>, p: nat, length: nat)
    requires length >= 1
    requires At(src, p, LengthField(length))
    ensures ZeroRun(src, p) == (length - 1) / 255
    ensures p + ZeroRun(src, p) < |src|
    ensures ZeroRun(src, p) * 255 + src[p + ZeroRun(src, p)] as int == length
    decreases length
  {
    if length > 255 {
      assert LengthField(length) == [0] + LengthField(length - 255);
      var rest := LengthField(length - 255);
      forall i | 0 <= i < |rest| ensures src[p + 1 + i] == rest[i] {
        assert rest[i] == LengthField(length)[i + 1];
      }
      assert src[p] == LengthField(length)[0];
      ReadLengthField(src, p + 1, length - 255);
    } else {
      assert LengthField(length)[0] == length;
    }
  }
}
