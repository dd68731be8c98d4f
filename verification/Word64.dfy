// The uint64_t of the JSON skipper as 64 bits, bit i at index i, with the machine's addition
// written out as a ripple carry so that it can be reasoned about bit by bit.
module Word64 {

  type Word = w: seq<bool> | |w| == 64 witness seq(64, i => false)

  // All ones or all zeros; Fill(x[63]) is static_cast<int64_t>(x) >> 63.
  function Fill(b: bool): Word { seq(64, i => b) }
  function Zero(): Word { Fill(false) }
  function Ones(): Word { Fill(true) }
  // 0x5555555555555555
  function EvenBits(): Word { seq(64, i => i % 2 == 0) }
  // The word 0 or 1.
  function LowBit(b: bool): Word { seq(64, i => i == 0 && b) }

  function And(x: Word, y: Word): Word { seq(64, i requires 0 <= i < 64 => x[i] && y[i]) }
  function Or(x: Word, y: Word): Word { seq(64, i requires 0 <= i < 64 => x[i] || y[i]) }
  function Xor(x: Word, y: Word): Word { seq(64, i requires 0 <= i < 64 => x[i] != y[i]) }
  function Not(x: Word): Word { seq(64, i requires 0 <= i < 64 => !x[i]) }
  function Shl(x: Word, k: nat): Word { seq(64, i requires 0 <= i < 64 => i >= k && x[i - k]) }

  // The carry into bit i of x + y.
  function Carry(x: Word, y: Word, i: nat): bool
    requires i <= 64
  {
    if i == 0 then false
    else
      var c := Carry(x, y, i - 1);
      (x[i - 1] && y[i - 1]) || (x[i - 1] && c) || (y[i - 1] && c)
  }

  // __builtin_add_overflow: the sum, and Carry(x, y, 64) as its overflow.
  function Add(x: Word, y: Word): Word {
    seq(64, i requires 0 <= i < 64 => (x[i] != y[i]) != Carry(x, y, i))
  }

  function MinusOne(x: Word): Word { Add(x, Ones()) }

  function Pow2(n: nat): (r: nat) {
    if n == 0 then 1 else 2 * Pow2(n - 1)
  }

  // The number the low n bits stand for.
  function Value(x: Word, n: nat): nat
    requires n <= 64
  {
    if n == 0 then 0 else Value(x, n - 1) + if x[n - 1] then Pow2(n - 1) else 0
  }

  // The ripple carry is the machine's addition: modulo 2^64, with the overflow as the carry out.
  lemma {:induction false} AddIsAddition(x: Word, y: Word, n: nat)
    requires n <= 64
    ensures Value(Add(x, y), n) + (if Carry(x, y, n) then Pow2(n) else 0) == Value(x, n) + Value(y, n)
  {
    if n > 0 {
      AddIsAddition(x, y, n - 1);
      assert Add(x, y)[n - 1] == ((x[n - 1] != y[n - 1]) != Carry(x, y, n - 1));
    }
  }

  // std::popcount of the bits from i on.
  function Popcount(x: Word, i: nat): (r: nat)
    requires i <= 64
    ensures r == 0 <==> forall j :: i <= j < 64 ==> !x[j]
    decreases 64 - i
  {
    if i == 64 then 0 else (if x[i] then 1 else 0) + Popcount(x, i + 1)
  }

  // std::countr_zero, of a word that is not 0.
  method CountrZero(x: Word) returns (i: nat)
    requires x != Zero()
    ensures i < 64 && x[i] && forall j :: 0 <= j < i ==> !x[j]
  {
    assert exists k :: 0 <= k < 64 && x[k] != Zero()[k];
    i := 0;
    while !x[i]
      invariant i < 64 && forall j :: 0 <= j < i ==> !x[j]
      decreases 64 - i
    {
      i := i + 1;
    }
  }

  // Adding 2^64 - 1 carries from the lowest set bit on.
  lemma {:induction false} CarryOfOnes(x: Word, i: nat)
    requires i <= 64
    ensures Carry(x, Ones(), i) <==> exists j :: 0 <= j < i && x[j]
  {
    if i > 0 {
      CarryOfOnes(x, i - 1);
    }
  }

  // x & (x - 1) drops the lowest set bit and nothing else.
  lemma DropLowest(x: Word, low: nat)
    requires low < 64 && x[low] && forall j :: 0 <= j < low ==> !x[j]
    ensures And(x, MinusOne(x)) == x[low := false]
  {
    forall i | 0 <= i < 64 ensures And(x, MinusOne(x))[i] == x[low := false][i] {
      CarryOfOnes(x, i);
    }
  }

  // Whether an odd number of the bits lo..hi-1 is set.
  function Parity(x: Word, lo: nat, hi: nat): bool
    requires lo <= hi <= 64
  {
    if lo == hi then false else Parity(x, lo, hi - 1) != x[hi - 1]
  }

  lemma {:induction false} ParitySplits(x: Word, lo: nat, mid: nat, hi: nat)
    requires lo <= mid <= hi <= 64
    ensures Parity(x, lo, hi) == (Parity(x, lo, mid) != Parity(x, mid, hi))
    decreases hi - mid
  {
    if mid < hi {
      ParitySplits(x, lo, mid, hi - 1);
    }
  }

  // Each bit holds the parity of the `width` bits that end in it.
  ghost predicate Windowed(x: Word, y: Word, width: nat) {
    forall i :: 0 <= i < 64 ==> y[i] == Parity(x, if i + 1 >= width then i + 1 - width else 0, i + 1)
  }

  lemma DoubleWindow(x: Word, y: Word, width: nat)
    requires width >= 1 && Windowed(x, y, width)
    ensures Windowed(x, Xor(y, Shl(y, width)), 2 * width)
  {
    var z := Xor(y, Shl(y, width));
    forall i | 0 <= i < 64
      ensures z[i] == Parity(x, if i + 1 >= 2 * width then i + 1 - 2 * width else 0, i + 1)
    {
      if i >= width {
        ParitySplits(x, if i + 1 >= 2 * width then i + 1 - 2 * width else 0, i + 1 - width, i + 1);
      }
    }
  }

  function PrefixXor(x: Word): Word {
    var x1 := Xor(x, Shl(x, 1));
    var x2 := Xor(x1, Shl(x1, 2));
    var x4 := Xor(x2, Shl(x2, 4));
    var x8 := Xor(x4, Shl(x4, 8));
    var x16 := Xor(x8, Shl(x8, 16));
    Xor(x16, Shl(x16, 32))
  }

  // prefix_xor: bit i is the parity of bits 0..i.
  lemma {:induction false} PrefixXorIsParity(x: Word)
    ensures forall i :: 0 <= i < 64 ==> PrefixXor(x)[i] == Parity(x, 0, i + 1)
  {
    assert Windowed(x, x, 1) by {
      forall i | 0 <= i < 64 ensures x[i] == Parity(x, i, i + 1) { assert Parity(x, i, i) == false; }
    }
    var x1 := Xor(x, Shl(x, 1));
    DoubleWindow(x, x, 1);
    var x2 := Xor(x1, Shl(x1, 2));
    DoubleWindow(x, x1, 2);
    var x4 := Xor(x2, Shl(x2, 4));
    DoubleWindow(x, x2, 4);
    var x8 := Xor(x4, Shl(x4, 8));
    DoubleWindow(x, x4, 8);
    var x16 := Xor(x8, Shl(x8, 16));
    DoubleWindow(x, x8, 16);
    DoubleWindow(x, x16, 32);
  }

  // The running escape automaton over a backslash mask: character i is escaped when an unescaped
  // backslash stands before it, or, for the first, when the block before says so.
  function EscapedAt(backslash: Word, carryIn: bool, i: nat): bool
    requires i <= 64
  {
    if i == 0 then carryIn else backslash[i - 1] && !EscapedAt(backslash, carryIn, i - 1)
  }

  // find_escaped: the characters escaped by a run of backslashes, and the carry into the next block.
  method FindEscaped(backslashes: Word, nextEscaped: bool) returns (escaped: Word, carry: bool)
    ensures forall i :: 0 <= i < 64 ==> escaped[i] == EscapedAt(backslashes, nextEscaped, i)
    ensures carry == EscapedAt(backslashes, nextEscaped, 64)
  {
    var prev := LowBit(nextEscaped);
    if backslashes == Zero() {
      forall i | 0 < i <= 64 ensures !EscapedAt(backslashes, nextEscaped, i) { assert !backslashes[i - 1]; }
      return prev, false;
    }
    var backslash := And(backslashes, Not(prev));
    var follows := Or(Shl(backslash, 1), prev);
    var oddStarts := And(And(backslash, Not(EvenBits())), Not(follows));
    var sum := Add(oddStarts, backslash);
    carry := Carry(oddStarts, backslash, 64);
    var invert := Shl(sum, 1);
    escaped := And(Xor(EvenBits(), invert), follows);
    CarryFollowsRuns(backslashes, nextEscaped, backslash, oddStarts, 64);
    forall i | 0 <= i < 64 ensures escaped[i] == EscapedAt(backslashes, nextEscaped, i) {
      CarryFollowsRuns(backslashes, nextEscaped, backslash, oddStarts, i);
      if i > 0 {
        CarryFollowsRuns(backslashes, nextEscaped, backslash, oddStarts, i - 1);
      }
    }
  }

  // The addition carries exactly through the runs that start on an odd bit, so the parity of
  // the position and the carry tell whether the run so far has odd length.
  lemma {:induction false} CarryFollowsRuns(backslashes: Word, carryIn: bool, backslash: Word, oddStarts: Word, i: nat)
    requires i <= 64
    requires forall k :: 0 <= k < 64 ==> backslash[k] == (backslashes[k] && !(k == 0 && carryIn))
    requires forall k {:trigger oddStarts[k]} :: 0 <= k < 64 ==>
      oddStarts[k] == (backslash[k] && k % 2 == 1 && !(k > 0 && backslash[k - 1]))
    ensures Carry(oddStarts, backslash, i) ==> i > 0 && backslash[i - 1]
    ensures i > 0 && backslash[i - 1] ==>
      (EscapedAt(backslashes, carryIn, i) <==> (Carry(oddStarts, backslash, i) == (i % 2 == 0)))
    ensures i > 0 && !backslash[i - 1] ==> !EscapedAt(backslashes, carryIn, i)
  {
    if i > 0 {
      CarryFollowsRuns(backslashes, carryIn, backslash, oddStarts, i - 1);
      assert backslash[i - 1] == (backslashes[i - 1] && !(i == 1 && carryIn));
      assert oddStarts[i - 1] ==> i > 1 && !backslash[i - 2];
    }
  }
}
