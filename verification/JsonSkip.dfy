// skip_json_container (src/json/json_skip.cpp): finding the bracket that closes a JSON container,
// 64 characters at a time, then one at a time.
module JsonSkip {
  import opened Options
  import opened Word64

  // Where a scan stands: the nesting depth, inside a string or not, next character escaped or not.
  datatype State = State(depth: int, inString: bool, escaped: bool)

  // A scan stopped behind the matching bracket, or ran on.
  datatype Progress = Found(stop: nat) | Running(state: State)

  const START := State(1, false, false)

  function Closer(open: char): char {
    if open == '[' then ']' else '}'
  }

  predicate IsBracket(c: char) { c == '[' || c == '{' }

  // How a character outside strings moves the depth.
  function Nesting(open: char, c: char, depth: int): int {
    if c == open then depth + 1 else if c == Closer(open) then depth - 1 else depth
  }

  // One character of the scalar loop: escapes count only inside strings.
  function ScalarStep(open: char, s: State, c: char): State {
    if s.inString then
      if s.escaped then s.(escaped := false)
      else if c == '\\' then s.(escaped := true)
      else if c == '"' then s.(inString := false)
      else s
    else if c == '"' then s.(inString := true)
    else s.(depth := Nesting(open, c, s.depth))
  }

  // One character as the block masks see it: escapes count everywhere.
  function BlockStep(open: char, s: State, c: char): State {
    var quote := c == '"' && !s.escaped;
    var inside := s.inString != quote;
    State(if inside then s.depth else Nesting(open, c, s.depth), inside, c == '\\' && !s.escaped)
  }

  function Step(blocks: bool, open: char, s: State, c: char): State {
    if blocks then BlockStep(open, s, c) else ScalarStep(open, s, c)
  }

  // The scan from p to q, stopping behind the character that brings the depth to 0.
  function Scan(blocks: bool, open: char, text: string, p: nat, q: nat, s: State): Progress
    requires p <= q <= |text|
    decreases q - p
  {
    if p == q then Running(s)
    else
      var s' := Step(blocks, open, s, text[p]);
      if s'.depth == 0 then Found(p + 1) else Scan(blocks, open, text, p + 1, q, s')
  }

  function Result(progress: Progress): Option<nat> {
    match progress
    case Found(stop) => Some(stop)
    case Running(_) => None
  }

  // What the skipper is for: the position the one-character automaton stops at.
  function MatchingBracket(text: string): Option<nat>
    requires |text| > 0
  {
    Result(Scan(false, text[0], text, 1, |text|, START))
  }

  // The end of the last whole block.
  function BlocksEnd(text: string): nat
    requires |text| > 0
  {
    1 + (|text| - 1) / 64 * 64
  }

  // What the code computes on any input: blocks first, then the scalar tail from the state they leave.
  function BlocksThenTail(text: string): Option<nat>
    requires |text| > 0
  {
    match Scan(true, text[0], text, 1, BlocksEnd(text), START)
    case Found(stop) => Some(stop)
    case Running(s) => Result(Scan(false, text[0], text, BlocksEnd(text), |text|, s))
  }

  // No backslash outside a string on the way to the matching bracket, as in valid JSON
  // (section 7 of RFC 8259).
  predicate NoBareBackslash(open: char, text: string, p: nat, q: nat, s: State)
    requires p <= q <= |text|
    decreases q - p
  {
    p == q ||
    (&& (text[p] == '\\' ==> s.inString)
     && var s' := ScalarStep(open, s, text[p]);
        s'.depth == 0 || NoBareBackslash(open, text, p + 1, q, s'))
  }

  // ---- Scans

  lemma {:induction false} ScanSplits(blocks: bool, open: char, text: string, p: nat, mid: nat, q: nat, s: State)
    requires p <= mid <= q <= |text|
    ensures Scan(blocks, open, text, p, q, s) ==
            match Scan(blocks, open, text, p, mid, s)
            case Found(stop) => Found(stop)
            case Running(s') => Scan(blocks, open, text, mid, q, s')
    decreases mid - p
  {
    if p < mid {
      var s' := Step(blocks, open, s, text[p]);
      if s'.depth != 0 { ScanSplits(blocks, open, text, p + 1, mid, q, s'); }
    }
  }

  // ---- Exactly when the code reads a text as the automaton does

  // The blocks, until they stop, meet no quote that opens a string right behind an escape: they would
  // pass over it.
  predicate NoMisread(open: char, text: string, p: nat, q: nat, s: State)
    requires p <= q <= |text|
    decreases q - p
  {
    p == q ||
    (&& !(text[p] == '"' && !s.inString && s.escaped)
     && var s' := BlockStep(open, s, text[p]);
        s'.depth == 0 || NoMisread(open, text, p + 1, q, s'))
  }

  // A run of backslashes, maybe none, and a quote.
  predicate RunToQuote(text: string, p: nat)
    requires p <= |text|
    decreases |text| - p
  {
    p < |text| && (text[p] == '"' || (text[p] == '\\' && RunToQuote(text, p + 1)))
  }

  // An escape the blocks left pending outside strings stays until the first string, and shifts the
  // escapes at its start: that string is misread when a run to a quote opens it.
  predicate StaleMisreads(open: char, text: string, p: nat, depth: int)
    requires p <= |text|
    decreases |text| - p
  {
    && p < |text|
    && if text[p] == '"' then RunToQuote(text, p + 1)
       else
         var d := Nesting(open, text[p], depth);
         d != 0 && StaleMisreads(open, text, p + 1, d)
  }

  predicate NothingMisread(text: string)
    requires |text| > 0
  {
    var open, mid := text[0], BlocksEnd(text);
    && NoMisread(open, text, 1, mid, START)
    && match Scan(true, open, text, 1, mid, START)
       case Found(_) => true
       case Running(s) => !s.inString && s.escaped ==> !StaleMisreads(open, text, mid, s.depth)
  }

  // From p on, the code (blocks up to mid) and the automaton are at one depth, and both inside a string
  // or both outside, behind every character, until they stop.
  predicate Agree(open: char, text: string, p: nat, mid: nat, s: State, a: State)
    requires p <= |text|
    decreases |text| - p
  {
    p == |text| ||
    var s', a' := Step(p < mid, open, s, text[p]), ScalarStep(open, a, text[p]);
    && s'.depth == a'.depth && s'.inString == a'.inString
    && (s'.depth == 0 || Agree(open, text, p + 1, mid, s', a'))
  }

  predicate AgreeThroughout(text: string)
    requires |text| > 0
  {
    Agree(text[0], text, 1, BlocksEnd(text), START, START)
  }

  // The automaton's state beside the blocks': escapes count only inside strings.
  function Beside(s: State): State { s.(escaped := s.inString && s.escaped) }

  lemma {:induction false} SameAgree(open: char, text: string, p: nat, mid: nat, s: State)
    requires mid <= p <= |text|
    ensures Agree(open, text, p, mid, s, s)
    decreases |text| - p
  {
    if p < |text| { SameAgree(open, text, p + 1, mid, ScalarStep(open, s, text[p])); }
  }

  // Inside a string, one with an escape pending and one without.
  lemma {:induction false} ShiftedAgree(open: char, text: string, p: nat, mid: nat, s: State, a: State)
    requires IsBracket(open) && mid <= p <= |text|
    requires s.inString && s.depth != 0 && a == s.(escaped := !s.escaped)
    ensures Agree(open, text, p, mid, s, a) <==> !RunToQuote(text, p)
    decreases |text| - p
  {
    if p < |text| {
      var s', a' := ScalarStep(open, s, text[p]), ScalarStep(open, a, text[p]);
      if text[p] == '\\' {
        ShiftedAgree(open, text, p + 1, mid, s', a');
      } else if text[p] != '"' {
        SameAgree(open, text, p + 1, mid, s');
      }
    }
  }

  lemma {:induction false} StaleAgree(open: char, text: string, p: nat, mid: nat, s: State)
    requires IsBracket(open) && mid <= p <= |text| && !s.inString && s.escaped && s.depth != 0
    ensures Agree(open, text, p, mid, s, Beside(s)) <==> !StaleMisreads(open, text, p, s.depth)
    decreases |text| - p
  {
    if p < |text| {
      var s' := ScalarStep(open, s, text[p]);
      if text[p] == '"' {
        ShiftedAgree(open, text, p + 1, mid, s', s'.(escaped := false));
      } else if s'.depth != 0 {
        StaleAgree(open, text, p + 1, mid, s');
      }
    }
  }

  // Through the blocks, agreement comes down to what is not misread and to the tail.
  lemma {:induction false} BlocksAgree(open: char, text: string, p: nat, mid: nat, s: State)
    requires IsBracket(open) && p <= mid <= |text| && s.depth > 0
    ensures Agree(open, text, p, mid, s, Beside(s)) <==>
            && NoMisread(open, text, p, mid, s)
            && match Scan(true, open, text, p, mid, s)
               case Found(_) => true
               case Running(t) => Agree(open, text, mid, mid, t, Beside(t))
    decreases mid - p
  {
    if p < mid {
      var s' := BlockStep(open, s, text[p]);
      if !(text[p] == '"' && !s.inString && s.escaped) {
        assert ScalarStep(open, Beside(s), text[p]) == Beside(s');
        if s'.depth != 0 { BlocksAgree(open, text, p + 1, mid, s'); }
      }
    }
  }

  lemma {:induction false} DepthStays(open: char, text: string, p: nat, q: nat, s: State)
    requires IsBracket(open) && p <= q <= |text| && s.depth > 0
    ensures var r := Scan(true, open, text, p, q, s); r.Running? ==> r.state.depth > 0
    decreases q - p
  {
    if p < q {
      var s' := BlockStep(open, s, text[p]);
      if s'.depth != 0 { DepthStays(open, text, p + 1, q, s'); }
    }
  }

  // The code follows the automaton character by character exactly when it misreads no quote.
  lemma AgreesExactly(text: string)
    requires |text| > 0 && IsBracket(text[0])
    ensures AgreeThroughout(text) <==> NothingMisread(text)
  {
    var open, mid := text[0], BlocksEnd(text);
    BlocksAgree(open, text, 1, mid, START);
    DepthStays(open, text, 1, mid, START);
    var r := Scan(true, open, text, 1, mid, START);
    if r.Running? {
      if !r.state.inString && r.state.escaped {
        StaleAgree(open, text, mid, mid, r.state);
      } else {
        SameAgree(open, text, mid, mid, r.state);
      }
    }
  }

  lemma {:induction false} AgreeingTails(open: char, text: string, p: nat, mid: nat, s: State, a: State)
    requires mid <= p <= |text| && Agree(open, text, p, mid, s, a)
    ensures Result(Scan(false, open, text, p, |text|, s)) == Result(Scan(false, open, text, p, |text|, a))
    decreases |text| - p
  {
    if p < |text| {
      var s', a' := ScalarStep(open, s, text[p]), ScalarStep(open, a, text[p]);
      if s'.depth != 0 { AgreeingTails(open, text, p + 1, mid, s', a'); }
    }
  }

  lemma {:induction false} AgreeingBlocks(open: char, text: string, p: nat, mid: nat, s: State, a: State)
    requires p <= mid <= |text| && Agree(open, text, p, mid, s, a)
    ensures Result(Scan(false, open, text, p, |text|, a)) ==
            match Scan(true, open, text, p, mid, s)
            case Found(stop) => Some(stop)
            case Running(t) => Result(Scan(false, open, text, mid, |text|, t))
    decreases mid - p
  {
    if p == mid {
      AgreeingTails(open, text, p, mid, s, a);
    } else {
      var s', a' := BlockStep(open, s, text[p]), ScalarStep(open, a, text[p]);
      if s'.depth != 0 { AgreeingBlocks(open, text, p + 1, mid, s', a'); }
    }
  }

  // Then it finds the matching bracket.
  lemma FindsMatchingBracket(text: string)
    requires |text| > 0 && IsBracket(text[0]) && NothingMisread(text)
    ensures BlocksThenTail(text) == MatchingBracket(text)
  {
    AgreesExactly(text);
    AgreeingBlocks(text[0], text, 1, BlocksEnd(text), START, START);
  }

  lemma {:induction false} ValidIsNotMisread(open: char, text: string, p: nat, mid: nat, q: nat, s: State)
    requires IsBracket(open) && p <= mid <= q <= |text| && (s.escaped ==> s.inString)
    requires NoBareBackslash(open, text, p, q, s)
    ensures NoMisread(open, text, p, mid, s)
    ensures Scan(true, open, text, p, mid, s) == Scan(false, open, text, p, mid, s)
    ensures var r := Scan(true, open, text, p, mid, s); r.Running? && r.state.escaped ==> r.state.inString
    decreases mid - p
  {
    if p < mid {
      var s' := ScalarStep(open, s, text[p]);
      assert BlockStep(open, s, text[p]) == s';
      if s'.depth != 0 { ValidIsNotMisread(open, text, p + 1, mid, q, s'); }
    }
  }

  // So it does in every container without a bare backslash.
  lemma {:induction false} SkipsToMatchingBracket(text: string)
    requires |text| > 0 && IsBracket(text[0])
    requires NoBareBackslash(text[0], text, 1, |text|, START)
    ensures NothingMisread(text) && BlocksThenTail(text) == MatchingBracket(text)
  {
    ValidIsNotMisread(text[0], text, 1, BlocksEnd(text), |text|, START);
    FindsMatchingBracket(text);
  }

  // There, at every block boundary, the two automata agree on depth, string and escape.
  lemma AgreeAtBoundaries(text: string, blocks: nat)
    requires |text| > 0 && IsBracket(text[0]) && 1 + 64 * blocks <= |text|
    requires NoBareBackslash(text[0], text, 1, |text|, START)
    ensures Scan(true, text[0], text, 1, 1 + 64 * blocks, START) ==
            Scan(false, text[0], text, 1, 1 + 64 * blocks, START)
  {
    ValidIsNotMisread(text[0], text, 1, 1 + 64 * blocks, |text|, START);
  }

  // ---- A misread quote can always mislead

  function Repeat(c: char, n: nat): (r: string)
    ensures |r| == n && forall i :: 0 <= i < n ==> r[i] == c
  {
    seq(n, _ => c)
  }

  lemma {:induction false} SamePrefix(blocks: bool, open: char, text: string, other: string, p: nat, q: nat, s: State)
    requires p <= q <= |text| && q <= |other| && text[..q] == other[..q]
    ensures Scan(blocks, open, text, p, q, s) == Scan(blocks, open, other, p, q, s)
    decreases q - p
  {
    if p < q {
      assert text[p] == text[..q][p] == other[..q][p] == other[p];
      SamePrefix(blocks, open, text, other, p + 1, q, Step(blocks, open, s, text[p]));
    }
  }

  // Closing brackets outside strings end the scan, or take from the depth as far as they go.
  lemma {:induction false} ClosersClose(blocks: bool, open: char, text: string, p: nat, q: nat, depth: int)
    requires IsBracket(open) && p <= q <= |text| && depth > 0
    requires forall i :: p <= i < q && i < p + depth ==> text[i] == Closer(open)
    ensures Scan(blocks, open, text, p, q, State(depth, false, false)) ==
            if p + depth <= q then Found(p + depth) else Running(State(depth - (q - p), false, false))
    decreases q - p
  {
    if p < q && depth > 1 { ClosersClose(blocks, open, text, p + 1, q, depth - 1); }
  }

  // Inside a string they are text.
  lemma {:induction false} StringGoesOn(open: char, text: string, p: nat, q: nat, depth: int)
    requires p <= q <= |text| && depth != 0 && forall i :: p <= i < q ==> text[i] != '"' && text[i] != '\\'
    ensures Scan(false, open, text, p, q, State(depth, true, false)) == Running(State(depth, true, false))
    decreases q - p
  {
    if p < q { StringGoesOn(open, text, p + 1, q, depth); }
  }

  lemma {:induction false} BesideScan(open: char, text: string, p: nat, q: nat, s: State)
    requires IsBracket(open) && p <= q <= |text| && s.depth > 0 && NoMisread(open, text, p, q, s)
    ensures var r := Scan(true, open, text, p, q, s);
            r.Running? ==> Scan(false, open, text, p, q, Beside(s)) == Running(Beside(r.state))
    decreases q - p
  {
    if p < q {
      var s' := BlockStep(open, s, text[p]);
      assert ScalarStep(open, Beside(s), text[p]) == Beside(s');
      if s'.depth != 0 { BesideScan(open, text, p + 1, q, s'); }
    }
  }

  // The condition lets nothing go: whatever leads to a first misread quote at m, with some rest of the
  // text the code finds a bracket where the automaton finds none.
  lemma MisreadMisleads(text: string, m: nat) returns (other: string)
    requires |text| > 0 && IsBracket(text[0]) && 1 <= m < BlocksEnd(text)
    requires NoMisread(text[0], text, 1, m, START) && !NoMisread(text[0], text, 1, m + 1, START)
    ensures |other| > m && other[..m + 1] == text[..m + 1]
    ensures BlocksThenTail(other).Some? && MatchingBracket(other).None?
  {
    var open := text[0];
    MisreadAt(open, text, 1, m, START);
    var s := Scan(true, open, text, 1, m, START).state;
    BesideScan(open, text, 1, m, START);
    DepthStays(open, text, 1, m, START);
    var rest := Repeat(Closer(open), s.depth) + Repeat(' ', |text| + 64);
    other := text[..m + 1] + rest;
    assert forall i :: 0 <= i <= m ==> other[i] == text[i];
    assert forall i :: m < i < |other| ==> other[i] == rest[i - m - 1];
    var mid, stop := BlocksEnd(other), m + 1 + s.depth;
    assert stop <= mid;
    forall blocks | blocks || !blocks
      ensures Scan(blocks, open, other, 1, m, START) == Scan(blocks, open, text, 1, m, START)
    {
      assert text[..m] == other[..m];
      SamePrefix(blocks, open, text, other, 1, m, START);
    }
    ScanSplits(true, open, other, 1, m, mid, START);
    ScanSplits(false, open, other, 1, m, |other|, START);
    ClosersClose(true, open, other, m + 1, mid, s.depth);
    StringGoesOn(open, other, m + 1, |other|, s.depth);
  }

  lemma {:induction false} MisreadAt(open: char, text: string, p: nat, m: nat, s: State)
    requires p <= m < |text| && NoMisread(open, text, p, m, s) && !NoMisread(open, text, p, m + 1, s)
    ensures var r := Scan(true, open, text, p, m, s);
            r.Running? && text[m] == '"' && !r.state.inString && r.state.escaped
    decreases m - p
  {
    if p < m { MisreadAt(open, text, p + 1, m, BlockStep(open, s, text[p])); }
  }

  lemma {:induction false} ScanBlanks(blocks: bool, text: string, p: nat, q: nat, s: State)
    requires p <= q <= |text| && s.depth != 0 && !s.escaped && forall i :: p <= i < q ==> text[i] == ' '
    ensures Scan(blocks, '[', text, p, q, s) == Running(s)
    decreases q - p
  {
    if p < q { ScanBlanks(blocks, text, p + 1, q, s); }
  }

  // The end of the document below, read from the backslash on.
  lemma {:induction false} MisreadEnd(text: string)
    requires |text| == 66 && text[61..66] == "\\\"]\"]"
    ensures Scan(true, '[', text, 61, 65, START) == Found(64)
    ensures Scan(false, '[', text, 61, 66, START) == Found(66)
  {
    var s := START;
    assert text[61] == text[61..66][0] && text[62] == text[61..66][1] && text[63] == text[61..66][2];
    assert text[64] == text[61..66][3] && text[65] == text[61..66][4];
    assert Scan(true, '[', text, 62, 65, s.(escaped := true)) == Found(64);
    var inside := s.(inString := true);
    assert Scan(false, '[', text, 64, 66, inside) == Found(66);
    assert Scan(false, '[', text, 62, 66, s) == Found(66);
  }

  // A whole document: behind a bare backslash the blocks miss a quote that opens a string, and stop at
  // the bracket inside it.
  lemma BareBackslashMisleads(text: string)
    requires text == "[" + Repeat(' ', 60) + "\\\"]\"]"
    ensures BlocksThenTail(text) == Some(64) && MatchingBracket(text) == Some(66)
  {
    hide Scan;
    var s := START;
    assert text[0] == '[' && BlocksEnd(text) == 65;
    ScanBlanks(true, text, 1, 61, s);
    ScanBlanks(false, text, 1, 61, s);
    ScanSplits(true, '[', text, 1, 61, 65, s);
    ScanSplits(false, '[', text, 1, 61, 66, s);
    assert text[61..66] == "\\\"]\"]";
    MisreadEnd(text);
  }

  // ---- One block, by its masks

  datatype Masks = Masks(quote: Word, backslash: Word, open: Word, close: Word)

  ghost predicate Classifies(text: string, p: nat, open: char, m: Masks, n: nat)
    requires p + 64 <= |text| && n <= 64
  {
    forall i :: 0 <= i < n ==>
      && m.quote[i] == (text[p + i] == '"')
      && m.backslash[i] == (text[p + i] == '\\')
      && m.open[i] == (text[p + i] == open)
      && m.close[i] == (text[p + i] == Closer(open))
  }

  // classify64
  method Classify64(text: string, p: nat, open: char, close: char) returns (m: Masks)
    requires p + 64 <= |text| && IsBracket(open) && close == Closer(open)
    ensures Classifies(text, p, open, m, 64)
  {
    m := Masks(Zero(), Zero(), Zero(), Zero());
    for i := 0 to 64
      invariant Classifies(text, p, open, m, i)
      invariant forall k :: i <= k < 64 ==> !m.quote[k] && !m.backslash[k] && !m.open[k] && !m.close[k]
    {
      var c := text[p + i];
      if c == '"' { m := m.(quote := m.quote[i := true]); }
      else if c == '\\' { m := m.(backslash := m.backslash[i := true]); }
      else if c == open { m := m.(open := m.open[i := true]); }
      else if c == close { m := m.(close := m.close[i := true]); }
    }
  }

  // The structural bits from bit i on, walked with the depth: found at a bit, or the depth behind them.
  datatype Walked = AtBit(bit: nat) | Depth(depth: int)

  function Walk(open: Word, close: Word, i: nat, depth: int): Walked
    requires i <= 64
    decreases 64 - i
  {
    if i == 64 then Depth(depth)
    else if open[i] then Walk(open, close, i + 1, depth + 1)
    else if close[i] then
      if depth - 1 == 0 then AtBit(i) else Walk(open, close, i + 1, depth - 1)
    else Walk(open, close, i + 1, depth)
  }

  // The state before bit i of a block, as the masks give it.
  ghost predicate BlockMasks(text: string, p: nat, open: char, s: State, m: Masks, inside: Word, opens: Word,
                             closes: Word)
    requires p + 64 <= |text|
  {
    && Classifies(text, p, open, m, 64)
    && (forall i :: 0 <= i < 64 ==> inside[i] == (Parity(Quotes(m, s.escaped), 0, i + 1) != s.inString))
    && (forall i :: 0 <= i < 64 ==> opens[i] == (m.open[i] && !inside[i]))
    && (forall i :: 0 <= i < 64 ==> closes[i] == (m.close[i] && !inside[i]))
  }

  ghost function Quotes(m: Masks, escaped: bool): Word {
    seq(64, i requires 0 <= i < 64 => m.quote[i] && !EscapedAt(m.backslash, escaped, i))
  }

  ghost function Before(m: Masks, s: State, i: nat, depth: int): State
    requires i <= 64
  {
    State(depth, s.inString != Parity(Quotes(m, s.escaped), 0, i), EscapedAt(m.backslash, s.escaped, i))
  }

  // The masks move the state as the character does.
  lemma MasksStep(text: string, p: nat, open: char, s: State, m: Masks, inside: Word, opens: Word, closes: Word,
                  i: nat, depth: int)
    requires p + 64 <= |text| && IsBracket(open) && i < 64
    requires BlockMasks(text, p, open, s, m, inside, opens, closes)
    ensures BlockStep(open, Before(m, s, i, depth), text[p + i]) ==
            Before(m, s, i + 1, if opens[i] then depth + 1 else if closes[i] then depth - 1 else depth)
  {
    assert Quotes(m, s.escaped)[i] == (text[p + i] == '"' && !Before(m, s, i, depth).escaped);
  }

  // Walking the structural bits of a block is scanning its characters.
  lemma {:induction false} WalkIsScan(text: string, p: nat, open: char, s: State, m: Masks, inside: Word,
                                      opens: Word, closes: Word, i: nat, depth: int)
    requires p + 64 <= |text| && IsBracket(open) && i <= 64 && depth > 0
    requires BlockMasks(text, p, open, s, m, inside, opens, closes)
    ensures Scan(true, open, text, p + i, p + 64, Before(m, s, i, depth)) ==
            match Walk(opens, closes, i, depth)
            case AtBit(bit) => Found(p + bit + 1)
            case Depth(d) => Running(Before(m, s, 64, d))
    decreases 64 - i
  {
    if i < 64 {
      MasksStep(text, p, open, s, m, inside, opens, closes, i, depth);
      hide BlockStep, Parity, EscapedAt, BlockMasks;
      var d := if opens[i] then depth + 1 else if closes[i] then depth - 1 else depth;
      if d != 0 {
        WalkIsScan(text, p, open, s, m, inside, opens, closes, i + 1, d);
      }
    }
  }

  // The popcount shortcut: a depth above the closing bits of the block survives it.
  lemma {:induction false} WalkCounts(open: Word, close: Word, i: nat, depth: int)
    requires i <= 64 && depth > Popcount(close, i)
    requires forall k :: 0 <= k < 64 ==> !(open[k] && close[k])
    ensures Walk(open, close, i, depth) == Depth(depth + Popcount(open, i) - Popcount(close, i))
    decreases 64 - i
  {
    if i < 64 {
      assert !(open[i] && close[i]);
      WalkCounts(open, close, i + 1, if open[i] then depth + 1 else if close[i] then depth - 1 else depth);
    }
  }

  lemma {:induction false} WalkSkips(open: Word, close: Word, i: nat, j: nat, depth: int)
    requires i <= j <= 64 && forall k :: i <= k < j ==> !open[k] && !close[k]
    ensures Walk(open, close, i, depth) == Walk(open, close, j, depth)
    decreases j - i
  {
    if i < j { WalkSkips(open, close, i + 1, j, depth); }
  }

  lemma {:induction false} WalkStaysPositive(open: Word, close: Word, i: nat, depth: int)
    requires i <= 64 && depth > 0
    ensures Walk(open, close, i, depth).Depth? ==> Walk(open, close, i, depth).depth > 0
    decreases 64 - i
  {
    if i < 64 && open[i] { WalkStaysPositive(open, close, i + 1, depth + 1); }
    else if i < 64 && close[i] && depth > 1 { WalkStaysPositive(open, close, i + 1, depth - 1); }
    else if i < 64 && !close[i] { WalkStaysPositive(open, close, i + 1, depth); }
  }

  lemma WalkOne(open: Word, close: Word, i: nat, depth: int)
    requires i < 64 && (open[i] || close[i]) && !(open[i] && close[i])
    ensures Walk(open, close, i, depth) ==
            if open[i] then Walk(open, close, i + 1, depth + 1)
            else if depth == 1 then AtBit(i) else Walk(open, close, i + 1, depth - 1)
  {
  }

  lemma {:induction false} WalkEnds(open: Word, close: Word, depth: int)
    ensures Walk(open, close, 64, depth) == Depth(depth)
  {
  }

  // The loop over the structural bits, lowest first.
  method WalkBits(open: Word, close: Word, start: int) returns (found: Option<nat>, depth: int)
    requires start > 0 && forall k :: 0 <= k < 64 ==> !(open[k] && close[k])
    ensures match Walk(open, close, 0, start)
            case AtBit(bit) => found == Some(bit)
            case Depth(d) => found == None && depth == d
  {
    hide And, MinusOne, Walk;
    depth := start;
    var structural := Or(open, close);
    ghost var done := 0;
    while structural != Zero()
      invariant done <= 64 && depth > 0
      invariant forall k :: 0 <= k < done ==> !structural[k]
      invariant forall k :: done <= k < 64 ==> structural[k] == (open[k] || close[k])
      invariant Walk(open, close, done, depth) == Walk(open, close, 0, start)
      decreases 64 - done
    {
      var i := CountrZero(structural);
      assert done <= i;
      WalkSkips(open, close, done, i, depth);
      WalkOne(open, close, i, depth);
      if open[i] {
        depth := depth + 1;
      } else {
        depth := depth - 1;
        if depth == 0 { return Some(i), depth; }
      }
      DropLowest(structural, i);
      structural := And(structural, MinusOne(structural));
      done := i + 1;
    }
    forall k | done <= k < 64 ensures !open[k] && !close[k] { assert !structural[k]; }
    WalkSkips(open, close, done, 64, depth);
    WalkEnds(open, close, depth);
    return None, depth;
  }

  // The words of a block: its brackets outside strings, and what it hands to the next block.
  method BlockWords(text: string, p: nat, open: char, close: char, ghost s: State, nextEscaped: bool, inString: Word)
    returns (ghost m: Masks, inside: Word, opens: Word, closes: Word, carry: bool)
    requires p + 64 <= |text| && IsBracket(open) && close == Closer(open)
    requires s.escaped == nextEscaped && inString == Fill(s.inString)
    ensures BlockMasks(text, p, open, s, m, inside, opens, closes)
    ensures carry == EscapedAt(m.backslash, s.escaped, 64)
  {
    var masks := Classify64(text, p, open, close);
    m := masks;
    var escaped, next := FindEscaped(masks.backslash, nextEscaped);
    var quotes := And(masks.quote, Not(escaped));
    assert quotes == Quotes(m, nextEscaped);
    PrefixXorIsParity(quotes);
    hide PrefixXor, Quotes;
    inside := Xor(PrefixXor(quotes), inString);
    opens := And(masks.open, Not(inside));
    closes := And(masks.close, Not(inside));
    carry := next;
  }

  // What a whole block does to the scan, told by its words.
  lemma {:induction false} BlockIsScan(text: string, p: nat, open: char, s: State, m: Masks, inside: Word,
                                       opens: Word, closes: Word)
    requires p + 64 <= |text| && IsBracket(open) && s.depth > 0
    requires BlockMasks(text, p, open, s, m, inside, opens, closes)
    ensures forall k :: 0 <= k < 64 ==> !(opens[k] && closes[k])
    ensures match Walk(opens, closes, 0, s.depth)
            case AtBit(bit) => Scan(true, open, text, p, p + 64, s) == Found(p + bit + 1)
            case Depth(d) =>
              && d > 0
              && Scan(true, open, text, p, p + 64, s)
                 == Running(State(d, inside[63], EscapedAt(m.backslash, s.escaped, 64)))
  {
    assert Before(m, s, 0, s.depth) == s && p + 0 == p;
    assert inside[63] == Before(m, s, 64, s.depth).inString;
    WalkStaysPositive(opens, closes, 0, s.depth);
    WalkIsScan(text, p, open, s, m, inside, opens, closes, 0, s.depth);
  }

  // One turn of the block loop.
  method ScanBlock(text: string, p: nat, open: char, close: char, depth: int, nextEscaped: bool, inString: Word)
    returns (found: Option<nat>, depth': int, nextEscaped': bool, inString': Word)
    requires p + 64 <= |text| && IsBracket(open) && close == Closer(open) && depth > 0
    requires inString == Fill(inString[0])
    ensures inString' == Fill(inString'[0])
    ensures match Scan(true, open, text, p, p + 64, State(depth, inString[0], nextEscaped))
            case Found(stop) => found == Some(stop)
            case Running(s) => found == None && s == State(depth', inString'[0], nextEscaped') && depth' > 0
  {
    hide Scan, BlockMasks, Popcount, EscapedAt, Walk;
    ghost var s := State(depth, inString[0], nextEscaped);
    ghost var m;
    var inside, opens, closes, carry;
    m, inside, opens, closes, carry := BlockWords(text, p, open, close, s, nextEscaped, inString);
    nextEscaped' := carry;
    inString' := Fill(inside[63]);
    BlockIsScan(text, p, open, s, m, inside, opens, closes);
    hide *;
    if depth - Popcount(closes, 0) <= 0 {
      var bit, left := WalkBits(opens, closes, depth);
      depth' := left;
      found := match bit case Some(i) => Some(p + i + 1) case None => None;
    } else {
      WalkCounts(opens, closes, 0, depth);
      found, depth' := None, depth + Popcount(opens, 0) - Popcount(closes, 0);
    }
  }

  // The block loop: the bracket it finds, or the state it leaves to the tail.
  method ScanBlocks(text: string, open: char, close: char)
    returns (found: Option<nat>, p: nat, depth: int, nextEscaped: bool, inString: Word)
    requires |text| > 0 && IsBracket(open) && close == Closer(open)
    ensures p <= |text| && inString == Fill(inString[0])
    ensures match Scan(true, open, text, 1, BlocksEnd(text), START)
            case Found(stop) => found == Some(stop)
            case Running(s) =>
              found == None && p == BlocksEnd(text) && depth > 0 && s == State(depth, inString[0], nextEscaped)
  {
    hide Scan, BlocksEnd;
    ScanStarts(true, open, text);
    found, p, depth, nextEscaped, inString := None, 1, 1, false, Zero();
    ghost var blocks := 0;
    BlocksReach(text, 0);
    while |text| - p >= 64
      invariant p == 1 + 64 * blocks <= BlocksEnd(text) <= |text|
      invariant found == None && depth > 0 && inString == Fill(inString[0])
      invariant Scan(true, open, text, 1, p, START) == Running(State(depth, inString[0], nextEscaped))
    {
      BlocksReach(text, blocks);
      ScanSplits(true, open, text, 1, p, p + 64, START);
      ScanSplits(true, open, text, 1, p + 64, BlocksEnd(text), START);
      var depth', nextEscaped', inString';
      found, depth', nextEscaped', inString' := ScanBlock(text, p, open, close, depth, nextEscaped, inString);
      if found.Some? { return; }
      depth, nextEscaped, inString := depth', nextEscaped', inString';
      p, blocks := p + 64, blocks + 1;
    }
    BlocksReach(text, blocks);
  }

  lemma BlocksReach(text: string, blocks: nat)
    requires 64 * blocks < |text|
    ensures 1 + 64 * blocks <= BlocksEnd(text) <= |text|
    ensures if |text| - (1 + 64 * blocks) >= 64 then 65 + 64 * blocks <= BlocksEnd(text)
            else BlocksEnd(text) == 1 + 64 * blocks
  {
  }

  lemma {:induction false} ScanStarts(blocks: bool, open: char, text: string)
    requires |text| > 0
    ensures Scan(blocks, open, text, 1, 1, START) == Running(START)
  {
  }

  method SkipJsonContainer(text: string) returns (stop: Option<nat>)
    requires |text| > 0 && IsBracket(text[0])
    ensures stop == BlocksThenTail(text)
    ensures NothingMisread(text) ==> stop == MatchingBracket(text)
    ensures NoBareBackslash(text[0], text, 1, |text|, START) ==> stop == MatchingBracket(text)
  {
    hide Scan, NoBareBackslash, NothingMisread, MatchingBracket;
    if NothingMisread(text) { FindsMatchingBracket(text); }
    if NoBareBackslash(text[0], text, 1, |text|, START) { SkipsToMatchingBracket(text); }
    var open := text[0];
    var close := if open == '[' then ']' else '}';
    var found, p, depth, nextEscaped, inString := ScanBlocks(text, open, close);
    if found.Some? { return found; }
    assert (inString != Zero()) == inString[0] by { assert Fill(true)[0] != Fill(false)[0]; }
    stop := ScanTail(text, open, close, p, depth, inString != Zero(), nextEscaped);
  }

  // The loop over the characters behind the last block.
  method ScanTail(text: string, open: char, close: char, start: nat, depth0: int, inString: bool, nextEscaped: bool)
    returns (stop: Option<nat>)
    requires start <= |text| && depth0 > 0 && IsBracket(open) && close == if open == '[' then ']' else '}'
    ensures stop == Result(Scan(false, open, text, start, |text|, State(depth0, inString, nextEscaped)))
  {
    var p, depth, inStr, escaped := start, depth0, inString, nextEscaped;
    while p < |text|
      invariant p <= |text| && depth > 0
      invariant Result(Scan(false, open, text, p, |text|, State(depth, inStr, escaped)))
             == Result(Scan(false, open, text, start, |text|, State(depth0, inString, nextEscaped)))
    {
      var c := text[p];
      if inStr {
        if escaped { escaped := false; }
        else if c == '\\' { escaped := true; }
        else if c == '"' { inStr := false; }
      } else if c == '"' {
        inStr := true;
      } else if c == open {
        depth := depth + 1;
      } else if c == close {
        depth := depth - 1;
        if depth == 0 { return Some(p + 1); }
      }
      p := p + 1;
    }
    return None;
  }
}
