// Term records (src/importer.cpp, src/query.cpp): how the importer lays one out in blobs.bin and how
// the record walk of a query reads it back.
module Records {
  import opened Options
  import opened Bytes

  datatype FormOfKind = NoForms | OnlyForms | WithOthers

  // The eight bytes of a double.
  type Score = s: seq<byte> | |s| == 8 witness [0, 0, 0, 0, 0, 0, 0, 0]

  // A row of a term bank. An absent reading or tag list is empty.
  datatype Term = Term(
    expression: seq<byte>, reading: seq<byte>, glossary: seq<byte>,
    definitionTags: seq<byte>, rules: seq<byte>, termTags: seq<byte>, score: Score)

  function ReadingOf(t: Term): seq<byte> {
    if t.reading == [] then t.expression else t.reading
  }

  // ---- Writing

  function PutText(width: nat, s: seq<byte>): (r: seq<byte>)
    ensures |r| == width + |s|
  {
    Le(width, |s|) + s
  }

  // The rule count of the flag entry.
  function FlagRules(kind: FormOfKind): nat {
    if kind.WithOthers? then 1 else 0
  }

  // write_form_of
  function PutForms(kind: FormOfKind): seq<byte> {
    if kind.NoForms? then Le(4, 0)
    else Le(4, 1) + (Le(4, 0) + (Le(4, FlagRules(kind)) + if kind.WithOthers? then Le(4, 0) else []))
  }

  // A record up to the place of its glossary's offset.
  function Head(t: Term): (r: seq<byte>)
    ensures |r| == 5 + |t.expression| + |ReadingOf(t)|
  {
    [0] + (PutText(2, t.expression) + PutText(2, ReadingOf(t)))
  }

  function PutTags(t: Term): (r: seq<byte>)
    ensures |r| == 3 + |t.definitionTags| + |t.rules| + |t.termTags|
  {
    PutText(1, t.definitionTags) + (PutText(1, t.rules) + PutText(1, t.termTags))
  }

  // A record from behind that place.
  function Tail(t: Term, size: nat, kind: FormOfKind): seq<byte> {
    Le(4, size) + (PutTags(t) + (PutForms(kind) + t.score))
  }

  function Encode(t: Term, glossaryOffset: nat, size: nat, kind: FormOfKind): seq<byte> {
    Head(t) + (Le(8, glossaryOffset) + Tail(t, size, kind))
  }

  // ---- Reading

  // What a query takes from a record.
  datatype Row = Row(
    expression: seq<byte>, reading: seq<byte>, glossaryOffset: nat, glossarySize: nat,
    definitionTags: seq<byte>, rules: seq<byte>, termTags: seq<byte>,
    formOf: bool, onlyReferences: bool, score: seq<byte>)

  datatype TextAt = TextAt(text: seq<byte>, next: nat)

  function ReadBytes(f: seq<byte>, p: nat, length: nat): Option<TextAt> {
    if p + length <= |f| then Some(TextAt(f[p..p + length], p + length)) else None
  }

  function ReadText(f: seq<byte>, p: nat, width: nat): Option<TextAt> {
    var length :- ReadLe(f, p, width);
    ReadBytes(f, p + width, length)
  }

  // Past `count` rules of a form-of entry.
  function PastRules(f: seq<byte>, p: nat, count: nat): (r: Option<nat>)
    decreases count
  {
    if count == 0 then Some(p)
    else
      var rule :- ReadText(f, p, 4);
      PastRules(f, rule.next, count - 1)
  }

  datatype FormsAt = FormsAt(formOf: bool, onlyReferences: bool, next: nat)

  // The form-of slot from entry to entry: the last entry with an empty formOf is the flag.
  function ReadForms(f: seq<byte>, at: FormsAt, count: nat): (r: Option<FormsAt>)
    decreases count
  {
    if count == 0 then Some(at)
    else
      var form :- ReadText(f, at.next, 4);
      var rules :- ReadLe(f, form.next, 4);
      var next :- PastRules(f, form.next + 4, rules);
      ReadForms(f, if form.text == [] then FormsAt(true, rules == 0, next) else at.(next := next), count - 1)
  }

  // The texts a record is filtered by.
  datatype HeadAt = HeadAt(expression: seq<byte>, reading: seq<byte>, next: nat)

  function ReadHead(f: seq<byte>, p: nat): Option<HeadAt> {
    var expression :- ReadText(f, p, 2);
    var reading :- ReadText(f, expression.next, 2);
    Some(HeadAt(expression.text, reading.text, reading.next))
  }

  datatype TagsAt = TagsAt(definitionTags: seq<byte>, rules: seq<byte>, termTags: seq<byte>, next: nat)

  function ReadTags(f: seq<byte>, p: nat): Option<TagsAt> {
    var definitionTags :- ReadText(f, p, 1);
    var rules :- ReadText(f, definitionTags.next, 1);
    var termTags :- ReadText(f, rules.next, 1);
    Some(TagsAt(definitionTags.text, rules.text, termTags.text, termTags.next))
  }

  // The rest of it, from the glossary's offset on.
  function ReadRest(f: seq<byte>, head: HeadAt): Option<Row> {
    var p := head.next;
    var glossaryOffset :- ReadLe(f, p, 8);
    var glossarySize :- ReadLe(f, p + 8, 4);
    var tags :- ReadTags(f, p + 12);
    var count :- ReadLe(f, tags.next, 4);
    var forms :- ReadForms(f, FormsAt(false, false, tags.next + 4), count);
    var score :- ReadBytes(f, forms.next, 8);
    Some(Row(head.expression, head.reading, glossaryOffset, glossarySize, tags.definitionTags, tags.rules,
             tags.termTags, forms.formOf, forms.onlyReferences, score.text))
  }

  function RowOf(t: Term, glossaryOffset: nat, size: nat, kind: FormOfKind): Row {
    Row(t.expression, ReadingOf(t), glossaryOffset, size, t.definitionTags, t.rules, t.termTags,
        !kind.NoForms?, kind.OnlyForms?, t.score)
  }

  // The record at p, behind its type byte.
  function ReadRow(f: seq<byte>, p: nat): Option<Row> {
    var head :- ReadHead(f, p + 1);
    ReadRest(f, head)
  }

  // ---- The walk's loops over the form-of slot

  method SkipRules(f: seq<byte>, p: nat, count: nat) returns (next: Option<nat>)
    ensures next == PastRules(f, p, count)
  {
    var q := p;
    for j := 0 to count
      invariant PastRules(f, q, count - j) == PastRules(f, p, count)
    {
      var rule := ReadText(f, q, 4);
      if rule.None? { return None; }
      q := rule.value.next;
    }
    return Some(q);
  }

  method WalkForms(f: seq<byte>, p: nat, count: nat) returns (r: Option<FormsAt>)
    ensures r == ReadForms(f, FormsAt(false, false, p), count)
  {
    hide ReadText, ReadLe, PastRules;
    var formOf, onlyReferences, next := false, false, p;
    for i := 0 to count
      invariant ReadForms(f, FormsAt(formOf, onlyReferences, next), count - i)
             == ReadForms(f, FormsAt(false, false, p), count)
    {
      var form := ReadText(f, next, 4);
      if form.None? { return None; }
      var rules := ReadLe(f, form.value.next, 4);
      if rules.None? { return None; }
      var behind := SkipRules(f, form.value.next + 4, rules.value);
      if behind.None? { return None; }
      next := behind.value;
      if form.value.text == [] {
        formOf, onlyReferences := true, rules.value == 0;
      }
    }
    return Some(FormsAt(formOf, onlyReferences, next));
  }

  // The fields behind the texts, walked one by one.
  method WalkRest(f: seq<byte>, head: HeadAt) returns (r: Option<Row>)
    ensures r == ReadRest(f, head)
  {
    hide ReadLe, ReadTags, ReadForms, ReadBytes;
    var glossaryOffset, glossarySize := ReadLe(f, head.next, 8), ReadLe(f, head.next + 8, 4);
    if glossaryOffset.None? || glossarySize.None? { return None; }
    var tags := ReadTags(f, head.next + 12);
    if tags.None? { return None; }
    var count := ReadLe(f, tags.value.next, 4);
    if count.None? { return None; }
    var forms := WalkForms(f, tags.value.next + 4, count.value);
    if forms.None? { return None; }
    var score := ReadBytes(f, forms.value.next, 8);
    if score.None? { return None; }
    return Some(Row(head.expression, head.reading, glossaryOffset.value, glossarySize.value,
                    tags.value.definitionTags, tags.value.rules, tags.value.termTags,
                    forms.value.formOf, forms.value.onlyReferences, score.value.text));
  }

  // ---- What was written is what is read

  // A text in front of the rest of a record: it is read back unless its length is cut short.
  lemma {:induction false} TextReadsBack(f: seq<byte>, p: nat, width: nat, s: seq<byte>, rest: seq<byte>)
    requires At(f, p, PutText(width, s) + rest)
    ensures |s| < Pow256(width) ==> ReadText(f, p, width) == Some(TextAt(s, p + width + |s|))
    ensures |s| >= Pow256(width) ==> ReadText(f, p, width).None? || ReadText(f, p, width).value.text != s
    ensures At(f, p + width + |s|, rest)
  {
    AtParts(f, p, PutText(width, s), rest);
    AtParts(f, p, Le(width, |s|), s);
    AtSlice(f, p, Le(width, |s|));
    AtSlice(f, p + width, s);
    LeRoundTrip(width, |s|);
  }

  lemma {:induction false} NumberReadsBack(f: seq<byte>, p: nat, width: nat, v: nat, rest: seq<byte>)
    requires At(f, p, Le(width, v) + rest)
    ensures ReadLe(f, p, width).Some? && (ReadLe(f, p, width) == Some(v) <==> v < Pow256(width))
    ensures At(f, p + width, rest)
  {
    AtParts(f, p, Le(width, v), rest);
    AtSlice(f, p, Le(width, v));
    LeRoundTrip(width, v);
  }

  lemma EmptyText()
    ensures Le(4, 0) == PutText(4, [])
  {
    assert Le(4, 0) + [] == Le(4, 0);
  }

  // A slot with the flag entry, read.
  lemma {:induction false} FlagRead(f: seq<byte>, at: FormsAt, kind: FormOfKind)
    requires !kind.NoForms?
    requires ReadText(f, at.next, 4) == Some(TextAt([], at.next + 4))
    requires ReadLe(f, at.next + 4, 4) == Some(FlagRules(kind))
    requires kind.WithOthers? ==> ReadText(f, at.next + 8, 4) == Some(TextAt([], at.next + 12))
    ensures ReadForms(f, at, 1) ==
            Some(FormsAt(true, kind.OnlyForms?, at.next + 8 + if kind.WithOthers? then 4 else 0))
  {
    hide ReadText, ReadLe;
    var behind := at.next + 8 + if kind.WithOthers? then 4 else 0;
    assert PastRules(f, behind, 0) == Some(behind);
    assert PastRules(f, at.next + 8, FlagRules(kind)) == Some(behind);
    assert ReadForms(f, FormsAt(true, kind.OnlyForms?, behind), 0) == Some(FormsAt(true, kind.OnlyForms?, behind));
  }

  lemma {:induction false} FlagReadsBack(f: seq<byte>, p: nat, kind: FormOfKind, rest: seq<byte>)
    requires At(f, p, PutForms(kind) + rest)
    ensures ReadLe(f, p, 4).Some?
    ensures ReadForms(f, FormsAt(false, false, p + 4), ReadLe(f, p, 4).value)
         == Some(FormsAt(!kind.NoForms?, kind.OnlyForms?, p + |PutForms(kind)|))
    ensures At(f, p + |PutForms(kind)|, rest)
  {
    hide At, Le, PutText, ReadText, ReadLe, Pow256, ReadForms;
    AtParts(f, p, PutForms(kind), rest);
    Widths();
    EmptyText();
    if kind.NoForms? {
      assert PutForms(kind) + [] == PutForms(kind);
      NumberReadsBack(f, p, 4, 0, []);
      NoFormsRead(f, FormsAt(false, false, p + 4));
    } else {
      var last := if kind.WithOthers? then Le(4, 0) else [];
      NumberReadsBack(f, p, 4, 1, Le(4, 0) + (Le(4, FlagRules(kind)) + last));
      TextReadsBack(f, p + 4, 4, [], Le(4, FlagRules(kind)) + last);
      NumberReadsBack(f, p + 8, 4, FlagRules(kind), last);
      if kind.WithOthers? {
        assert last == PutText(4, []) + [];
        TextReadsBack(f, p + 12, 4, [], []);
      }
      FlagRead(f, FormsAt(false, false, p + 4), kind);
    }
  }

  lemma {:induction false} NoFormsRead(f: seq<byte>, at: FormsAt)
    ensures ReadForms(f, at, 0) == Some(at)
  {
  }

  lemma FirstByte(f: seq<byte>, p: nat, t: Term, rest: seq<byte>)
    requires At(f, p, Head(t) + rest)
    ensures f[p] == 0
  {
    hide PutText, ReadingOf;
    assert (Head(t) + rest)[0] == 0;
  }

  // The part a record is filtered by comes back when both its texts fit, and only then.
  lemma HeadReadsBack(f: seq<byte>, p: nat, t: Term, rest: seq<byte>)
    requires At(f, p, Head(t) + rest)
    ensures f[p] == 0
    ensures At(f, p + |Head(t)|, rest)
    ensures |t.expression| < 0x1_0000 && |ReadingOf(t)| < 0x1_0000 ==>
              ReadHead(f, p + 1) == Some(HeadAt(t.expression, ReadingOf(t), p + |Head(t)|))
    ensures !(|t.expression| < 0x1_0000 && |ReadingOf(t)| < 0x1_0000) ==>
              ReadHead(f, p + 1).None?
              || ReadHead(f, p + 1).value.expression != t.expression
              || ReadHead(f, p + 1).value.reading != ReadingOf(t)
  {
    hide At, PutText, ReadText, Pow256, ReadingOf;
    Widths();
    FirstByte(f, p, t, rest);
    AtParts(f, p, Head(t), rest);
    var texts := PutText(2, t.expression) + PutText(2, ReadingOf(t));
    AtParts(f, p, [0], texts);
    assert texts == PutText(2, t.expression) + (PutText(2, ReadingOf(t)) + []);
    TextReadsBack(f, p + 1, 2, t.expression, PutText(2, ReadingOf(t)) + []);
    TextReadsBack(f, p + 3 + |t.expression|, 2, ReadingOf(t), []);
  }

  predicate TagsFit(t: Term) {
    |t.definitionTags| < 0x100 && |t.rules| < 0x100 && |t.termTags| < 0x100
  }

  // The tags read are the texts read one after the other.
  lemma TagsAre(f: seq<byte>, p: nat)
    ensures ReadTags(f, p).Some? ==>
              var a := ReadText(f, p, 1);
              && a.Some? && ReadTags(f, p).value.definitionTags == a.value.text
              && var b := ReadText(f, a.value.next, 1);
                 && b.Some? && ReadTags(f, p).value.rules == b.value.text
                 && var d := ReadText(f, b.value.next, 1);
                    d.Some? && ReadTags(f, p).value.termTags == d.value.text
  {
    hide ReadText;
  }

  lemma TagsTogether(f: seq<byte>, p: nat, a: TextAt, b: TextAt, d: TextAt)
    requires ReadText(f, p, 1) == Some(a) && ReadText(f, a.next, 1) == Some(b) && ReadText(f, b.next, 1) == Some(d)
    ensures ReadTags(f, p) == Some(TagsAt(a.text, b.text, d.text, d.next))
  {
    hide ReadText;
  }

  // Each of the tag texts, in front of the next.
  lemma TagTextsReadBack(f: seq<byte>, p: nat, t: Term, rest: seq<byte>)
    requires At(f, p, PutTags(t) + rest)
    ensures At(f, p + |PutTags(t)|, rest)
    ensures var q := p + 1 + |t.definitionTags|;
            var r := q + 1 + |t.rules|;
            && ReadsOrCuts(f, p, t.definitionTags) && ReadsOrCuts(f, q, t.rules) && ReadsOrCuts(f, r, t.termTags)
  {
    hide At, PutText, ReadText, Pow256;
    Widths();
    var q := p + 1 + |t.definitionTags|;
    var tags := PutText(1, t.termTags);
    AtParts(f, p, PutTags(t), rest);
    TextReadsBack(f, p, 1, t.definitionTags, PutText(1, t.rules) + tags);
    TextReadsBack(f, q, 1, t.rules, tags);
    assert tags == tags + [];
    TextReadsBack(f, q + 1 + |t.rules|, 1, t.termTags, []);
  }

  // A text of up to 255 bytes is read back; a longer one's length is cut short.
  ghost predicate ReadsOrCuts(f: seq<byte>, p: nat, s: seq<byte>) {
    if |s| < 0x100 then ReadText(f, p, 1) == Some(TextAt(s, p + 1 + |s|))
    else ReadText(f, p, 1).None? || ReadText(f, p, 1).value.text != s
  }

  lemma TagsReadBack(f: seq<byte>, p: nat, t: Term, rest: seq<byte>)
    requires At(f, p, PutTags(t) + rest)
    ensures At(f, p + |PutTags(t)|, rest)
    ensures TagsFit(t) ==>
              ReadTags(f, p) == Some(TagsAt(t.definitionTags, t.rules, t.termTags, p + |PutTags(t)|))
    ensures !TagsFit(t) ==>
              ReadTags(f, p).None?
              || ReadTags(f, p).value.definitionTags != t.definitionTags
              || ReadTags(f, p).value.rules != t.rules
              || ReadTags(f, p).value.termTags != t.termTags
  {
    hide At, PutTags, ReadText, ReadTags;
    TagTextsReadBack(f, p, t, rest);
    TagsAre(f, p);
    if TagsFit(t) {
      var q := p + 1 + |t.definitionTags|;
      var r := q + 1 + |t.rules|;
      TagsTogether(f, p, TextAt(t.definitionTags, q), TextAt(t.rules, r),
                   TextAt(t.termTags, r + 1 + |t.termTags|));
    }
  }

  lemma {:induction false} FormsReadBack(f: seq<byte>, p: nat, t: Term, kind: FormOfKind)
    requires At(f, p, PutForms(kind) + t.score)
    ensures ReadLe(f, p, 4).Some?
    ensures ReadForms(f, FormsAt(false, false, p + 4), ReadLe(f, p, 4).value)
         == Some(FormsAt(!kind.NoForms?, kind.OnlyForms?, p + |PutForms(kind)|))
    ensures ReadBytes(f, p + |PutForms(kind)|, 8) == Some(TextAt(t.score, p + |PutForms(kind)| + 8))
  {
    FlagReadsBack(f, p, kind, t.score);
    AtSlice(f, p + |PutForms(kind)|, t.score);
    hide PutForms, ReadForms, ReadLe;
  }

  // The fields behind it, put together.
  lemma {:induction false} RestIs(f: seq<byte>, head: HeadAt, tags: TagsAt, forms: FormsAt, score: seq<byte>)
    requires ReadLe(f, head.next, 8).Some? && ReadLe(f, head.next + 8, 4).Some?
    requires ReadTags(f, head.next + 12) == Some(tags)
    requires ReadLe(f, tags.next, 4).Some?
    requires ReadForms(f, FormsAt(false, false, tags.next + 4), ReadLe(f, tags.next, 4).value) == Some(forms)
    requires ReadBytes(f, forms.next, 8) == Some(TextAt(score, forms.next + 8))
    ensures ReadRest(f, head) ==
            Some(Row(head.expression, head.reading, ReadLe(f, head.next, 8).value, ReadLe(f, head.next + 8, 4).value,
                     tags.definitionTags, tags.rules, tags.termTags, forms.formOf, forms.onlyReferences, score))
  {
    hide ReadLe, ReadTags, ReadForms, ReadBytes;
  }

  lemma RestKeepsTags(f: seq<byte>, head: HeadAt)
    ensures ReadRest(f, head).Some? ==>
              && ReadTags(f, head.next + 12).Some?
              && ReadRest(f, head).value.definitionTags == ReadTags(f, head.next + 12).value.definitionTags
              && ReadRest(f, head).value.rules == ReadTags(f, head.next + 12).value.rules
              && ReadRest(f, head).value.termTags == ReadTags(f, head.next + 12).value.termTags
  {
    hide ReadLe, ReadTags, ReadForms, ReadBytes;
  }

  // The glossary's offset and size, in front of the tags.
  lemma {:induction false} PointerReadsBack(f: seq<byte>, p: nat, t: Term, glossaryOffset: nat, size: nat,
                                            kind: FormOfKind)
    requires At(f, p, Le(8, glossaryOffset) + Tail(t, size, kind))
    ensures ReadLe(f, p, 8).Some? && (ReadLe(f, p, 8).value == glossaryOffset <==> glossaryOffset < Pow256(8))
    ensures ReadLe(f, p + 8, 4).Some? && (ReadLe(f, p + 8, 4).value == size <==> size < Pow256(4))
    ensures At(f, p + 12, PutTags(t) + (PutForms(kind) + t.score))
  {
    NumberReadsBack(f, p, 8, glossaryOffset, Tail(t, size, kind));
    NumberReadsBack(f, p + 8, 4, size, PutTags(t) + (PutForms(kind) + t.score));
    hide At, ReadLe, PutTags, PutForms, Le, Pow256;
  }

  lemma {:induction false} RestReadsBack(f: seq<byte>, head: HeadAt, t: Term, glossaryOffset: nat, size: nat,
                                         kind: FormOfKind)
    requires At(f, head.next, Le(8, glossaryOffset) + Tail(t, size, kind))
    requires head.expression == t.expression && head.reading == ReadingOf(t)
    ensures ReadRest(f, head) == Some(RowOf(t, glossaryOffset, size, kind)) <==>
            glossaryOffset < 0x1_0000_0000_0000_0000 && size < 0x1_0000_0000 && TagsFit(t)
  {
    hide At, PutForms, PutTags, ReadTags, ReadForms, ReadLe, ReadRest, TagsFit, ReadBytes, Le, Tail;
    Widths();
    hide Pow256;
    PointerReadsBack(f, head.next, t, glossaryOffset, size, kind);
    var p := head.next + 12;
    TagsReadBack(f, p, t, PutForms(kind) + t.score);
    if TagsFit(t) {
      var next := p + |PutTags(t)|;
      FormsReadBack(f, next, t, kind);
      RestIs(f, head, TagsAt(t.definitionTags, t.rules, t.termTags, next),
             FormsAt(!kind.NoForms?, kind.OnlyForms?, next + |PutForms(kind)|), t.score);
    } else {
      RestKeepsTags(f, head);
    }
  }

  // The lengths a record's fields have room for.
  predicate Fits(t: Term, glossaryOffset: nat, size: nat) {
    && |t.expression| < 0x1_0000 && |ReadingOf(t)| < 0x1_0000
    && glossaryOffset < 0x1_0000_0000_0000_0000 && size < 0x1_0000_0000 && TagsFit(t)
  }

  // A record comes back from the file when every field fits its width, and only then.
  lemma RecordReadsBack(f: seq<byte>, p: nat, t: Term, glossaryOffset: nat, size: nat, kind: FormOfKind)
    requires At(f, p, Encode(t, glossaryOffset, size, kind))
    ensures f[p] == 0
    ensures ReadRow(f, p) == Some(RowOf(t, glossaryOffset, size, kind)) <==> Fits(t, glossaryOffset, size)
  {
    hide At, Tail, Le, ReadHead, ReadRest, Head, ReadingOf, TagsFit;
    HeadReadsBack(f, p, t, Le(8, glossaryOffset) + Tail(t, size, kind));
    RowKeepsHead(f, p);
    var head := ReadHead(f, p + 1);
    if head.Some? && head.value.expression == t.expression && head.value.reading == ReadingOf(t) {
      RestReadsBack(f, head.value, t, glossaryOffset, size, kind);
    }
  }

  lemma RowKeepsHead(f: seq<byte>, p: nat)
    ensures ReadRow(f, p).Some? ==>
              && ReadHead(f, p + 1).Some?
              && ReadRow(f, p).value.expression == ReadHead(f, p + 1).value.expression
              && ReadRow(f, p).value.reading == ReadHead(f, p + 1).value.reading
  {
    hide ReadHead, ReadTags, ReadForms, ReadLe;
  }
}
