// Printing and reading are inverse: both printers produce the same token sequence, and reading
// that sequence gives the printed tree back exactly when its numbers survive decodeNumber.

module JsonRoundTrip {
  import opened JsonValue
  import opened JsonLexer
  import opened JsonText
  import opened JsonStrings
  import opened JsonWriter
  import opened JsonStyled

  // "%#.16g" always prints a decimal point.
  ghost predicate FormatOk(fmt: RealFormat) {
    forall r :: IsToken(Tok(Number, fmt(r))) && IsDouble(fmt(r))
  }

  // ----- the tokens of a value

  const COMMA := Tok(ArraySeparator, ",")
  const COLON := Tok(MemberSeparator, ":")

  function Opening(v: Value): Tok { if v.Array? then Tok(ArrayBegin, "[") else Tok(ObjectBegin, "{") }
  function Closing(v: Value): Tok { if v.Array? then Tok(ArrayEnd, "]") else Tok(ObjectEnd, "}") }

  function ScalarToken(fmt: RealFormat, v: Value): Tok
    requires !v.IsContainer()
  {
    var text := ScalarText(fmt, v);
    match v
    case Null => Tok(NullToken, text)
    case Str(_) => Tok(String, text)
    case Bool(b) => Tok(if b then True else False, text)
    case _ => Tok(Number, text)
  }

  // The two writers differ in the arrays whose size an int does not hold.
  datatype Writer = Fast | Styled

  // How many slots or members the loop of the writer sees.
  function Rounds(writer: Writer, v: Value): nat { if writer.Fast? then Shown(v) else Size(v) }

  function TokensOf(writer: Writer, fmt: RealFormat, v: Value): seq<Tok>
    decreases Height(v), 1, 0
  {
    if v.IsContainer() then [Opening(v)] + ChildTokens(writer, fmt, v, 0) + [Closing(v)]
    else [ScalarToken(fmt, v)]
  }

  function NameTokens(v: Value, i: nat): seq<Tok>
    requires v.IsContainer() && i < Size(v)
  {
    if v.Array? then [] else [Tok(String, Quote(MemberName(v, i))), COLON]
  }

  // Slots or members i on, each but the first of all behind a comma.
  function ChildTokens(writer: Writer, fmt: RealFormat, v: Value, i: nat): seq<Tok>
    requires v.IsContainer() && i <= Rounds(writer, v)
    decreases Height(v), 0, Rounds(writer, v) - i
  {
    if i == Rounds(writer, v) then []
    else (if i > 0 then [COMMA] else []) + ElementTokens(writer, fmt, v, i) + ChildTokens(writer, fmt, v, i + 1)
  }

  function ElementTokens(writer: Writer, fmt: RealFormat, v: Value, i: nat): seq<Tok>
    requires v.IsContainer() && i < Size(v)
    decreases Height(v), 0, 0
  {
    NameTokens(v, i) + TokensOf(writer, fmt, Child(v, i))
  }

  // ----- texts as token sequences

  // In front of any text (if free) or of one that does not prolong a number, the tokens of text
  // are ts.
  ghost predicate Spells(text: string, ts: seq<Tok>, free: bool) {
    forall tail :: free || Stops(tail) ==> Lex(text + tail) == ts + Lex(tail)
  }

  lemma SpellsToken(t: Tok)
    requires IsToken(t) && !t.kind.Comment? && !t.kind.Error?
    ensures Spells(t.text, [t], !t.kind.Number?)
  {
    forall tail | !t.kind.Number? || Stops(tail) ensures Lex(t.text + tail) == [t] + Lex(tail) {
      LexToken(t, tail);
    }
  }

  lemma SpellsBlank(w: string)
    requires forall k :: 0 <= k < |w| ==> IsBlank(w[k])
    ensures Spells(w, [], true)
  {
    hide Lex;
    forall tail ensures Lex(w + tail) == [] + Lex(tail) {
      LexSpaces(w, tail);
    }
  }

  lemma SpellsConcat(a: string, ta: seq<Tok>, freeA: bool, b: string, tb: seq<Tok>, freeB: bool)
    requires Spells(a, ta, freeA) && Spells(b, tb, freeB)
    requires freeA || (b != [] && Stops(b))
    ensures Spells(a + b, ta + tb, freeB)
  {
    hide Lex;
    forall tail | freeB || Stops(tail) ensures Lex(a + b + tail) == ta + tb + Lex(tail) {
      assert a + b + tail == a + (b + tail);
      assert freeA || Stops(b + tail);
      assert ta + (tb + Lex(tail)) == ta + tb + Lex(tail);
    }
  }

  lemma PunctuationTokens()
    ensures IsToken(COMMA) && IsToken(COLON)
    ensures IsToken(Tok(ArrayBegin, "[")) && IsToken(Tok(ArrayEnd, "]"))
    ensures IsToken(Tok(ObjectBegin, "{")) && IsToken(Tok(ObjectEnd, "}"))
    ensures IsToken(Tok(NullToken, "null")) && IsToken(Tok(True, "true")) && IsToken(Tok(False, "false"))
  {}

  lemma ScalarSpells(fmt: RealFormat, v: Value)
    requires FormatOk(fmt) && Printable(v) && !v.IsContainer()
    ensures Spells(ScalarText(fmt, v), [ScalarToken(fmt, v)], false)
  {
    hide IsToken, Lex, Spells;
    PunctuationTokens();
    match v {
      case Int(i) => IntTextIsToken(i);
      case UInt(u) => IntTextIsToken(u);
      case Str(c) => QuoteIsToken(c.value);
      case _ =>
    }
    SpellsToken(ScalarToken(fmt, v));
    Weaken(ScalarText(fmt, v), [ScalarToken(fmt, v)], !ScalarToken(fmt, v).kind.Number?);
  }

  lemma Weaken(text: string, ts: seq<Tok>, free: bool)
    requires Spells(text, ts, free)
    ensures Spells(text, ts, false)
  {}

  lemma EmptySpells()
    ensures Spells("", [], true)
  {
    SpellsBlank("");
  }

  lemma ClosingSpells(v: Value)
    requires v.IsContainer()
    ensures Spells(Closing(v).text, [Closing(v)], true) && Stops(Closing(v).text) && Closing(v).text != []
    ensures Spells(Opening(v).text, [Opening(v)], true)
  {
    hide IsToken, Lex, Spells;
    PunctuationTokens();
    SpellsToken(Closing(v));
    SpellsToken(Opening(v));
  }

  lemma CommaSpells(i: nat)
    ensures Spells(Comma(i), if i > 0 then [COMMA] else [], true)
  {
    hide IsToken, Lex, Spells;
    PunctuationTokens();
    SpellsToken(COMMA);
    EmptySpells();
  }

  // A member name with its colon, whatever blanks are around the colon.
  lemma NameSpells(v: Value, i: nat, before: string, after: string)
    requires v.Object? && i < Size(v)
    requires forall k :: 0 <= k < |before| ==> IsBlank(before[k])
    requires forall k :: 0 <= k < |after| ==> IsBlank(after[k])
    ensures Spells(Quote(MemberName(v, i)) + before + ":" + after, NameTokens(v, i), true)
  {
    hide IsToken, Lex, Spells, Quote;
    var q := Tok(String, Quote(MemberName(v, i)));
    QuoteIsToken(MemberName(v, i));
    PunctuationTokens();
    SpellsToken(q);
    SpellsToken(COLON);
    SpellsBlank(before);
    SpellsBlank(after);
    SpellsConcat(q.text, [q], true, before, [], true);
    SpellsConcat(q.text + before, [q] + [], true, ":", [COLON], true);
    SpellsConcat(q.text + before + ":", [q] + [] + [COLON], true, after, [], true);
    assert [q] + [] + [COLON] + [] == NameTokens(v, i);
  }

  // ----- FastWriter

  lemma {:induction false} FastSpells(w: Format, v: Value)
    requires FormatOk(w.real_) && Writable(v)
    ensures Spells(FastText(w, v), TokensOf(Fast, w.real_, v), false)
    decreases Height(v), 2, 0
  {
    hide Spells, IsToken, Lex, FormatOk;
    if v.IsContainer() {
      var o, c := Opening(v), Closing(v);
      ClosingSpells(v);
      FastChildrenSpell(w, v, 0);
      var inner, ts := FastChildren(w, v, 0) + c.text, ChildTokens(Fast, w.real_, v, 0) + [c];
      SpellsConcat(o.text, [o], true, inner, ts, true);
      Weaken(o.text + inner, [o] + ts, true);
      assert o.text + inner == FastText(w, v) && [o] + ts == TokensOf(Fast, w.real_, v);
    } else {
      ScalarSpells(w.real_, v);
    }
  }

  lemma {:induction false} FastChildrenSpell(w: Format, v: Value, i: nat)
    requires FormatOk(w.real_) && Writable(v) && v.IsContainer() && i <= Shown(v)
    ensures Spells(FastChildren(w, v, i) + Closing(v).text, ChildTokens(Fast, w.real_, v, i) + [Closing(v)], true)
    ensures i > 0 ==> Stops(FastChildren(w, v, i) + Closing(v).text)
    decreases Height(v), 1, 1 + Shown(v) - i
  {
    hide Spells, IsToken, Lex, FormatOk, Writable, FastPiece, ElementTokens;
    var c := Closing(v);
    ClosingSpells(v);
    if i == Shown(v) {
      assert FastChildren(w, v, i) + c.text == c.text && ChildTokens(Fast, w.real_, v, i) + [c] == [c];
    } else {
      FastPieceSpells(w, v, i);
      FastChildrenSpell(w, v, i + 1);
      var a, ta := FastPiece(w, v, i), (if i > 0 then [COMMA] else []) + ElementTokens(Fast, w.real_, v, i);
      var b, tb := FastChildren(w, v, i + 1) + c.text, ChildTokens(Fast, w.real_, v, i + 1) + [c];
      SpellsConcat(a, ta, false, b, tb, true);
      assert a + b == FastChildren(w, v, i) + c.text;
      assert ta + tb == ChildTokens(Fast, w.real_, v, i) + [c];
      CommaFirst(w, v, i);
    }
  }

  lemma CommaFirst(w: Format, v: Value, i: nat)
    requires Writable(v) && v.IsContainer() && 0 <= i < Shown(v)
    ensures i > 0 ==> FastPiece(w, v, i) != [] && FastPiece(w, v, i)[0] == ','
  {
    hide FastText, Writable, FastName;
  }

  lemma {:induction false} FastPieceSpells(w: Format, v: Value, i: nat)
    requires FormatOk(w.real_) && Writable(v) && v.IsContainer() && i < Shown(v)
    ensures Spells(FastPiece(w, v, i), (if i > 0 then [COMMA] else []) + ElementTokens(Fast, w.real_, v, i), false)
    decreases Height(v), 1, 0
  {
    hide Spells, IsToken, Lex, FormatOk, Writable, FastText, TokensOf, Quote;
    ChildWritable(v, i);
    FastSpells(w, Child(v, i));
    CommaSpells(i);
    var comma := if i > 0 then [COMMA] else [];
    var name, tn := FastName(w, v, i), NameTokens(v, i);
    if v.Array? {
      EmptySpells();
    } else {
      NameSpells(v, i, "", if w.yaml then " " else "");
      assert name == Quote(MemberName(v, i)) + "" + ":" + (if w.yaml then " " else "");
    }
    SpellsConcat(Comma(i), comma, true, name, tn, true);
    SpellsConcat(Comma(i) + name, comma + tn, true, FastText(w, Child(v, i)), TokensOf(Fast, w.real_, Child(v, i)),
                 false);
    assert comma + tn + TokensOf(Fast, w.real_, Child(v, i)) == comma + ElementTokens(Fast, w.real_, v, i);
  }

  // ----- StyledWriter

  predicate Blank(s: string) { forall k :: 0 <= k < |s| ==> IsBlank(s[k]) }

  // The tokens from element i on, the comma in front of it already gone.
  function TokensFrom(writer: Writer, fmt: RealFormat, v: Value, i: nat): seq<Tok>
    requires v.IsContainer() && i <= Rounds(writer, v)
  {
    if i == Rounds(writer, v) then []
    else ElementTokens(writer, fmt, v, i) + ChildTokens(writer, fmt, v, i + 1)
  }

  lemma LeafSpells(fmt: RealFormat, v: Value)
    requires FormatOk(fmt) && Writable(v) && IsLeaf(v)
    ensures Spells(LeafText(fmt, v), TokensOf(Styled, fmt, v), false)
  {
    hide Spells, IsToken, Lex, FormatOk;
    if v.IsContainer() {
      ClosingSpells(v);
      SpellsConcat(Opening(v).text, [Opening(v)], true, Closing(v).text, [Closing(v)], true);
      assert Opening(v).text + Closing(v).text == LeafText(fmt, v);
      Weaken(LeafText(fmt, v), [Opening(v)] + [Closing(v)], true);
      assert [Opening(v)] + [Closing(v)] == TokensOf(Styled, fmt, v);
    } else {
      ScalarSpells(fmt, v);
    }
  }

  lemma {:induction false} LeafListSpells(fmt: RealFormat, v: Value, i: nat)
    requires FormatOk(fmt) && Writable(v) && v.Array? && i <= Size(v) && AllLeaves(v, Size(v))
    ensures var ts := LeafTexts(fmt, v, Size(v));
            Spells(LeafList(ts, i) + " ]", ChildTokens(Styled, fmt, v, i) + [Closing(v)], true) &&
            (i > 0 ==> Stops(LeafList(ts, i) + " ]"))
    decreases Size(v) - i
  {
    hide Spells, IsToken, Lex, FormatOk, Writable, LeafText, LeafTexts, LeafList, TokensOf, ChildTokens, Child;
    var ts := LeafTexts(fmt, v, Size(v));
    if i == Size(v) {
      NoLeafSpells(fmt, v);
    } else {
      ChildWritable(v, i);
      LeafTextAt(fmt, v, Size(v), i);
      LeafSpells(fmt, Child(v, i));
      LeafListSpells(fmt, v, i + 1);
      var t := TokensOf(Styled, fmt, Child(v, i));
      var b, tb := LeafList(ts, i + 1) + " ]", ChildTokens(Styled, fmt, v, i + 1) + [Closing(v)];
      SpellsConcat(ts[i], t, false, b, tb, true);
      CommaBlankSpells(i, ts[i] + b, t + tb);
      LeafListStep(ts, i);
      LeafTokensStep(fmt, v, i);
    }
  }

  lemma NoLeafSpells(fmt: RealFormat, v: Value)
    requires Writable(v) && v.Array? && AllLeaves(v, Size(v))
    ensures var s := LeafList(LeafTexts(fmt, v, Size(v)), Size(v)) + " ]";
            Spells(s, ChildTokens(Styled, fmt, v, Size(v)) + [Closing(v)], true) && Stops(s)
  {
    hide Spells, IsToken, Lex, Writable, LeafText, LeafTexts;
    ClosingSpells(v);
    SpellsBlank(" ");
    SpellsConcat(" ", [], true, "]", [Closing(v)], true);
    assert LeafList(LeafTexts(fmt, v, Size(v)), Size(v)) + " ]" == " " + "]";
    assert ChildTokens(Styled, fmt, v, Size(v)) + [Closing(v)] == [] + [Closing(v)];
  }

  lemma LeafListStep(ts: seq<string>, i: nat)
    requires i < |ts|
    ensures LeafList(ts, i) + " ]" == Comma(i) + (if i > 0 then " " else "") + (ts[i] + (LeafList(ts, i + 1) + " ]"))
    ensures i > 0 ==> Stops(LeafList(ts, i) + " ]")
  {
    Regroup(if i > 0 then ", " else "", ts[i], LeafList(ts, i + 1), " ]");
    assert ", " == "," + " ";
  }

  lemma Regroup(a: string, b: string, c: string, d: string)
    ensures a + b + c + d == a + (b + (c + d))
  {
  }

  lemma LeafTokensStep(fmt: RealFormat, v: Value, i: nat)
    requires v.Array? && i < Size(v)
    ensures ChildTokens(Styled, fmt, v, i) + [Closing(v)] ==
            (if i > 0 then [COMMA] else []) +
            (TokensOf(Styled, fmt, Child(v, i)) + (ChildTokens(Styled, fmt, v, i + 1) + [Closing(v)]))
  {
    hide TokensOf, Child;
  }

  lemma CommaBlankSpells(i: nat, b: string, tb: seq<Tok>)
    requires Spells(b, tb, true)
    ensures Spells(Comma(i) + (if i > 0 then " " else "") + b, (if i > 0 then [COMMA] else []) + tb, true)
  {
    hide Spells, Lex;
    CommaSpells(i);
    SpellsBlank(if i > 0 then " " else "");
    var comma := if i > 0 then [COMMA] else [];
    SpellsConcat(Comma(i), comma, true, if i > 0 then " " else "", [], true);
    SpellsConcat(Comma(i) + (if i > 0 then " " else ""), comma + [], true, b, tb, true);
    assert comma + [] == comma;
  }

  lemma IndentationBlank(doc: string, ind: string)
    requires Blank(ind)
    ensures Blank(Indentation(doc, ind)) && Blank(ind + INDENT)
  {}

  lemma {:induction false} StyledSpells(fmt: RealFormat, doc: string, ind: string, v: Value)
    requires FormatOk(fmt) && Writable(v) && Asserted(v) && Blank(ind)
    ensures Spells(StyledText(fmt, doc, ind, v), TokensOf(Styled, fmt, v), false)
    decreases Height(v), 2, 0
  {
    hide Spells, IsToken, Lex, FormatOk, Writable, Asserted, Blank, Indentation, ScalarText, Multiline, LeafList,
      LeafTexts;
    if IsLeaf(v) {
      LeafSpells(fmt, v);
    } else if v.Array? && !Multiline(fmt, v) {
      ShortArraySpells(fmt, doc, ind, v);
    } else {
      StyledLinesSpell(fmt, doc, ind, v);
    }
  }

  lemma ShortArraySpells(fmt: RealFormat, doc: string, ind: string, v: Value)
    requires FormatOk(fmt) && Writable(v) && Asserted(v) && v.Array? && !IsLeaf(v) && !Multiline(fmt, v)
    ensures Spells(StyledText(fmt, doc, ind, v), TokensOf(Styled, fmt, v), false)
  {
    hide Spells, IsToken, Lex, FormatOk, Writable, Asserted, LeafText;
    SingleLine(fmt, v);
    var o := Opening(v);
    ClosingSpells(v);
    SpellsBlank(" ");
    LeafListSpells(fmt, v, 0);
    var b, tb := LeafList(LeafTexts(fmt, v, Size(v)), 0) + " ]", ChildTokens(Styled, fmt, v, 0) + [Closing(v)];
    SpellsConcat("[", [o], true, " ", [], true);
    SpellsConcat("[" + " ", [o] + [], true, b, tb, true);
    Weaken("[" + " " + b, [o] + [] + tb, true);
    assert "[" + " " + b == StyledText(fmt, doc, ind, v) && [o] + [] + tb == TokensOf(Styled, fmt, v);
  }

  lemma {:induction false} StyledLinesSpell(fmt: RealFormat, doc: string, ind: string, v: Value)
    requires FormatOk(fmt) && Writable(v) && Asserted(v) && Blank(ind) && !IsLeaf(v) && (v.Array? ==> Multiline(fmt, v))
    ensures Spells(StyledText(fmt, doc, ind, v), TokensOf(Styled, fmt, v), false)
    decreases Height(v), 1, 2 + Size(v)
  {
    hide Spells, IsToken, Lex, FormatOk, Writable, Asserted, Blank, Indentation, Multiline, StyledChildren,
      ChildTokens;
    var o, c := Opening(v), Closing(v);
    ClosingSpells(v);
    IndentationBlank(doc, ind);
    var open := Indentation(doc, ind) + o.text;
    SpellsBlankLine(doc, ind, o);
    var items := StyledChildren(fmt, doc + open, ind + INDENT, v, 0);
    var close := Indentation(doc + open + items, ind) + c.text;
    SpellsBlankLine(doc + open + items, ind, c);
    StyledChildrenSpell(fmt, doc + open, ind + INDENT, v, 0, close);
    SpellsConcat(open, [o], true, items + close, TokensFrom(Styled, fmt, v, 0) + [c], true);
    Weaken(open + (items + close), [o] + (TokensFrom(Styled, fmt, v, 0) + [c]), true);
    assert open + (items + close) == StyledText(fmt, doc, ind, v);
    AllTokens(Styled, fmt, v);
    assert [o] + (TokensFrom(Styled, fmt, v, 0) + [c]) == TokensOf(Styled, fmt, v);
  }

  lemma AllTokens(writer: Writer, fmt: RealFormat, v: Value)
    requires v.IsContainer()
    ensures TokensFrom(writer, fmt, v, 0) == ChildTokens(writer, fmt, v, 0)
  {}

  lemma NoTokensLeft(writer: Writer, fmt: RealFormat, v: Value)
    requires v.IsContainer()
    ensures TokensFrom(writer, fmt, v, Rounds(writer, v)) == []
  {}

  // An indented token that no number can run into.
  lemma SpellsBlankLine(doc: string, ind: string, t: Tok)
    requires Blank(ind) && Spells(t.text, [t], true) && t.text != [] && Stops(t.text)
    ensures Spells(Indentation(doc, ind) + t.text, [t], true)
    ensures Indentation(doc, ind) + t.text != [] && Stops(Indentation(doc, ind) + t.text)
  {
    hide Spells, Lex;
    var i := Indentation(doc, ind);
    SpellsBlank(i);
    SpellsConcat(i, [], true, t.text, [t], true);
    assert [] + [t] == [t];
    assert i != [] ==> IsBlank((i + t.text)[0]);
    assert i == [] ==> i + t.text == t.text;
  }

  lemma {:induction false} StyledChildrenSpell(
    fmt: RealFormat, doc: string, ind: string, v: Value, i: nat, close: string)
    requires FormatOk(fmt) && Writable(v) && Asserted(v) && v.IsContainer() && i <= Size(v) && Blank(ind)
    requires Spells(close, [Closing(v)], true) && close != [] && Stops(close)
    ensures Spells(StyledChildren(fmt, doc, ind, v, i) + close, TokensFrom(Styled, fmt, v, i) + [Closing(v)], true)
    decreases Height(v), 1, 1 + Size(v) - i
  {
    hide Spells, IsToken, Lex, FormatOk, Writable, Asserted, Blank, Closing, ElementTokens, PieceHead, StyledText,
      StyledPiece, StyledChildren, TokensFrom;
    if i == Size(v) {
      NothingMore(fmt, doc, ind, v, close);
    } else {
      var p := StyledPiece(fmt, doc, ind, v, i);
      var rest := StyledChildren(fmt, doc + p, ind, v, i + 1) + close;
      var tr := TokensFrom(Styled, fmt, v, i + 1) + [Closing(v)];
      StyledChildrenSpell(fmt, doc + p, ind, v, i + 1, close);
      var comma, tc := if i + 1 < Size(v) then "," else "", if i + 1 < Size(v) then [COMMA] else [];
      NothingMore(fmt, doc + p, ind, v, close);
      CommaThen(i + 1 < Size(v), rest, tr);
      ElementSpells(fmt, doc, ind, v, i, comma + rest, tc + tr);
      ElementFirst(fmt, doc, ind, v, i, close);
    }
  }

  // Behind the last element.
  lemma NothingMore(fmt: RealFormat, doc: string, ind: string, v: Value, close: string)
    requires v.IsContainer()
    ensures StyledChildren(fmt, doc, ind, v, Size(v)) + close == close
    ensures TokensFrom(Styled, fmt, v, Size(v)) + [Closing(v)] == [Closing(v)]
  {
    hide Closing;
  }

  lemma CommaThen(more: bool, rest: string, tr: seq<Tok>)
    requires Spells(rest, tr, true) && (more || (rest != [] && Stops(rest)))
    ensures var s := (if more then "," else "") + rest;
            Spells(s, (if more then [COMMA] else []) + tr, true) && s != [] && Stops(s)
  {
    hide Spells, Lex;
    CommaSpells(1);
    EmptySpells();
    SpellsConcat(if more then "," else "", if more then [COMMA] else [], true, rest, tr, true);
    assert "" + rest == rest;
  }

  // The text and the tokens from element i on, with the element in front.
  lemma ElementFirst(fmt: RealFormat, doc: string, ind: string, v: Value, i: nat, close: string)
    requires v.IsContainer() && i < Size(v)
    ensures var head, p := PieceHead(doc, ind, v, i), StyledPiece(fmt, doc, ind, v, i);
            StyledChildren(fmt, doc, ind, v, i) + close ==
            head + StyledText(fmt, doc + head, ind, Child(v, i)) +
            ((if i + 1 < Size(v) then "," else "") + (StyledChildren(fmt, doc + p, ind, v, i + 1) + close))
    ensures TokensFrom(Styled, fmt, v, i) + [Closing(v)] ==
            ElementTokens(Styled, fmt, v, i) +
            ((if i + 1 < Size(v) then [COMMA] else []) + (TokensFrom(Styled, fmt, v, i + 1) + [Closing(v)]))
  {
    hide PieceHead, StyledText, ElementTokens, TokensFrom, Closing;
    var head, p := PieceHead(doc, ind, v, i), StyledPiece(fmt, doc, ind, v, i);
    var body := head + StyledText(fmt, doc + head, ind, Child(v, i));
    Regroup(body, if i + 1 < Size(v) then "," else "", StyledChildren(fmt, doc + p, ind, v, i + 1), close);
    TokensFromStep(Styled, fmt, v, i);
    RegroupTokens(ElementTokens(Styled, fmt, v, i), if i + 1 < Size(v) then [COMMA] else [],
                  TokensFrom(Styled, fmt, v, i + 1), [Closing(v)]);
  }

  lemma RegroupTokens(a: seq<Tok>, b: seq<Tok>, c: seq<Tok>, d: seq<Tok>)
    ensures a + (b + c) + d == a + (b + (c + d))
  {
  }

  lemma TokensFromStep(writer: Writer, fmt: RealFormat, v: Value, i: nat)
    requires v.IsContainer() && i < Rounds(writer, v)
    ensures ElementTokens(writer, fmt, v, i) +
            ((if i + 1 < Rounds(writer, v) then [COMMA] else []) + TokensFrom(writer, fmt, v, i + 1)) ==
            TokensFrom(writer, fmt, v, i)
  {
    hide ElementTokens;
  }

  lemma {:induction false} ElementSpells(
    fmt: RealFormat, doc: string, ind: string, v: Value, i: nat, next: string, tn: seq<Tok>)
    requires FormatOk(fmt) && Writable(v) && Asserted(v) && v.IsContainer() && i < Size(v) && Blank(ind)
    requires Spells(next, tn, true) && next != [] && Stops(next)
    ensures var head := PieceHead(doc, ind, v, i);
            Spells(head + StyledText(fmt, doc + head, ind, Child(v, i)) + next,
                   ElementTokens(Styled, fmt, v, i) + tn, true)
    decreases Height(v), 1, 0
  {
    hide Spells, IsToken, Lex, FormatOk, Writable, Asserted, Indentation, StyledText, TokensOf, Quote;
    var head := PieceHead(doc, ind, v, i);
    var body, tb := StyledText(fmt, doc + head, ind, Child(v, i)), TokensOf(Styled, fmt, Child(v, i));
    ChildWritable(v, i);
    ChildAsserted(v, i);
    StyledSpells(fmt, doc + head, ind, Child(v, i));
    var blank := Indentation(doc, ind);
    IndentationBlank(doc, ind);
    SpellsBlank(blank);
    var name, tm := if v.Array? then "" else Quote(MemberName(v, i)) + " : ", NameTokens(v, i);
    if v.Array? {
      EmptySpells();
    } else {
      NameSpells(v, i, " ", " ");
      assert Quote(MemberName(v, i)) + " " + ":" + " " == name;
    }
    SpellsConcat(blank, [], true, name, tm, true);
    SpellsConcat(head, [] + tm, true, body, tb, false);
    SpellsConcat(head + body, [] + tm + tb, false, next, tn, true);
    assert [] + tm + tb + tn == ElementTokens(Styled, fmt, v, i) + tn;
  }

  // ----- the two documents

  // No array in the value is too large for an int.
  ghost predicate Fits(v: Value)
    decreases Height(v)
  {
    v.IsContainer() ==> Shown(v) == Size(v) && forall i | 0 <= i < Size(v) :: Fits(Child(v, i))
  }

  lemma ChildFits(v: Value, i: nat)
    requires Fits(v) && v.IsContainer() && i < Size(v)
    ensures Fits(Child(v, i))
  {
    hide Child;
  }

  lemma {:induction false} FitsIsAsserted(v: Value)
    requires Fits(v)
    ensures Asserted(v)
    decreases Height(v)
  {
    hide Child;
    if v.IsContainer() {
      forall i | 0 <= i < Size(v)
        ensures Asserted(Child(v, i))
      {
        FitsIsAsserted(Child(v, i));
      }
    }
  }

  // The writers agree on the tokens exactly if everything fits; else there are more in the pretty text.
  lemma {:induction false} SameTokensIff(fmt: RealFormat, v: Value)
    ensures Fits(v) ==> TokensOf(Styled, fmt, v) == TokensOf(Fast, fmt, v)
    ensures !Fits(v) ==> |TokensOf(Styled, fmt, v)| > |TokensOf(Fast, fmt, v)|
    decreases Height(v), 1, 0
  {
    if v.IsContainer() {
      if Shown(v) == Size(v) {
        SameChildTokensIff(fmt, v, 0);
      } else {
        assert |ChildTokens(Styled, fmt, v, 0)| > 0 by {
          SomeTokens(fmt, v);
        }
      }
    }
  }

  lemma SomeTokens(fmt: RealFormat, v: Value)
    requires v.IsContainer() && Size(v) > 0
    ensures |ChildTokens(Styled, fmt, v, 0)| > 0
  {
    hide Child;
    assert |TokensOf(Styled, fmt, Child(v, 0))| > 0;
  }

  lemma {:induction false} SameChildTokensIff(fmt: RealFormat, v: Value, i: nat)
    requires v.IsContainer() && Shown(v) == Size(v) && i <= Size(v)
    ensures var fit := forall j | i <= j < Size(v) :: Fits(Child(v, j));
            var styled, fast := ChildTokens(Styled, fmt, v, i), ChildTokens(Fast, fmt, v, i);
            if fit then styled == fast else |styled| > |fast|
    decreases Height(v), 0, Size(v) - i
  {
    hide Child, Fits, TokensOf, Size, Shown;
    if i < Size(v) {
      SameTokensIff(fmt, Child(v, i));
      SameChildTokensIff(fmt, v, i + 1);
      assert (forall j | i <= j < Size(v) :: Fits(Child(v, j))) <==>
             Fits(Child(v, i)) && forall j | i + 1 <= j < Size(v) :: Fits(Child(v, j));
    }
  }

  // For every value each printer spells its tokens, and they are the same ones exactly if every array has a
  // size that an int holds.
  lemma SameTokens(w: Format, v: Value)
    requires FormatOk(w.real_) && Writable(v)
    ensures Lex(FastText(w, v) + "\n") == TokensOf(Fast, w.real_, v)
    ensures Asserted(v) ==>
              && Lex(StyledText(w.real_, "", "", v) + "\n") == TokensOf(Styled, w.real_, v)
              && (Lex(StyledText(w.real_, "", "", v) + "\n") == Lex(FastText(w, v) + "\n") <==> Fits(v))
    ensures Fits(v) ==> Asserted(v)
  {
    hide FastText, StyledText, TokensOf, FormatOk, Writable, Fits, Asserted;
    FastSpells(w, v);
    assert Stops("\n") && Lex("\n") == [];
    assert TokensOf(Fast, w.real_, v) + [] == TokensOf(Fast, w.real_, v);
    if Asserted(v) {
      StyledSpells(w.real_, "", "", v);
      assert TokensOf(Styled, w.real_, v) + [] == TokensOf(Styled, w.real_, v);
      SameTokensIff(w.real_, v);
    }
    if Fits(v) {
      FitsIsAsserted(v);
    }
  }
}
