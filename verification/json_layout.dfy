// What the documents of the two writers look like, line by line.

module JsonLayout {
  import opened Decimals
  import opened Integers
  import opened Options
  import opened JsonValue
  import opened JsonLexer
  import opened JsonText
  import opened JsonStrings
  import opened JsonWriter
  import opened JsonStyled
  import opened JsonRoundTrip

  // ----- the compact text

  // The tokens one behind the other, with nothing between them but the blank of YAML behind a colon.
  function Glued(yaml: bool, ts: seq<Tok>): string {
    if ts == [] then []
    else ts[0].text + (if yaml && ts[0].kind.MemberSeparator? then " " else "") + Glued(yaml, ts[1..])
  }

  lemma {:induction false} GluedConcat(yaml: bool, a: seq<Tok>, b: seq<Tok>)
    ensures Glued(yaml, a + b) == Glued(yaml, a) + Glued(yaml, b)
  {
    if a == [] {
      assert a + b == b;
    } else {
      assert (a + b)[1..] == a[1..] + b;
      GluedConcat(yaml, a[1..], b);
    }
  }

  lemma GluedOne(yaml: bool, t: Tok)
    ensures Glued(yaml, [t]) == t.text + if yaml && t.kind.MemberSeparator? then " " else ""
  {
    assert [t][1..] == [];
  }

  lemma {:induction false} FastIsGlued(w: Format, v: Value)
    ensures FastText(w, v) == Glued(w.yaml, TokensOf(Fast, w.real_, v))
    decreases Height(v), 2, 0
  {
    hide Glued, FastChildren, ChildTokens, ScalarText;
    if v.IsContainer() {
      FastChildrenAreGlued(w, v, 0);
      GluedOne(w.yaml, Opening(v));
      GluedOne(w.yaml, Closing(v));
      GluedConcat(w.yaml, [Opening(v)] + ChildTokens(Fast, w.real_, v, 0), [Closing(v)]);
      GluedConcat(w.yaml, [Opening(v)], ChildTokens(Fast, w.real_, v, 0));
    } else {
      TextOfToken(w.real_, v);
      GluedOne(w.yaml, ScalarToken(w.real_, v));
    }
  }

  lemma TextOfToken(fmt: RealFormat, v: Value)
    requires !v.IsContainer()
    ensures ScalarToken(fmt, v).text == ScalarText(fmt, v) && !ScalarToken(fmt, v).kind.MemberSeparator?
  {
  }

  lemma {:induction false} FastChildrenAreGlued(w: Format, v: Value, i: nat)
    requires v.IsContainer() && i <= Shown(v)
    ensures FastChildren(w, v, i) == Glued(w.yaml, ChildTokens(Fast, w.real_, v, i))
    decreases Height(v), 1, Shown(v) - i
  {
    hide Child, Shown, FastText, TokensOf, Glued, FastName, NameTokens;
    NothingGlued(w.yaml);
    if i < Shown(v) {
      var comma := if i > 0 then [COMMA] else [];
      var name, element := NameTokens(v, i), TokensOf(Fast, w.real_, Child(v, i));
      FastIsGlued(w, Child(v, i));
      FastChildrenAreGlued(w, v, i + 1);
      GluedOne(w.yaml, COMMA);
      NameIsGlued(w, v, i);
      GluedConcat(w.yaml, name, element);
      GluedConcat(w.yaml, comma, name + element);
      GluedConcat(w.yaml, comma + (name + element), ChildTokens(Fast, w.real_, v, i + 1));
    }
  }

  lemma NothingGlued(yaml: bool)
    ensures Glued(yaml, []) == ""
  {
  }

  lemma NameIsGlued(w: Format, v: Value, i: nat)
    requires v.IsContainer() && i < Shown(v)
    ensures FastName(w, v, i) == Glued(w.yaml, NameTokens(v, i))
  {
    hide Quote;
    if v.Object? {
      var name := Tok(String, Quote(MemberName(v, i)));
      GluedOne(w.yaml, name);
      GluedOne(w.yaml, COLON);
      GluedConcat(w.yaml, [name], [COLON]);
      assert [name] + [COLON] == [name, COLON];
    }
  }

  // ----- the pretty text

  function Blanks(n: nat): string { seq(n, _ => ' ') }

  // A new line at this depth.
  function NewLine(depth: nat): string { "\n" + Blanks(3 * depth) }

  function Joined(ts: seq<string>): string {
    if ts == [] then "" else if |ts| == 1 then ts[0] else ts[0] + ", " + Joined(ts[1..])
  }

  function Line(fmt: RealFormat, v: Value): string
    requires v.Array? && AllLeaves(v, Shown(v))
  {
    "[ " + Joined(LeafTexts(fmt, v, Shown(v))) + " ]"
  }

  // An array is on one line if it has fewer than 25 elements, all leaves, and that line has fewer than 74
  // characters.
  predicate OnOneLine(fmt: RealFormat, v: Value) {
    v.Array? && Size(v) < 25 && AllLeaves(v, Shown(v)) && |Line(fmt, v)| < 74
  }

  // The text of a value that starts at this depth: every element and member on a line of its own, one level
  // further in, and the closing bracket on a line like the first one.
  function Pretty(fmt: RealFormat, v: Value, depth: nat): string
    decreases Height(v), 1, 0
  {
    if !v.IsContainer() then ScalarText(fmt, v)
    else if Size(v) == 0 then if v.Array? then "[]" else "{}"
    else if OnOneLine(fmt, v) then Line(fmt, v)
    else Opening(v).text + PrettyItems(fmt, v, 0, depth + 1) + NewLine(depth) + Closing(v).text
  }

  function PrettyItems(fmt: RealFormat, v: Value, i: nat, depth: nat): string
    requires v.IsContainer() && i <= Size(v)
    decreases Height(v), 0, Size(v) - i
  {
    if i == Size(v) then ""
    else
      NewLine(depth) + (if v.Object? then Quote(MemberName(v, i)) + " : " else "") +
      Pretty(fmt, Child(v, i), depth) + (if i + 1 < Size(v) then "," else "") + PrettyItems(fmt, v, i + 1, depth)
  }

  // ----- when an array is on one line

  lemma {:induction false} JoinedLength(ts: seq<string>)
    ensures |Joined(ts)| == TotalLength(ts) + (if ts == [] then 0 else 2 * (|ts| - 1))
  {
    if |ts| > 1 {
      JoinedLength(ts[1..]);
      TotalFirst(ts);
    } else if |ts| == 1 {
      assert ts[..0] == [];
    }
  }

  lemma {:induction false} TotalFirst(ts: seq<string>)
    requires ts != []
    ensures TotalLength(ts) == |ts[0]| + TotalLength(ts[1..])
  {
    if |ts| == 1 {
      assert ts[..0] == [] && ts[1..] == [];
    } else {
      var n := |ts| - 1;
      TotalFirst(ts[..n]);
      assert ts[..n][1..] == ts[1..][..n - 1] && ts[1..][n - 1] == ts[n];
    }
  }

  // Sizes for which three times the size is an int, and texts that an int can add up.
  predicate Countable(fmt: RealFormat, v: Value)
    requires v.Array?
  {
    3 * Size(v) <= MAX_INT && (Size(v) < 25 && AllLeaves(v, Shown(v)) ==> |Line(fmt, v)| <= MAX_INT)
  }

  lemma OneLineIff(fmt: RealFormat, v: Value)
    requires v.Array? && Size(v) > 0 && Countable(fmt, v)
    ensures !Multiline(fmt, v) <==> OnOneLine(fmt, v)
  {
    Wrap32Small(3 * Size(v));
    if Size(v) < 25 && AllLeaves(v, Shown(v)) {
      var ts := LeafTexts(fmt, v, Shown(v));
      JoinedLength(ts);
      Wrap32Small(4 + (Size(v) - 1) * 2 + TotalLength(ts));
    }
  }

  lemma {:induction false} ListIsJoined(ts: seq<string>, i: nat)
    requires i < |ts|
    ensures LeafList(ts, i) == (if i > 0 then ", " else "") + Joined(ts[i..])
    decreases |ts| - i
  {
    if i + 1 < |ts| {
      ListIsJoined(ts, i + 1);
      assert ts[i..][1..] == ts[i + 1..] && ts[i..][0] == ts[i];
    } else {
      assert ts[i..] == [ts[i]];
    }
  }

  // ----- the pretty text is what the writer prints

  // The last character is no blank and no line end.
  predicate EndsClean(s: string) { s != [] && s[|s| - 1] != ' ' && s[|s| - 1] != '\n' }

  // All arrays can be counted.
  ghost predicate AllCountable(fmt: RealFormat, v: Value)
    decreases Height(v)
  {
    v.IsContainer() ==>
      (v.Array? ==> Countable(fmt, v)) && forall i | 0 <= i < Size(v) :: AllCountable(fmt, Child(v, i))
  }

  lemma NumberEndsClean(text: string)
    requires IsToken(Tok(Number, text))
    ensures EndsClean(text)
  {
    var n := |text| - 1;
    assert n > 0 ==> IsNumberChar(text[1..][n - 1]) && text[n] == text[1..][n - 1];
  }

  lemma LeafEndsClean(fmt: RealFormat, v: Value)
    requires FormatOk(fmt) && Writable(v) && !v.IsContainer()
    ensures EndsClean(ScalarText(fmt, v))
  {
    hide IsToken, IntText;
    match v {
      case Int(i) =>
        IntTextIsToken(i);
        NumberEndsClean(IntText(i));
      case UInt(u) =>
        IntTextIsToken(u);
        NumberEndsClean(IntText(u));
      case Real(r) => NumberEndsClean(fmt(r));
      case _ =>
    }
  }

  lemma StyledEndsClean(fmt: RealFormat, doc: string, ind: string, v: Value)
    requires FormatOk(fmt) && Writable(v)
    ensures EndsClean(StyledText(fmt, doc, ind, v))
  {
    hide FormatOk, Writable, ScalarText, Multiline, StyledChildren, Indentation, LeafTexts, LeafList;
    if !v.IsContainer() {
      LeafEndsClean(fmt, v);
    }
  }

  // Where a value is put: nothing is to be added in front of a bracket there.
  predicate AtStart(doc: string, ind: string) { Indentation(doc, ind) == "" }

  // Behind anything else a new line is started.
  lemma CleanIsIndented(doc: string, depth: nat)
    requires EndsClean(doc)
    ensures Indentation(doc, Blanks(3 * depth)) == NewLine(depth)
  {
  }

  lemma Deeper(depth: nat)
    ensures Blanks(3 * depth) + INDENT == Blanks(3 * (depth + 1))
  {
  }

  lemma EndsWith(a: string, b: string)
    requires EndsClean(b)
    ensures EndsClean(a + b)
  {
  }

  lemma {:induction false} StyledIsPretty(fmt: RealFormat, doc: string, depth: nat, v: Value)
    requires FormatOk(fmt) && Writable(v) && AllCountable(fmt, v) && AtStart(doc, Blanks(3 * depth))
    ensures StyledText(fmt, doc, Blanks(3 * depth), v) == Pretty(fmt, v, depth)
    decreases Height(v), 3, 0
  {
    hide FormatOk, Writable, AllCountable, ScalarText, Multiline, OnOneLine, StyledChildren, PrettyItems, LeafTexts,
      Blanks;
    if v.IsContainer() && Size(v) > 0 {
      if v.Array? { ArrayChoice(fmt, v); } else { ObjectChoice(fmt, v); }
      if !OnOneLine(fmt, v) {
        LinesArePretty(fmt, doc, depth, v);
      }
    }
  }

  lemma ArrayChoice(fmt: RealFormat, v: Value)
    requires AllCountable(fmt, v) && v.Array? && Size(v) > 0
    ensures !Multiline(fmt, v) <==> OnOneLine(fmt, v)
    ensures OnOneLine(fmt, v) ==> "[ " + LeafList(LeafTexts(fmt, v, Shown(v)), 0) + " ]" == Line(fmt, v)
  {
    hide Multiline, LeafTexts, LeafList, Joined, Countable, AllLeaves;
    OneLineIff(fmt, v);
    if OnOneLine(fmt, v) {
      var ts := LeafTexts(fmt, v, Shown(v));
      ListIsJoined(ts, 0);
      assert ts[0..] == ts;
    }
  }

  lemma ObjectChoice(fmt: RealFormat, v: Value)
    requires v.Object?
    ensures !OnOneLine(fmt, v)
  {
  }

  lemma {:induction false} LinesArePretty(fmt: RealFormat, doc: string, depth: nat, v: Value)
    requires FormatOk(fmt) && Writable(v) && AllCountable(fmt, v) && AtStart(doc, Blanks(3 * depth))
    requires v.IsContainer() && Size(v) > 0 && !OnOneLine(fmt, v) && (v.Array? ==> Multiline(fmt, v))
    ensures StyledText(fmt, doc, Blanks(3 * depth), v) ==
            Opening(v).text + PrettyItems(fmt, v, 0, depth + 1) + NewLine(depth) + Closing(v).text
    decreases Height(v), 2, 0
  {
    hide FormatOk, Writable, AllCountable, Multiline, OnOneLine, StyledChildren, PrettyItems, Blanks, Indentation,
      NewLine, EndsClean;
    var ind, open := Blanks(3 * depth), Opening(v).text;
    assert Indentation(doc, ind) + open == open;
    Deeper(depth);
    BracketsEndClean(v);
    EndsWith(doc, open);
    ItemsArePretty(fmt, doc + open, depth + 1, v, 0);
    var items := StyledChildren(fmt, doc + open, ind + INDENT, v, 0);
    CleanIsIndented(doc + open + items, depth);
    assert open + items + (NewLine(depth) + Closing(v).text) == open + items + NewLine(depth) + Closing(v).text;
  }

  lemma BracketsEndClean(v: Value)
    ensures EndsClean(Opening(v).text) && EndsClean(Closing(v).text)
  {
  }

  // The elements from i on. What is printed ends clean again.
  lemma {:induction false} ItemsArePretty(fmt: RealFormat, doc: string, depth: nat, v: Value, i: nat)
    requires FormatOk(fmt) && Writable(v) && AllCountable(fmt, v) && v.IsContainer() && i <= Size(v) && depth > 0
    requires EndsClean(doc)
    ensures StyledChildren(fmt, doc, Blanks(3 * depth), v, i) == PrettyItems(fmt, v, i, depth)
    ensures EndsClean(doc + StyledChildren(fmt, doc, Blanks(3 * depth), v, i))
    decreases Height(v), 1, Size(v) - i
  {
    hide FormatOk, Writable, AllCountable, StyledText, Pretty, Blanks, Indentation, NewLine, EndsClean, Child, Quote,
      StyledPiece, Size;
    var ind := Blanks(3 * depth);
    if i == Size(v) {
      assert doc + "" == doc;
    } else {
      var p := StyledPiece(fmt, doc, ind, v, i);
      ItemIsPretty(fmt, doc, depth, v, i);
      ItemsArePretty(fmt, doc + p, depth, v, i + 1);
      assert doc + (p + StyledChildren(fmt, doc + p, ind, v, i + 1)) ==
             doc + p + StyledChildren(fmt, doc + p, ind, v, i + 1);
    }
  }

  lemma {:induction false} ItemIsPretty(fmt: RealFormat, doc: string, depth: nat, v: Value, i: nat)
    requires FormatOk(fmt) && Writable(v) && AllCountable(fmt, v) && v.IsContainer() && i < Size(v) && depth > 0
    requires EndsClean(doc)
    ensures var p := StyledPiece(fmt, doc, Blanks(3 * depth), v, i);
            && p == NewLine(depth) + (if v.Object? then Quote(MemberName(v, i)) + " : " else "") +
                    Pretty(fmt, Child(v, i), depth) + (if i + 1 < Size(v) then "," else "")
            && EndsClean(doc + p)
    decreases Height(v), 0, 0
  {
    hide FormatOk, Writable, StyledText, Pretty, Blanks, Indentation, NewLine, Child, Quote, Countable, Size;
    var ind := Blanks(3 * depth);
    var head := PieceHead(doc, ind, v, i);
    var name := if v.Object? then Quote(MemberName(v, i)) + " : " else "";
    CleanIsIndented(doc, depth);
    assert head == NewLine(depth) + name;
    BlankIsStart(doc, depth, name);
    ChildWritable(v, i);
    assert AllCountable(fmt, Child(v, i));
    var text := StyledText(fmt, doc + head, ind, Child(v, i));
    StyledIsPretty(fmt, doc + head, depth, Child(v, i));
    StyledEndsClean(fmt, doc + head, ind, Child(v, i));
    var comma := if i + 1 < Size(v) then "," else "";
    CommaEndsClean(text, comma);
    EndsWith(doc + head, text + comma);
    assert doc + (head + text + comma) == doc + head + (text + comma);
  }

  lemma CommaEndsClean(text: string, comma: string)
    requires EndsClean(text) && (comma == "" || comma == ",")
    ensures EndsClean(text + comma)
  {
  }

  lemma BlankIsStart(doc: string, depth: nat, name: string)
    requires depth > 0 && (name == "" || (|name| > 0 && name[|name| - 1] == ' '))
    ensures AtStart(doc + (NewLine(depth) + name), Blanks(3 * depth))
  {
    var s := doc + (NewLine(depth) + name);
    assert s[|s| - 1] == ' ';
  }

  // ----- the documents

  // The compact document is the tokens of the value and a line end; the pretty one is laid out in lines.
  lemma Documents(w: Format, v: Value)
    requires FormatOk(w.real_) && Writable(v)
    ensures FastText(w, v) == Glued(w.yaml, TokensOf(Fast, w.real_, v))
    ensures AllCountable(w.real_, v) ==> StyledText(w.real_, "", "", v) == Pretty(w.real_, v, 0)
  {
    hide FastText, StyledText, Pretty, FormatOk, Writable, TokensOf, AllCountable;
    FastIsGlued(w, v);
    if AllCountable(w.real_, v) {
      assert Blanks(3 * 0) == "" && AtStart("", "");
      StyledIsPretty(w.real_, "", 0, v);
    }
  }
}
