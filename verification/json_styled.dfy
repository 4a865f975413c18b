// StyledWriter: the text depends on the document so far (an indentation is skipped after a
// blank) and on a trial run of the writer that collects an array's elements.

module JsonStyled {
  import opened Integers
  import opened JsonValue
  import opened JsonStrings
  import opened JsonWriter

  const RIGHT_MARGIN := 74
  const INDENT := "   "

  // A value that goes through pushValue whole.
  predicate IsLeaf(v: Value) { !v.IsContainer() || Size(v) == 0 }

  function LeafText(fmt: RealFormat, v: Value): string
    requires IsLeaf(v)
  {
    if v.Array? then "[]" else if v.Object? then "{}" else ScalarText(fmt, v)
  }

  predicate AllLeaves(v: Value, n: nat)
    requires v.IsContainer() && n <= Size(v)
  {
    forall i :: 0 <= i < n ==> IsLeaf(Child(v, i))
  }

  function LeafTexts(fmt: RealFormat, v: Value, n: nat): (ts: seq<string>)
    requires v.IsContainer() && n <= Size(v) && AllLeaves(v, n)
    ensures |ts| == n
  {
    if n == 0 then [] else LeafTexts(fmt, v, n - 1) + [LeafText(fmt, Child(v, n - 1))]
  }

  function TotalLength(ts: seq<string>): nat {
    if ts == [] then 0 else TotalLength(ts[..|ts| - 1]) + |ts[|ts| - 1]|
  }

  // The trial run applies to arrays of few elements, all leaves.
  predicate Compact(v: Value)
    requires v.Array?
  {
    Wrap32(Size(v) * 3) < RIGHT_MARGIN && AllLeaves(v, Shown(v))
  }

  predicate Multiline(fmt: RealFormat, v: Value)
    requires v.Array? && Size(v) > 0
  {
    !Compact(v) || Wrap32(4 + (Size(v) - 1) * 2 + TotalLength(LeafTexts(fmt, v, Shown(v)))) >= RIGHT_MARGIN
  }

  // The assertion that the texts collected for a single line are as many as the elements. It can only fail
  // for arrays whose size an int does not hold, and does not if they are taken for long ones.
  ghost predicate Asserted(v: Value)
    decreases Height(v)
  {
    v.IsContainer() ==>
      && (Size(v) != Shown(v) ==>
            Wrap32(Size(v) * 3) >= RIGHT_MARGIN || Wrap32(4 + (Size(v) - 1) * 2) >= RIGHT_MARGIN)
      && forall i | 0 <= i < Size(v) :: Asserted(Child(v, i))
  }

  lemma SingleLine(fmt: RealFormat, v: Value)
    requires Asserted(v) && v.Array? && Size(v) > 0 && !Multiline(fmt, v)
    ensures Shown(v) == Size(v) && Compact(v)
  {
    NoTexts(fmt, v);
  }

  lemma ChildAsserted(v: Value, i: nat)
    requires Asserted(v) && v.IsContainer() && i < Size(v)
    ensures Asserted(Child(v, i))
  {
    hide Child;
  }

  // writeIndent
  function Indentation(doc: string, ind: string): string {
    if doc == [] then ind
    else if doc[|doc| - 1] == ' ' then ""
    else if doc[|doc| - 1] != '\n' then "\n" + ind
    else ind
  }

  // What writeValue appends to doc at indentation ind.
  function StyledText(fmt: RealFormat, doc: string, ind: string, v: Value): string
    decreases Height(v), 1, 0
  {
    if IsLeaf(v) then LeafText(fmt, v)
    else if v.Array? && !Multiline(fmt, v) then "[ " + LeafList(LeafTexts(fmt, v, Shown(v)), 0) + " ]"
    else
      var open := Indentation(doc, ind) + (if v.Array? then "[" else "{");
      var items := StyledChildren(fmt, doc + open, ind + INDENT, v, 0);
      open + items + (Indentation(doc + open + items, ind) + (if v.Array? then "]" else "}"))
  }

  // The texts from i on, each but the first of all behind ", ".
  function LeafList(ts: seq<string>, i: nat): string
    requires i <= |ts|
    decreases |ts| - i
  {
    if i == |ts| then "" else (if i > 0 then ", " else "") + ts[i] + LeafList(ts, i + 1)
  }

  function StyledChildren(fmt: RealFormat, doc: string, ind: string, v: Value, i: nat): string
    requires v.IsContainer() && i <= Size(v)
    decreases Height(v), 0, 1 + Size(v) - i
  {
    if i == Size(v) then ""
    else
      var p := StyledPiece(fmt, doc, ind, v, i);
      p + StyledChildren(fmt, doc + p, ind, v, i + 1)
  }

  function PieceHead(doc: string, ind: string, v: Value, i: nat): string
    requires v.IsContainer() && i < Size(v)
  {
    Indentation(doc, ind) + if v.Object? then Quote(MemberName(v, i)) + " : " else ""
  }

  function StyledPiece(fmt: RealFormat, doc: string, ind: string, v: Value, i: nat): string
    requires v.IsContainer() && i < Size(v)
    decreases Height(v), 0, 0
  {
    var head := PieceHead(doc, ind, v, i);
    head + StyledText(fmt, doc + head, ind, Child(v, i)) + (if i + 1 < Size(v) then "," else "")
  }

  class StyledWriter {
    const fmt: RealFormat
    var document: string
    var indentString: string
    var childValues: seq<string>
    var addChildValues: bool

    constructor (fmt: RealFormat)
      ensures this.fmt == fmt
    {
      this.fmt := fmt;
      document, indentString, childValues, addChildValues := "", "", [], false;
    }

    method Write(root: Value) returns (text: string)
      requires Writable(root) && Asserted(root)
      modifies this
      ensures text == StyledText(fmt, "", "", root) + "\n"
      ensures indentString == "" && !addChildValues
    {
      document := "";
      addChildValues := false;
      indentString := "";
      WriteValue(root);
      document := document + "\n";
      text := document;
    }

    method PushValue(value: string)
      modifies this`document, this`childValues
      ensures if addChildValues then childValues == old(childValues) + [value] && document == old(document)
              else childValues == old(childValues) && document == old(document) + value
    {
      if addChildValues {
        childValues := childValues + [value];
      } else {
        document := document + value;
      }
    }

    method WriteIndent()
      modifies this`document
      ensures document == old(document) + Indentation(old(document), indentString)
    {
      if document != [] {
        var last := document[|document| - 1];
        if last == ' ' {
          return;
        }
        if last != '\n' {
          document := document + "\n";
        }
      }
      document := document + indentString;
    }

    method WriteWithIndent(value: string)
      modifies this`document
      ensures document == old(document) + (Indentation(old(document), indentString) + value)
    {
      WriteIndent();
      document := document + value;
    }

    method Indent()
      modifies this`indentString
      ensures indentString == old(indentString) + INDENT
    {
      indentString := indentString + INDENT;
    }

    method Unindent()
      requires |indentString| >= |INDENT|
      modifies this`indentString
      ensures indentString == old(indentString)[..|old(indentString)| - |INDENT|]
    {
      indentString := indentString[..|indentString| - |INDENT|];
    }

    // In the trial run only leaves arrive here, and they leave the document alone.
    method WriteValue(value: Value)
      requires Writable(value) && Asserted(value) && (addChildValues ==> IsLeaf(value))
      modifies this
      ensures indentString == old(indentString) && addChildValues == old(addChildValues)
      ensures old(addChildValues) ==>
                childValues == old(childValues) + [LeafText(fmt, value)] && document == old(document)
      ensures !old(addChildValues) ==>
                document == old(document) + StyledText(fmt, old(document), old(indentString), value)
      decreases Height(value), 5
    {
      hide Writable, Asserted, ScalarText, Multiline, StyledChildren;
      match value {
        case Array(_) => WriteArrayValue(value);
        case Object(_) =>
          if Size(value) == 0 {
            PushValue("{}");
          } else {
            WriteLines(value, "{", "}");
          }
        case _ =>
          var s := ScalarToString(fmt, value);
          PushValue(s);
      }
    }

    method WriteArrayValue(value: Value)
      requires Writable(value) && Asserted(value) && value.Array? && (addChildValues ==> IsLeaf(value))
      modifies this
      ensures indentString == old(indentString) && addChildValues == old(addChildValues)
      ensures old(addChildValues) ==>
                childValues == old(childValues) + [LeafText(fmt, value)] && document == old(document)
      ensures !old(addChildValues) ==>
                document == old(document) + StyledText(fmt, old(document), old(indentString), value)
      decreases Height(value), 4
    {
      hide Writable, Asserted, StyledChildren, AllLeaves, Child, Multiline, Compact, LeafTexts, LeafList, Indentation;
      var size := Size(value);
      if size == 0 {
        PushValue("[]");
        return;
      }
      var isArrayMultiLine := IsMultineArray(value);
      if isArrayMultiLine {
        WriteLines(value, "[", "]");
      } else {
        SingleLine(fmt, value);
        assert |childValues| == size;
        WriteSingleLine();
      }
    }

    method WriteSingleLine()
      modifies this`document
      ensures document == old(document) + ("[ " + LeafList(childValues, 0) + " ]")
    {
      hide LeafList;
      document := document + "[ ";
      WriteLeaves();
      document := document + " ]";
    }

    // for ( index < size ) the collected texts, separated by ", "
    method WriteLeaves()
      modifies this`document
      ensures document == old(document) + LeafList(childValues, 0)
    {
      var index := 0;
      ghost var list := "";
      while index < |childValues|
        invariant 0 <= index <= |childValues|
        invariant document == old(document) + list
        invariant list + LeafList(childValues, index) == LeafList(childValues, 0)
      {
        ghost var piece := (if index > 0 then ", " else "") + childValues[index];
        assert list + (piece + LeafList(childValues, index + 1)) == list + piece + LeafList(childValues, index + 1);
        if index > 0 {
          document := document + ", ";
        }
        document := document + childValues[index];
        list := list + piece;
        index := index + 1;
      }
      assert list + "" == list;
    }

    // The bracket lines and the indented elements between them.
    method WriteLines(value: Value, open: string, close: string)
      requires Writable(value) && Asserted(value) && value.IsContainer() && Size(value) > 0 && !addChildValues
      requires value.Array? ==>
                 childValues == (if Compact(value) then LeafTexts(fmt, value, Shown(value)) else [])
      modifies this
      ensures indentString == old(indentString) && !addChildValues
      ensures var o := Indentation(old(document), indentString) + open;
              var items := StyledChildren(fmt, old(document) + o, indentString + INDENT, value, 0);
              document == old(document) + (o + items + (Indentation(old(document) + o + items, indentString) + close))
      decreases Height(value), 3
    {
      hide Writable, Asserted, Compact, StyledChildren, Indentation;
      WriteWithIndent(open);
      Indent();
      WriteElements(value);
      Unindent();
      WriteWithIndent(close);
    }

    // The loop over the elements, with the texts of the trial run if it left any.
    method WriteElements(value: Value)
      requires Writable(value) && Asserted(value) && value.IsContainer() && Size(value) > 0 && !addChildValues
      requires value.Array? ==>
                 childValues == (if Compact(value) then LeafTexts(fmt, value, Shown(value)) else [])
      modifies this
      ensures indentString == old(indentString) && !addChildValues
      ensures document == old(document) + StyledChildren(fmt, old(document), indentString, value, 0)
      decreases Height(value), 2
    {
      hide Writable, Asserted, StyledPiece, StyledChildren, Child, LeafTexts, AllLeaves;
      var size := Size(value);
      var hasChildValue := value.Array? && childValues != [];
      assert hasChildValue ==> Shown(value) == size;
      ghost var done := "";
      StyledFirst(fmt, document, indentString, value);
      var index := 0;
      while index < size
        invariant 0 <= index <= size
        invariant indentString == old(indentString) && !addChildValues
        invariant hasChildValue ==> Tried(value)
        invariant document == old(document) + done
        invariant done + StyledChildren(fmt, document, indentString, value, index) ==
                  StyledChildren(fmt, old(document), indentString, value, 0)
      {
        ghost var piece := StyledPiece(fmt, document, indentString, value, index);
        StyledStep(fmt, old(document), done, indentString, value, index);
        WriteLine(value, index, hasChildValue);
        done := done + piece;
        index := index + 1;
      }
      StyledLast(fmt, document, done, indentString, value);
    }

    // The texts of all elements are there from the trial run.
    predicate Tried(value: Value)
      reads this
    {
      value.Array? && Compact(value) && Shown(value) == Size(value) && childValues == LeafTexts(fmt, value, Size(value))
    }

    // One element or member, and the comma behind all but the last.
    method WriteLine(value: Value, index: nat, hasChildValue: bool)
      requires Writable(value) && Asserted(value) && value.IsContainer() && index < Size(value) && !addChildValues
      requires hasChildValue ==> Tried(value)
      modifies this
      ensures indentString == old(indentString) && !addChildValues
      ensures hasChildValue ==> childValues == old(childValues)
      ensures document == old(document) + StyledPiece(fmt, old(document), indentString, value, index)
      decreases Height(value), 1
    {
      hide Writable, Asserted, PieceHead, StyledText, Child, Compact, LeafTexts;
      WriteItem(value, index, hasChildValue);
      if index + 1 < Size(value) {
        document := document + ",";
      }
    }

    // The element or member itself.
    method WriteItem(value: Value, index: nat, hasChildValue: bool)
      requires Writable(value) && Asserted(value) && value.IsContainer() && index < Size(value) && !addChildValues
      requires hasChildValue ==> Tried(value)
      modifies this
      ensures indentString == old(indentString) && !addChildValues
      ensures hasChildValue ==> childValues == old(childValues)
      ensures var head := PieceHead(old(document), indentString, value, index);
              var body := StyledText(fmt, old(document) + head, indentString, Child(value, index));
              document == old(document) + (head + body)
      decreases Height(value), 0
    {
      hide StyledText, Quote, Indentation, TotalLength, Asserted, Wrap32;
      ChildWritable(value, index);
      ChildAsserted(value, index);
      ghost var doc := document;
      ghost var head := PieceHead(doc, indentString, value, index);
      ghost var body := StyledText(fmt, doc + head, indentString, Child(value, index));
      if hasChildValue {
        LeafTextAt(fmt, value, Size(value), index);
        LeafStyled(fmt, doc + head, indentString, Child(value, index));
        WriteWithIndent(childValues[index]);
      } else if value.Array? {
        WriteIndent();
        assert document == doc + head;
        WriteValue(At(value, Index(Wrap32(index))));
      } else {
        MemberAt(value, index);
        var name := MemberName(value, index);
        var quoted := ValueToQuotedString(name);
        WriteWithIndent(quoted);
        document := document + " : ";
        assert document == doc + head;
        WriteValue(At(value, Name(name)));
      }
      assert document == doc + (head + body);
    }

    // Decides the layout; the texts of the elements stay behind in childValues if they were tried.
    method IsMultineArray(value: Value) returns (isMultiLine: bool)
      requires Writable(value) && Asserted(value) && value.Array? && Size(value) > 0 && !addChildValues
      modifies this
      ensures indentString == old(indentString) && !addChildValues && document == old(document)
      ensures isMultiLine <==> Multiline(fmt, value)
      ensures childValues == if Compact(value) then LeafTexts(fmt, value, Shown(value)) else []
      decreases Height(value), 2
    {
      hide Writable, Asserted, AllLeaves;
      var size := Wrap32(Size(value));
      TripleSize(Size(value));
      hide Wrap32;
      isMultiLine := Wrap32(size * 3) >= RIGHT_MARGIN;
      childValues := [];
      if !isMultiLine {
        isMultiLine := HasLargeChild(value);
      }
      if !isMultiLine {
        var lineLength := TryLine(value);
        isMultiLine := lineLength >= RIGHT_MARGIN;
      }
    }

    // The search for an element that is not a leaf.
    method HasLargeChild(value: Value) returns (found: bool)
      requires value.Array?
      ensures found <==> !AllLeaves(value, Shown(value))
    {
      hide Child, Size, Shown, Wrap32;
      IntSize(value);
      var size := Wrap32(Size(value));
      found := false;
      var index := 0;
      while index < size && !found
        invariant 0 <= index <= Shown(value)
        invariant if found then !AllLeaves(value, Shown(value)) else AllLeaves(value, index)
      {
        var childValue := Child(value, index);
        found := childValue.IsContainer() && Size(childValue) > 0;
        index := index + 1;
      }
    }

    // The trial run: the length of the line with all texts on it.
    method TryLine(value: Value) returns (lineLength: int)
      requires Writable(value) && Asserted(value) && value.Array? && AllLeaves(value, Shown(value))
      requires !addChildValues && childValues == []
      modifies this
      ensures indentString == old(indentString) && !addChildValues && document == old(document)
      ensures childValues == LeafTexts(fmt, value, Shown(value))
      ensures lineLength == Wrap32(4 + (Size(value) - 1) * 2 + TotalLength(childValues))
      decreases Height(value), 1
    {
      hide Writable, Asserted, AllLeaves, LeafTexts, TotalLength, Wrap32, Size, Shown;
      IntSize(value);
      ghost var others := 4 + (Size(value) - 1) * 2;
      var size := Wrap32(Size(value));
      NoTexts(fmt, value);
      addChildValues := true;
      lineLength := Wrap32(4 + (size - 1) * 2);
      LineStart(Size(value));
      var index := 0;
      while index < size
        invariant 0 <= index <= Shown(value) && AllLeaves(value, index) && AllLeaves(value, Shown(value))
        invariant addChildValues && indentString == old(indentString) && document == old(document)
        invariant childValues == LeafTexts(fmt, value, index)
        invariant lineLength == Wrap32(others + TotalLength(childValues))
      {
        FewerLeaves(value, Shown(value), index + 1);
        lineLength := TryElement(value, index, lineLength, others);
        index := index + 1;
      }
      addChildValues := false;
    }

    // One round: the text of the element and its length.
    method TryElement(value: Value, index: nat, lineLength: int, ghost others: int) returns (longer: int)
      requires Writable(value) && Asserted(value) && value.Array?
      requires index < Shown(value) && AllLeaves(value, index + 1)
      requires addChildValues && childValues == LeafTexts(fmt, value, index)
      requires lineLength == Wrap32(others + TotalLength(childValues))
      modifies this
      ensures indentString == old(indentString) && addChildValues && document == old(document)
      ensures childValues == LeafTexts(fmt, value, index + 1)
      ensures longer == Wrap32(others + TotalLength(childValues))
      decreases Height(value), 0
    {
      hide Writable, Asserted, StyledText, LeafText, Child, Wrap32;
      ChildWritable(value, index);
      ChildAsserted(value, index);
      WriteValue(Child(value, index));
      assert childValues[..|childValues| - 1] == old(childValues);
      Wrap32Sum(others + TotalLength(old(childValues)), |childValues[index]|);
      longer := Wrap32(lineLength + |childValues[index]|);
    }
  }

  // What the int size does to the two numbers computed from it.
  lemma TripleSize(n: nat)
    ensures Wrap32(Wrap32(n) * 3) == Wrap32(n * 3)
  {
    var q := (n + 0x8000_0000) / 0x1_0000_0000;
    Wrap32Around(n * 3, -3 * q);
  }

  lemma LineStart(n: nat)
    ensures Wrap32(4 + (Wrap32(n) - 1) * 2) == Wrap32(4 + (n - 1) * 2)
  {
    var q := (n + 0x8000_0000) / 0x1_0000_0000;
    Wrap32Around(4 + (n - 1) * 2, -2 * q);
  }

  // What is done of the text and what is left of it, around one round.
  lemma StyledStep(fmt: RealFormat, doc: string, done: string, ind: string, v: Value, i: nat)
    requires v.IsContainer() && i < Size(v)
    ensures var p := StyledPiece(fmt, doc + done, ind, v, i);
            && doc + done + p == doc + (done + p)
            && done + StyledChildren(fmt, doc + done, ind, v, i) ==
               done + p + StyledChildren(fmt, doc + (done + p), ind, v, i + 1)
  {
    hide StyledPiece;
    var p := StyledPiece(fmt, doc + done, ind, v, i);
    var rest := StyledChildren(fmt, doc + done + p, ind, v, i + 1);
    assert doc + done + p == doc + (done + p);
    assert done + (p + rest) == done + p + rest;
  }

  lemma StyledFirst(fmt: RealFormat, doc: string, ind: string, v: Value)
    requires v.IsContainer()
    ensures doc + "" == doc && "" + StyledChildren(fmt, doc, ind, v, 0) == StyledChildren(fmt, doc, ind, v, 0)
  {
    hide StyledChildren;
  }

  lemma StyledLast(fmt: RealFormat, doc: string, done: string, ind: string, v: Value)
    requires v.IsContainer()
    ensures done + StyledChildren(fmt, doc, ind, v, Size(v)) == done
  {
  }

  lemma {:induction false} LeafTextAt(fmt: RealFormat, v: Value, n: nat, i: nat)
    requires v.IsContainer() && i < n <= Size(v) && AllLeaves(v, n)
    ensures IsLeaf(Child(v, i)) && LeafTexts(fmt, v, n)[i] == LeafText(fmt, Child(v, i))
  {
    if i < n - 1 { LeafTextAt(fmt, v, n - 1, i); }
  }

  lemma FewerLeaves(v: Value, n: nat, m: nat)
    requires v.IsContainer() && m <= n <= Size(v) && AllLeaves(v, n)
    ensures AllLeaves(v, m)
  {
  }

  lemma NoTexts(fmt: RealFormat, v: Value)
    requires v.IsContainer()
    ensures AllLeaves(v, 0) && LeafTexts(fmt, v, 0) == [] && TotalLength([]) == 0
  {
  }

  lemma LeafStyled(fmt: RealFormat, doc: string, ind: string, v: Value)
    requires IsLeaf(v)
    ensures StyledText(fmt, doc, ind, v) == LeafText(fmt, v)
  {}
}
