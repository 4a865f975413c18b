// What reading back a printed value gives, for every value, and exactly when that is the value.

module JsonEcho {
  import opened Decimals
  import opened Options
  import opened JsonValue
  import opened JsonLexer
  import opened JsonText
  import opened JsonStrings
  import opened JsonWriter
  import opened JsonStyled
  import opened JsonParse
  import opened JsonRoundTrip

  // ----- the value that comes back

  function ScalarEcho(scan: DoubleScanner, fmt: RealFormat, v: Value): Option<Value>
    requires !v.IsContainer()
  {
    match v
    case Int(i) => IntEcho(scan, i)
    case UInt(u) => IntEcho(scan, u)
    case Real(r) => RealEcho(scan, fmt(r))
    case _ => Some(v)
  }

  function IntEcho(scan: DoubleScanner, i: int): Option<Value> {
    if IntInRange(i) then Some(IntValue(i)) else RealEcho(scan, IntText(i))
  }

  function RealEcho(scan: DoubleScanner, text: string): Option<Value> {
    match scan(text) case None => None case Some(r) => Some(Real(r))
  }

  // None when sscanf rejects some number; numbers beyond decodeNumber's integer range turn real.
  function Echo(scan: DoubleScanner, fmt: RealFormat, v: Value): Option<Value>
    decreases Height(v), 1, 0
  {
    if v.IsContainer() then
      match ChildEchoes(scan, fmt, v, 0)
      case None => None
      case Some(es) => Some(if v.Array? then Array(es) else Object(es))
    else ScalarEcho(scan, fmt, v)
  }

  // Entries i on; an array comes back without gaps.
  function ChildEchoes(scan: DoubleScanner, fmt: RealFormat, v: Value, i: nat): Option<seq<Entry>>
    requires v.IsContainer() && i <= Shown(v)
    decreases Height(v), 0, Shown(v) - i
  {
    if i == Shown(v) then Some([])
    else match (Echo(scan, fmt, Child(v, i)), ChildEchoes(scan, fmt, v, i + 1))
      case (Some(w), Some(es)) => Some([Entry(ChildKey(v, i), w)] + es)
      case _ => None
  }

  function ChildKey(v: Value, i: nat): Key
    requires v.IsContainer() && i < Shown(v)
  {
    if v.Array? then Index(i) else Name(MemberName(v, i))
  }

  // ----- reading the tokens of a value

  // The outcome of reading v: with an echo, that echo and exactly the tokens of v consumed.
  ghost predicate Reads(r: Parse, echo: Option<Value>, rest: seq<Tok>) {
    match echo
    case Some(w) => r == Parse(true, rest, w, [])
    case None => !r.ok
  }

  lemma ScalarReads(scan: DoubleScanner, fmt: RealFormat, v: Value)
    requires FormatOk(fmt) && Writable(v) && !v.IsContainer()
    ensures Scalar(scan, ScalarToken(fmt, v)) ==
            match ScalarEcho(scan, fmt, v) case Some(w) => Good(w) case None => Bad(NotANumber)
  {
    hide DecodeBody, Quote, CStr, DecodeNumber, IntText, FormatOk, Valid;
    match v {
      case Int(i) => DecodePrinted(scan, i);
      case UInt(u) => DecodePrinted(scan, u);
      case Real(r) => RealReads(scan, fmt, r);
      case Str(c) =>
        StrIsClean(v);
        QuoteIsToken(c.value);
        CStrOfClean(c.value);
      case _ =>
    }
  }

  lemma RealReads(scan: DoubleScanner, fmt: RealFormat, r: real)
    requires FormatOk(fmt)
    ensures DecodeNumber(scan, fmt(r)) == DecodeDouble(scan, fmt(r))
  {
    assert IsDouble(fmt(r));
  }

  lemma StrIsClean(v: Value)
    requires Writable(v) && v.Str?
    ensures v.cstr.Some? && '\0' !in v.cstr.value
  {
  }

  lemma {:induction false} ValueReads(
    scan: DoubleScanner, f: Features, fmt: RealFormat, v: Value, rest: seq<Tok>, prior: Value)
    requires FormatOk(fmt) && Writable(v)
    ensures Reads(ReadValue(scan, f, TokensOf(Fast, fmt, v) + rest, prior), Echo(scan, fmt, v), rest)
    decreases Height(v), 1, 0
  {
    hide FormatOk, Writable, ChildTokens, TokensFrom, TokensOf, ReadMembers, ReadElements, ReadScalar, Shown,
      ScalarEcho, ScalarToken, ChildEchoes;
    if !v.IsContainer() {
      ScalarValueReads(scan, f, fmt, v, rest, prior);
    } else {
      OpeningReads(scan, f, fmt, v, rest, prior);
      if Shown(v) == 0 {
        EmptyReads(scan, f, fmt, v, rest);
      } else {
        AllTokens(Fast, fmt, v);
        FirstToken(fmt, v, rest);
        assert forall es: seq<Entry> :: [] + es == es;
        if v.Array? {
          ElementsRead(scan, f, fmt, v, 0, rest, []);
        } else {
          MembersRead(scan, f, fmt, v, 0, rest, [], "");
        }
      }
    }
  }

  lemma ScalarValueReads(
    scan: DoubleScanner, f: Features, fmt: RealFormat, v: Value, rest: seq<Tok>, prior: Value)
    requires FormatOk(fmt) && Writable(v) && !v.IsContainer()
    ensures Reads(ReadValue(scan, f, TokensOf(Fast, fmt, v) + rest, prior), Echo(scan, fmt, v), rest)
  {
    hide FormatOk, Writable, Scalar, ScalarEcho, ReadMembers, ReadElements;
    ScalarReads(scan, fmt, v);
    assert Tail([ScalarToken(fmt, v)] + rest) == rest;
  }

  // The first token leads to the loop over the others.
  lemma OpeningReads(scan: DoubleScanner, f: Features, fmt: RealFormat, v: Value, rest: seq<Tok>, prior: Value)
    requires v.IsContainer()
    ensures var ts := ChildTokens(Fast, fmt, v, 0) + [Closing(v)] + rest;
            ReadValue(scan, f, TokensOf(Fast, fmt, v) + rest, prior) ==
            if v.Object? then ReadMembers(scan, ts, f, Object([]), "")
            else if Head(ts).kind.ArrayEnd? then Parse(true, Tail(ts), Array([]), [])
            else ReadElements(scan, ts, f, Array([]), 0)
  {
    hide ChildTokens, ReadMembers, ReadElements, ReadScalar, Closing;
    assert Tail(TokensOf(Fast, fmt, v) + rest) == ChildTokens(Fast, fmt, v, 0) + [Closing(v)] + rest;
  }

  lemma EmptyReads(scan: DoubleScanner, f: Features, fmt: RealFormat, v: Value, rest: seq<Tok>)
    requires v.IsContainer() && Shown(v) == 0
    ensures ChildEchoes(scan, fmt, v, 0) == Some([])
    ensures ChildTokens(Fast, fmt, v, 0) + [Closing(v)] + rest == [Closing(v)] + rest
    ensures ReadMembers(scan, [Tok(ObjectEnd, "}")] + rest, f, Object([]), "") == Parse(true, rest, Object([]), [])
  {
    hide Recover, DecodeBody;
    var ts := [Tok(ObjectEnd, "}")] + rest;
    assert Tail(ts) == rest;
    assert ReadMember(scan, ts, f, Object([]), "") == Stop(Parse(true, rest, Object([]), []));
  }

  // The elements of a non-empty container start with a token that does not close it.
  lemma FirstToken(fmt: RealFormat, v: Value, rest: seq<Tok>)
    requires v.IsContainer() && Shown(v) > 0
    ensures var ts := ChildTokens(Fast, fmt, v, 0) + [Closing(v)] + rest; ts != [] && !ts[0].kind.ArrayEnd?
  {
    hide ScalarText;
    var t := TokensOf(Fast, fmt, Child(v, 0));
    assert t != [] && !t[0].kind.ArrayEnd?;
  }

  // What follows element i: a comma and the elements behind it, or the closing bracket.
  function After(fmt: RealFormat, v: Value, i: nat, rest: seq<Tok>): (ts: seq<Tok>)
    requires v.IsContainer() && i < Shown(v)
    ensures ts != [] && ts[0] == if i + 1 < Shown(v) then COMMA else Closing(v)
    ensures Tail(ts) == if i + 1 < Shown(v) then TokensFrom(Fast, fmt, v, i + 1) + [Closing(v)] + rest else rest
  {
    if i + 1 < Shown(v) then [COMMA] + (TokensFrom(Fast, fmt, v, i + 1) + [Closing(v)] + rest) else [Closing(v)] + rest
  }

  lemma ElementThenAfter(fmt: RealFormat, v: Value, i: nat, rest: seq<Tok>)
    requires v.IsContainer() && i < Shown(v)
    ensures TokensFrom(Fast, fmt, v, i) + [Closing(v)] + rest ==
            NameTokens(v, i) + (TokensOf(Fast, fmt, Child(v, i)) + After(fmt, v, i, rest))
  {
    hide TokensFrom, TokensOf;
    TokensFromStep(Fast, fmt, v, i);
    NoTokensLeft(Fast, fmt, v);
    var comma := if i + 1 < Shown(v) then [COMMA] else [];
    Associate(NameTokens(v, i), TokensOf(Fast, fmt, Child(v, i)), comma, TokensFrom(Fast, fmt, v, i + 1), [Closing(v)],
              rest);
    AfterParts(comma, TokensFrom(Fast, fmt, v, i + 1), [Closing(v)], rest);
  }

  lemma AfterParts(comma: seq<Tok>, from: seq<Tok>, c: seq<Tok>, rest: seq<Tok>)
    ensures comma + (from + c + rest) == comma + (from + (c + rest))
    ensures from == [] ==> [] + (from + (c + rest)) == c + rest
  {}

  lemma Associate(n: seq<Tok>, t: seq<Tok>, comma: seq<Tok>, from: seq<Tok>, c: seq<Tok>, rest: seq<Tok>)
    ensures n + t + (comma + from) + c + rest == n + (t + (comma + (from + (c + rest))))
  {}

  ghost predicate KeysBelow(pre: seq<Entry>, k: Key) {
    forall j :: 0 <= j < |pre| ==> KeyLess(pre[j].key, k)
  }

  // One round of the loop over the elements, followed by any token but a comment.
  lemma ElementStep(scan: DoubleScanner, ts: seq<Tok>, f: Features, arr: Value, i: nat, after: seq<Tok>, w: Value)
    requires arr.Array? && ReadValue(scan, f, ts, At(arr, Index(i))) == Parse(true, after, w, [])
    requires after != [] && !after[0].kind.Comment?
    ensures ReadElements(scan, ts, f, arr, i) ==
            if after[0].kind.ArrayEnd? then Parse(true, Tail(after), With(arr, Index(i), w), [])
            else ReadElements(scan, Tail(after), f, With(arr, Index(i), w), i + 1)
  {
    hide ReadValue, At, With;
  }

  // The elements from i on, each but the last followed by a token that is to part it from the next one.
  function Parted(fmt: RealFormat, v: Value, i: nat, marks: seq<Tok>): seq<Tok>
    requires v.Array? && i < Shown(v) == |marks|
    decreases Shown(v) - i
  {
    TokensOf(Fast, fmt, Child(v, i)) + if i + 1 == Shown(v) then [] else [marks[i]] + Parted(fmt, v, i + 1, marks)
  }

  // What follows element i.
  function Behind(fmt: RealFormat, v: Value, i: nat, marks: seq<Tok>, rest: seq<Tok>): (ts: seq<Tok>)
    requires v.Array? && i < Shown(v) == |marks|
    ensures ts != [] && ts[0] == if i + 1 < Shown(v) then marks[i] else Closing(v)
    ensures Tail(ts) == if i + 1 < Shown(v) then Parted(fmt, v, i + 1, marks) + [Closing(v)] + rest else rest
  {
    if i + 1 < Shown(v) then [marks[i]] + (Parted(fmt, v, i + 1, marks) + [Closing(v)] + rest) else [Closing(v)] + rest
  }

  lemma PartedFirst(fmt: RealFormat, v: Value, i: nat, marks: seq<Tok>, rest: seq<Tok>)
    requires v.Array? && i < Shown(v) == |marks|
    ensures Parted(fmt, v, i, marks) + [Closing(v)] + rest ==
            TokensOf(Fast, fmt, Child(v, i)) + Behind(fmt, v, i, marks, rest)
  {
    hide TokensOf, Child, Shown, Closing;
  }

  lemma {:induction false} PartedByCommas(fmt: RealFormat, v: Value, i: nat)
    requires v.Array? && i < Shown(v)
    ensures Parted(fmt, v, i, seq(Shown(v), _ => COMMA)) == TokensFrom(Fast, fmt, v, i)
    decreases Shown(v) - i
  {
    hide TokensOf, Child, Shown, Size;
    if i + 1 < Shown(v) {
      PartedByCommas(fmt, v, i + 1);
    }
  }

  // Whatever parts the elements of an array, if only it is no comment and does not close it, they are read
  // as if commas did.
  lemma {:induction false} PartedRead(
    scan: DoubleScanner, f: Features, fmt: RealFormat, v: Value, i: nat, marks: seq<Tok>, rest: seq<Tok>,
    pre: seq<Entry>)
    requires FormatOk(fmt) && Writable(v) && v.Array? && i < Shown(v) == |marks| && KeysBelow(pre, Index(i))
    requires forall t | t in marks :: !t.kind.ArrayEnd? && !t.kind.Comment?
    ensures var r := ReadElements(scan, Parted(fmt, v, i, marks) + [Closing(v)] + rest, f, Array(pre), i);
            match ChildEchoes(scan, fmt, v, i)
            case Some(es) => r == Parse(true, rest, Array(pre + es), [])
            case None => !r.ok
    decreases Height(v), 0, Shown(v) - i
  {
    hide FormatOk, Writable, Parted, TokensOf, Echo, ReadValue, Shown, Child, Lookup;
    var after := Behind(fmt, v, i, marks, rest);
    PartedFirst(fmt, v, i, marks, rest);
    var ts := TokensOf(Fast, fmt, Child(v, i)) + after;
    ChildWritable(v, i);
    ValueReads(scan, f, fmt, Child(v, i), after, At(Array(pre), Index(i)));
    match Echo(scan, fmt, Child(v, i)) {
      case None =>
      case Some(w) =>
        ElementStep(scan, ts, f, Array(pre), i, after, w);
        PutLast(pre, Index(i), w);
        hide ReadElements;
        if i + 1 == Shown(v) {
          assert ChildEchoes(scan, fmt, v, i + 1) == Some([]);
        } else {
          PartedRead(scan, f, fmt, v, i + 1, marks, rest, pre + [Entry(Index(i), w)]);
        }
        Appended(scan, fmt, v, i, w, pre);
    }
  }

  lemma ElementsRead(
    scan: DoubleScanner, f: Features, fmt: RealFormat, v: Value, i: nat, rest: seq<Tok>, pre: seq<Entry>)
    requires FormatOk(fmt) && Writable(v) && v.Array? && i < Shown(v) && KeysBelow(pre, Index(i))
    ensures match ChildEchoes(scan, fmt, v, i)
            case Some(es) =>
              ReadElements(scan, TokensFrom(Fast, fmt, v, i) + [Closing(v)] + rest, f, Array(pre), i) ==
              Parse(true, rest, Array(pre + es), [])
            case None => !ReadElements(scan, TokensFrom(Fast, fmt, v, i) + [Closing(v)] + rest, f, Array(pre), i).ok
    decreases Height(v), 0, 1 + Shown(v) - i
  {
    hide FormatOk, Writable, Parted, TokensFrom, ReadElements, ChildEchoes, Shown;
    PartedByCommas(fmt, v, i);
    PartedRead(scan, f, fmt, v, i, seq(Shown(v), _ => COMMA), rest, pre);
  }

  // So it is with two numbers and a colon.
  lemma ColonParts(scan: DoubleScanner, f: Features, prior: Value)
    ensures ParseDocument(scan, f, "[1:2]", prior) ==
            Parse(true, [], Array([Entry(Index(0), Int(1)), Entry(Index(1), Int(2))]), [])
  {
    hide Lex, ReadValue, ReadElements, Scalar;
    var ts := [Tok(Number, "1"), COLON, Tok(Number, "2"), Tok(ArrayEnd, "]")];
    LexOfColon();
    assert Lex("[1:2]") == [Tok(ArrayBegin, "[")] + ts;
    OpensArray(scan, f, ts, prior);
    TwoElements(scan, f, COLON);
  }

  lemma TwoElements(scan: DoubleScanner, f: Features, t: Tok)
    requires !t.kind.ArrayEnd? && !t.kind.Comment?
    ensures ReadElements(scan, [Tok(Number, "1"), t, Tok(Number, "2"), Tok(ArrayEnd, "]")], f, Array([]), 0) ==
            Parse(true, [], Array([Entry(Index(0), Int(1)), Entry(Index(1), Int(2))]), [])
  {
    hide ReadValue, ReadElements;
    var none, one := Array([]), Array([Entry(Index(0), Int(1))]);
    var end := [Tok(ArrayEnd, "]")];
    var second := [Tok(Number, "2")] + end;
    assert At(none, Index(0)) == Null && With(none, Index(0), Int(1)) == one;
    assert At(one, Index(1)) == Null && With(one, Index(1), Int(2)).entries == one.entries + [Entry(Index(1), Int(2))];
    NumberReads(scan, f, 1, [t] + second, Null);
    NumberReads(scan, f, 2, end, Null);
    assert Tail([t] + second) == second && Tail(end) == [];
    ElementStep(scan, [Tok(Number, "1")] + ([t] + second), f, none, 0, [t] + second, Int(1));
    ElementStep(scan, second, f, one, 1, end, Int(2));
    assert [Tok(Number, "1"), t, Tok(Number, "2"), Tok(ArrayEnd, "]")] == [Tok(Number, "1")] + ([t] + second);
  }

  lemma OpensArray(scan: DoubleScanner, f: Features, ts: seq<Tok>, prior: Value)
    requires ts != [] && !ts[0].kind.ArrayEnd?
    ensures ReadValue(scan, f, [Tok(ArrayBegin, "[")] + ts, prior) == ReadElements(scan, ts, f, Array([]), 0)
  {
    hide ReadElements;
    assert Tail([Tok(ArrayBegin, "[")] + ts) == ts;
  }

  lemma NumberReads(scan: DoubleScanner, f: Features, n: nat, rest: seq<Tok>, prior: Value)
    requires 0 <= n < 10
    ensures ReadValue(scan, f, [Tok(Number, IntText(n))] + rest, prior) == Parse(true, rest, Int(n), [])
    ensures IntText(n) == [DigitChar(n)]
  {
    hide DecodeNumber;
    DecodePrinted(scan, n);
    assert Tail([Tok(Number, IntText(n))] + rest) == rest;
  }

  lemma LexOfColon()
    ensures Lex("[1:2]") == [Tok(ArrayBegin, "["), Tok(Number, "1"), COLON, Tok(Number, "2"), Tok(ArrayEnd, "]")]
  {
    hide Lex;
    PunctuationTokens();
    IntTextIsToken(1);
    IntTextIsToken(2);
    assert IntText(1) == "1" && IntText(2) == "2";
    LexNothing();
    LexToken(Tok(ArrayEnd, "]"), "");
    LexToken(Tok(Number, "2"), "]");
    LexToken(COLON, "2]");
    LexToken(Tok(Number, "1"), ":2]");
    LexToken(Tok(ArrayBegin, "["), "1:2]");
    assert "]" + "" == "]" && "2" + "]" == "2]" && ":" + "2]" == ":2]" && "1" + ":2]" == "1:2]";
    assert "[" + "1:2]" == "[1:2]";
  }

  lemma Appended(scan: DoubleScanner, fmt: RealFormat, v: Value, i: nat, w: Value, pre: seq<Entry>)
    requires v.IsContainer() && i < Shown(v) && Echo(scan, fmt, Child(v, i)) == Some(w)
    ensures match ChildEchoes(scan, fmt, v, i + 1)
            case Some(es) =>
              && ChildEchoes(scan, fmt, v, i) == Some([Entry(ChildKey(v, i), w)] + es)
              && pre + ([Entry(ChildKey(v, i), w)] + es) == pre + [Entry(ChildKey(v, i), w)] + es
            case None => ChildEchoes(scan, fmt, v, i) == None
  {
    hide Echo;
  }

  // One member: its name, the colon and its value are consumed, and it is appended.
  lemma {:induction false} MemberReads(
    scan: DoubleScanner, f: Features, fmt: RealFormat, v: Value, i: nat, after: seq<Tok>, pre: seq<Entry>, name: string)
    requires FormatOk(fmt) && Writable(v) && v.Object? && i < Shown(v) && KeysBelow(pre, ChildKey(v, i))
    requires after != [] && (after[0] == COMMA || after[0] == Closing(v))
    ensures var ts := NameTokens(v, i) + (TokensOf(Fast, fmt, Child(v, i)) + after);
            var r := ReadMember(scan, ts, f, Object(pre), name);
            match Echo(scan, fmt, Child(v, i))
            case None => r.Stop? && !r.parse.ok
            case Some(w) =>
              var obj := Object(pre + [Entry(ChildKey(v, i), w)]);
              r == if after[0] == COMMA then Next(Tail(after), obj, MemberName(v, i))
                   else Stop(Parse(true, Tail(after), obj, []))
    decreases Height(v), 0, 0
  {
    hide FormatOk, Writable, TokensOf, Echo, ReadValue, Quote, IsToken, DecodeBody, CStr, Recover;
    var ts := TokensOf(Fast, fmt, Child(v, i)) + after;
    var all := NameTokens(v, i) + ts;
    assert Tail(Tail(all)) == ts;
    MemberAt(v, i) by { WritableIsValid(v); }
    QuotedNameDecodes(v, i);
    ChildWritable(v, i);
    var k := ChildKey(v, i);
    ValueReads(scan, f, fmt, Child(v, i), after, At(Object(pre), k));
    match Echo(scan, fmt, Child(v, i)) {
      case None =>
      case Some(w) => PutLast(pre, k, w);
    }
  }

  lemma WritableIsValid(v: Value)
    requires Writable(v)
    ensures Valid(v)
  {}

  lemma QuotedNameDecodes(v: Value, i: nat)
    requires v.Object? && i < Shown(v) && '\0' !in MemberName(v, i)
    ensures DecodeBody(Body(Quote(MemberName(v, i)))) == Good(MemberName(v, i))
    ensures CStr(MemberName(v, i)) == MemberName(v, i)
  {
    QuoteIsToken(MemberName(v, i));
    CStrOfClean(MemberName(v, i));
  }

  lemma {:induction false} MembersRead(
    scan: DoubleScanner, f: Features, fmt: RealFormat, v: Value, i: nat, rest: seq<Tok>, pre: seq<Entry>, name: string)
    requires FormatOk(fmt) && Writable(v) && v.Object? && i < Shown(v) && KeysBelow(pre, ChildKey(v, i))
    ensures match ChildEchoes(scan, fmt, v, i)
            case Some(es) =>
              ReadMembers(scan, TokensFrom(Fast, fmt, v, i) + [Closing(v)] + rest, f, Object(pre), name) ==
              Parse(true, rest, Object(pre + es), [])
            case None => !ReadMembers(scan, TokensFrom(Fast, fmt, v, i) + [Closing(v)] + rest, f, Object(pre), name).ok
    decreases Height(v), 0, 1 + Shown(v) - i
  {
    hide FormatOk, Writable, TokensFrom, TokensOf, Echo, ReadMember, MemberName;
    var after := After(fmt, v, i, rest);
    ElementThenAfter(fmt, v, i, rest);
    MemberReads(scan, f, fmt, v, i, after, pre, name);
    match Echo(scan, fmt, Child(v, i)) {
      case None =>
      case Some(w) =>
        var e := Entry(ChildKey(v, i), w);
        if i + 1 == Shown(v) {
          assert ChildEchoes(scan, fmt, v, i + 1) == Some([]);
        } else {
          NextKeyAbove(v, i, pre, w);
          MembersRead(scan, f, fmt, v, i + 1, rest, pre + [e], MemberName(v, i));
        }
        Appended(scan, fmt, v, i, w, pre);
    }
  }

  lemma NextKeyAbove(v: Value, i: nat, pre: seq<Entry>, w: Value)
    requires Writable(v) && v.Object? && i + 1 < Shown(v) && KeysBelow(pre, ChildKey(v, i))
    ensures KeysBelow(pre + [Entry(ChildKey(v, i), w)], ChildKey(v, i + 1))
  {
    MemberAt(v, i);
    MemberAt(v, i + 1);
    forall j | 0 <= j < |pre| ensures KeyLess(pre[j].key, ChildKey(v, i + 1)) {
      KeyTransitive(pre[j].key, ChildKey(v, i), ChildKey(v, i + 1));
    }
  }

  // ----- when the echo is the value itself

  // Gaps of an array filled with null, one too large for an int empty, unsigned numbers that fit an int signed.
  function Norm(v: Value): Value
    decreases Height(v), 1, 0
  {
    match v
    case Int(i) => IntValue(i)
    case UInt(u) => IntValue(u)
    case Array(_) => Array(NormChildren(v, 0))
    case Object(_) => Object(NormChildren(v, 0))
    case _ => v
  }

  function NormChildren(v: Value, i: nat): seq<Entry>
    requires v.IsContainer() && i <= Shown(v)
    decreases Height(v), 0, Shown(v) - i
  {
    if i == Shown(v) then [] else [Entry(ChildKey(v, i), Norm(Child(v, i)))] + NormChildren(v, i + 1)
  }

  // Every integer is one decodeNumber reads as an integer, every double scans as printed.
  predicate Survives(scan: DoubleScanner, fmt: RealFormat, v: Value)
    decreases Height(v)
  {
    match v
    case Int(i) => IntInRange(i)
    case UInt(u) => IntInRange(u)
    case Real(r) => scan(fmt(r)) == Some(r)
    case Array(_) => forall i :: 0 <= i < Shown(v) ==> Survives(scan, fmt, Child(v, i))
    case Object(_) => forall i :: 0 <= i < Shown(v) ==> Survives(scan, fmt, Child(v, i))
    case _ => true
  }

  lemma {:induction false} EchoIsNorm(scan: DoubleScanner, fmt: RealFormat, v: Value)
    ensures Echo(scan, fmt, v) == Some(Norm(v)) <==> Survives(scan, fmt, v)
    decreases Height(v), 1, 0
  {
    if v.IsContainer() { ChildEchoesAreNorm(scan, fmt, v, 0); }
  }

  lemma {:induction false} ChildEchoesAreNorm(scan: DoubleScanner, fmt: RealFormat, v: Value, i: nat)
    requires v.IsContainer() && i <= Shown(v)
    ensures ChildEchoes(scan, fmt, v, i) == Some(NormChildren(v, i)) <==>
            forall j :: i <= j < Shown(v) ==> Survives(scan, fmt, Child(v, j))
    decreases Height(v), 0, Shown(v) - i
  {
    hide Survives, Shown, Child;
    if i < Shown(v) {
      EchoIsNorm(scan, fmt, Child(v, i));
      ChildEchoesAreNorm(scan, fmt, v, i + 1);
      var e := Entry(ChildKey(v, i), Norm(Child(v, i)));
      var ns := NormChildren(v, i);
      assert ns[0] == e && ns[1..] == NormChildren(v, i + 1);
      match (Echo(scan, fmt, Child(v, i)), ChildEchoes(scan, fmt, v, i + 1)) {
        case (Some(w), Some(es)) =>
          var all := [Entry(ChildKey(v, i), w)] + es;
          assert all[0].value == w && all[1..] == es;
        case _ =>
      }
    }
  }

  // For every value the compact printer can print, parsing the text succeeds exactly when the value has an
  // echo, gives that echo, and gives the value itself exactly when its numbers survive. The pretty text gives
  // the same if every array has a size that an int holds. Strict mode in addition wants an array or object at
  // the root, and takes null for one.
  lemma RoundTrip(scan: DoubleScanner, f: Features, w: Format, v: Value, prior: Value)
    requires FormatOk(w.real_) && Writable(v)
    ensures var fast := ParseDocument(scan, f, FastText(w, v) + "\n", prior);
            var styled := ParseDocument(scan, f, StyledText(w.real_, "", "", v) + "\n", prior);
            var echo := Echo(scan, w.real_, v);
            var rootOk := f.strictRoot ==> v.IsArray() || v.IsObject();
            && (fast.ok <==> echo.Some? && rootOk)
            && (fast.ok ==> fast.value == echo.value)
            && ((fast.ok && fast.value == Norm(v)) <==> Survives(scan, w.real_, v) && rootOk)
            && (Fits(v) ==> Asserted(v) && styled.ok == fast.ok && styled.value == fast.value)
  {
    hide FastText, StyledText, TokensOf, FormatOk, Writable, Survives, Echo, Norm, ParseDocument, Lex, Fits, Asserted;
    SameTokens(w, v);
    DocumentReads(scan, f, w.real_, v, FastText(w, v) + "\n", prior);
    EchoIsNorm(scan, w.real_, v);
    if Fits(v) {
      DocumentReads(scan, f, w.real_, v, StyledText(w.real_, "", "", v) + "\n", prior);
    }
  }

  // The smallest array that an int does not hold: the compact printer prints it empty, the pretty one fails
  // its assertion.
  lemma HugeArray(w: Format)
    ensures var v := Array([Entry(Index(MAX_INT), Null)]);
            Writable(v) && FastText(w, v) == "[]" && Norm(v) == Array([]) && !Asserted(v)
  {
  }

  lemma DocumentReads(scan: DoubleScanner, f: Features, fmt: RealFormat, v: Value, text: string, prior: Value)
    requires FormatOk(fmt) && Writable(v) && Lex(text) == TokensOf(Fast, fmt, v)
    ensures var r, echo := ParseDocument(scan, f, text, prior), Echo(scan, fmt, v);
            && r.value == ReadValue(scan, f, TokensOf(Fast, fmt, v), prior).value
            && (r.ok <==> echo.Some? && (f.strictRoot ==> v.IsArray() || v.IsObject()))
            && (r.ok ==> r.value == echo.value)
  {
    hide TokensOf, FormatOk, Writable, ReadValue, Echo, Lex;
    assert TokensOf(Fast, fmt, v) + [] == TokensOf(Fast, fmt, v);
    ValueReads(scan, f, fmt, v, [], prior);
    EchoKind(scan, fmt, v);
  }

  lemma EchoKind(scan: DoubleScanner, fmt: RealFormat, v: Value)
    ensures Echo(scan, fmt, v).Some? ==> (Echo(scan, fmt, v).value.IsArray() <==> v.IsArray())
    ensures Echo(scan, fmt, v).Some? ==> (Echo(scan, fmt, v).value.IsObject() <==> v.IsObject())
  {}
}
