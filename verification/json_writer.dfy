// FastWriter and StyledWriter, with the text each of them is to produce.

module JsonWriter {
  import opened Decimals
  import opened Integers
  import opened Options
  import opened JsonValue
  import opened JsonStrings

  // valueToString( double )
  type RealFormat = real -> string

  // The printers dereference the C string of every string value.
  ghost predicate Printable(v: Value)
    decreases v
  {
    match v
    case Str(c) => c.Some?
    case Array(es) => forall e | e in es :: Printable(e.value)
    case Object(es) => forall e | e in es :: Printable(e.value)
    case _ => true
  }

  lemma {:induction false} LookupPrintable(es: seq<Entry>, k: Key)
    requires forall e | e in es :: Printable(e.value)
    ensures Printable(Lookup(es, k))
  {
    if es != [] && es[0].key != k { LookupPrintable(es[1..], k); }
  }

  ghost predicate Writable(v: Value) { Valid(v) && Printable(v) }

  // value[index] and value[name], in order
  function Child(v: Value, i: nat): (c: Value)
    requires v.IsContainer() && i < Size(v)
    ensures Height(c) < Height(v)
  {
    if v.Array? then At(v, Index(Wrap32(i))) else HeightOfEntry(v.entries, i); v.entries[i].value
  }

  lemma ChildWritable(v: Value, i: nat)
    requires Writable(v) && v.IsContainer() && i < Size(v)
    ensures Writable(Child(v, i))
  {
    if v.Array? {
      LookupValid(v.entries, Index(Wrap32(i)));
      LookupPrintable(v.entries, Index(Wrap32(i)));
    } else {
      assert v.entries[i] in v.entries;
    }
  }

  function MemberName(v: Value, i: nat): string
    requires v.Object? && i < Size(v)
  {
    match v.entries[i].key case Name(s) => s case Index(_) => ""
  }

  // ----- numbers, characters and strings

  // Fills the buffer backwards from current: the digits and a NUL, nothing in front of them.
  method UIntToString(value: uint32, buffer: array<char>, current: nat) returns (cur: nat)
    requires |Decimal(value as int)| < current <= buffer.Length
    modifies buffer
    ensures cur == current - 1 - |Decimal(value as int)|
    ensures buffer[cur..current] == Decimal(value as int) + "\0"
    ensures forall i :: 0 <= i < cur ==> buffer[i] == old(buffer[i])
  {
    cur := current - 1;
    buffer[cur] := '\0';
    var v := value;
    ghost var done := "\0";
    while true
      invariant |Decimal(v as int)| <= cur < current && buffer[cur..current] == done
      invariant Decimal(value as int) + "\0" == Decimal(v as int) + done
      invariant forall i :: 0 <= i < cur ==> buffer[i] == old(buffer[i])
      decreases v
    {
      ghost var digit := DigitChar(v as int % 10);
      cur := cur - 1;
      buffer[cur] := '0' + (v % 10) as char;
      assert buffer[cur..current] == [digit] + done;
      LastDigit(v as int, done);
      v := v / 10;
      done := [digit] + done;
      if v == 0 {
        break;
      }
    }
  }

  lemma LastDigit(n: nat, done: string)
    ensures Decimal(n) + done == (if n < 10 then "" else Decimal(n / 10)) + ([DigitChar(n % 10)] + done)
    ensures |Decimal(n)| == 1 + if n < 10 then 0 else |Decimal(n / 10)|
  {}

  // The 32-byte buffer always suffices. -minInt wraps around to minInt.
  method IntToString(value: int32) returns (s: string)
    ensures s == IntText(value as int)
  {
    var buffer := new char[32];
    var isNegative := value < 0;
    var magnitude: uint32 := if value == -2147483648 then 2147483648
                             else if isNegative then (-value) as uint32 else value as uint32;
    DecimalLength(magnitude as int, Pow10(10), 10);
    var cur := UIntToString(magnitude, buffer, 32);
    assert buffer[cur..31] == buffer[cur..32][..31 - cur] == Decimal(magnitude as int);
    if isNegative {
      cur := cur - 1;
      buffer[cur] := '-';
    }
    s := buffer[cur..31];
  }

  method UIntToText(value: uint32) returns (s: string)
    ensures s == IntText(value as int)
  {
    var buffer := new char[32];
    DecimalLength(value as int, Pow10(10), 10);
    var cur := UIntToString(value, buffer, 32);
    assert buffer[cur..31] == buffer[cur..32][..31 - cur] == Decimal(value as int);
    s := buffer[cur..31];
  }

  method ContainsControlCharacter(str: string) returns (b: bool)
    ensures b <==> exists c :: c in str && IsControl(c)
  {
    var i := 0;
    while i < |str|
      invariant 0 <= i <= |str|
      invariant forall j :: 0 <= j < i ==> !IsControl(str[j])
    {
      if IsControl(str[i]) {
        return true;
      }
      i := i + 1;
    }
    return false;
  }

  // strpbrk( value, "\"\\\b\f\n\r\t" ) != NULL
  predicate HasEscaped(s: string) {
    exists c :: c in s &&
      (c == '"' || c == '\\' || c == '\U{08}' || c == '\U{0C}' || c == '\n' || c == '\r' || c == '\t')
  }

  lemma NothingToEscape(s: string)
    requires !HasEscaped(s) && !exists c :: c in s && IsControl(c)
    ensures forall c :: c in s ==> IsPlain(c)
  {}

  // The short cut for a string without special characters gives the same text.
  method ValueToQuotedString(value: string) returns (result: string)
    ensures result == Quote(value)
  {
    hide Escape;
    var control := ContainsControlCharacter(value);
    if !HasEscaped(value) && !control {
      NothingToEscape(value);
      EscapeAllPlain(value);
      return "\"" + value + "\"";
    }
    result := "\"";
    var i := 0;
    while i < |value|
      invariant 0 <= i <= |value|
      invariant result == "\"" + EscapeAll(value[..i])
    {
      EscapeAllSnoc(value[..i], value[i]);
      assert value[..i] + [value[i]] == value[..i + 1];
      result := result + Escape(value[i]);
      i := i + 1;
    }
    assert value[..i] == value;
    result := result + "\"";
  }

  // ----- FastWriter

  datatype Format = Format(real_: RealFormat, yaml: bool)

  function ScalarText(fmt: RealFormat, v: Value): string
    requires !v.IsContainer()
  {
    match v
    case Null => "null"
    case Int(i) => IntText(i)
    case UInt(u) => IntText(u)
    case Real(r) => fmt(r)
    case Str(Some(s)) => Quote(s)
    case Str(None) => ""
    case Bool(b) => if b then "true" else "false"
    case _ => ""
  }

  function FastText(w: Format, v: Value): string
    decreases Height(v), 1, 0
  {
    if v.Array? then "[" + FastChildren(w, v, 0) + "]"
    else if v.Object? then "{" + FastChildren(w, v, 0) + "}"
    else ScalarText(w.real_, v)
  }

  // The slots or members from i on, each but the first of all behind a comma.
  function FastChildren(w: Format, v: Value, i: nat): string
    requires v.IsContainer() && i <= Shown(v)
    decreases Height(v), 0, 1 + Shown(v) - i
  {
    if i == Shown(v) then "" else FastPiece(w, v, i) + FastChildren(w, v, i + 1)
  }

  function FastPiece(w: Format, v: Value, i: nat): string
    requires v.IsContainer() && i < Shown(v)
    decreases Height(v), 0, 0
  {
    Comma(i) + FastName(w, v, i) + FastText(w, Child(v, i))
  }

  function Comma(i: nat): string { if i > 0 then "," else "" }

  function FastName(w: Format, v: Value, i: nat): string
    requires v.IsContainer() && i < Shown(v)
  {
    if v.Array? then "" else Quote(MemberName(v, i)) + (if w.yaml then ": " else ":")
  }

  // The text of a scalar as both writers obtain it.
  method ScalarToString(fmt: RealFormat, v: Value) returns (s: string)
    requires Writable(v) && !v.IsContainer()
    ensures s == ScalarText(fmt, v)
  {
    match v {
      case Null => s := "null";
      case Int(i) => s := IntToString(i as int32);
      case UInt(u) => s := UIntToText(u as uint32);
      case Real(r) => s := fmt(r);
      case Str(c) => s := ValueToQuotedString(c.value);
      case Bool(b) => s := if b then "true" else "false";
    }
  }

  class FastWriter {
    const format: Format
    var document: string

    constructor (format: Format)
      ensures this.format == format
    {
      this.format, document := format, "";
    }

    method Write(root: Value) returns (text: string)
      requires Writable(root)
      modifies this
      ensures text == FastText(format, root) + "\n"
    {
      hide FastText, Writable;
      document := "";
      WriteValue(root);
      document := document + "\n";
      text := document;
    }

    method WriteValue(value: Value)
      requires Writable(value)
      modifies this
      ensures document == old(document) + FastText(format, value)
      decreases Height(value)
    {
      hide FastPiece, ScalarText;
      match value {
        case Array(_) =>
          document := document + "[";
          WriteElements(value);
          document := document + "]";
        case Object(_) =>
          document := document + "{";
          WriteMembers(value);
          document := document + "}";
        case _ =>
          var s := ScalarToString(format.real_, value);
          document := document + s;
      }
    }

    // The loop over the slots of an array, counted by an int.
    method WriteElements(value: Value)
      requires Writable(value) && value.Array?
      modifies this
      ensures document == old(document) + FastChildren(format, value, 0)
      decreases Height(value), 1
    {
      IntSize(value);
      hide FastPiece, Writable, FastText, FastChildren, Size, Shown, Wrap32;
      ghost var done := "";
      FastFirst(format, document, value);
      var size := Wrap32(Size(value));
      var index := 0;
      while index < size
        invariant 0 <= index <= Shown(value)
        invariant document == old(document) + done
        invariant done + FastChildren(format, value, index) == FastChildren(format, value, 0)
      {
        FastStep(format, old(document), done, value, index);
        WriteChild(value, index);
        done := done + FastPiece(format, value, index);
        index := index + 1;
      }
      FastLast(format, value, done);
    }

    // The loop over the members of an object.
    method WriteMembers(value: Value)
      requires Writable(value) && value.Object?
      modifies this
      ensures document == old(document) + FastChildren(format, value, 0)
      decreases Height(value), 1
    {
      hide FastPiece, Writable, FastText, FastChildren;
      ghost var done := "";
      FastFirst(format, document, value);
      var index := 0;
      while index < |value.entries|
        invariant 0 <= index <= Shown(value)
        invariant document == old(document) + done
        invariant done + FastChildren(format, value, index) == FastChildren(format, value, 0)
      {
        FastStep(format, old(document), done, value, index);
        WriteChild(value, index);
        done := done + FastPiece(format, value, index);
        index := index + 1;
      }
      FastLast(format, value, done);
    }

    // One round of either loop.
    method WriteChild(value: Value, index: nat)
      requires Writable(value) && value.IsContainer() && index < Shown(value)
      modifies this
      ensures document == old(document) + FastPiece(format, value, index)
      decreases Height(value), 0
    {
      hide FastText, Quote, Valid, Printable;
      ChildWritable(value, index);
      if index > 0 {
        document := document + ",";
      }
      if value.Array? {
        Wrap32Small(index);
        WriteValue(At(value, Index(index)));
      } else {
        var name := MemberName(value, index);
        var quoted := ValueToQuotedString(name);
        document := document + quoted;
        document := document + if format.yaml then ": " else ":";
        MemberAt(value, index);
        WriteValue(At(value, Name(name)));
      }
    }
  }

  // What is done of the text and what is left of it, around one round.
  lemma FastStep(w: Format, doc: string, done: string, v: Value, i: nat)
    requires v.IsContainer() && i < Shown(v)
    ensures doc + done + FastPiece(w, v, i) == doc + (done + FastPiece(w, v, i))
    ensures done + FastChildren(w, v, i) == done + FastPiece(w, v, i) + FastChildren(w, v, i + 1)
  {
    hide FastPiece;
    assert done + (FastPiece(w, v, i) + FastChildren(w, v, i + 1)) ==
           done + FastPiece(w, v, i) + FastChildren(w, v, i + 1);
  }

  lemma FastFirst(w: Format, doc: string, v: Value)
    requires v.IsContainer()
    ensures doc + "" == doc && "" + FastChildren(w, v, 0) == FastChildren(w, v, 0)
  {
  }

  lemma FastLast(w: Format, v: Value, done: string)
    requires v.IsContainer()
    ensures done + FastChildren(w, v, Shown(v)) == done
  {
  }

  lemma MemberAt(v: Value, i: nat)
    requires Valid(v) && v.Object? && i < Size(v)
    ensures v.entries[i].key == Name(MemberName(v, i)) && '\0' !in MemberName(v, i)
    ensures At(v, Name(MemberName(v, i))) == Child(v, i)
  {
    assert v.entries[i] in v.entries;
    LookupAt(v.entries, i);
  }
}
