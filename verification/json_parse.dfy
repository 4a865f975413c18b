// What Reader computes, as functions on the tokens still to be read.

module JsonParse {
  import opened Options
  import opened JsonValue
  import opened JsonLexer
  import opened JsonText
  import opened JsonStrings

  datatype Features = Features(allowComments: bool, strictRoot: bool)

  datatype ErrorInfo = ErrorInfo(message: Message, token: Tok)

  // The outcome of reading one value into a slot: the tokens left, the slot's final content
  // (partial after a failure) and the errors added.
  datatype Parse = Parse(ok: bool, rest: seq<Tok>, value: Value, errors: seq<ErrorInfo>)

  function DropComments(ts: seq<Tok>): (r: seq<Tok>)
    ensures |r| <= |ts|
    ensures !Head(r).kind.Comment?
  {
    if ts != [] && ts[0].kind.Comment? then DropComments(ts[1..]) else ts
  }

  // recoverFromError: everything up to and including the wanted token is skipped.
  function Recover(until: TokenType, ts: seq<Tok>): (r: seq<Tok>)
    ensures |r| <= |ts|
  {
    if ts == [] then []
    else if ts[0].kind == until || ts[0].kind.EndOfStream? then ts[1..]
    else Recover(until, ts[1..])
  }

  function Fail(message: Message, token: Tok, until: TokenType, rest: seq<Tok>, value: Value): Parse {
    Parse(false, Recover(until, rest), value, [ErrorInfo(message, token)])
  }

  // The text between the quotes of a string token.
  function Body(text: string): string {
    if |text| < 2 then [] else text[1..|text| - 1]
  }

  // The value of a token that is a whole value.
  function Scalar(scan: DoubleScanner, token: Tok): Decoded<Value> {
    match token.kind
    case Number => DecodeNumber(scan, token.text)
    case String =>
      (match DecodeBody(Body(token.text))
       case Bad(m) => Bad(m)
       case Good(s) => Good(Str(Some(CStr(s)))))
    case True => Good(Bool(true))
    case False => Good(Bool(false))
    case NullToken => Good(Null)
    case _ => Bad(ValueExpected)
  }

  // readValue into a slot holding old. Success adds no error, failure exactly one.
  function ReadValue(scan: DoubleScanner, f: Features, ts: seq<Tok>, prior: Value): (r: Parse)
    ensures |r.rest| <= |ts| && (r.ok ==> |r.rest| < |ts|)
    ensures |r.errors| == if r.ok then 0 else 1
    decreases |ts|, 0
  {
    var us := if f.allowComments then DropComments(ts) else ts;
    var token, rest := Head(us), Tail(us);
    match token.kind
    case ObjectBegin => ReadMembers(scan, rest, f, Object([]), "")
    case ArrayBegin =>
      if Head(rest).kind.ArrayEnd? then Parse(true, Tail(rest), Array([]), [])
      else ReadElements(scan, rest, f, Array([]), 0)
    case _ => ReadScalar(scan, token, rest, prior)
  }

  function ReadScalar(scan: DoubleScanner, token: Tok, rest: seq<Tok>, prior: Value): (r: Parse)
    ensures r.rest == rest && |r.errors| == if r.ok then 0 else 1
  {
    match Scalar(scan, token)
    case Good(v) => Parse(true, rest, v, [])
    case Bad(m) => Parse(false, rest, prior, [ErrorInfo(m, token)])
  }

  // One round of the loop of readObject: it ends the object, or goes on with the tokens left,
  // the object so far and the member name just read.
  datatype Round = Stop(parse: Parse) | Next(rest: seq<Tok>, obj: Value, name: string)

  function ReadMember(scan: DoubleScanner, ts: seq<Tok>, f: Features, obj: Value, name: string): (r: Round)
    requires obj.Object?
    ensures r.Stop? ==> |r.parse.rest| <= |ts| && r.parse.value.Object?
    ensures r.Stop? ==> |r.parse.errors| == if r.parse.ok then 0 else 1
    ensures r.Next? ==> |r.rest| < |ts| && r.obj.Object?
    decreases |ts|, 1
  {
    var us := DropComments(ts);
    var token := Head(us);
    if token.kind.ObjectEnd? && name == "" then Stop(Parse(true, Tail(us), obj, []))
    else if !token.kind.String? then Stop(Fail(MissingBraceOrName, token, ObjectEnd, Tail(us), obj))
    else match DecodeBody(Body(token.text))
      case Bad(m) => Stop(Fail(m, token, ObjectEnd, Tail(us), obj))
      case Good(member) => ReadNamed(scan, Tail(us), f, obj, member)
  }

  // What follows the name of a member.
  function ReadNamed(scan: DoubleScanner, colon: seq<Tok>, f: Features, obj: Value, member: string): (r: Round)
    requires obj.Object?
    ensures r.Stop? ==> |r.parse.rest| <= |colon| && r.parse.value.Object?
    ensures r.Stop? ==> |r.parse.errors| == if r.parse.ok then 0 else 1
    ensures r.Next? ==> |r.rest| < |colon| && r.obj.Object?
    decreases |colon|, 1
  {
    if !Head(colon).kind.MemberSeparator? then Stop(Fail(MissingColon, Head(colon), ObjectEnd, Tail(colon), obj))
    else
      var k := Name(CStr(member));
      var r := ReadValue(scan, f, Tail(colon), At(obj, k));
      var obj' := With(obj, k, r.value);
      if !r.ok then Stop(Parse(false, Recover(ObjectEnd, r.rest), obj', r.errors))
      else
        var comma := Head(r.rest);
        if !(comma.kind.ObjectEnd? || comma.kind.ArraySeparator? || comma.kind.Comment?) then
          Stop(Fail(MissingCommaOrBrace, comma, ObjectEnd, Tail(r.rest), obj'))
        else
          var next := DropComments(r.rest);
          if Head(next).kind.ObjectEnd? then Stop(Parse(true, Tail(next), obj', []))
          else Next(Tail(next), obj', member)
  }

  // The loop of readObject: obj is the object so far, name the last member name read.
  function ReadMembers(scan: DoubleScanner, ts: seq<Tok>, f: Features, obj: Value, name: string): (r: Parse)
    requires obj.Object?
    ensures |r.rest| <= |ts|
    ensures |r.errors| == if r.ok then 0 else 1
    ensures r.value.Object?
    decreases |ts|, 2
  {
    match ReadMember(scan, ts, f, obj, name)
    case Stop(r) => r
    case Next(rest, obj', member) => ReadMembers(scan, rest, f, obj', member)
  }

  // The loop of readArray. Any token but ']' passes for a separator.
  function ReadElements(scan: DoubleScanner, ts: seq<Tok>, f: Features, arr: Value, index: nat): (r: Parse)
    requires arr.Array?
    ensures |r.rest| <= |ts|
    ensures |r.errors| == if r.ok then 0 else 1
    ensures r.value.Array?
    decreases |ts|, 1
  {
    var r := ReadValue(scan, f, ts, At(arr, Index(index)));
    var arr' := With(arr, Index(index), r.value);
    if !r.ok then Parse(false, Recover(ArrayEnd, r.rest), arr', r.errors)
    else
      var next := DropComments(r.rest);
      if Head(next).kind.ArrayEnd? then Parse(true, Tail(next), arr', [])
      else ReadElements(scan, Tail(next), f, arr', index + 1)
  }

  // parse: the value, then the root check of strict mode. What follows the value is not looked at.
  function ParseDocument(scan: DoubleScanner, f: Features, document: string, prior: Value): Parse {
    var r := ReadValue(scan, f, Lex(document), prior);
    if f.strictRoot && !r.value.IsArray() && !r.value.IsObject() then
      Parse(false, [], r.value, r.errors + [ErrorInfo(RootNotContainer, Tok(Error, document))])
    else Parse(r.ok, [], r.value, r.errors)
  }

  // ----- every tree the reader leaves is well formed, also after an error

  lemma WithValid(v: Value, k: Key, w: Value)
    requires Valid(v) && Valid(w)
    requires (v.Array? && k.Index? && MIN_INT <= k.i <= MAX_INT) || (v.Object? && k.Name? && '\0' !in k.s)
    ensures Valid(With(v, k, w)) && Valid(At(v, k))
  {
    PutSorted(v.entries, k, w);
    LookupValid(v.entries, k);
  }

  lemma {:induction false} ReadValueValid(scan: DoubleScanner, f: Features, ts: seq<Tok>, prior: Value)
    requires Valid(prior) && |ts| < MAX_INT
    ensures Valid(ReadValue(scan, f, ts, prior).value)
    decreases |ts|, 0
  {
    hide DecodeNumber, DecodeBody, Body, ReadMembers, ReadElements;
    var us := if f.allowComments then DropComments(ts) else ts;
    match Head(us).kind {
      case ObjectBegin => ReadMembersValid(scan, Tail(us), f, Object([]), "");
      case ArrayBegin => ReadElementsValid(scan, Tail(us), f, Array([]), 0);
      case Number => DecodedNumberValid(scan, Head(us).text);
      case _ =>
    }
  }

  lemma {:induction false} ReadMemberValid(scan: DoubleScanner, ts: seq<Tok>, f: Features, obj: Value, name: string)
    requires obj.Object? && Valid(obj) && |ts| < MAX_INT
    ensures var r := ReadMember(scan, ts, f, obj, name); Valid(if r.Stop? then r.parse.value else r.obj)
    decreases |ts|, 1
  {
    var us := DropComments(ts);
    if Head(us).kind.String? && DecodeBody(Body(Head(us).text)).Good? {
      var k := Name(CStr(DecodeBody(Body(Head(us).text)).value));
      WithValid(obj, k, Null);
      ReadValueValid(scan, f, Tail(Tail(us)), At(obj, k));
      WithValid(obj, k, ReadValue(scan, f, Tail(Tail(us)), At(obj, k)).value);
    }
  }

  lemma {:induction false} ReadMembersValid(scan: DoubleScanner, ts: seq<Tok>, f: Features, obj: Value, name: string)
    requires obj.Object? && Valid(obj) && |ts| < MAX_INT
    ensures Valid(ReadMembers(scan, ts, f, obj, name).value)
    decreases |ts|, 2
  {
    ReadMemberValid(scan, ts, f, obj, name);
    match ReadMember(scan, ts, f, obj, name) {
      case Stop(_) =>
      case Next(rest, obj', member) => ReadMembersValid(scan, rest, f, obj', member);
    }
  }

  lemma {:induction false} ReadElementsValid(scan: DoubleScanner, ts: seq<Tok>, f: Features, arr: Value, index: nat)
    requires arr.Array? && Valid(arr) && index + |ts| < MAX_INT
    ensures Valid(ReadElements(scan, ts, f, arr, index).value)
    decreases |ts|, 1
  {
    hide Valid, ReadValue, At, DropComments;
    var k := Index(index);
    WithValid(arr, k, Null);
    ReadValueValid(scan, f, ts, At(arr, k));
    var r := ReadValue(scan, f, ts, At(arr, k));
    WithValid(arr, k, r.value);
    if r.ok { ReadElementsValid(scan, Tail(DropComments(r.rest)), f, With(arr, k, r.value), index + 1); }
  }

  // parse reports success exactly when it has recorded no error, in strict mode too.
  lemma ParseOkIffNoErrors(scan: DoubleScanner, f: Features, document: string, prior: Value)
    ensures var r := ParseDocument(scan, f, document, prior); r.ok <==> r.errors == []
    ensures |ParseDocument(scan, f, document, prior).errors| <= 2
    ensures Valid(prior) && |document| < MAX_INT ==> Valid(ParseDocument(scan, f, document, prior).value)
  {
    if Valid(prior) && |document| < MAX_INT {
      LexIsShort(document);
      ReadValueValid(scan, f, Lex(document), prior);
    }
  }
}
