// class Reader: the character loops, the tokeniser and the recursive parser, each proved to
// compute what JsonLexer, JsonText and JsonParse say.

module JsonReader {
  import opened Decimals
  import opened Integers
  import opened Options
  import opened JsonValue
  import opened JsonLexer
  import opened JsonText
  import T = JsonText
  import opened JsonStrings
  import P = JsonParse
  import opened JsonPaths

  datatype Token = Token(kind: TokenType, start: nat, end: nat)

  class Reader {
    const scan: DoubleScanner
    const features: P.Features

    var document: string
    var current: nat
    var root: Value
    var nodes: seq<Path>
    var errors: seq<P.ErrorInfo>

    constructor (scan: DoubleScanner, features: P.Features)
      ensures this.scan == scan && this.features == features
    {
      this.scan, this.features := scan, features;
      document, current, root, nodes, errors := "", 0, Null, [], [];
    }

    ghost predicate InRange()
      reads this
    {
      current <= |document|
    }

    // The characters not yet consumed.
    function Rest(): string
      requires InRange()
      reads this
    {
      document[current..]
    }

    ghost function Tokens(): seq<Tok>
      requires InRange()
      reads this
    {
      Lex(Rest())
    }

    ghost predicate Ready()
      reads this
    {
      InRange() && nodes != [] && HasSlot(root, nodes[|nodes| - 1])
    }

    // nodes.top()
    function Top(): Path
      requires nodes != []
      reads this
    {
      nodes[|nodes| - 1]
    }

    function CurrentValue(): Value
      requires Ready()
      reads this
    {
      Get(root, Top())
    }

    // The token lies in the document; a string token has both its quotes.
    predicate Spans(token: Token)
      reads this
    {
      token.start <= token.end <= |document| && (token.kind == String ==> token.start + 2 <= token.end)
    }

    function TokenOf(token: Token): Tok
      requires Spans(token)
      reads this
    {
      Tok(token.kind, document[token.start..token.end])
    }

    // ----- characters

    method GetNextChar() returns (c: char)
      requires InRange()
      modifies this`current
      ensures InRange()
      ensures old(Rest()) == [] ==> c == '\0' && current == old(current)
      ensures old(Rest()) != [] ==> c == old(Rest())[0] && Rest() == old(Rest())[1..] && current == old(current) + 1
    {
      if current == |document| {
        return '\0';
      }
      c := document[current];
      current := current + 1;
    }

    method SkipSpaces()
      requires InRange()
      modifies this`current
      ensures InRange() && current == old(current) + SpaceLen(old(Rest()))
    {
      while current != |document|
        invariant old(current) <= current <= |document|
        invariant SpaceLen(old(Rest())) == current - old(current) + SpaceLen(Rest())
        decreases |document| - current
      {
        var c := document[current];
        if c == ' ' || c == '\t' || c == '\r' || c == '\n' {
          assert Rest()[1..] == document[current + 1..];
          current := current + 1;
        } else {
          break;
        }
      }
    }

    method Match(pattern: string) returns (ok: bool)
      requires InRange()
      modifies this`current
      ensures InRange()
      ensures ok <==> pattern <= old(Rest())
      ensures current == old(current) + if ok then |pattern| else 0
    {
      if |document| - current < |pattern| {
        return false;
      }
      var index := |pattern|;
      while index > 0
        invariant 0 <= index <= |pattern|
        invariant forall i :: index <= i < |pattern| ==> document[current + i] == pattern[i]
      {
        index := index - 1;
        if document[current + index] != pattern[index] {
          assert Rest()[index] != pattern[index];
          return false;
        }
      }
      assert pattern == Rest()[..|pattern|];
      current := current + |pattern|;
      return true;
    }

    method ReadString() returns (ok: bool)
      requires InRange()
      modifies this`current
      ensures InRange() && StringScan(old(Rest())) == (ok, current - old(current))
    {
      var c := '\0';
      while current != |document|
        invariant old(current) <= current <= |document|
        invariant c != '"'
        invariant var r := StringScan(Rest()); StringScan(old(Rest())) == (r.0, current - old(current) + r.1)
        decreases |document| - current
      {
        ghost var before := Rest();
        c := GetNextChar();
        if c == '\\' {
          var _ := GetNextChar();
          assert |before| > 1 ==> Rest() == before[2..];
        } else if c == '"' {
          break;
        }
      }
      return c == '"';
    }

    method ReadNumber()
      requires InRange()
      modifies this`current
      ensures InRange() && current == old(current) + NumberLen(old(Rest()))
    {
      while current != |document|
        invariant old(current) <= current <= |document|
        invariant NumberLen(old(Rest())) == current - old(current) + NumberLen(Rest())
        decreases |document| - current
      {
        if !IsNumberChar(document[current]) {
          break;
        }
        assert Rest()[1..] == document[current + 1..];
        current := current + 1;
      }
    }

    method ReadCStyleComment() returns (ok: bool)
      requires InRange()
      modifies this`current
      ensures InRange() && BlockCommentScan(old(Rest())) == (ok, current - old(current))
    {
      while current != |document|
        invariant old(current) <= current <= |document|
        invariant var r := BlockCommentScan(Rest());
                  BlockCommentScan(old(Rest())) == (r.0, current - old(current) + r.1)
        decreases |document| - current
      {
        var c := GetNextChar();
        if c == '*' && current < |document| && document[current] == '/' {
          break;
        }
      }
      var d := GetNextChar();
      return d == '/';
    }

    method ReadCppStyleComment()
      requires InRange()
      modifies this`current
      ensures InRange() && current == old(current) + LineCommentLen(old(Rest()))
    {
      while current != |document|
        invariant old(current) <= current <= |document|
        invariant LineCommentLen(old(Rest())) == current - old(current) + LineCommentLen(Rest())
        decreases |document| - current
      {
        var c := GetNextChar();
        if c == '\r' || c == '\n' {
          break;
        }
      }
    }

    method ReadComment() returns (ok: bool)
      requires InRange()
      modifies this`current
      ensures InRange() && CommentScan(old(Rest())) == (ok, current - old(current))
    {
      var c := GetNextChar();
      ok := false;
      if c == '*' {
        ok := ReadCStyleComment();
      } else if c == '/' {
        ReadCppStyleComment();
        ok := true;
      }
    }

    // ----- tokens

    // The switch of readToken, on a position that is not in front of a blank.
    method ReadKind() returns (kind: TokenType)
      requires InRange()
      modifies this`current
      ensures InRange()
      ensures old(Rest()) == [] ==> kind == EndOfStream && current == old(current)
      ensures old(Rest()) != [] && !IsBlank(old(Rest())[0]) ==> Scan(old(Rest())) == (kind, current - old(current))
      ensures old(Rest()) != [] ==> current > old(current)
      ensures kind == String ==> current >= old(current) + 2
    {
      var c := GetNextChar();
      match c {
        case '{' => kind := ObjectBegin;
        case '}' => kind := ObjectEnd;
        case '[' => kind := ArrayBegin;
        case ']' => kind := ArrayEnd;
        case '"' =>
          var ok := ReadString();
          kind := if ok then String else Error;
        case '/' =>
          var ok := ReadComment();
          kind := if ok then Comment else Error;
        case 't' =>
          var ok := Match("rue");
          kind := if ok then True else Error;
        case 'f' =>
          var ok := Match("alse");
          kind := if ok then False else Error;
        case 'n' =>
          var ok := Match("ull");
          kind := if ok then NullToken else Error;
        case ',' => kind := ArraySeparator;
        case ':' => kind := MemberSeparator;
        case '\0' => kind := EndOfStream;
        case _ =>
          kind := Error;
          if IsDigit(c) || c == '-' {
            ReadNumber();
            kind := Number;
          }
      }
    }

    // One token: it is the next one of the document, and the position moves forward unless the
    // document is exhausted.
    method ReadToken() returns (token: Token)
      requires InRange()
      modifies this`current
      ensures InRange() && Spans(token)
      ensures TokenOf(token) == Head(old(Tokens())) && Tokens() == Tail(old(Tokens()))
      ensures current > old(current) || (old(Tokens()) == [] && current == |document| && token.kind == EndOfStream)
    {
      hide Scan, Lex, SpaceLen, Head, Tail, IsBlank;
      SkipSpaces();
      var start := current;
      ghost var text := Rest();
      NotBlank(document, old(current), start);
      var kind := ReadKind();
      token := Token(kind, start, current);
      assert text != [] ==> text[0] == document[start];
      NextToken(document, old(current), start, current, kind);
    }

    lemma NotBlank(s: string, a: nat, b: nat)
      requires a <= b <= |s| && b == a + SpaceLen(s[a..])
      ensures b < |s| ==> !IsBlank(s[b])
    {
      assert b < |s| ==> s[b] == s[a..][b - a];
    }

    // The token between b and c, behind the blanks from a on, is the next one.
    lemma NextToken(s: string, a: nat, b: nat, c: nat, kind: TokenType)
      requires a <= b <= c <= |s| && b == a + SpaceLen(s[a..])
      requires if b == |s| then c == b && kind == EndOfStream else Scan(s[b..]) == (kind, c - b)
      ensures Tok(kind, s[b..c]) == Head(Lex(s[a..])) && Lex(s[c..]) == Tail(Lex(s[a..]))
      ensures b == |s| ==> Lex(s[a..]) == []
    {
      hide Scan, SpaceLen, Lex;
      LexFirst(s[a..]);
      LexNothing();
      Slices(s, a, b);
      assert s[b..][..c - b] == s[b..c];
      Slices(s, b, c);
    }

    lemma Slices(s: string, a: nat, b: nat)
      requires a <= b <= |s|
      ensures s[a..][b - a..] == s[b..]
    {
    }

    method SkipCommentTokens() returns (token: Token)
      requires InRange()
      modifies this`current
      ensures InRange() && Spans(token) && current >= old(current)
      ensures var us := if features.allowComments then P.DropComments(old(Tokens())) else old(Tokens());
              TokenOf(token) == Head(us) && Tokens() == Tail(us)
      ensures token.kind != EndOfStream ==> current > old(current)
    {
      ghost var ts := Tokens();
      token := ReadToken();
      if features.allowComments {
        token := SkipWhileComment(token, ts);
      }
    }

    // while ( token.type_ == tokenComment ) readToken( token ), for the first token of ts
    method SkipWhileComment(first: Token, ghost ts: seq<Tok>) returns (token: Token)
      requires InRange() && Spans(first)
      requires TokenOf(first) == Head(ts) && Tokens() == Tail(ts)
      modifies this`current
      ensures InRange() && Spans(token) && current >= old(current)
      ensures TokenOf(token) == Head(P.DropComments(ts)) && Tokens() == Tail(P.DropComments(ts))
    {
      hide Lex;
      token := first;
      ghost var us := ts;
      while token.kind == Comment
        invariant InRange() && Spans(token) && current >= old(current)
        invariant TokenOf(token) == Head(us) && Tokens() == Tail(us)
        invariant P.DropComments(us) == P.DropComments(ts)
        decreases |us|
      {
        us := Tokens();
        token := ReadToken();
      }
    }

    method AddError(message: Message, token: Token) returns (ok: bool)
      requires Spans(token)
      modifies this`errors
      ensures !ok && errors == old(errors) + [P.ErrorInfo(message, TokenOf(token))]
    {
      errors := errors + [P.ErrorInfo(message, TokenOf(token))];
      ok := false;
    }

    // Skips to the wanted token; the errors are cut back to their number before.
    method RecoverFromError(until: TokenType) returns (ok: bool)
      requires InRange()
      modifies this`current, this`errors
      ensures InRange() && current >= old(current)
      ensures !ok && errors == old(errors) && Tokens() == P.Recover(until, old(Tokens()))
    {
      hide Lex;
      var errorCount := |errors|;
      while true
        invariant InRange() && current >= old(current) && errors == old(errors)
        invariant P.Recover(until, Tokens()) == P.Recover(until, old(Tokens()))
        decreases |document| - current
      {
        var skip := ReadToken();
        if skip.kind == until || skip.kind == EndOfStream {
          break;
        }
      }
      errors := errors[..errorCount];
      ok := false;
    }

    method AddErrorAndRecover(message: Message, token: Token, until: TokenType) returns (ok: bool)
      requires InRange() && Spans(token)
      modifies this`current, this`errors
      ensures InRange() && current >= old(current)
      ensures !ok && errors == old(errors) + [P.ErrorInfo(message, TokenOf(token))]
      ensures Tokens() == P.Recover(until, old(Tokens()))
    {
      hide Lex;
      var _ := AddError(message, token);
      ok := RecoverFromError(until);
    }

    // ----- scalars

    method SetCurrent(v: Value)
      requires Ready()
      modifies this`root
      ensures Ready() && root == Set(old(root), old(Top()), v)
    {
      GetSet(root, Top(), v);
      root := Set(root, Top(), v);
    }

    method DecodeDouble(token: Token) returns (ok: bool)
      requires Ready() && Spans(token)
      modifies this`root, this`errors
      ensures Ready()
      ensures match T.DecodeDouble(scan, TokenOf(token).text)
              case Good(v) => ok && root == Set(old(root), old(Top()), v) && errors == old(errors)
              case Bad(m) => !ok && root == old(root) && errors == old(errors) + [P.ErrorInfo(m, TokenOf(token))]
    {
      match scan(document[token.start..token.end]) {
        case None => ok := AddError(NotANumber, token);
        case Some(r) =>
          SetCurrent(Real(r));
          ok := true;
      }
    }

    // The first loop of decodeNumber.
    method InspectDouble(token: Token) returns (isDouble: bool)
      requires Spans(token)
      ensures isDouble <==> IsDouble(TokenOf(token).text)
    {
      ghost var text := TokenOf(token).text;
      isDouble := false;
      var inspect := token.start;
      while inspect != token.end
        invariant token.start <= inspect <= token.end
        invariant isDouble <==> exists i :: 0 <= i < inspect - token.start && DoubleMark(text, i)
        decreases token.end - inspect
      {
        var c := document[inspect];
        isDouble := isDouble || c == '.' || c == 'e' || c == 'E' || c == '+' || (c == '-' && inspect != token.start);
        assert DoubleMark(text, inspect - token.start) ==> isDouble;
        inspect := inspect + 1;
      }
    }

    method DecodeNumber(token: Token) returns (ok: bool)
      requires Ready() && Spans(token) && token.kind == Number
      modifies this`root, this`errors
      ensures Ready()
      ensures match T.DecodeNumber(scan, TokenOf(token).text)
              case Good(v) => ok && root == Set(old(root), old(Top()), v) && errors == old(errors)
              case Bad(m) => !ok && root == old(root) && errors == old(errors) + [P.ErrorInfo(m, TokenOf(token))]
    {
      hide Set, Get, HasSlot, IsDouble;
      ghost var text := TokenOf(token).text;
      var isDouble := InspectDouble(token);
      if isDouble {
        ok := DecodeDouble(token);
        return;
      }
      var at := token.start;
      var isNegative := at < token.end && document[at] == '-';
      if isNegative {
        at := at + 1;
      }
      var threshold: uint32 := (if isNegative then 2147483648 else 4294967295) / 10;
      var value: uint32 := 0;
      ghost var digits := document[at..token.end];
      assert digits == if isNegative then text[1..] else text;
      while at < token.end
        invariant token.start <= at <= token.end
        invariant WalkDigits(digits, 0, threshold as int) ==
                  WalkDigits(document[at..token.end], value as int, threshold as int)
        invariant isNegative ==> value <= 2147483639
      {
        var c := document[at];
        ghost var left := document[at..token.end];
        at := at + 1;
        assert left[1..] == document[at..token.end];
        if !('0' <= c <= '9') {
          ok := AddError(NotANumber, token);
          return;
        }
        if value >= threshold {
          ok := DecodeDouble(token);
          return;
        }
        value := value * 10 + (c as int - '0' as int) as uint32;
      }
      if isNegative {
        SetCurrent(Int(-(value as int)));
      } else if value <= 2147483647 {
        SetCurrent(Int(value as int));
      } else {
        SetCurrent(UInt(value as int));
      }
      ok := true;
    }

    method DecodeUnicodeEscapeSequence(token: Token, start: nat, end: nat) returns (ok: bool, at: nat, unicode: nat)
      requires Spans(token) && start <= end <= |document|
      modifies this`errors
      ensures match HexEscape(document[start..end])
              case Good(u) => ok && at == start + 4 && unicode == u && errors == old(errors)
              case Bad(m) => !ok && errors == old(errors) + [P.ErrorInfo(m, TokenOf(token))]
    {
      at, unicode := start, 0;
      if end - at < 4 {
        ok := AddError(FourDigitsExpected, token);
        return;
      }
      ghost var s := document[start..end];
      var index := 0;
      while index < 4
        invariant 0 <= index <= 4 && at == start + index
        invariant errors == old(errors)
        invariant HexPrefix(s, index) == Some(unicode)
      {
        var c := document[at];
        at := at + 1;
        unicode := unicode * 16;
        if '0' <= c <= '9' {
          unicode := unicode + (c as int - '0' as int);
        } else if 'a' <= c <= 'f' {
          unicode := unicode + (c as int - 'a' as int + 10);
        } else if 'A' <= c <= 'F' {
          unicode := unicode + (c as int - 'A' as int + 10);
        } else {
          HexPrefixFails(s, index);
          ok := AddError(HexDigitExpected, token);
          return;
        }
        index := index + 1;
      }
      HexPrefixIsEscape(s);
      ok := true;
    }

    method DecodeUnicodeCodePoint(token: Token, start: nat, end: nat) returns (ok: bool, at: nat, unicode: nat)
      requires Spans(token) && start <= end <= |document|
      modifies this`errors
      ensures match CodePoint(document[start..end])
              case Good((u, n)) => ok && at == start + n <= end && unicode == u && errors == old(errors)
              case Bad(m) => !ok && errors == old(errors) + [P.ErrorInfo(m, TokenOf(token))]
    {
      ok, at, unicode := DecodeUnicodeEscapeSequence(token, start, end);
      if !ok {
        return;
      }
      if 0xD800 <= unicode <= 0xDBFF {
        assert document[start..end][4..] == document[at..end];
        if end - at < 6 {
          ok := AddError(SixCharactersExpected, token);
          return;
        }
        if document[at] == '\\' && document[at + 1] == 'u' {
          assert document[at..end][2..] == document[at + 2..end];
          var low: nat;
          ok, at, low := DecodeUnicodeEscapeSequence(token, at + 2, end);
          if ok {
            unicode := 0x10000 + unicode % 0x400 * 0x400 + low % 0x400;
          }
        } else {
          ok := AddError(SecondSurrogateExpected, token);
        }
      }
    }

    // The escape whose backslash is at start: what it stands for.
    method DecodeEscape(token: Token, start: nat, end: nat) returns (ok: bool, at: nat, piece: string)
      requires Spans(token) && start < end <= |document| && document[start] == '\\'
      modifies this`errors
      ensures ok ==> start < at <= end && errors == old(errors) &&
                     DecodeBody(document[start..end]) == Prepend(piece, DecodeBody(document[at..end]))
      ensures !ok ==> match DecodeBody(document[start..end])
                      case Good(_) => false
                      case Bad(m) => errors == old(errors) + [P.ErrorInfo(m, TokenOf(token))]
    {
      hide DecodeBody, CodePoint, Prepend, CodePointToUTF8, SimpleEscape;
      at, piece := start + 1, "";
      ghost var left := document[start..end];
      DecodeBackslash(left);
      if at == end {
        ok := AddError(EmptyEscape, token);
        return;
      }
      var escape := document[at];
      at := at + 1;
      assert left[2..] == document[at..end];
      if escape == 'u' {
        var u: nat;
        ok, at, u := DecodeUnicodeCodePoint(token, at, end);
        if ok {
          assert left[at - start..] == document[at..end];
          piece := CodePointToUTF8(u);
        }
      } else {
        match SimpleEscape(escape) {
          case None => ok := AddError(BadEscape, token);
          case Some(e) => ok, piece := true, [e];
        }
      }
    }

    lemma WithoutEnds(s: string, start: nat, end: nat)
      requires start + 2 <= end <= |s|
      ensures P.Body(s[start..end]) == s[start + 1..end - 1]
    {
      var inner := s[start..end][1..end - start - 1];
      forall k | 0 <= k < |inner|
        ensures inner[k] == s[start + 1..end - 1][k]
      {
        assert inner[k] == s[start..end][k + 1];
      }
      assert inner == s[start + 1..end - 1];
    }

    method DecodeString(token: Token) returns (ok: bool, decoded: string)
      requires Spans(token) && token.kind == String
      modifies this`errors
      ensures match DecodeBody(P.Body(TokenOf(token).text))
              case Good(s) => ok && decoded == s && errors == old(errors)
              case Bad(m) => !ok && errors == old(errors) + [P.ErrorInfo(m, TokenOf(token))]
    {
      hide DecodeBody, P.Body;
      decoded := "";
      var at := token.start + 1;
      var end := token.end - 1;
      ghost var body := document[at..end];
      WithoutEnds(document, token.start, token.end);
      PrependPrepend([], [], DecodeBody(body));
      while at != end
        invariant token.start < at <= end
        invariant errors == old(errors)
        invariant DecodeBody(body) == Prepend(decoded, DecodeBody(document[at..end]))
        decreases end - at
      {
        ghost var left := document[at..end];
        DecodePlain(left);
        var c := document[at];
        if c == '"' {
          break;
        }
        var piece := [c];
        if c == '\\' {
          ok, at, piece := DecodeEscape(token, at, end);
          if !ok {
            return;
          }
        } else {
          at := at + 1;
          assert left[1..] == document[at..end];
        }
        PrependPrepend(decoded, piece, DecodeBody(document[at..end]));
        decoded := decoded + piece;
      }
      DecodePlain(document[at..end]);
      assert decoded + "" == decoded;
      ok := true;
    }

    lemma DecodePlain(s: string)
      ensures s == [] || s[0] == '"' ==> DecodeBody(s) == Good("")
      ensures s != [] && s[0] != '"' && s[0] != '\\' ==> DecodeBody(s) == Prepend([s[0]], DecodeBody(s[1..]))
    {
    }

    method ReadScalar(token: Token) returns (ok: bool)
      requires Ready() && Spans(token)
      modifies this`root, this`errors
      ensures Ready()
      ensures var r := P.ReadScalar(scan, TokenOf(token), Tokens(), old(CurrentValue()));
              ok == r.ok && root == Set(old(root), old(Top()), r.value) && errors == old(errors) + r.errors
      ensures ok ==> token.kind != EndOfStream
    {
      hide Lex, Set, Get, HasSlot, DecodeBody, P.Body, T.DecodeNumber;
      SetGet(root, Top());
      ok := true;
      match token.kind {
        case Number => ok := DecodeNumber(token);
        case String =>
          var s: string;
          ok, s := DecodeString(token);
          if ok {
            SetCurrent(Str(Some(CStr(s))));
          }
        case True => SetCurrent(Bool(true));
        case False => SetCurrent(Bool(false));
        case NullToken => SetCurrent(Null);
        case _ => ok := AddError(ValueExpected, token);
      }
    }

    // ----- the recursive parser

    method ReadValue() returns (ok: bool)
      requires Ready()
      modifies this`current, this`root, this`nodes, this`errors
      ensures Ready() && nodes == old(nodes)
      ensures current >= old(current) && (ok ==> current > old(current))
      ensures var r := P.ReadValue(scan, features, old(Tokens()), old(CurrentValue()));
              ok == r.ok && Tokens() == r.rest && root == Set(old(root), old(Top()), r.value) &&
              errors == old(errors) + r.errors
      decreases |document| - current, 0
    {
      hide Lex, Set, Get, HasSlot, P.ReadScalar, P.ReadMembers, P.ReadElements, P.DropComments;
      var token := SkipCommentTokens();
      match token.kind {
        case ObjectBegin => ok := ReadObject();
        case ArrayBegin => ok := ReadArray();
        case _ => ok := ReadScalar(token);
      }
    }

    // Reads the value of slot key of the current container: operator[], push, readValue, pop.
    method ReadChild(key: Key) returns (ok: bool)
      requires Ready() && IsMap(CurrentValue())
      modifies this`current, this`root, this`nodes, this`errors
      ensures Ready() && nodes == old(nodes)
      ensures current >= old(current) && (ok ==> current > old(current))
      ensures var c := old(CurrentValue());
              var r := P.ReadValue(scan, features, old(Tokens()), At(c, key));
              ok == r.ok && Tokens() == r.rest && root == Set(old(root), old(Top()), With(c, key, r.value)) &&
              errors == old(errors) + r.errors
      decreases |document| - current, 1
    {
      hide Lex, P.ReadValue, Set, Get, HasSlot, Sorted, Resolve, At, With;
      ghost var top, c := Top(), CurrentValue();
      ghost var r := P.ReadValue(scan, features, Tokens(), At(c, key));
      StoreInChild(root, top, c, key, r.value);
      GetSet(root, top, With(c, key, r.value));
      Popped(nodes, top + [key]);
      OpenSlot(key);
      ok := ReadValue();
      assert root == Set(old(root), top, With(c, key, r.value));
      nodes := nodes[..|nodes| - 1];
      assert nodes == old(nodes);
    }

    method OpenSlot(key: Key)
      requires Ready() && IsMap(CurrentValue())
      modifies this`root, this`nodes
      ensures Ready() && nodes == old(nodes) + [old(Top()) + [key]]
      ensures root == Set(old(root), old(Top()), Resolve(old(CurrentValue()), key))
      ensures CurrentValue() == At(old(CurrentValue()), key)
    {
      hide Set, Get, HasSlot, IsMap, Resolve, At, With;
      StoreInChild(root, Top(), CurrentValue(), key, Null);
      SetCurrent(Resolve(CurrentValue(), key));
      nodes := nodes + [Top() + [key]];
    }

    lemma Popped(paths: seq<Path>, path: Path)
      ensures (paths + [path])[..|paths|] == paths
    {
    }

    // The ':' and the value of a member, with the recovery readObject does for them.
    method ReadMemberValue(key: Key) returns (ok: bool)
      requires Ready() && IsMap(CurrentValue())
      modifies this`current, this`root, this`nodes, this`errors
      ensures Ready() && nodes == old(nodes)
      ensures current >= old(current) && (ok ==> current > old(current))
      ensures var ts, c := old(Tokens()), old(CurrentValue());
              if Head(ts).kind != MemberSeparator then
                !ok && root == old(root) && errors == old(errors) + [P.ErrorInfo(MissingColon, Head(ts))] &&
                Tokens() == P.Recover(ObjectEnd, Tail(ts))
              else
                var r := P.ReadValue(scan, features, Tail(ts), At(c, key));
                ok == r.ok && root == Set(old(root), old(Top()), With(c, key, r.value)) &&
                errors == old(errors) + r.errors && Tokens() == if r.ok then r.rest else P.Recover(ObjectEnd, r.rest)
      decreases |document| - current, 2
    {
      hide Lex, P.ReadValue, Set, Get, HasSlot, IsMap, With, At, P.Recover;
      var colon := ReadToken();
      if colon.kind != MemberSeparator {
        ok := AddErrorAndRecover(MissingColon, colon, ObjectEnd);
        return;
      }
      ok := ReadChild(key);
      if !ok {
        ok := RecoverFromError(ObjectEnd);
      }
    }

    // One round of the loop of readObject.
    method ReadMember(name: string) returns (done: bool, ok: bool, member: string)
      requires Ready() && IsMap(CurrentValue()) && CurrentValue().Object?
      modifies this`current, this`root, this`nodes, this`errors
      ensures Ready() && nodes == old(nodes) && current >= old(current)
      ensures match P.ReadMember(scan, old(Tokens()), features, old(CurrentValue()), name)
              case Stop(r) =>
                done && ok == r.ok && Tokens() == r.rest && root == Set(old(root), old(Top()), r.value) &&
                errors == old(errors) + r.errors
              case Next(rest, obj, name') =>
                !done && Tokens() == rest && IsMap(obj) && root == Set(old(root), old(Top()), obj) &&
                errors == old(errors) && member == name' && current > old(current)
      decreases |document| - current, 4
    {
      hide Lex, P.ReadNamed, Set, Get, HasSlot, IsMap, P.Recover, P.DropComments, DecodeBody, P.Body;
      ghost var ts, obj := Tokens(), CurrentValue();
      done, member := true, "";
      SetGet(root, Top());
      var token := ReadToken();
      token := SkipWhileComment(token, ts);
      if token.kind == ObjectEnd && name == "" {
        ok := true;
        return;
      }
      if token.kind != String {
        ok := AddErrorAndRecover(MissingBraceOrName, token, ObjectEnd);
        return;
      }
      ok, member := DecodeString(token);
      if !ok {
        ok := RecoverFromError(ObjectEnd);
        return;
      }
      done, ok := ReadNamed(member);
    }

    // The rest of the round, behind the name.
    method ReadNamed(member: string) returns (done: bool, ok: bool)
      requires Ready() && IsMap(CurrentValue()) && CurrentValue().Object?
      modifies this`current, this`root, this`nodes, this`errors
      ensures Ready() && nodes == old(nodes) && current >= old(current)
      ensures match P.ReadNamed(scan, old(Tokens()), features, old(CurrentValue()), member)
              case Stop(r) =>
                done && ok == r.ok && Tokens() == r.rest && root == Set(old(root), old(Top()), r.value) &&
                errors == old(errors) + r.errors
              case Next(rest, obj, name') =>
                !done && Tokens() == rest && IsMap(obj) && root == Set(old(root), old(Top()), obj) &&
                errors == old(errors) && member == name'
      decreases |document| - current, 3
    {
      hide Lex, P.ReadValue, Set, Get, HasSlot, IsMap, At, CStr, P.Recover, P.DropComments, With;
      ghost var obj := CurrentValue();
      SetGet(root, Top());
      done := true;
      var key := Name(CStr(member));
      ghost var r := P.ReadValue(scan, features, Tail(Tokens()), At(obj, key));
      WithIsMap(obj, key, r.value);
      ok := ReadMemberValue(key);
      if !ok {
        return;
      }
      done, ok := ReadComma();
    }

    // The ',' or '}' after a member.
    method ReadComma() returns (done: bool, ok: bool)
      requires InRange()
      modifies this`current, this`errors
      ensures InRange() && current >= old(current)
      ensures var ts, next := old(Tokens()), P.DropComments(old(Tokens()));
              var comma := Head(ts);
              if comma.kind != ObjectEnd && comma.kind != ArraySeparator && comma.kind != Comment then
                done && !ok && errors == old(errors) + [P.ErrorInfo(MissingCommaOrBrace, comma)] &&
                Tokens() == P.Recover(ObjectEnd, Tail(ts))
              else
                ok && errors == old(errors) && Tokens() == Tail(next) && (done <==> Head(next).kind == ObjectEnd)
    {
      hide Lex, P.DropComments, P.Recover;
      ghost var ts := Tokens();
      var comma := ReadToken();
      if comma.kind != ObjectEnd && comma.kind != ArraySeparator && comma.kind != Comment {
        done := true;
        ok := AddErrorAndRecover(MissingCommaOrBrace, comma, ObjectEnd);
        return;
      }
      comma := SkipWhileComment(comma, ts);
      done, ok := comma.kind == ObjectEnd, true;
    }

    method ReadObject() returns (ok: bool)
      requires Ready()
      modifies this`current, this`root, this`nodes, this`errors
      ensures Ready() && nodes == old(nodes) && current >= old(current)
      ensures var r := P.ReadMembers(scan, old(Tokens()), features, Object([]), "");
              ok == r.ok && Tokens() == r.rest && root == Set(old(root), old(Top()), r.value) &&
              errors == old(errors) + r.errors
      decreases |document| - current, 5
    {
      hide Lex, Set, Get, HasSlot, IsMap, P.ReadMember;
      EmptyIsMap();
      SetCurrent(Object([]));
      GetSet(old(root), old(Top()), Object([]));
      ghost var obj := Object([]);
      var name := "";
      var done := false;
      ok := true;
      while !done
        invariant Ready() && nodes == old(nodes) && current >= old(current)
        invariant !done ==> obj.Object? && IsMap(obj) && root == Set(old(root), old(Top()), obj) &&
                            CurrentValue() == obj && errors == old(errors)
        invariant var r := P.ReadMembers(scan, old(Tokens()), features, Object([]), "");
                  if done then ok == r.ok && Tokens() == r.rest && root == Set(old(root), old(Top()), r.value) &&
                               errors == old(errors) + r.errors
                  else P.ReadMembers(scan, Tokens(), features, obj, name) == r
        decreases !done, |document| - current
      {
        ghost var round := P.ReadMember(scan, Tokens(), features, obj, name);
        ghost var obj' := if round.Stop? then round.parse.value else round.obj;
        SetSet(old(root), old(Top()), obj, obj');
        GetSet(old(root), old(Top()), obj');
        done, ok, name := ReadMember(name);
        obj := obj';
      }
    }

    // skipSpaces(), then the look at *current_ in readArray
    method AtArrayEnd() returns (b: bool)
      requires InRange()
      modifies this`current
      ensures InRange() && current >= old(current)
      ensures Tokens() == old(Tokens()) && (b <==> Head(Tokens()).kind.ArrayEnd?)
    {
      hide Lex, Scan;
      PeekArrayEnd(Rest());
      SkipSpaces();
      b := current < |document| && document[current] == ']';
    }

    // One round of the loop of readArray.
    method ReadElement(index: nat) returns (done: bool, ok: bool)
      requires Ready() && IsMap(CurrentValue()) && CurrentValue().Array?
      modifies this`current, this`root, this`nodes, this`errors
      ensures Ready() && nodes == old(nodes) && current >= old(current) && (ok ==> current > old(current))
      ensures var c := old(CurrentValue());
              var r := P.ReadValue(scan, features, old(Tokens()), At(c, Index(index)));
              && ok == r.ok && root == Set(old(root), old(Top()), With(c, Index(index), r.value))
              && errors == old(errors) + r.errors
              && if r.ok then
                   var next := P.DropComments(r.rest);
                   Tokens() == Tail(next) && done == Head(next).kind.ArrayEnd?
                 else done && Tokens() == P.Recover(ArrayEnd, r.rest)
      decreases |document| - current, 2
    {
      hide Lex, P.ReadValue, Set, Get, HasSlot, IsMap, At, P.Recover, P.DropComments, With;
      ghost var r := P.ReadValue(scan, features, Tokens(), At(CurrentValue(), Index(index)));
      ok := ReadChild(Index(index));
      if !ok {
        ok := RecoverFromError(ArrayEnd);
        done := true;
        return;
      }
      var token := ReadToken();
      token := SkipWhileComment(token, r.rest);
      // badTokenType asks for two types at once and is never true, so any token separates
      var badTokenType := token.kind == ArraySeparator && token.kind == ArrayEnd;
      if badTokenType {
        assert false;
      }
      done := token.kind == ArrayEnd;
    }

    method ReadArray() returns (ok: bool)
      requires Ready()
      modifies this`current, this`root, this`nodes, this`errors
      ensures Ready() && nodes == old(nodes) && current >= old(current)
      ensures var r := if Head(old(Tokens())).kind.ArrayEnd? then P.Parse(true, Tail(old(Tokens())), Array([]), [])
                       else P.ReadElements(scan, old(Tokens()), features, Array([]), 0);
              ok == r.ok && Tokens() == r.rest && root == Set(old(root), old(Top()), r.value) &&
              errors == old(errors) + r.errors
      decreases |document| - current, 3
    {
      hide Lex, P.ReadValue, Set, Get, HasSlot, IsMap, At, P.Recover, P.DropComments, Put, Lookup, KeyLess, With;
      ghost var arr := Array([]);
      EmptyIsMap();
      SetCurrent(Array([]));
      var isEmpty := AtArrayEnd();
      if isEmpty {
        var _ := ReadToken();
        return true;
      }
      var index := 0;
      while true
        invariant Ready() && nodes == old(nodes) && current >= old(current) && errors == old(errors)
        invariant arr.Array? && IsMap(arr) && root == Set(old(root), old(Top()), arr)
        invariant P.ReadElements(scan, Tokens(), features, arr, index) ==
                  P.ReadElements(scan, old(Tokens()), features, Array([]), 0)
        decreases |document| - current
      {
        ghost var r := P.ReadValue(scan, features, Tokens(), At(arr, Index(index)));
        GetSet(old(root), old(Top()), arr);
        SetSet(old(root), old(Top()), arr, With(arr, Index(index), r.value));
        WithIsMap(arr, Index(index), r.value);
        var done;
        done, ok := ReadElement(index);
        arr := With(arr, Index(index), r.value);
        if !ok {
          return;
        }
        index := index + 1;
        if done {
          break;
        }
      }
      ok := true;
    }

    // parse(document, value), the comments not collected; value's new content is root.
    method Parse(text: string, value: Value) returns (ok: bool)
      modifies this
      ensures document == text
      ensures var r := P.ParseDocument(scan, features, text, value);
              ok == r.ok && root == r.value && errors == r.errors
    {
      hide Lex, P.ReadValue;
      document := text;
      current := 0;
      errors := [];
      root := value;
      nodes := [[]];
      assert Rest() == text;
      ghost var r := P.ReadValue(scan, features, Lex(text), value);
      ok := ReadValue();
      assert ok == r.ok && root == r.value && errors == r.errors;
      var token := SkipCommentTokens();
      if features.strictRoot {
        if !root.IsArray() && !root.IsObject() {
          token := Token(Error, 0, |document|);
          assert TokenOf(token).text == text;
          ok := AddError(RootNotContainer, token);
        }
      }
    }
  }
}
