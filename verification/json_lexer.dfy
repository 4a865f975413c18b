// The tokens of a document. A position of Reader is represented by the text left from there,
// so Lex(document[current..]) is everything readToken has still to deliver.

module JsonLexer {
  import opened Decimals

  datatype TokenType =
    | EndOfStream | ObjectBegin | ObjectEnd | ArrayBegin | ArrayEnd | String | Number
    | True | False | NullToken | ArraySeparator | MemberSeparator | Comment | Error

  datatype Tok = Tok(kind: TokenType, text: string)

  predicate IsBlank(c: char) { c == ' ' || c == '\t' || c == '\r' || c == '\n' }

  predicate IsNumberChar(c: char) {
    IsDigit(c) || c == '.' || c == 'e' || c == 'E' || c == '+' || c == '-'
  }

  // How many leading blanks skipSpaces passes over.
  function SpaceLen(s: string): (n: nat)
    ensures n <= |s|
    ensures forall i :: 0 <= i < n ==> IsBlank(s[i])
    ensures n < |s| ==> !IsBlank(s[n])
  {
    if s == [] || !IsBlank(s[0]) then 0 else 1 + SpaceLen(s[1..])
  }

  // How many characters readNumber takes.
  function NumberLen(s: string): (n: nat)
    ensures n <= |s|
    ensures forall i :: 0 <= i < n ==> IsNumberChar(s[i])
    ensures n < |s| ==> !IsNumberChar(s[n])
  {
    if s == [] || !IsNumberChar(s[0]) then 0 else 1 + NumberLen(s[1..])
  }

  // Whether and where the string body s meets its closing quote; an escape hides the next character.
  function StringScan(s: string): (r: (bool, nat))
    ensures r.1 <= |s|
    ensures r.0 ==> r.1 > 0 && s[r.1 - 1] == '"'
  {
    if s == [] then (false, 0)
    else if s[0] == '"' then (true, 1)
    else if s[0] == '\\' then
      if |s| == 1 then (false, 1) else var r := StringScan(s[2..]); (r.0, 2 + r.1)
    else var r := StringScan(s[1..]); (r.0, 1 + r.1)
  }

  // The rest of a /* comment */ and of a // comment.
  function BlockCommentScan(s: string): (r: (bool, nat))
    ensures r.1 <= |s|
  {
    if s == [] then (false, 0)
    else if s[0] == '*' && |s| > 1 && s[1] == '/' then (true, 2)
    else var r := BlockCommentScan(s[1..]); (r.0, 1 + r.1)
  }

  function LineCommentLen(s: string): (n: nat)
    ensures n <= |s|
  {
    if s == [] then 0
    else if s[0] == '\r' || s[0] == '\n' then 1
    else 1 + LineCommentLen(s[1..])
  }

  // What follows the '/' of a comment.
  function CommentScan(s: string): (r: (bool, nat))
    ensures r.1 <= |s|
  {
    if s == [] then (false, 0)
    else if s[0] == '*' then var r := BlockCommentScan(s[1..]); (r.0, 1 + r.1)
    else if s[0] == '/' then (true, 1 + LineCommentLen(s[1..]))
    else (false, 1)
  }

  function Checked(kind: TokenType, ok: bool, len: nat): (TokenType, nat) {
    (if ok then kind else Error, len)
  }

  function Keyword(kind: TokenType, rest: string, s: string): (TokenType, nat) {
    if rest <= s then (kind, 1 + |rest|) else (Error, 1)
  }

  // The kind and length of the token s starts with.
  function Scan(s: string): (r: (TokenType, nat))
    requires s != []
    ensures 1 <= r.1 <= |s|
  {
    var t := s[1..];
    match s[0]
    case '{' => (ObjectBegin, 1)
    case '}' => (ObjectEnd, 1)
    case '[' => (ArrayBegin, 1)
    case ']' => (ArrayEnd, 1)
    case ',' => (ArraySeparator, 1)
    case ':' => (MemberSeparator, 1)
    case '"' => var r := StringScan(t); Checked(String, r.0, 1 + r.1)
    case '/' => var r := CommentScan(t); Checked(Comment, r.0, 1 + r.1)
    case 't' => Keyword(True, "rue", t)
    case 'f' => Keyword(False, "alse", t)
    case 'n' => Keyword(NullToken, "ull", t)
    case '\0' => (EndOfStream, 1)
    case c => if IsDigit(c) || c == '-' then (Number, 1 + NumberLen(t)) else (Error, 1)
  }

  // All tokens of s. After the last one readToken delivers end-of-stream for ever; a NUL inside
  // the document also reads as end-of-stream but is consumed.
  function Lex(s: string): seq<Tok> {
    var n := SpaceLen(s);
    var t := s[n..];
    if t == [] then []
    else
      var (kind, len) := Scan(t);
      [Tok(kind, t[..len])] + Lex(t[len..])
  }

  lemma LexFirst(s: string)
    ensures var t := s[SpaceLen(s)..];
            if t == [] then Lex(s) == []
            else var (kind, len) := Scan(t); Head(Lex(s)) == Tok(kind, t[..len]) && Tail(Lex(s)) == Lex(t[len..])
  {
    hide Scan, SpaceLen;
  }

  // A document has no more tokens than characters.
  lemma {:induction false} LexIsShort(s: string)
    ensures |Lex(s)| <= |s|
    decreases |s|
  {
    hide Scan;
    var t := s[SpaceLen(s)..];
    if t != [] { LexIsShort(t[Scan(t).1..]); }
  }

  lemma LexNothing()
    ensures Lex([]) == [] && Tail([]) == []
  {
  }

  const END := Tok(EndOfStream, "")

  function Head(ts: seq<Tok>): Tok { if ts == [] then END else ts[0] }

  function Tail(ts: seq<Tok>): (r: seq<Tok>)
    ensures |r| == if ts == [] then 0 else |ts| - 1
  {
    if ts == [] then [] else ts[1..]
  }

  // ----- texts that keep their tokens whatever follows

  // The text is exactly one token of its kind.
  predicate IsToken(t: Tok) {
    t.text != [] && !IsBlank(t.text[0]) && Scan(t.text) == (t.kind, |t.text|)
  }

  // tail does not prolong a number that ends in front of it
  predicate Stops(tail: string) {
    tail == [] || !IsNumberChar(tail[0])
  }

  lemma {:induction false} StringScanExtends(s: string, tail: string)
    requires StringScan(s) == (true, |s|)
    ensures StringScan(s + tail) == (true, |s|)
  {
    if s[0] == '"' {
      assert |s| == 1;
    } else {
      var k := if s[0] == '\\' then 2 else 1;
      assert (s + tail)[k..] == s[k..] + tail;
      StringScanExtends(s[k..], tail);
    }
  }

  lemma {:induction false} NumberLenExtends(s: string, tail: string)
    requires NumberLen(s) == |s| && Stops(tail)
    ensures NumberLen(s + tail) == |s|
  {
    if s != [] {
      assert (s + tail)[1..] == s[1..] + tail;
      NumberLenExtends(s[1..], tail);
    } else {
      assert s + tail == tail;
    }
  }

  lemma ScanExtends(t: Tok, tail: string)
    requires IsToken(t) && !t.kind.Comment? && !t.kind.Error?
    requires t.kind.Number? ==> Stops(tail)
    ensures Scan(t.text + tail) == (t.kind, |t.text|)
  {
    var s, u := t.text, t.text[1..];
    assert (s + tail)[1..] == u + tail && (s + tail)[0] == s[0];
    hide Keyword, NumberLen, StringScan;
    match s[0]
    case '"' => StringScanExtends(u, tail);
    case 't' => KeywordExtends(True, "rue", u, tail);
    case 'f' => KeywordExtends(False, "alse", u, tail);
    case 'n' => KeywordExtends(NullToken, "ull", u, tail);
    case _ => if t.kind.Number? { NumberLenExtends(u, tail); }
  }

  lemma KeywordExtends(kind: TokenType, rest: string, s: string, tail: string)
    requires !kind.Error? && Keyword(kind, rest, s) != (Error, 1)
    ensures Keyword(kind, rest, s + tail) == Keyword(kind, rest, s)
  {
  }

  lemma LexToken(t: Tok, tail: string)
    requires IsToken(t) && !t.kind.Comment? && !t.kind.Error?
    requires t.kind.Number? ==> Stops(tail)
    ensures Lex(t.text + tail) == [t] + Lex(tail)
  {
    ScanExtends(t, tail);
    var s := t.text + tail;
    assert SpaceLen(s) == 0;
    assert s[0..] == s;
    assert s[..|t.text|] == t.text && s[|t.text|..] == tail;
  }

  lemma {:induction false} LexSpaces(w: string, s: string)
    requires forall i :: 0 <= i < |w| ==> IsBlank(w[i])
    ensures Lex(w + s) == Lex(s)
  {
    if w == [] {
      assert w + s == s;
    } else {
      var u := w + s;
      assert u[1..] == w[1..] + s;
      LexSpaces(w[1..], s);
      var n := SpaceLen(u[1..]);
      assert SpaceLen(u) == 1 + n;
      assert u[1 + n..] == u[1..][n..];
    }
  }

  // Looking at one character is enough to see a closing bracket.
  lemma PeekArrayEnd(s: string)
    ensures var t := s[SpaceLen(s)..];
            Lex(t) == Lex(s) && ((t != [] && t[0] == ']') <==> Head(Lex(s)).kind.ArrayEnd?)
  {
    var n := SpaceLen(s);
    assert s[..n] + s[n..] == s;
    LexSpaces(s[..n], s[n..]);
    if s[n..] != [] { ArrayEndChar(s[n..]); }
  }

  lemma ArrayEndChar(t: string)
    requires t != []
    ensures Scan(t).0 == ArrayEnd <==> t[0] == ']'
  {}
}
