// What the tokens of a document look like, character by character.

module JsonTokens {
  import opened Decimals
  import opened JsonLexer

  // ----- the shapes

  predicate OneOf(c: char, s: string) { c in s }

  // What is between the quotes: a backslash always goes with the character behind it.
  predicate Units(s: string) {
    s == [] ||
    (if s[0] == '\\' then |s| >= 2 && Units(s[2..]) else s[0] != '"' && Units(s[1..]))
  }

  predicate StringShape(w: string) { |w| >= 2 && w[0] == '"' && w[|w| - 1] == '"' && Units(w[1..|w| - 1]) }

  predicate NumberShape(w: string) {
    w != [] && OneOf(w[0], "-0123456789") && forall i | 0 < i < |w| :: OneOf(w[i], "0123456789.eE+-")
  }

  predicate StarSlashAt(s: string, i: nat) { i + 1 < |s| && s[i] == '*' && s[i + 1] == '/' }

  predicate NoStarSlash(s: string, n: int) { forall i: nat | i < n :: !StarSlashAt(s, i) }

  // From the slash and the star to the first star and slash behind them.
  predicate BlockShape(w: string) {
    |w| >= 4 && w[..2] == "/*" && StarSlashAt(w[2..], |w| - 4) && NoStarSlash(w[2..], |w| - 4)
  }

  // From the slashes to the end of the line, which is part of it.
  predicate LineShape(w: string, atEnd: bool) {
    && |w| >= 2 && w[..2] == "//" && (forall i | 2 <= i < |w| - 1 :: !OneOf(w[i], "\r\n"))
    && ((|w| > 2 && OneOf(w[|w| - 1], "\r\n")) || atEnd)
  }

  // The first n characters of s are a token of this kind.
  predicate TokenAt(s: string, kind: TokenType, n: nat) {
    0 < n <= |s| &&
    match kind
    case EndOfStream => s[..n] == "\0"
    case ObjectBegin => s[..n] == "{"
    case ObjectEnd => s[..n] == "}"
    case ArrayBegin => s[..n] == "["
    case ArrayEnd => s[..n] == "]"
    case ArraySeparator => s[..n] == ","
    case MemberSeparator => s[..n] == ":"
    case True => s[..n] == "true"
    case False => s[..n] == "false"
    case NullToken => s[..n] == "null"
    case String => StringShape(s[..n])
    case Number => NumberShape(s[..n]) && (n == |s| || !OneOf(s[n], "0123456789.eE+-"))
    case Comment => BlockShape(s[..n]) || LineShape(s[..n], n == |s|)
    case Error => false
  }

  // ----- the scanner takes tokens of these shapes and no others

  lemma CharacterClasses(c: char)
    ensures IsBlank(c) <==> OneOf(c, " \t\r\n")
    ensures IsNumberChar(c) <==> OneOf(c, "0123456789.eE+-")
    ensures IsDigit(c) || c == '-' <==> OneOf(c, "-0123456789")
  {
  }

  lemma {:induction false} StringScanIff(s: string, n: nat)
    requires 0 < n <= |s|
    ensures StringScan(s) == (true, n) <==> s[n - 1] == '"' && Units(s[..n - 1])
  {
    var u := s[..n - 1];
    if s[0] == '"' {
      assert n > 1 ==> u[0] == '"';
    } else {
      var k := if s[0] == '\\' then 2 else 1;
      if n == 1 {
      } else if n <= k {
        assert u == [s[0]];
      } else {
        assert u[k..] == s[k..][..n - k - 1];
        StringScanIff(s[k..], n - k);
      }
    }
  }

  lemma {:induction false} BlockScanIff(s: string, n: nat)
    ensures BlockCommentScan(s) == (true, n) <==> 2 <= n <= |s| && StarSlashAt(s, n - 2) && NoStarSlash(s, n - 2)
  {
    if s != [] {
      if StarSlashAt(s, 0) {
        assert n > 2 ==> !NoStarSlash(s, n - 2);
      } else if n > 0 {
        BlockScanIff(s[1..], n - 1);
        LaterStarSlash(s, n - 2);
        assert n > 2 ==> (StarSlashAt(s, n - 2) <==> StarSlashAt(s[1..], n - 3));
      }
    }
  }

  lemma LaterStarSlash(s: string, n: int)
    requires s != [] && !StarSlashAt(s, 0)
    ensures NoStarSlash(s, n) <==> NoStarSlash(s[1..], n - 1)
  {
    if NoStarSlash(s, n) {
      forall i: nat | i < n - 1
        ensures !StarSlashAt(s[1..], i)
      {
        assert !StarSlashAt(s, i + 1);
      }
    }
    if NoStarSlash(s[1..], n - 1) {
      forall i: nat | i < n
        ensures !StarSlashAt(s, i)
      {
        if i > 0 { assert !StarSlashAt(s[1..], i - 1); }
      }
    }
  }

  lemma {:induction false} LineScanIff(s: string, n: nat)
    ensures LineCommentLen(s) == n <==>
            && n <= |s| && (forall i | 0 <= i < n - 1 :: !OneOf(s[i], "\r\n"))
            && ((n > 0 && OneOf(s[n - 1], "\r\n")) || n == |s|)
  {
    if s != [] && s[0] != '\r' && s[0] != '\n' && n > 0 {
      LineScanIff(s[1..], n - 1);
      assert forall i | 0 < i < n :: n <= |s| ==> s[i] == s[1..][i - 1];
    }
  }

  lemma CommentScanIff(s: string, n: nat)
    requires s != [] && s[0] == '/' && 0 < n <= |s|
    ensures CommentScan(s[1..]) == (true, n - 1) <==> BlockShape(s[..n]) || LineShape(s[..n], n == |s|)
  {
    var w, t := s[..n], s[1..];
    if |s| >= 2 && n >= 2 {
      assert w[..2] == [s[0], s[1]] && t[1..] == s[2..];
      if s[1] == '*' {
        BlockScanIff(s[2..], n - 2);
        BlockPrefix(s, n);
      } else if s[1] == '/' {
        LineScanIff(s[2..], n - 2);
        LinePrefix(s, n);
      }
    }
  }

  lemma BlockPrefix(s: string, n: nat)
    requires 2 <= n <= |s|
    ensures n >= 4 ==> (StarSlashAt(s[..n][2..], n - 4) <==> StarSlashAt(s[2..], n - 4))
    ensures NoStarSlash(s[..n][2..], n - 4) <==> NoStarSlash(s[2..], n - 4)
  {
    forall i: nat | i < n - 3
      ensures StarSlashAt(s[..n][2..], i) <==> StarSlashAt(s[2..], i)
    {
    }
  }

  lemma LinePrefix(s: string, n: nat)
    requires 2 <= n <= |s| && s[..2] == "//"
    ensures LineShape(s[..n], n == |s|) <==>
            && (forall i | 0 <= i < n - 3 :: !OneOf(s[2..][i], "\r\n"))
            && ((n > 2 && OneOf(s[2..][n - 3], "\r\n")) || n == |s|)
  {
    var w, u := s[..n], s[2..];
    assert forall i | 2 <= i < n :: w[i] == u[i - 2];
    assert forall i | 0 <= i < n - 2 :: u[i] == w[i + 2];
  }

  lemma {:induction false} NumberScanIff(s: string, n: nat)
    ensures NumberLen(s) == n <==>
            && n <= |s| && (forall i | 0 <= i < n :: OneOf(s[i], "0123456789.eE+-"))
            && (n == |s| || !OneOf(s[n], "0123456789.eE+-"))
  {
    hide OneOf;
    if s != [] {
      CharacterClasses(s[0]);
      if n > 0 {
        NumberScanIff(s[1..], n - 1);
        assert forall i | 0 < i < n :: n <= |s| ==> s[i] == s[1..][i - 1];
        assert n < |s| ==> s[n] == s[1..][n - 1];
      }
    }
  }

  lemma NumberAt(s: string, n: nat)
    requires 0 < n <= |s|
    ensures Scan(s) == (Number, n) <==> TokenAt(s, Number, n)
  {
    hide OneOf;
    var w := s[..n];
    CharacterClasses(s[0]);
    NumberScanIff(s[1..], n - 1);
    assert w[0] == s[0] && forall i | 0 < i < n :: w[i] == s[1..][i - 1];
    NumberIsNothingElse(s[0]);
  }

  lemma NumberIsNothingElse(c: char)
    ensures OneOf(c, "-0123456789") ==> IsDigit(c) || c == '-'
  {
  }

  lemma StringAt(s: string, n: nat)
    requires 0 < n <= |s|
    ensures Scan(s) == (String, n) <==> TokenAt(s, String, n)
  {
    var w, t := s[..n], s[1..];
    assert w[0] == s[0];
    if n > 1 {
      StringScanIff(t, n - 1);
      assert w[1..n - 1] == t[..n - 2] && w[n - 1] == t[n - 2];
    } else if s[0] == '"' {
      assert StringScan(t).0 ==> StringScan(t).1 > 0;
    }
  }

  lemma CommentAt(s: string, n: nat)
    requires 0 < n <= |s|
    ensures Scan(s) == (Comment, n) <==> TokenAt(s, Comment, n)
  {
    hide BlockShape, LineShape, CommentScan;
    if s[0] == '/' {
      CommentScanIff(s, n);
    } else {
      NoComment(s, n);
    }
  }

  lemma NoComment(s: string, n: nat)
    requires 0 < n <= |s| && s[0] != '/'
    ensures !BlockShape(s[..n]) && !LineShape(s[..n], n == |s|)
  {
    assert n >= 2 ==> s[..n][..2][0] == s[0];
  }

  lemma KeywordAt(s: string, word: string, kind: TokenType, n: nat)
    requires 0 < n <= |s| && |word| > 0 && s[0] == word[0] && !kind.Error?
    ensures Keyword(kind, word[1..], s[1..]) == (kind, n) <==> s[..n] == word
  {
    if word[1..] <= s[1..] && n == |word| {
      forall i | 0 <= i < n
        ensures s[i] == word[i]
      {
        if i > 0 { assert s[1..][i - 1] == word[1..][i - 1]; }
      }
    }
    if s[..n] == word {
      assert s[1..][..n - 1] == s[..n][1..] == word[1..];
    }
  }

  lemma FixedAt(s: string, kind: TokenType, n: nat)
    requires 0 < n <= |s| && !kind.Error? && !kind.String? && !kind.Number? && !kind.Comment?
    ensures Scan(s) == (kind, n) <==> TokenAt(s, kind, n)
  {
    hide StringScan, CommentScan, NumberLen, Keyword;
    assert s[..n][0] == s[0];
    match s[0]
    case 't' => KeywordAt(s, "true", True, n); KeywordKind(True, "rue", s[1..]);
    case 'f' => KeywordAt(s, "false", False, n); KeywordKind(False, "alse", s[1..]);
    case 'n' => KeywordAt(s, "null", NullToken, n); KeywordKind(NullToken, "ull", s[1..]);
    case _ => assert s[..1] == [s[0]];
  }

  lemma KeywordKind(kind: TokenType, rest: string, s: string)
    ensures Keyword(kind, rest, s).0 == kind || Keyword(kind, rest, s).0 == Error
  {
  }

  // The scanner takes a token of the kind and length if and only if it has that shape; if nothing has, it is an
  // error.
  lemma ScanIff(s: string, kind: TokenType, n: nat)
    requires s != [] && !kind.Error?
    ensures Scan(s) == (kind, n) <==> TokenAt(s, kind, n)
  {
    hide Scan, TokenAt;
    if 0 < n <= |s| {
      match kind
      case String => StringAt(s, n);
      case Number => NumberAt(s, n);
      case Comment => CommentAt(s, n);
      case _ => FixedAt(s, kind, n);
    } else {
      NoLength(s, kind, n);
    }
  }

  lemma NoLength(s: string, kind: TokenType, n: nat)
    requires s != [] && !(0 < n <= |s|)
    ensures Scan(s) != (kind, n) && !TokenAt(s, kind, n)
  {
    hide Scan;
  }

  // ----- the tokens of a document

  predicate Blanks(w: string) { forall i | 0 <= i < |w| :: OneOf(w[i], " \t\r\n") }

  lemma NoBlankFirst(s: string, kind: TokenType, n: nat)
    requires TokenAt(s, kind, n)
    ensures 0 < n <= |s| && !kind.Error? && !OneOf(s[0], " \t\r\n")
  {
    var w := s[..n];
    assert w[0] == s[0];
    if |w| >= 2 { assert w[..2][0] == s[0]; }
    if kind.Number? { NumberIsNothingElse(s[0]); }
  }

  // Blanks are passed over, and then the token that has one of the shapes is delivered.
  lemma LexNext(w: string, s: string, kind: TokenType, n: nat)
    requires Blanks(w) && TokenAt(s, kind, n)
    ensures Lex(w + s) == [Tok(kind, s[..n])] + Lex(s[n..])
  {
    hide TokenAt, OneOf, Scan, Lex;
    PassBlanks(w, s);
    NoBlankFirst(s, kind, n);
    CharacterClasses(s[0]);
    ScanIff(s, kind, n);
    LexAt(s);
  }

  lemma LexAt(s: string)
    requires s != [] && !IsBlank(s[0])
    ensures var (kind, n) := Scan(s); Lex(s) == [Tok(kind, s[..n])] + Lex(s[n..])
  {
    hide Scan;
    assert SpaceLen(s) == 0 && s[0..] == s;
  }

  lemma PassBlanks(w: string, s: string)
    requires Blanks(w)
    ensures Lex(w + s) == Lex(s)
  {
    forall i | 0 <= i < |w|
      ensures IsBlank(w[i])
    {
      CharacterClasses(w[i]);
    }
    LexSpaces(w, s);
  }

  lemma LexBlanks(w: string)
    requires Blanks(w)
    ensures Lex(w) == []
  {
    PassBlanks(w, []);
    LexNothing();
    assert w + [] == w;
  }

  // Where nothing has a shape, an error token is delivered: an open string or comment up to the end, a slash
  // with the character behind it, any other character alone.
  lemma LexError(w: string, s: string)
    requires Blanks(w) && s != [] && !OneOf(s[0], " \t\r\n")
    requires forall kind, n :: !TokenAt(s, kind, n)
    ensures var n := if s[0] == '"' || "/*" <= s then |s| else if s[0] == '/' && |s| > 1 then 2 else 1;
            Lex(w + s) == [Tok(Error, s[..n])] + Lex(s[n..])
  {
    hide TokenAt, OneOf, Scan, Lex;
    PassBlanks(w, s);
    CharacterClasses(s[0]);
    var (kind, n) := Scan(s);
    if !kind.Error? { ScanIff(s, kind, n); }
    ErrorLength(s);
    LexAt(s);
  }

  lemma ErrorLength(s: string)
    requires s != [] && Scan(s).0.Error?
    ensures Scan(s).1 == if s[0] == '"' || "/*" <= s then |s| else if s[0] == '/' && |s| > 1 then 2 else 1
  {
    if s[0] == '"' {
      OpenString(s[1..]);
    } else if s[0] == '/' && |s| > 1 {
      if s[1] == '*' {
        assert "/*" <= s;
        OpenBlock(s[2..]);
        assert s[1..][1..] == s[2..];
      } else {
        assert "/*"[1] == '*';
      }
    }
  }

  lemma {:induction false} OpenString(s: string)
    ensures !StringScan(s).0 ==> StringScan(s).1 == |s|
  {
    if s != [] && s[0] != '"' && (s[0] != '\\' || |s| > 1) {
      OpenString(s[if s[0] == '\\' then 2 else 1..]);
    }
  }

  lemma {:induction false} OpenBlock(s: string)
    ensures !BlockCommentScan(s).0 ==> BlockCommentScan(s).1 == |s|
  {
    if s != [] { OpenBlock(s[1..]); }
  }
}
