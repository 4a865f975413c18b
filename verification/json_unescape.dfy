// What strings in documents mean, piece by piece, and which ones are not accepted.

module JsonUnescape {
  import opened Options
  import opened JsonText
  import opened JsonStrings

  // ----- the pieces of a text between quotes

  const SHORT_NAMES := "\"\\/bfnrt"
  const SHORT_MEANINGS := "\"\\/\U{08}\U{0C}\n\r\t"

  datatype Piece =
    | Plain(c: char)
    | Short(i: nat)
    | Unit(digits: string, u: nat)
    | Pair(digits: string, high: nat, digits2: string, low: nat)

  predicate IsHigh(u: nat) { 0xD800 <= u < 0xDC00 }

  predicate IsPiece(p: Piece) {
    match p
    case Plain(c) => c != '"' && c != '\\'
    case Short(i) => i < 8
    case Unit(h, u) => AreHex(h, u) && !IsHigh(u)
    case Pair(h, high, l, low) => AreHex(h, high) && IsHigh(high) && AreHex(l, low)
  }

  function Source(p: Piece): (s: string)
    requires IsPiece(p)
    ensures s != []
  {
    match p
    case Plain(c) => [c]
    case Short(i) => ['\\', SHORT_NAMES[i]]
    case Unit(h, _) => "\\u" + h
    case Pair(h, _, l, _) => "\\u" + h + ("\\u" + l)
  }

  // The second half of a pair may be any unit, of which the low bits count.
  function Meaning(p: Piece): string
    requires IsPiece(p)
  {
    match p
    case Plain(c) => [c]
    case Short(i) => [SHORT_MEANINGS[i]]
    case Unit(_, u) => CodePointToUTF8(u)
    case Pair(_, high, _, low) => CodePointToUTF8(0x10000 + (high - 0xD800) * 0x400 + low % 0x400)
  }

  predicate ArePieces(ps: seq<Piece>) { forall p | p in ps :: IsPiece(p) }

  function Sources(ps: seq<Piece>): string
    requires ArePieces(ps)
  {
    if ps == [] then [] else Source(ps[0]) + Sources(ps[1..])
  }

  function Meanings(ps: seq<Piece>): string
    requires ArePieces(ps)
  {
    if ps == [] then [] else Meaning(ps[0]) + Meanings(ps[1..])
  }

  // ----- where a text stops being one

  const HEX := "0123456789abcdefABCDEF"

  predicate NotHex(h: string) { exists i | 0 <= i < |h| :: h[i] !in HEX }

  // What starts with a backslash and is no piece.
  ghost predicate Wrong(s: string, m: Message) {
    s != [] && s[0] == '\\' &&
    if |s| == 1 then m == EmptyEscape
    else if s[1] != 'u' then s[1] !in SHORT_NAMES && m == BadEscape
    else if |s| < 6 then m == FourDigitsExpected
    else if NotHex(s[2..6]) then m == HexDigitExpected
    else
      && (exists u :: AreHex(s[2..6], u) && IsHigh(u))
      && if |s| < 12 then m == SixCharactersExpected
         else if s[6..8] != "\\u" then m == SecondSurrogateExpected
         else NotHex(s[8..12]) && m == HexDigitExpected
  }

  ghost predicate GoodAs(s: string, ps: seq<Piece>, rest: string, t: string) {
    ArePieces(ps) && s == Sources(ps) + rest && (rest == [] || rest[0] == '"') && t == Meanings(ps)
  }

  ghost predicate BadAs(s: string, ps: seq<Piece>, rest: string, m: Message) {
    ArePieces(ps) && s == Sources(ps) + rest && Wrong(rest, m)
  }

  // ----- four digits

  lemma HexOrNot(h: string)
    requires |h| == 4
    ensures NotHex(h) <==> HexEscape(h).Bad?
    ensures NotHex(h) ==> HexEscape(h) == Bad(HexDigitExpected)
  {
    hide HexDigit;
    HexOrNone(h[0]);
    HexOrNone(h[1]);
    HexOrNone(h[2]);
    HexOrNone(h[3]);
  }

  lemma HexOrNone(c: char)
    ensures HexDigit(c).None? <==> c !in HEX
  {
    if HexDigit(c).Some? {
      HexDigitIff(c, HexDigit(c).value);
      var d := HexDigit(c).value;
      assert c == HEX[d] || c == HEX[d + 6] by {
        assert HEX[..16] == "0123456789abcdef" && d >= 10 ==> HEX[d + 6] == "0123456789ABCDEF"[d];
      }
    }
  }

  lemma CodePointAt(s: string)
    ensures |s| < 4 ==> CodePoint(s) == Bad(FourDigitsExpected)
    ensures |s| >= 4 ==> HexEscape(s) == HexEscape(s[..4])
  {
  }

  // ----- one piece

  lemma SameCodePoint(high: nat, low: nat)
    requires IsHigh(high)
    ensures 0x10000 + high % 0x400 * 0x400 + low % 0x400 == 0x10000 + (high - 0xD800) * 0x400 + low % 0x400
  {
  }

  lemma ShortMeaning(i: nat)
    requires i < 8
    ensures SimpleEscape(SHORT_NAMES[i]) == Some(SHORT_MEANINGS[i]) && SHORT_NAMES[i] != 'u'
  {
  }

  lemma ShortNames(c: char)
    ensures SimpleEscape(c).None? <==> c !in SHORT_NAMES
    ensures forall i: nat | i < 8 && SHORT_NAMES[i] == c :: SimpleEscape(c) == Some(SHORT_MEANINGS[i])
  {
    if SimpleEscape(c).Some? {
      assert SHORT_NAMES[0] == '"' && SHORT_NAMES[1] == '\\' && SHORT_NAMES[2] == '/' && SHORT_NAMES[3] == 'b';
      assert SHORT_NAMES[4] == 'f' && SHORT_NAMES[5] == 'n' && SHORT_NAMES[6] == 'r' && SHORT_NAMES[7] == 't';
    }
  }

  lemma PieceDecodes(p: Piece, rest: string)
    requires IsPiece(p)
    ensures DecodeBody(Source(p) + rest) == Prepend(Meaning(p), DecodeBody(rest))
  {
    hide DecodeBody, CodePointToUTF8, IsHex, Prepend;
    match p
    case Plain(c) => DecodePlain(c, rest);
    case Short(i) =>
      ShortMeaning(i);
      DecodeSimple(Source(p), SHORT_MEANINGS[i], rest);
    case Unit(h, u) =>
      HexEscapeIff(h, u);
      UnitDecodes(h, u, rest);
    case Pair(h, high, l, low) =>
      HexEscapeIff(h, high);
      HexEscapeIff(l, low);
      SameCodePoint(high, low);
      PairDecodes(h, high, l, low, rest);
  }

  lemma UnitDecodes(h: string, u: nat, rest: string)
    requires |h| == 4 && HexEscape(h) == Good(u) && !IsHigh(u)
    ensures DecodeBody("\\u" + h + rest) == Prepend(CodePointToUTF8(u), DecodeBody(rest))
  {
    hide DecodeBody, CodePointToUTF8, HexEscape, CodePoint, Prepend;
    var t := "\\u" + h + rest;
    assert t[2..] == h + rest && t[6..] == rest;
    SingleUnit(h, u, rest);
    DecodeUnicode(t, u, 4);
  }

  lemma PairDecodes(h: string, high: nat, l: string, low: nat, rest: string)
    requires |h| == |l| == 4 && HexEscape(h) == Good(high) && IsHigh(high) && HexEscape(l) == Good(low)
    ensures DecodeBody("\\u" + h + ("\\u" + l) + rest) ==
            Prepend(CodePointToUTF8(0x10000 + high % 0x400 * 0x400 + low % 0x400), DecodeBody(rest))
  {
    hide DecodeBody, CodePointToUTF8, HexEscape, CodePoint, Prepend;
    var t := "\\u" + h + ("\\u" + l) + rest;
    assert t[2..] == h + ("\\u" + l + rest) && t[12..] == rest;
    PairCodePoint(h, l, high, low, rest);
    DecodeUnicode(t, 0x10000 + high % 0x400 * 0x400 + low % 0x400, 10);
  }

  // ----- all pieces

  lemma {:induction false} PiecesDecode(ps: seq<Piece>, rest: string)
    requires ArePieces(ps)
    ensures DecodeBody(Sources(ps) + rest) == Prepend(Meanings(ps), DecodeBody(rest))
  {
    hide DecodeBody, Source, Meaning, Prepend, IsPiece;
    if ps == [] {
      PrependPrepend([], [], DecodeBody(rest));
      assert [] + rest == rest;
    } else {
      PiecesDecode(ps[1..], rest);
      PieceDecodes(ps[0], Sources(ps[1..]) + rest);
      PrependPrepend(Meaning(ps[0]), Meanings(ps[1..]), DecodeBody(rest));
      assert Source(ps[0]) + Sources(ps[1..]) + rest == Source(ps[0]) + (Sources(ps[1..]) + rest);
    }
  }

  lemma WrongIsBad(s: string, m: Message)
    requires Wrong(s, m)
    ensures DecodeBody(s) == Bad(m)
  {
    hide NotHex, AreHex, HexEscape, SimpleEscape, IsHex;
    DecodeBackslash(s);
    if |s| > 1 {
      ShortNames(s[1]);
      if s[1] == 'u' {
        CodePointAt(s[2..]);
        if |s| >= 6 {
          assert s[2..][..4] == s[2..6];
          HexOrNot(s[2..6]);
          if !NotHex(s[2..6]) {
            var u :| AreHex(s[2..6], u) && IsHigh(u);
            HexEscapeIff(s[2..6], u);
            HighThen(s, u);
          }
        }
      }
    }
  }

  lemma HighThen(s: string, u: nat)
    requires |s| >= 6 && HexEscape(s[2..]) == Good(u) && IsHigh(u)
    ensures |s| < 12 ==> CodePoint(s[2..]) == Bad(SixCharactersExpected)
    ensures |s| >= 12 && s[6..8] != "\\u" ==> CodePoint(s[2..]) == Bad(SecondSurrogateExpected)
    ensures |s| >= 12 && s[6..8] == "\\u" && NotHex(s[8..12]) ==> CodePoint(s[2..]) == Bad(HexDigitExpected)
    ensures |s| >= 12 && s[6..8] == "\\u" && !NotHex(s[8..12]) ==> HexEscape(s[8..12]).Good?
  {
    hide NotHex, HexEscape;
    assert s[2..][4..] == s[6..];
    if |s| >= 12 {
      assert s[6..][0] == s[6] && s[6..][1] == s[7] && s[6..][2..] == s[8..];
      assert s[6..8] == [s[6], s[7]];
      assert s[8..][..4] == s[8..12];
      HexOrNot(s[8..12]);
      CodePointAt(s[8..]);
    }
  }

  // Any text that starts with a backslash starts with a piece or is wrong there.
  lemma PieceOrWrong(s: string) returns (p: Piece, m: Message)
    requires s != [] && s[0] != '"'
    ensures IsPiece(p)
    ensures Wrong(s, m) || Source(p) <= s
  {
    p, m := Short(0), EmptyEscape;
    hide AreHex, NotHex, HexEscape, IsHex;
    if s[0] != '\\' {
      p := Plain(s[0]);
    } else if |s| > 1 && s[1] != 'u' {
      if s[1] in SHORT_NAMES {
        var i :| 0 <= i < |SHORT_NAMES| && SHORT_NAMES[i] == s[1];
        p := Short(i);
      } else {
        m := BadEscape;
      }
    } else if |s| > 1 {
      p, m := UnitOrWrong(s);
    }
  }

  lemma UnitOrWrong(s: string) returns (p: Piece, m: Message)
    requires |s| > 1 && s[0] == '\\' && s[1] == 'u'
    ensures IsPiece(p)
    ensures Wrong(s, m) || Source(p) <= s
  {
    hide AreHex, NotHex, HexEscape, IsHex, Source;
    p, m := Plain(' '), FourDigitsExpected;
    if |s| >= 6 {
      HexOrNot(s[2..6]);
      if NotHex(s[2..6]) {
        m := HexDigitExpected;
      } else {
        var u := HexEscape(s[2..6]).value;
        HexEscapeIff(s[2..6], u);
        if IsHigh(u) {
          p, m := PairOrWrong(s, u);
        } else {
          p := Unit(s[2..6], u);
          UnitSource(s, u);
        }
      }
    }
  }

  lemma UnitSource(s: string, u: nat)
    requires |s| >= 6 && s[0] == '\\' && s[1] == 'u' && IsPiece(Unit(s[2..6], u))
    ensures Source(Unit(s[2..6], u)) <= s
  {
    assert s[..6] == "\\u" + s[2..6];
  }

  lemma PairOrWrong(s: string, u: nat) returns (p: Piece, m: Message)
    requires |s| >= 6 && s[0] == '\\' && s[1] == 'u' && AreHex(s[2..6], u) && IsHigh(u) && !NotHex(s[2..6])
    ensures IsPiece(p)
    ensures Wrong(s, m) || Source(p) <= s
  {
    hide AreHex, NotHex, HexEscape, IsHex, Source;
    p, m := Plain(' '), SixCharactersExpected;
    if |s| >= 12 {
      HexOrNot(s[8..12]);
      if s[6..8] != "\\u" {
        m := SecondSurrogateExpected;
      } else if NotHex(s[8..12]) {
        m := HexDigitExpected;
      } else {
        var low := HexEscape(s[8..12]).value;
        HexEscapeIff(s[8..12], low);
        p := Pair(s[2..6], u, s[8..12], low);
        PairSource(s, u, low);
      }
    }
  }

  lemma PairSource(s: string, u: nat, low: nat)
    requires |s| >= 12 && s[0] == '\\' && s[1] == 'u' && s[6..8] == "\\u"
    requires IsPiece(Pair(s[2..6], u, s[8..12], low))
    ensures Source(Pair(s[2..6], u, s[8..12], low)) <= s
  {
    hide AreHex;
    assert s[..12] == s[..2] + s[2..6] + (s[6..8] + s[8..12]);
    assert s[..2] == "\\u";
  }

  lemma {:induction false} Cut(s: string) returns (ps: seq<Piece>, rest: string, m: Message)
    ensures ArePieces(ps) && s == Sources(ps) + rest
    ensures rest == [] || rest[0] == '"' || Wrong(rest, m)
    decreases |s|
  {
    hide IsPiece, Source, Wrong;
    ps, rest, m := [], s, EmptyEscape;
    if s != [] && s[0] != '"' {
      var p;
      p, m := PieceOrWrong(s);
      if !Wrong(s, m) {
        var more;
        more, rest, m := Cut(s[|Source(p)|..]);
        ps := [p] + more;
        assert ps[1..] == more && Source(p) + (Sources(more) + rest) == Source(p) + Sources(more) + rest;
        assert s == Source(p) + s[|Source(p)|..];
      }
    }
  }

  // ----- decoding

  // A text is decoded exactly if it is a sequence of pieces, up to its end or a bare quote; it means what they
  // mean. Otherwise the message tells what is wrong at the first place where no piece starts.
  lemma DecodedIff(s: string, t: string)
    ensures DecodeBody(s) == Good(t) <==> exists ps, rest :: GoodAs(s, ps, rest, t)
  {
    hide DecodeBody, Sources, Meanings, Wrong;
    forall ps, rest | GoodAs(s, ps, rest, t)
      ensures DecodeBody(s) == Good(t)
    {
      PiecesDecode(ps, rest);
      EndDecodes(rest, t);
    }
    if DecodeBody(s) == Good(t) {
      var ps, rest, m := Cut(s);
      PiecesDecode(ps, rest);
      if rest == [] || rest[0] == '"' {
        EndDecodes(rest, Meanings(ps));
        assert GoodAs(s, ps, rest, t);
      } else {
        WrongIsBad(rest, m);
      }
    }
  }

  lemma EndDecodes(rest: string, t: string)
    requires rest == [] || rest[0] == '"'
    ensures Prepend(t, DecodeBody(rest)) == Good(t)
  {
    assert t + [] == t;
  }

  lemma NotDecodedIff(s: string, m: Message)
    ensures DecodeBody(s) == Bad(m) <==> exists ps, rest :: BadAs(s, ps, rest, m)
  {
    hide DecodeBody, Sources, Meanings, Wrong;
    forall ps, rest | BadAs(s, ps, rest, m)
      ensures DecodeBody(s) == Bad(m)
    {
      PiecesDecode(ps, rest);
      WrongIsBad(rest, m);
    }
    if DecodeBody(s) == Bad(m) {
      var ps, rest, n := Cut(s);
      PiecesDecode(ps, rest);
      if rest == [] || rest[0] == '"' {
        EndDecodes(rest, Meanings(ps));
      } else {
        WrongIsBad(rest, n);
        assert BadAs(s, ps, rest, m);
      }
    }
  }

  // ----- what the writers print

  // The characters that have a name are printed with it, but for the slash; the other control characters with
  // four digits in upper case; everything else as it is.
  lemma PrintedAs(c: char)
    ensures forall i: nat | i < 8 && SHORT_MEANINGS[i] == c && c != '/' :: Escape(c) == ['\\', SHORT_NAMES[i]]
    ensures c !in SHORT_MEANINGS && 0 < c as int < 0x20 ==>
              Escape(c) == "\\u00" + ["01"[c as int / 16], "0123456789ABCDEF"[c as int % 16]]
    ensures (c !in SHORT_MEANINGS && (c == '\0' || ' ' <= c)) || c == '/' ==> Escape(c) == [c]
  {
    NamedAs(c);
    assert '"' == SHORT_MEANINGS[0] && '\\' == SHORT_MEANINGS[1] && '\U{08}' == SHORT_MEANINGS[3];
    assert '\U{0C}' == SHORT_MEANINGS[4] && '\n' == SHORT_MEANINGS[5] && '\r' == SHORT_MEANINGS[6];
    assert '\t' == SHORT_MEANINGS[7];
  }

  lemma NamedAs(c: char)
    ensures forall i: nat | i < 8 && SHORT_MEANINGS[i] == c && c != '/' :: Escape(c) == ['\\', SHORT_NAMES[i]]
  {
  }
}
