// Quoting, unquoting and UTF-8. A char stands for one byte, 0 to 255.

module JsonStrings {
  import opened Division
  import opened Options
  import opened JsonLexer
  import opened JsonText

  // ----- valueToQuotedString

  predicate IsControl(c: char) { 0 < c as int <= 0x1F }

  function HexChar(d: nat): (c: char)
    requires d < 16
    ensures HexDigit(c) == Some(d)
  {
    if d < 10 then '0' + d as char else 'A' + (d - 10) as char
  }

  // std::hex << std::uppercase << std::setfill('0') << std::setw(4)
  function Hex4(n: nat): string
    requires n < 0x10000
  {
    [HexChar(n / 4096), HexChar(n / 256 % 16), HexChar(n / 16 % 16), HexChar(n % 16)]
  }

  function Escape(c: char): string {
    match c
    case '"' => "\\\""
    case '\\' => "\\\\"
    case '\U{08}' => "\\b"
    case '\U{0C}' => "\\f"
    case '\n' => "\\n"
    case '\r' => "\\r"
    case '\t' => "\\t"
    case _ => if IsControl(c) then "\\u" + Hex4(c as int) else [c]
  }

  function EscapeAll(s: string): string {
    if s == [] then [] else Escape(s[0]) + EscapeAll(s[1..])
  }

  function Quote(s: string): string { "\"" + EscapeAll(s) + "\"" }

  predicate IsPlain(c: char) { Escape(c) == [c] }

  lemma {:induction false} EscapeAllPlain(s: string)
    requires forall c :: c in s ==> IsPlain(c)
    ensures EscapeAll(s) == s
  {
    if s != [] {
      assert s[0] in s;
      EscapeAllPlain(s[1..]);
    }
  }

  lemma {:induction false} EscapeAllSnoc(s: string, c: char)
    ensures EscapeAll(s + [c]) == EscapeAll(s) + Escape(c)
  {
    if s == [] {
      assert s + [c] == [c];
    } else {
      assert (s + [c])[1..] == s[1..] + [c];
      EscapeAllSnoc(s[1..], c);
    }
  }

  // ----- decodeString

  function HexDigit(c: char): (d: Option<nat>)
    ensures d.Some? ==> d.value < 16
  {
    if '0' <= c <= '9' then Some(c as int - '0' as int)
    else if 'a' <= c <= 'f' then Some(c as int - 'a' as int + 10)
    else if 'A' <= c <= 'F' then Some(c as int - 'A' as int + 10)
    else None
  }

  // The first four characters as one hexadecimal number.
  function HexEscape(s: string): (r: Decoded<nat>)
    ensures r.Good? ==> |s| >= 4 && r.value < 0x10000
  {
    if |s| < 4 then Bad(FourDigitsExpected)
    else match (HexDigit(s[0]), HexDigit(s[1]), HexDigit(s[2]), HexDigit(s[3]))
      case (Some(a), Some(b), Some(c), Some(d)) => Good(4096 * a + 256 * b + 16 * c + d)
      case _ => Bad(HexDigitExpected)
  }

  // The value of the first i digits, as the loop of decodeUnicodeEscapeSequence has it.
  function HexPrefix(s: string, i: nat): Option<nat>
    requires i <= |s|
  {
    if i == 0 then Some(0)
    else match (HexPrefix(s, i - 1), HexDigit(s[i - 1]))
      case (Some(p), Some(d)) => Some(16 * p + d)
      case _ => None
  }

  lemma HexPrefixIsEscape(s: string)
    requires |s| >= 4 && HexPrefix(s, 4).Some?
    ensures HexEscape(s) == Good(HexPrefix(s, 4).value)
  {
    assert HexPrefix(s, 3).Some? && HexPrefix(s, 2).Some? && HexPrefix(s, 1).Some? && HexPrefix(s, 0) == Some(0);
  }

  lemma HexPrefixFails(s: string, i: nat)
    requires i < 4 <= |s| && HexDigit(s[i]).None?
    ensures HexEscape(s) == Bad(HexDigitExpected)
  {
    assert i == 0 || i == 1 || i == 2 || i == 3;
  }

  // The code point after "\u" and the number of characters it takes; only a high surrogate
  // looks for a second half.
  function CodePoint(s: string): (r: Decoded<(nat, nat)>)
    ensures r.Good? ==> r.value.0 <= 0x10FFFF && r.value.1 <= |s|
  {
    match HexEscape(s)
    case Bad(m) => Bad(m)
    case Good(u) =>
      if !(0xD800 <= u <= 0xDBFF) then Good((u, 4))
      else
        var t := s[4..];
        if |t| < 6 then Bad(SixCharactersExpected)
        else if !(t[0] == '\\' && t[1] == 'u') then Bad(SecondSurrogateExpected)
        else match HexEscape(t[2..])
          case Bad(m) => Bad(m)
          case Good(v) => Good((0x10000 + u % 0x400 * 0x400 + v % 0x400, 10))
  }

  function Byte(b: nat): char
    requires b < 256
  {
    b as char
  }

  // codePointToUTF8, with the shifts and masks as quotients and remainders
  function CodePointToUTF8(cp: nat): (r: string)
    ensures cp <= 0x10FFFF ==> r != []
  {
    if cp <= 0x7F then [Byte(cp)]
    else if cp <= 0x7FF then [Byte(0xC0 + cp / 64 % 32), Byte(0x80 + cp % 64)]
    else if cp <= 0xFFFF then [Byte(0xE0 + cp / 4096 % 16), Byte(0x80 + cp / 64 % 64), Byte(0x80 + cp % 64)]
    else if cp <= 0x10FFFF then
      [Byte(0xF0 + cp / 262144 % 8), Byte(0x80 + cp / 4096 % 64), Byte(0x80 + cp / 64 % 64), Byte(0x80 + cp % 64)]
    else []
  }

  function SimpleEscape(e: char): Option<char> {
    match e
    case '"' => Some('"')
    case '/' => Some('/')
    case '\\' => Some('\\')
    case 'b' => Some('\U{08}')
    case 'f' => Some('\U{0C}')
    case 'n' => Some('\n')
    case 'r' => Some('\r')
    case 't' => Some('\t')
    case _ => None
  }

  function Prepend(p: string, r: Decoded<string>): Decoded<string> {
    match r case Bad(m) => Bad(m) case Good(s) => Good(p + s)
  }

  // The text between the quotes, decoded; a bare quote ends it.
  function DecodeBody(s: string): Decoded<string>
    decreases |s|
  {
    if s == [] || s[0] == '"' then Good([])
    else if s[0] != '\\' then Prepend([s[0]], DecodeBody(s[1..]))
    else if |s| == 1 then Bad(EmptyEscape)
    else if s[1] == 'u' then
      match CodePoint(s[2..])
      case Bad(m) => Bad(m)
      case Good((cp, n)) => Prepend(CodePointToUTF8(cp), DecodeBody(s[2 + n..]))
    else
      match SimpleEscape(s[1])
      case None => Bad(BadEscape)
      case Some(c) => Prepend([c], DecodeBody(s[2..]))
  }

  lemma DecodeBackslash(s: string)
    requires s != [] && s[0] == '\\'
    ensures |s| == 1 ==> DecodeBody(s) == Bad(EmptyEscape)
    ensures |s| > 1 && s[1] == 'u' ==>
              match CodePoint(s[2..])
              case Bad(m) => DecodeBody(s) == Bad(m)
              case Good((cp, n)) => DecodeBody(s) == Prepend(CodePointToUTF8(cp), DecodeBody(s[2 + n..]))
    ensures |s| > 1 && s[1] != 'u' ==>
              match SimpleEscape(s[1])
              case None => DecodeBody(s) == Bad(BadEscape)
              case Some(c) => DecodeBody(s) == Prepend([c], DecodeBody(s[2..]))
  {
  }

  lemma PrependPrepend(p: string, q: string, r: Decoded<string>)
    ensures Prepend([], r) == r
    ensures Prepend(p, Prepend(q, r)) == Prepend(p + q, r)
  {
    match r {
      case Bad(_) =>
      case Good(s) => assert p + (q + s) == p + q + s && [] + s == s;
    }
  }

  // ----- a quoted string is one token and decodes to itself

  lemma {:induction false} DecodeEscapeAll(s: string)
    ensures DecodeBody(EscapeAll(s)) == Good(s)
  {
    if s != [] {
      DecodeEscapeAll(s[1..]);
      DecodeOneEscape(s[0], EscapeAll(s[1..]));
      assert [s[0]] + s[1..] == s;
    }
  }

  // An escape is the character itself, a two-character escape, or \u with four digits.
  lemma EscapeShape(c: char)
    ensures |Escape(c)| == 1 ==> Escape(c) == [c] && c != '"' && c != '\\'
    ensures |Escape(c)| == 2 ==>
              Escape(c)[0] == '\\' && Escape(c)[1] != 'u' && SimpleEscape(Escape(c)[1]) == Some(c)
    ensures |Escape(c)| == 1 || |Escape(c)| == 2 || (IsControl(c) && Escape(c) == "\\u" + Hex4(c as int))
  {}

  lemma DecodeOneEscape(c: char, rest: string)
    ensures DecodeBody(Escape(c) + rest) == Prepend([c], DecodeBody(rest))
  {
    var e := Escape(c);
    EscapeShape(c);
    if |e| == 1 {
      DecodePlain(c, rest);
    } else if |e| == 2 {
      DecodeSimple(e, c, rest);
    } else {
      DecodeHexEscape(c as int, rest);
      assert CodePointToUTF8(c as int) == [c];
    }
  }

  lemma DecodePlain(c: char, rest: string)
    requires c != '"' && c != '\\'
    ensures DecodeBody([c] + rest) == Prepend([c], DecodeBody(rest))
  {
    assert ([c] + rest)[1..] == rest;
  }

  lemma DecodeSimple(e: string, c: char, rest: string)
    requires |e| == 2 && e[0] == '\\' && e[1] != 'u' && SimpleEscape(e[1]) == Some(c)
    ensures DecodeBody(e + rest) == Prepend([c], DecodeBody(rest))
  {
    assert (e + rest)[2..] == rest;
  }

  lemma DecodeHexEscape(n: nat, rest: string)
    requires n < 0xD800 || 0xDC00 <= n < 0x10000
    ensures DecodeBody("\\u" + Hex4(n) + rest) == Prepend(CodePointToUTF8(n), DecodeBody(rest))
  {
    var t := "\\u" + Hex4(n) + rest;
    assert t[2..] == Hex4(n) + rest && t[6..] == rest;
    HexOfHex4(n, rest);
  }

  lemma HexOfHex4(n: nat, rest: string)
    requires n < 0x10000
    ensures HexEscape(Hex4(n) + rest) == Good(n)
  {
    var s := Hex4(n) + rest;
    HexDigits(n);
    assert s[..4] == Hex4(n);
    assert forall k :: 0 <= k < 4 ==> s[k] == Hex4(n)[k];
  }

  lemma HexDigits(n: nat)
    requires n < 0x10000
    ensures n / 4096 < 16
    ensures 4096 * (n / 4096) + 256 * (n / 256 % 16) + 16 * (n / 16 % 16) + n % 16 == n
  {
    assert n / 256 == 16 * (n / 4096) + n / 256 % 16;
    assert n / 16 == 16 * (n / 256) + n / 16 % 16;
  }

  lemma {:induction false} ScanEscapeAll(s: string)
    ensures StringScan(EscapeAll(s) + "\"") == (true, |EscapeAll(s)| + 1)
  {
    hide StringScan, Escape, EscapeAll;
    ScanClosingQuote();
    EscapeFirst(s);
    if s != [] {
      ScanEscapeAll(s[1..]);
      ScanOneEscape(s[0], EscapeAll(s[1..]) + "\"");
    }
  }

  lemma EscapeFirst(s: string)
    ensures s == [] ==> EscapeAll(s) + "\"" == "\"" && EscapeAll(s) == []
    ensures s != [] ==> EscapeAll(s) + "\"" == Escape(s[0]) + (EscapeAll(s[1..]) + "\"")
    ensures s != [] ==> |EscapeAll(s)| == |Escape(s[0])| + |EscapeAll(s[1..])|
  {
    hide Escape;
    if s != [] {
      assert Escape(s[0]) + EscapeAll(s[1..]) + "\"" == Escape(s[0]) + (EscapeAll(s[1..]) + "\"");
    }
  }

  lemma ScanClosingQuote()
    ensures StringScan("\"") == (true, 1)
  {
  }

  lemma ScanOneEscape(c: char, rest: string)
    ensures var r := StringScan(rest); StringScan(Escape(c) + rest) == (r.0, |Escape(c)| + r.1)
  {
    EscapeShape(c);
    var e := Escape(c);
    if |e| == 1 {
      ScanPlain(c, rest);
    } else if |e| == 2 {
      ScanPair(e[1], rest);
      assert e == "\\" + [e[1]];
    } else {
      ScanHexEscape(Hex4(c as int), rest);
    }
  }

  lemma ScanHexEscape(h: string, rest: string)
    requires |h| == 4 && forall k :: 0 <= k < 4 ==> HexDigit(h[k]).Some?
    ensures var r := StringScan(rest); StringScan("\\u" + h + rest) == (r.0, 6 + r.1)
  {
    hide StringScan;
    ScanPair('u', h + rest);
    assert "\\" + ['u'] + (h + rest) == "\\u" + h + rest;
    ScanPlains(h, rest);
  }

  lemma {:induction false} ScanPlains(p: string, rest: string)
    requires forall k :: 0 <= k < |p| ==> p[k] != '"' && p[k] != '\\'
    ensures var r := StringScan(rest); StringScan(p + rest) == (r.0, |p| + r.1)
  {
    if p == [] {
      assert p + rest == rest;
    } else {
      ScanPlains(p[1..], rest);
      ScanPlain(p[0], p[1..] + rest);
      assert p + rest == [p[0]] + (p[1..] + rest);
    }
  }

  lemma ScanPlain(c: char, rest: string)
    requires c != '"' && c != '\\'
    ensures var r := StringScan(rest); StringScan([c] + rest) == (r.0, 1 + r.1)
  {
    assert ([c] + rest)[1..] == rest;
  }

  lemma ScanPair(c: char, rest: string)
    ensures var r := StringScan(rest); StringScan("\\" + [c] + rest) == (r.0, 2 + r.1)
  {
    assert ("\\" + [c] + rest)[2..] == rest;
  }

  lemma QuoteIsToken(s: string)
    ensures IsToken(Tok(String, Quote(s)))
    ensures DecodeBody(Quote(s)[1..|Quote(s)| - 1]) == Good(s)
  {
    var q := Quote(s);
    assert q[1..] == EscapeAll(s) + "\"";
    assert q[1..|q| - 1] == EscapeAll(s);
    ScanEscapeAll(s);
    DecodeEscapeAll(s);
  }

  // ----- Unicode: \u escapes to UTF-8 and back

  predicate IsScalar(cp: nat) { cp < 0xD800 || 0xE000 <= cp <= 0x10FFFF }

  // A hexadecimal digit for d, in upper or lower case.
  predicate IsHex(c: char, d: nat) { d < 16 && (c == "0123456789abcdef"[d] || c == "0123456789ABCDEF"[d]) }

  // Four digits for u.
  predicate AreHex(h: string, u: nat) {
    && |h| == 4 && u < 0x10000
    && IsHex(h[0], u / 4096) && IsHex(h[1], u / 256 % 16) && IsHex(h[2], u / 16 % 16) && IsHex(h[3], u % 16)
  }

  lemma HexDigitIff(c: char, d: nat)
    ensures HexDigit(c) == Some(d) <==> IsHex(c, d)
  {
  }

  lemma HexEscapeIff(h: string, u: nat)
    requires |h| == 4
    ensures HexEscape(h) == Good(u) <==> AreHex(h, u)
  {
    hide HexDigit, IsHex;
    if AreHex(h, u) {
      HexDigits(u);
      HexDigitIff(h[0], u / 4096);
      HexDigitIff(h[1], u / 256 % 16);
      HexDigitIff(h[2], u / 16 % 16);
      HexDigitIff(h[3], u % 16);
    }
    if HexEscape(h) == Good(u) {
      var a, b, c, d := HexDigit(h[0]).value, HexDigit(h[1]).value, HexDigit(h[2]).value, HexDigit(h[3]).value;
      DigitsOf(a, b, c, d);
      HexDigitIff(h[0], a);
      HexDigitIff(h[1], b);
      HexDigitIff(h[2], c);
      HexDigitIff(h[3], d);
    }
  }

  lemma DigitsOf(a: nat, b: nat, c: nat, d: nat)
    requires a < 16 && b < 16 && c < 16 && d < 16
    ensures var u := 4096 * a + 256 * b + 16 * c + d;
            u < 0x10000 && u / 4096 == a && u / 256 % 16 == b && u / 16 % 16 == c && u % 16 == d
  {
    var u := 4096 * a + 256 * b + 16 * c + d;
    Residue(u, 16, 256 * a + 16 * b + c, d);
    Residue(256 * a + 16 * b + c, 16, 16 * a + b, c);
    Residue(u, 256, 16 * a + b, 16 * c + d);
    Residue(16 * a + b, 16, a, b);
    Residue(u, 4096, a, 256 * b + 16 * c + d);
  }

  // "\\u" and four hexadecimal digits for u
  predicate IsUnit(e: string, u: nat) { |e| == 6 && e[..2] == "\\u" && AreHex(e[2..], u) }

  lemma UnitIsEscape(e: string, u: nat)
    requires IsUnit(e, u)
    ensures e[0] == '\\' && e[1] == 'u' && HexEscape(e[2..]) == Good(u)
  {
    HexEscapeIff(e[2..], u);
    assert e[..2][0] == e[0] && e[..2][1] == e[1];
  }

  // An escape for cp: section 2.5 of RFC 4627, with the surrogate pairs of section 2.2 of RFC 2781.
  predicate IsEscape(e: string, cp: nat)
    requires IsScalar(cp)
  {
    if cp < 0x10000 then IsUnit(e, cp)
    else
      var w := cp - 0x10000;
      |e| == 12 && IsUnit(e[..6], 0xD800 + w / 0x400) && IsUnit(e[6..], 0xDC00 + w % 0x400)
  }

  predicate AreEscapes(es: seq<string>, cps: seq<nat>)
    requires forall cp :: cp in cps ==> IsScalar(cp)
  {
    |es| == |cps| && forall i | 0 <= i < |es| :: IsEscape(es[i], cps[i])
  }

  function Concat(es: seq<string>): string { if es == [] then [] else es[0] + Concat(es[1..]) }

  predicate Within(c: char, lo: nat, hi: nat) { lo <= c as int <= hi }

  predicate IsTail(c: char) { Within(c, 0x80, 0xBF) }

  function Bits(c: char): nat { c as int % 64 }

  // One character of the grammar in section 4 of RFC 3629: its scalar value and its length.
  function UTF8Char(s: string): (r: Option<(nat, nat)>)
    ensures r.Some? ==> 0 < r.value.1 <= |s|
  {
    if s == [] then None
    else
      var b := s[0] as int;
      if b <= 0x7F then Some((b, 1))
      else if 0xC2 <= b <= 0xDF && |s| >= 2 && IsTail(s[1]) then Some((b % 32 * 64 + Bits(s[1]), 2))
      else if 0xE0 <= b <= 0xEF && |s| >= 3 && IsTail(s[1]) && IsTail(s[2]) &&
        (b == 0xE0 ==> Within(s[1], 0xA0, 0xBF)) && (b == 0xED ==> Within(s[1], 0x80, 0x9F))
      then Some((b % 16 * 4096 + Bits(s[1]) * 64 + Bits(s[2]), 3))
      else if 0xF0 <= b <= 0xF4 && |s| >= 4 && IsTail(s[1]) && IsTail(s[2]) && IsTail(s[3]) &&
        (b == 0xF0 ==> Within(s[1], 0x90, 0xBF)) && (b == 0xF4 ==> Within(s[1], 0x80, 0x8F))
      then Some((b % 8 * 262144 + Bits(s[1]) * 4096 + Bits(s[2]) * 64 + Bits(s[3]), 4))
      else None
  }

  // The scalar values a byte sequence encodes, if it is well-formed UTF-8.
  function UTF8Decode(s: string): Option<seq<nat>>
    decreases |s|
  {
    if s == [] then Some([])
    else match UTF8Char(s)
      case None => None
      case Some((cp, n)) =>
        match UTF8Decode(s[n..])
        case None => None
        case Some(rest) => Some([cp] + rest)
  }

  lemma EncodeOne(cp: nat, rest: string)
    requires IsScalar(cp)
    ensures UTF8Char(CodePointToUTF8(cp) + rest) == Some((cp, |CodePointToUTF8(cp)|))
  {
    hide UTF8Char;
    if cp <= 0x7F { Encode1(cp, rest); }
    else if cp <= 0x7FF { assert cp / 64 % 32 == cp / 64; Encode2(cp / 64, cp % 64, rest); }
    else if cp <= 0xFFFF { EncodeThree(cp, rest); }
    else { EncodeFour(cp, rest); }
  }

  lemma EncodeThree(cp: nat, rest: string)
    requires IsScalar(cp) && 0x7FF < cp <= 0xFFFF
    ensures UTF8Char(CodePointToUTF8(cp) + rest) == Some((cp, 3))
  {
    hide UTF8Char;
    assert cp / 4096 % 16 == cp / 4096;
    assert cp / 64 == cp / 4096 * 64 + cp / 64 % 64;
    Encode3(cp / 4096, cp / 64 % 64, cp % 64, rest);
  }

  lemma EncodeFour(cp: nat, rest: string)
    requires 0xFFFF < cp <= 0x10FFFF
    ensures UTF8Char(CodePointToUTF8(cp) + rest) == Some((cp, 4))
  {
    hide UTF8Char;
    assert cp / 262144 % 8 == cp / 262144;
    assert cp / 4096 == cp / 262144 * 64 + cp / 4096 % 64;
    assert cp / 64 == cp / 4096 * 64 + cp / 64 % 64;
    Encode4(cp / 262144, cp / 4096 % 64, cp / 64 % 64, cp % 64, rest);
  }

  lemma Encode1(a: nat, rest: string)
    requires a <= 0x7F
    ensures UTF8Char([Byte(a)] + rest) == Some((a, 1))
  {
    assert ([Byte(a)] + rest)[0] == Byte(a);
  }

  lemma Encode2(a: nat, b: nat, rest: string)
    requires 2 <= a < 32 && b < 64
    ensures UTF8Char([Byte(0xC0 + a), Byte(0x80 + b)] + rest) == Some((64 * a + b, 2))
  {
    var s := [Byte(0xC0 + a), Byte(0x80 + b)] + rest;
    TailByte(b);
    assert s[0] == Byte(0xC0 + a) && s[1] == Byte(0x80 + b);
  }

  lemma Encode3(a: nat, b: nat, c: nat, rest: string)
    requires a < 16 && b < 64 && c < 64 && (a == 0 ==> 32 <= b) && (a == 13 ==> b < 32)
    ensures UTF8Char([Byte(0xE0 + a), Byte(0x80 + b), Byte(0x80 + c)] + rest) ==
            Some((4096 * a + 64 * b + c, 3))
  {
    var s := [Byte(0xE0 + a), Byte(0x80 + b), Byte(0x80 + c)] + rest;
    TailByte(b);
    TailByte(c);
    assert s[0] == Byte(0xE0 + a) && s[1] == Byte(0x80 + b) && s[2] == Byte(0x80 + c);
  }

  lemma Encode4(a: nat, b: nat, c: nat, d: nat, rest: string)
    requires a < 5 && b < 64 && c < 64 && d < 64 && (a == 0 ==> 16 <= b) && (a == 4 ==> b < 16)
    ensures UTF8Char([Byte(0xF0 + a), Byte(0x80 + b), Byte(0x80 + c), Byte(0x80 + d)] + rest) ==
            Some((262144 * a + 4096 * b + 64 * c + d, 4))
  {
    var s := [Byte(0xF0 + a), Byte(0x80 + b), Byte(0x80 + c), Byte(0x80 + d)] + rest;
    TailByte(b);
    TailByte(c);
    TailByte(d);
    assert s[0] == Byte(0xF0 + a) && s[1] == Byte(0x80 + b);
    assert s[2] == Byte(0x80 + c) && s[3] == Byte(0x80 + d);
  }

  lemma TailByte(b: nat)
    requires b < 64
    ensures IsTail(Byte(0x80 + b)) && Bits(Byte(0x80 + b)) == b
  {}

  lemma DecodeOneUnicode(e: string, cp: nat, rest: string)
    requires IsScalar(cp) && IsEscape(e, cp)
    ensures var t := e + rest;
            |e| >= 6 && t[0] == '\\' && t[1] == 'u' && CodePoint(t[2..]) == Good((cp, |e| - 2))
  {
    hide HexEscape, CodePoint, AreHex;
    var t := e + rest;
    if cp < 0x10000 {
      UnitIsEscape(e, cp);
      assert t[2..] == e[2..] + rest;
      SingleUnit(e[2..], cp, rest);
    } else {
      var w := cp - 0x10000;
      var high, low := 0xD800 + w / 0x400, 0xDC00 + w % 0x400;
      SurrogateHalves(w);
      UnitIsEscape(e[..6], high);
      UnitIsEscape(e[6..], low);
      var h, l := e[..6][2..], e[6..][2..];
      assert e[6..] == "\\u" + l;
      assert t[2..] == h + ("\\u" + l + rest);
      PairCodePoint(h, l, high, low, rest);
    }
  }

  lemma HexEscapeExtends(h: string, rest: string)
    requires |h| == 4
    ensures HexEscape(h + rest) == HexEscape(h)
  {
  }

  lemma SingleUnit(h: string, u: nat, rest: string)
    requires |h| == 4 && HexEscape(h) == Good(u) && !(0xD800 <= u <= 0xDBFF)
    ensures CodePoint(h + rest) == Good((u, 4))
  {
    hide HexEscape;
    HexEscapeExtends(h, rest);
  }

  lemma SurrogateHalves(w: nat)
    requires w < 0x100000
    ensures w / 0x400 < 0x400
    ensures (0xD800 + w / 0x400) % 0x400 * 0x400 + (0xDC00 + w % 0x400) % 0x400 == w
  {}

  lemma PairCodePoint(h: string, l: string, high: nat, low: nat, rest: string)
    requires |h| == |l| == 4 && 0xD800 <= high <= 0xDBFF
    requires HexEscape(h) == Good(high) && HexEscape(l) == Good(low)
    ensures CodePoint(h + ("\\u" + l + rest)) == Good((0x10000 + high % 0x400 * 0x400 + low % 0x400, 10))
  {
    hide HexEscape;
    var tail := "\\u" + l + rest;
    assert (h + tail)[4..] == tail && tail[2..] == l + rest;
    HexEscapeExtends(h, tail);
    HexEscapeExtends(l, rest);
  }

  lemma DecodeUnicode(t: string, cp: nat, n: nat)
    requires |t| >= 2 && t[0] == '\\' && t[1] == 'u' && CodePoint(t[2..]) == Good((cp, n))
    ensures DecodeBody(t) == Prepend(CodePointToUTF8(cp), DecodeBody(t[2 + n..]))
  {}

  lemma EscapeDecodes(e: string, cp: nat, tail: string)
    requires IsScalar(cp) && IsEscape(e, cp)
    ensures DecodeBody(e + tail) == Prepend(CodePointToUTF8(cp), DecodeBody(tail))
  {
    hide DecodeBody, CodePoint, CodePointToUTF8, Prepend, IsEscape;
    DecodeOneUnicode(e, cp, tail);
    DecodeUnicode(e + tail, cp, |e| - 2);
    assert (e + tail)[|e|..] == tail;
  }

  lemma FirstScalar(cp: nat, rest: string)
    requires IsScalar(cp) && UTF8Decode(rest).Some?
    ensures UTF8Decode(CodePointToUTF8(cp) + rest) == Some([cp] + UTF8Decode(rest).value)
  {
    hide IsScalar, CodePointToUTF8, UTF8Char;
    var u := CodePointToUTF8(cp);
    EncodeOne(cp, rest);
    assert (u + rest)[|u|..] == rest;
  }

  lemma NothingDecodes()
    ensures DecodeBody([]) == Good([]) && UTF8Decode([]) == Some([])
  {
  }

  // Any sequence of scalar values, written as escapes, decodes to a byte string that is the
  // well-formed UTF-8 encoding of exactly that sequence.
  lemma {:induction false} EscapesDecodeToUTF8(es: seq<string>, cps: seq<nat>)
    requires (forall cp :: cp in cps ==> IsScalar(cp)) && AreEscapes(es, cps)
    ensures DecodeBody(Concat(es)).Good?
    ensures UTF8Decode(DecodeBody(Concat(es)).value) == Some(cps)
  {
    hide DecodeBody, UTF8Decode, IsEscape, IsScalar, CodePointToUTF8;
    NothingDecodes();
    if cps != [] {
      EscapesDecodeToUTF8(es[1..], cps[1..]);
      EscapeDecodes(es[0], cps[0], Concat(es[1..]));
      FirstScalar(cps[0], DecodeBody(Concat(es[1..])).value);
      assert [cps[0]] + cps[1..] == cps;
    }
  }
}
