// Vectors in one value of CConfigFile, their elements separated by a delimiter.

module ConfigVectors {
  import opened Characters
  import opened Decimals
  import opened ConfigText

  function Join(elements: seq<string>, delimiter: char): string {
    if elements == [] then []
    else if |elements| == 1 then elements[0]
    else elements[0] + [delimiter] + Join(elements[1..], delimiter)
  }

  // An empty piece at the end does not count.
  function Split(s: string, delimiter: char): seq<string>
    decreases |s|
  {
    if s == [] then []
    else
      var i := Find(s, delimiter);
      if i == |s| then [s] else [s[..i]] + Split(s[i + 1..], delimiter)
  }

  function Front<T>(s: seq<T>): seq<T>
    requires s != []
  {
    s[..|s| - 1]
  }

  function Last<T>(s: seq<T>): T
    requires s != []
  {
    s[|s| - 1]
  }

  predicate Separable(elements: seq<string>, delimiter: char) { forall e | e in elements :: delimiter !in e }

  lemma SplitFirst(e: string, rest: string, delimiter: char)
    requires delimiter !in e
    ensures Split(e + [delimiter] + rest, delimiter) == [e] + Split(rest, delimiter)
  {
    var s := e + [delimiter] + rest;
    FindInLine(e, rest, delimiter, delimiter);
    assert s[..|e|] == e && s[|e| + 1..] == rest;
  }

  lemma SplitAlone(e: string, delimiter: char)
    requires delimiter !in e
    ensures Split(e, delimiter) == if e == [] then [] else [e]
  {
  }

  lemma {:induction false} SplitJoin(elements: seq<string>, delimiter: char)
    requires Separable(elements, delimiter)
    ensures Split(Join(elements, delimiter), delimiter) ==
            if elements != [] && Last(elements) == [] then Front(elements) else elements
  {
    hide Split;
    if |elements| == 0 {
      SplitAlone([], delimiter);
    } else if |elements| == 1 {
      assert delimiter !in elements[0];
      SplitAlone(elements[0], delimiter);
    } else {
      var e, rest := elements[0], elements[1..];
      SplitFirst(e, Join(rest, delimiter), delimiter);
      SplitJoin(rest, delimiter);
      assert Last(rest) == Last(elements);
      assert elements == [e] + rest && Front(elements) == [e] + Front(rest);
    }
  }

  lemma {:induction false} SplitIsSeparable(s: string, delimiter: char)
    ensures Separable(Split(s, delimiter), delimiter)
    decreases |s|
  {
    if s != [] {
      var i := Find(s, delimiter);
      if i < |s| { SplitIsSeparable(s[i + 1..], delimiter); }
    }
  }

  // The joined text falls into the elements exactly if none has the delimiter in it and the last one is
  // not empty.
  lemma SplitJoinIff(elements: seq<string>, delimiter: char)
    ensures Split(Join(elements, delimiter), delimiter) == elements <==>
            Separable(elements, delimiter) && (elements == [] || Last(elements) != [])
  {
    hide Split, Join;
    SplitIsSeparable(Join(elements, delimiter), delimiter);
    if Separable(elements, delimiter) {
      SplitJoin(elements, delimiter);
    }
  }

  // ----- the loop with its 16-bit counters

  const WRAP := 65536

  // i, pos and length, and the pieces cut off so far
  datatype Counters = Counters(i: nat, pos: nat, length: nat, pieces: seq<string>)

  // std::string::substr
  function Substr(s: string, pos: nat, length: nat): string
    requires pos <= |s|
  {
    if pos + length <= |s| then s[pos..pos + length] else s[pos..]
  }

  // One round; a walk whose i has reached the length stays where it is.
  function Round(s: string, delimiter: char, w: Counters): Counters {
    if w.i >= |s| then w
    else
      var next := (w.i + 1) % WRAP;
      if s[w.i] == delimiter then
        Counters(next, next, 0, w.pieces + [Substr(s, if w.pos <= |s| then w.pos else |s|, w.length)])
      else Counters(next, w.pos, (w.length + 1) % WRAP, w.pieces)
  }

  function Rounds(s: string, delimiter: char, n: nat): Counters {
    if n == 0 then Counters(0, 0, 0, []) else Round(s, delimiter, Rounds(s, delimiter, n - 1))
  }

  predicate Left(s: string, w: Counters) { w.i >= |s| }

  // The pieces and, if it is not empty, what is left behind the last delimiter.
  function Cut(s: string, w: Counters): seq<string> {
    w.pieces + if w.length == 0 || w.pos > |s| then [] else [Substr(s, w.pos, w.length)]
  }

  // Up to 65535 characters the counters do not wrap, and round n has looked at n characters.
  lemma {:induction false} RoundsInRange(s: string, delimiter: char, n: nat)
    requires n <= |s| < WRAP
    ensures InRange(s, delimiter, n, Rounds(s, delimiter, n))
  {
    hide InRange, Round, Split;
    if n == 0 {
      NoneInRange(s, delimiter);
    } else {
      RoundsInRange(s, delimiter, n - 1);
      RoundInRange(s, delimiter, n, Rounds(s, delimiter, n - 1));
    }
  }

  lemma NoneInRange(s: string, delimiter: char)
    ensures InRange(s, delimiter, 0, Rounds(s, delimiter, 0))
  {
    hide Split;
    assert s[0..] == s;
  }

  predicate InRange(s: string, delimiter: char, n: nat, w: Counters) {
    && w.i == n <= |s| && w.pos + w.length == n && delimiter !in s[w.pos..n]
    && w.pieces + Split(s[w.pos..], delimiter) == Split(s, delimiter)
  }

  lemma RoundInRange(s: string, delimiter: char, n: nat, v: Counters)
    requires 0 < n <= |s| < WRAP && InRange(s, delimiter, n - 1, v)
    ensures InRange(s, delimiter, n, Round(s, delimiter, v))
  {
    hide Split;
    assert s[v.pos..n] == s[v.pos..n - 1] + [s[n - 1]];
    if s[n - 1] == delimiter {
      assert s[v.pos..] == s[v.pos..n - 1] + [delimiter] + s[n..];
      SplitFirst(s[v.pos..n - 1], s[n..], delimiter);
    }
  }

  // Over more characters i never gets to the length.
  lemma {:induction false} RoundsWrap(s: string, delimiter: char, n: nat)
    requires |s| >= WRAP
    ensures Rounds(s, delimiter, n).i < WRAP && !Left(s, Rounds(s, delimiter, n))
  {
    if n > 0 { RoundsWrap(s, delimiter, n - 1); }
  }

  ghost predicate Ends(s: string, delimiter: char) { exists n: nat :: Left(s, Rounds(s, delimiter, n)) }

  // The loop ends exactly on texts of up to 65535 characters.
  lemma EndsIff(s: string, delimiter: char)
    ensures Ends(s, delimiter) <==> |s| <= 65535
  {
    if |s| < WRAP {
      RoundsInRange(s, delimiter, |s|);
    } else {
      forall n: nat ensures !Left(s, Rounds(s, delimiter, n)) {
        RoundsWrap(s, delimiter, n);
      }
    }
  }

  // ... and then it has cut the text at the delimiters.
  lemma CutIsSplit(s: string, delimiter: char)
    requires |s| <= 65535
    ensures Left(s, Rounds(s, delimiter, |s|)) && Cut(s, Rounds(s, delimiter, |s|)) == Split(s, delimiter)
  {
    hide Split, InRange, Rounds, Left, Cut;
    RoundsInRange(s, delimiter, |s|);
    CutInRange(s, delimiter, Rounds(s, delimiter, |s|));
  }

  lemma CutInRange(s: string, delimiter: char, w: Counters)
    requires |s| <= 65535 && InRange(s, delimiter, |s|, w)
    ensures Left(s, w) && Cut(s, w) == Split(s, delimiter)
  {
    hide Split;
    assert s[w.pos..] == s[w.pos..|s|];
    SplitAlone(s[w.pos..], delimiter);
  }

  // Rounds behind the last one change nothing.
  lemma {:induction false} RoundsStay(s: string, delimiter: char, m: nat, n: nat)
    requires m <= n && Left(s, Rounds(s, delimiter, m))
    ensures Rounds(s, delimiter, n) == Rounds(s, delimiter, m)
  {
    if m < n { RoundsStay(s, delimiter, m, n - 1); }
  }

  // What the getters come back with, if they do.
  ghost predicate Answers(s: string, delimiter: char, pieces: seq<string>) {
    exists n: nat :: Left(s, Rounds(s, delimiter, n)) && Cut(s, Rounds(s, delimiter, n)) == pieces
  }

  lemma AnswersIff(s: string, delimiter: char, pieces: seq<string>)
    ensures Answers(s, delimiter, pieces) <==> |s| <= 65535 && Split(s, delimiter) == pieces
  {
    EndsIff(s, delimiter);
    if |s| <= 65535 {
      CutIsSplit(s, delimiter);
      forall n: nat | Left(s, Rounds(s, delimiter, n))
        ensures Rounds(s, delimiter, n) == Rounds(s, delimiter, |s|)
      {
        if n <= |s| {
          RoundsStay(s, delimiter, n, |s|);
        } else {
          RoundsStay(s, delimiter, |s|, n);
        }
      }
    }
  }

  // A vector of strings comes back exactly if no element has the delimiter in it, the last one is not
  // empty, and the joined text has at most 65535 characters.
  lemma StringsComeBackIff(elements: seq<string>, delimiter: char)
    ensures Answers(Join(elements, delimiter), delimiter, elements) <==>
            && Separable(elements, delimiter) && (elements == [] || Last(elements) != [])
            && |Join(elements, delimiter)| <= 65535
  {
    AnswersIff(Join(elements, delimiter), delimiter, elements);
    SplitJoinIff(elements, delimiter);
  }

  // ----- numbers

  function DigitRun(s: string): (n: nat)
    ensures n <= |s| && AllDigits(s[..n])
  {
    if s == [] || !IsDigit(s[0]) then 0
    else
      var n := 1 + DigitRun(s[1..]);
      assert s[..n] == [s[0]] + s[1..][..n - 1];
      n
  }

  // atoi, for values in its range
  function Atoi(s: string): int {
    if s == [] then 0
    else if IsSpace(s[0]) then Atoi(s[1..])
    else if s[0] == '-' then 0 - DecVal(s[1..][..DigitRun(s[1..])])
    else if s[0] == '+' then DecVal(s[1..][..DigitRun(s[1..])])
    else DecVal(s[..DigitRun(s)])
  }

  lemma {:induction false} RunOfDigits(s: string)
    requires AllDigits(s)
    ensures DigitRun(s) == |s|
  {
    if s != [] { RunOfDigits(s[1..]); }
  }

  lemma DecimalRun(n: nat)
    ensures var s := Decimal(n); DigitRun(s) == |s| && s[..DigitRun(s)] == s && DecVal(s) == n && IsDigit(s[0])
  {
    RunOfDigits(Decimal(n));
    DecValDecimal(n);
  }

  lemma AtoiOfText(n: int)
    ensures Atoi(IntText(n)) == n
  {
    hide DigitRun, DecVal, Decimal;
    var digits := Decimal(if n < 0 then -n else n);
    DecimalRun(if n < 0 then -n else n);
    if n < 0 {
      assert IntText(n)[1..] == digits;
    }
  }

  function Texts(ns: seq<int>): (ts: seq<string>)
    ensures |ts| == |ns|
  {
    seq(|ns|, i requires 0 <= i < |ns| => IntText(ns[i]))
  }

  function Numbers(ts: seq<string>): (ns: seq<int>)
    ensures |ns| == |ts|
  {
    seq(|ts|, i requires 0 <= i < |ts| => Atoi(ts[i]))
  }

  function Reread(ns: seq<int>, delimiter: char): seq<int> {
    Numbers(Split(Join(Texts(ns), delimiter), delimiter))
  }

  // All pieces of a text, an empty last one included.
  function Pieces(s: string, delimiter: char): (ps: seq<string>)
    ensures |ps| >= 1 && (|ps| == 1 <==> delimiter !in s) && (|ps| == 1 ==> ps == [s])
    decreases |s|
  {
    var i := Find(s, delimiter);
    if i == |s| then [s] else [s[..i]] + Pieces(s[i + 1..], delimiter)
  }

  lemma PiecesStep(s: string, delimiter: char)
    ensures var i := Find(s, delimiter);
            Pieces(s, delimiter) == if i == |s| then [s] else [s[..i]] + Pieces(s[i + 1..], delimiter)
  {
  }

  lemma AroundDelimiter(a: string, i: nat, b: string, delimiter: char)
    requires i < |a| && a[i] == delimiter
    ensures a + [delimiter] + b == a[..i] + [delimiter] + (a[i + 1..] + [delimiter] + b)
  {
  }

  lemma {:induction false} SplitBehind(a: string, b: string, delimiter: char)
    ensures Split(a + [delimiter] + b, delimiter) == Pieces(a, delimiter) + Split(b, delimiter)
    decreases |a|
  {
    hide Split, Find, Pieces;
    var i := Find(a, delimiter);
    PiecesStep(a, delimiter);
    if i == |a| {
      SplitFirst(a, b, delimiter);
    } else {
      var rest := a[i + 1..];
      AroundDelimiter(a, i, b, delimiter);
      SplitFirst(a[..i], rest + [delimiter] + b, delimiter);
      SplitBehind(rest, b, delimiter);
      assert [a[..i]] + (Pieces(rest, delimiter) + Split(b, delimiter)) == Pieces(a, delimiter) + Split(b, delimiter);
    }
  }

  lemma SplitIsPieces(s: string, delimiter: char)
    requires s != []
    ensures delimiter !in s ==> Split(s, delimiter) == [s]
    ensures delimiter in s ==>
              var i := Find(s, delimiter); Split(s, delimiter) == [s[..i]] + Split(s[i + 1..], delimiter)
    ensures |Split(s, delimiter)| >= 1
  {
    hide Split, Find;
    SplitStep(s, delimiter);
  }

  lemma SplitStep(s: string, delimiter: char)
    requires s != []
    ensures var i := Find(s, delimiter);
            Split(s, delimiter) == if i == |s| then [s] else [s[..i]] + Split(s[i + 1..], delimiter)
  {
  }

  // A number that is not zero is not the number of its text without the last character.
  lemma ShorterText(n: int, delimiter: char)
    requires var s := IntText(n); delimiter == s[|s| - 1] && delimiter !in s[..|s| - 1]
    ensures Atoi(IntText(n)[..|IntText(n)| - 1]) == n <==> n == 0
  {
    var s := IntText(n);
    var p := s[..|s| - 1];
    var m: nat := if n < 0 then -n else n;
    var q := m / 10;
    if m < 10 {
      assert Decimal(m) == [DigitChar(m)];
      assert p == if n < 0 then ['-'] else [];
      NoDigits();
    } else {
      assert Decimal(m) == Decimal(q) + [DigitChar(m % 10)];
      assert p == IntText(if n < 0 then -q else q);
      AtoiOfText(if n < 0 then -q else q);
    }
  }

  lemma NoDigits()
    ensures Atoi([]) == 0 && Atoi(['-']) == 0
  {
    assert ['-'][1..] == [];
  }

  // One number comes back exactly if the delimiter is not in its text, or is all of it for a zero.
  lemma OneNumber(n: int, delimiter: char)
    ensures Numbers(Split(IntText(n), delimiter)) == [n] <==> delimiter !in IntText(n) || (n == 0 && delimiter == '0')
  {
    hide Split, IntText, Atoi, Decimal;
    var s := IntText(n);
    TextIsNotEmpty(n);
    SplitIsPieces(s, delimiter);
    AtoiOfText(n);
    TextOfZero();
    if delimiter in s {
      var i := Find(s, delimiter);
      assert s[i] == delimiter;
      if i + 1 < |s| {
        SplitIsPieces(s[i + 1..], delimiter);
      } else {
        assert s[i + 1..] == [] && i == |s| - 1;
        SplitAlone([], delimiter);
        assert Split(s, delimiter) == [s[..|s| - 1]];
        ShorterText(n, delimiter);
        assert Numbers(Split(s, delimiter)) == [Atoi(s[..|s| - 1])];
      }
    }
  }

  lemma TextIsNotEmpty(n: int)
    ensures IntText(n) != []
  {
  }

  lemma TextOfZero()
    ensures IntText(0) == ['0']
  {
  }

  lemma JoinedNumbers(ns: seq<int>, delimiter: char)
    requires |ns| > 1
    ensures var ps, rest := Pieces(IntText(ns[0]), delimiter), Split(Join(Texts(ns[1..]), delimiter), delimiter);
            && Split(Join(Texts(ns), delimiter), delimiter) == ps + rest
            && Reread(ns, delimiter) == Numbers(ps) + Numbers(rest)
  {
    hide Split, IntText, Pieces, Atoi;
    assert Texts(ns)[1..] == Texts(ns[1..]);
    SplitBehind(IntText(ns[0]), Join(Texts(ns[1..]), delimiter), delimiter);
  }

  lemma {:induction false} AsManyPieces(ns: seq<int>, delimiter: char)
    ensures |Reread(ns, delimiter)| >= |ns|
  {
    hide Split, IntText, Pieces, Join, Atoi;
    if |ns| == 1 {
      TextIsNotEmpty(ns[0]);
      SplitIsPieces(IntText(ns[0]), delimiter);
      JoinOfOne(ns, delimiter);
    } else if |ns| > 1 {
      JoinedNumbers(ns, delimiter);
      AsManyPieces(ns[1..], delimiter);
    }
  }

  lemma JoinOfOne(ns: seq<int>, delimiter: char)
    requires |ns| == 1
    ensures Join(Texts(ns), delimiter) == IntText(ns[0])
  {
  }

  // The delimiter is in no text, unless the last number is a zero and the delimiter its only digit.
  predicate Recoverable(ns: seq<int>, delimiter: char) {
    forall i | 0 <= i < |ns| ::
      delimiter !in IntText(ns[i]) || (i == |ns| - 1 && ns[i] == 0 && delimiter == '0')
  }

  lemma {:induction false} RereadIff(ns: seq<int>, delimiter: char)
    ensures Reread(ns, delimiter) == ns <==> Recoverable(ns, delimiter)
  {
    hide Split, IntText, Pieces, Join, Atoi;
    if |ns| == 0 {
      RereadNothing(delimiter);
    } else if |ns| == 1 {
      JoinOfOne(ns, delimiter);
      OneNumber(ns[0], delimiter);
    } else {
      var rest := ns[1..];
      JoinedNumbers(ns, delimiter);
      AsManyPieces(rest, delimiter);
      RereadIff(rest, delimiter);
      AtoiOfText(ns[0]);
      var ps := Pieces(IntText(ns[0]), delimiter);
      assert ns == [ns[0]] + rest;
      assert Reread(ns, delimiter) == Numbers(ps) + Reread(rest, delimiter);
      assert Recoverable(ns, delimiter) <==> delimiter !in IntText(ns[0]) && Recoverable(rest, delimiter) by {
        assert forall i | 0 <= i < |rest| :: rest[i] == ns[i + 1];
      }
      if |ps| == 1 {
        assert Numbers(ps) == [ns[0]];
      }
    }
  }

  lemma RereadNothing(delimiter: char)
    ensures Reread([], delimiter) == []
  {
  }

  // What the getter of numbers comes back with, if it does.
  ghost predicate AnswersNumbers(s: string, delimiter: char, ns: seq<int>) {
    exists pieces :: Answers(s, delimiter, pieces) && Numbers(pieces) == ns
  }

  // A vector of numbers comes back exactly if the delimiter is in no text, but for a zero at the end, and
  // the joined text has at most 65535 characters.
  lemma NumbersComeBackIff(ns: seq<int>, delimiter: char)
    ensures var text := Join(Texts(ns), delimiter);
            AnswersNumbers(text, delimiter, ns) <==> Recoverable(ns, delimiter) && |text| <= 65535
  {
    hide Split, Join, Answers, Recoverable;
    var text := Join(Texts(ns), delimiter);
    RereadIff(ns, delimiter);
    AnswersIff(text, delimiter, Split(text, delimiter));
    forall pieces | Answers(text, delimiter, pieces)
      ensures |text| <= 65535 && pieces == Split(text, delimiter)
    {
      AnswersIff(text, delimiter, pieces);
    }
  }

  // Every vector has that property exactly if the delimiter is no part of numbers.
  lemma SafeDelimiterIff(delimiter: char)
    ensures (forall ns :: Recoverable(ns, delimiter)) <==> !IsDigit(delimiter) && delimiter != '-'
  {
    if delimiter == '-' {
      assert IntText(-1)[0] == '-' && [-1][0] == -1;
      assert !Recoverable([-1], delimiter);
    } else if IsDigit(delimiter) {
      var d := delimiter as int - '0' as int;
      assert IntText(d) == [delimiter] && [d, 0][0] == d;
      assert !Recoverable([d, 0], delimiter);
    }
  }
}
