// What the texts of a configuration file mean to the getters, whoever wrote them.

module ConfigMeaning {
  import opened Decimals
  import opened Options
  import opened ConfigText
  import opened ConfigVectors
  import opened ConfigFile

  // ----- numbers

  const SPACES := " \t\n\U{0B}\U{0C}\r"

  predicate Spaces(s: string) { forall c | c in s :: c in SPACES }

  lemma {:induction false} SpacesPassed(s: string, rest: string)
    requires Spaces(s)
    ensures Atoi(s + rest) == Atoi(rest)
  {
    if s == [] {
      assert s + rest == rest;
    } else {
      assert (s + rest)[1..] == s[1..] + rest && s[0] in s;
      SpacesPassed(s[1..], rest);
    }
  }

  lemma {:induction false} RunStops(ds: string, rest: string)
    requires AllDigits(ds) && (rest == [] || rest[0] !in "0123456789")
    ensures DigitRun(ds + rest) == |ds| && (ds + rest)[..|ds|] == ds
  {
    if ds == [] {
      assert ds + rest == rest;
    } else {
      assert (ds + rest)[1..] == ds[1..] + rest && ds[0] in ds;
      RunStops(ds[1..], rest);
    }
  }

  // Blanks, a sign, digits and anything that is no digit: the number of the digits, zero if there are none.
  lemma AtoiMeans(spaces: string, sign: string, ds: string, rest: string)
    requires Spaces(spaces) && (sign == "" || sign == "+" || sign == "-") && AllDigits(ds)
    requires rest == [] || rest[0] !in "0123456789"
    requires sign == "" && ds == "" && rest != [] ==> rest[0] !in SPACES && rest[0] !in "+-"
    ensures Atoi(spaces + sign + ds + rest) == if sign == "-" then 0 - DecVal(ds) else DecVal(ds)
  {
    hide Atoi, DigitRun;
    var s := sign + (ds + rest);
    assert spaces + sign + ds + rest == spaces + s;
    SpacesPassed(spaces, s);
    if sign == "" {
      assert s == ds + rest;
      UnsignedMeans(ds, rest);
    } else {
      SignedMeans(sign, ds, rest);
    }
  }

  lemma UnsignedMeans(ds: string, rest: string)
    requires AllDigits(ds) && (rest == [] || rest[0] !in "0123456789")
    requires ds == "" && rest != [] ==> rest[0] !in SPACES && rest[0] !in "+-"
    ensures Atoi(ds + rest) == DecVal(ds)
  {
    hide DigitRun;
    var s := ds + rest;
    RunStops(ds, rest);
    if ds == [] {
      assert s == rest;
    } else {
      assert ds[0] in ds && s[0] == ds[0];
      SpaceIsNoDigit();
    }
  }

  lemma SignedMeans(sign: string, ds: string, rest: string)
    requires (sign == "+" || sign == "-") && AllDigits(ds) && (rest == [] || rest[0] !in "0123456789")
    ensures Atoi(sign + (ds + rest)) == if sign == "-" then 0 - DecVal(ds) else DecVal(ds)
  {
    var s := sign + (ds + rest);
    RunStops(ds, rest);
    assert s[1..] == ds + rest && s[0] == sign[0];
  }

  lemma SpaceIsNoDigit()
    ensures forall c: char | IsDigit(c) :: c !in SPACES
  {
  }

  // ----- words

  // false and 0 are false, every other text is true.
  lemma BoolMeans(s: string)
    ensures BoolOf(s) <==> s != "false" && s != "0"
    ensures BoolOf("true") && BoolOf("1") && BoolOf("") && !BoolOf("false") && !BoolOf("0")
  {
  }

  // As numbers true is 1 and false is 0, every other text what atoi makes of it.
  lemma Int32Means(s: string)
    ensures Int32Of("true") == 1 && Int32Of("false") == 0
    ensures s != "true" && s != "false" ==> Int32Of(s) == Atoi(s)
  {
  }

  // ----- one kind written, the other read

  // A number that was set is true exactly if it is not zero, unless an old text that already meant the number is
  // left in place; then it is that text that is true or not.
  lemma IntThenBool(data: Data, key: string, n: int, saveDefaults: bool, byDefault: bool)
    ensures var d := Written(data, key, Int32Of, 0, n, IntText(n), saveDefaults);
            Found(d, key, BoolOf, byDefault) ==
            if key in data && Int32Of(data[key]) == n then data[key] != "false" && data[key] != "0"
            else if key !in data && n == 0 && !saveDefaults then byDefault
            else n != 0
  {
    NumberIsTrue(n);
    hide IntText;
  }

  lemma NumberIsTrue(n: int)
    ensures BoolOf(IntText(n)) <==> n != 0
  {
    AtoiOfText(n);
    assert IsDigit(Decimal(if n < 0 then -n else n)[0]);
    assert n < 0 ==> IntText(n)[0] == '-';
    if n == 0 {
      assert IntText(n) == "0";
    } else {
      assert Atoi("0") == 0 by {
        AtoiOfText(0);
        assert IntText(0) == "0";
      }
    }
  }

  // A flag that was set is 1 or 0, unless an old text that already meant true is left in place; then it is the
  // number of that text.
  lemma BoolThenInt(data: Data, key: string, b: bool, saveDefaults: bool, byDefault: int)
    ensures var d := Written(data, key, BoolOf, false, b, BoolText(b), saveDefaults);
            Found(d, key, Int32Of, byDefault) ==
            if key in data && b && data[key] != "false" && data[key] != "0" then Int32Of(data[key])
            else if key !in data && !b && !saveDefaults then byDefault
            else if b then 1 else 0
  {
    assert Int32Of("0") == 0 by { AtoiOfText(0); assert IntText(0) == "0"; }
  }

  // ----- what was loaded

  // A file of one line: the getters answer what the text behind the delimiter means.
  lemma Loaded(key: string, text: string, delimiter: char, byDefault: int, flag: bool)
    requires OneLine(key, text, delimiter) && '#' !in text
    ensures var d := Parsed(map[], key + [delimiter] + text + "\n", delimiter);
            && d == map[key := text]
            && Found(d, key, s => s, "") == text
            && (Found(d, key, BoolOf, flag) <==> text != "false" && text != "0")
            && Found(d, key, Int32Of, byDefault) ==
               (if text == "true" then 1 else if text == "false" then 0 else Atoi(text))
  {
    var line := key + [delimiter] + text;
    assert '\n' !in line && line + "\n" + "" == line + "\n";
    ParsedLine(map[], line, "", delimiter);
    LineIsRead(map[], key, text, delimiter);
    KeptIff(key, text, delimiter);
  }
}
