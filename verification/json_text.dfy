// The text of numbers and strings: what the writers print, what the reader's decoders accept,
// and that the second undoes the first.

module JsonText {
  import opened Decimals
  import opened Options
  import opened JsonValue
  import opened JsonLexer

  datatype Message =
    | ValueExpected | NotANumber | EmptyEscape | BadEscape | SixCharactersExpected
    | SecondSurrogateExpected | FourDigitsExpected | HexDigitExpected | MissingColon
    | MissingCommaOrBrace | MissingBraceOrName | RootNotContainer

  datatype Decoded<+T> = Good(value: T) | Bad(message: Message)

  // sscanf("%lf") on a whole token
  type DoubleScanner = string -> Option<real>

  // ----- decodeNumber

  // A '.', an exponent or an inner sign sends the token to sscanf.
  predicate IsDouble(text: string) {
    exists i :: 0 <= i < |text| && DoubleMark(text, i)
  }

  predicate DoubleMark(text: string, i: nat)
    requires i < |text|
  {
    text[i] == '.' || text[i] == 'e' || text[i] == 'E' || text[i] == '+' || (text[i] == '-' && i > 0)
  }

  function Threshold(negative: bool): nat {
    (if negative then 2147483648 else MAX_UINT) / 10
  }

  datatype Walk = Exact(n: nat) | TooBig | BadDigit

  // The accumulator loop of decodeNumber, started at value.
  function WalkDigits(ds: string, value: nat, threshold: nat): Walk {
    if ds == [] then Exact(value)
    else if !IsDigit(ds[0]) then BadDigit
    else if value >= threshold then TooBig
    else WalkDigits(ds[1..], 10 * value + (ds[0] as int - '0' as int), threshold)
  }

  function DecodeDouble(scan: DoubleScanner, text: string): Decoded<Value> {
    match scan(text)
    case None => Bad(NotANumber)
    case Some(r) => Good(Real(r))
  }

  function DecodeNumber(scan: DoubleScanner, text: string): Decoded<Value> {
    if IsDouble(text) then DecodeDouble(scan, text)
    else
      var negative := text != [] && text[0] == '-';
      match WalkDigits(if negative then text[1..] else text, 0, Threshold(negative))
      case BadDigit => Bad(NotANumber)
      case TooBig => DecodeDouble(scan, text)
      case Exact(n) => Good(if negative then Int(0 - n) else if n <= MAX_INT then Int(n) else UInt(n))
  }

  // The integer path is taken exactly when the value of every proper prefix is below the
  // threshold, and then gives the exact decimal value.
  lemma {:induction false} WalkIsDecimal(ds: string, k: nat, threshold: nat)
    requires AllDigits(ds) && k <= |ds|
    requires forall i :: 0 <= i < k ==> PrefixBelow(ds, i, threshold)
    ensures WalkDigits(ds[k..], DecVal(ds[..k]), threshold) ==
            if forall i :: 0 <= i < |ds| ==> PrefixBelow(ds, i, threshold) then Exact(DecVal(ds)) else TooBig
    decreases |ds| - k
  {
    if k == |ds| {
      assert ds[..k] == ds;
    } else {
      assert ds[k] in ds && ds[k..][1..] == ds[k + 1..];
      assert ds[..k + 1][..k] == ds[..k];
      if PrefixBelow(ds, k, threshold) { WalkIsDecimal(ds, k + 1, threshold); }
    }
  }

  predicate PrefixBelow(ds: string, i: nat, threshold: nat)
    requires AllDigits(ds) && i <= |ds|
  {
    DecVal(ds[..i]) < threshold
  }

  // Prefix values only grow, so the last proper prefix decides.
  lemma {:induction false} PrefixesBelow(ds: string, i: nat, j: nat)
    requires AllDigits(ds) && i <= j <= |ds|
    ensures DecVal(ds[..i]) <= DecVal(ds[..j])
  {
    if i < j {
      PrefixesBelow(ds, i, j - 1);
      assert ds[..j][..j - 1] == ds[..j - 1];
      assert ds[j - 1] in ds;
    }
  }

  // For digits of any length the walk is exact iff value / 10 is below the threshold, and no
  // accumulated value leaves the unsigned 32-bit range.
  lemma WalkExactIff(ds: string, threshold: nat)
    requires AllDigits(ds) && ds != [] && threshold <= Threshold(false)
    ensures WalkDigits(ds, 0, threshold) == if DecVal(ds) / 10 < threshold then Exact(DecVal(ds)) else TooBig
    ensures DecVal(ds) / 10 < threshold ==> DecVal(ds) < 10 * threshold <= MAX_UINT
  {
    WalkIsDecimal(ds, 0, threshold);
    assert ds[0..] == ds;
    var last := |ds| - 1;
    assert ds[last] in ds;
    assert DecVal(ds) / 10 == DecVal(ds[..last]);
    if DecVal(ds[..last]) < threshold {
      forall i | 0 <= i < |ds| ensures PrefixBelow(ds, i, threshold) { PrefixesBelow(ds, i, last); }
    } else {
      assert !PrefixBelow(ds, last, threshold);
    }
  }

  // Digits with or without a minus are an integer while the number without its last digit is below a tenth of
  // the range, and left to sscanf otherwise; so is everything with another sign, a point or an exponent.
  lemma IntegerMeans(scan: DoubleScanner, negative: bool, ds: string)
    requires AllDigits(ds)
    ensures DecodeNumber(scan, (if negative then "-" else "") + ds) ==
            if DecVal(ds) / 10 >= if negative then 214748364 else 429496729 then
              match scan((if negative then "-" else "") + ds) case Some(r) => Good(Real(r)) case None => Bad(NotANumber)
            else if negative then Good(Int(0 - DecVal(ds)))
            else if DecVal(ds) <= 2147483647 then Good(Int(DecVal(ds)))
            else Good(UInt(DecVal(ds)))
  {
    hide DecVal, WalkDigits;
    var text := (if negative then "-" else "") + ds;
    assert text == if negative then ['-'] + ds else ds;
    forall k | 0 <= k < |text| ensures !DoubleMark(text, k) {
      if negative && k > 0 { assert text[k] == ds[k - 1] && ds[k - 1] in ds; }
      if !negative { assert text[k] in ds; }
    }
    if negative { assert text[1..] == ds; } else if ds != [] { assert ds[0] in ds; }
    NoDigitsWalk(Threshold(negative));
    if ds != [] { WalkExactIff(ds, Threshold(negative)); }
  }

  lemma NoDigitsWalk(threshold: nat)
    ensures WalkDigits([], 0, threshold) == Exact(0) && DecVal([]) == 0
  {
  }

  lemma RealMeans(scan: DoubleScanner, text: string, i: nat)
    requires i < |text| && (text[i] in ".eE+" || (i > 0 && text[i] == '-'))
    ensures DecodeNumber(scan, text) == match scan(text) case Some(r) => Good(Real(r)) case None => Bad(NotANumber)
  {
    assert DoubleMark(text, i);
  }

  // Whatever the digits, an exact result is below ten times the threshold.
  lemma {:induction false} WalkBound(ds: string, value: nat, threshold: nat)
    ensures var w := WalkDigits(ds, value, threshold); w.Exact? ==> w.n == value || w.n < 10 * threshold
  {
    if ds != [] && IsDigit(ds[0]) && value < threshold {
      WalkBound(ds[1..], 10 * value + (ds[0] as int - '0' as int), threshold);
    }
  }

  lemma DecodedNumberValid(scan: DoubleScanner, text: string)
    ensures DecodeNumber(scan, text).Good? ==> Valid(DecodeNumber(scan, text).value)
  {
    var negative := text != [] && text[0] == '-';
    WalkBound(if negative then text[1..] else text, 0, Threshold(negative));
  }

  // The printed integers decodeNumber reads back exactly.
  predicate IntInRange(i: int) { -2147483639 <= i <= 4294967289 }

  // Signed values come back as such; unsigned ones that fit an int come back as int.
  function IntValue(i: int): Value {
    if i <= MAX_INT then Int(i) else UInt(i)
  }

  lemma DecodePrinted(scan: DoubleScanner, i: int)
    ensures DecodeNumber(scan, IntText(i)) ==
            if IntInRange(i) then Good(IntValue(i)) else DecodeDouble(scan, IntText(i))
  {
    hide Decimal, DecVal, WalkDigits;
    var text := IntText(i);
    var n: nat := if i < 0 then -i else i;
    var ds := Decimal(n);
    assert text == (if i < 0 then "-" + ds else ds);
    assert forall k :: 0 <= k < |ds| ==> ds[k] in ds;
    forall k | 0 <= k < |text| ensures !DoubleMark(text, k) {
      if i < 0 && k > 0 { assert text[k] == ds[k - 1]; }
    }
    if i < 0 { assert text[1..] == ds; } else { assert text[0] in ds; }
    WalkExactIff(ds, Threshold(i < 0));
    DecValDecimal(n);
  }

  lemma IntTextIsToken(i: int)
    ensures IsToken(Tok(Number, IntText(i)))
  {
    hide Decimal, NumberLen;
    var n: nat := if i < 0 then -i else i;
    var ds := Decimal(n);
    var text := IntText(i);
    assert forall k :: 0 <= k < |ds| ==> ds[k] in ds;
    assert i < 0 ==> text[1..] == ds;
    assert forall k :: 0 <= k < |text[1..]| ==> text[1..][k] == text[k + 1];
    AllNumberChars(text[1..]);
  }

  lemma {:induction false} AllNumberChars(s: string)
    requires forall k :: 0 <= k < |s| ==> IsNumberChar(s[k])
    ensures NumberLen(s) == |s|
  {
    if s != [] { AllNumberChars(s[1..]); }
  }
}
