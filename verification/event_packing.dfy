// Streams of packed events, and what scanning them gives back.

module EventPacking {
  import opened Division
  import opened Options
  import opened EventStream

  // The body of an event: values of one size, a point with its payload, or an event of an unknown or empty
  // kind. 64-bit kernels leave gaps of four bytes; up to version 18 the first gap of a point is the pointer of
  // a 32-bit kernel.
  datatype Packed =
    | Values(cmd: Short, gap: seq<byte>, values: seq<seq<byte>>)
    | Payload(cmd: Short, gap: seq<byte>, length: Short, flags: Short, gap2: seq<byte>, payload: seq<byte>)
    | Other(cmd: Short, body: seq<byte>)

  type Short = n: int | 0 <= n < 65536

  function Pair(n: nat): (bs: seq<byte>)
    ensures |bs| == 2
  {
    [(n % 256) as byte, (n / 256 % 256) as byte]
  }

  function Concat(values: seq<seq<byte>>): seq<byte> {
    if values == [] then [] else values[0] + Concat(values[1..])
  }

  function Body(p: Packed): seq<byte> {
    match p
    case Values(_, gap, values) => gap + Concat(values)
    case Payload(_, gap, length, flags, gap2, payload) => gap + (Pair(length) + (Pair(flags) + (gap2 + payload)))
    case Other(_, body) => body
  }

  // What a kernel of this version sends.
  ghost predicate WellFormed(p: Packed, version: int) {
    && 0 < |Body(p)| && LCP + |Body(p)| < 65536
    && match p
       case Values(cmd, gap, values) =>
         var k := Size(KindOf(cmd));
         && KindOf(cmd) != Point && k > 0 && |values| > 0
         && (forall v | v in values :: |v| == k)
         && (gap == [] || |gap| == 4)
       case Payload(cmd, gap, length, flags, gap2, payload) =>
         && KindOf(cmd) == Point
         && var d := Describe(cmd).value;
            && |payload| == length * d.tokenSize
            && d.minTokens <= length && (length <= d.maxTokens || d.noMax)
            && if version <= 18 then |gap| == POINT_OFF && gap2 == []
               else (gap == [] && gap2 == []) || (|gap| == 4 && |gap2| == 4)
       case Other(cmd, _) => Size(KindOf(cmd)) == 0
  }

  // Two values without a gap cannot be told from a gap and one value.
  predicate Ambiguous(p: Packed) {
    p.Values? && p.gap == [] && |p.values| == 2 && Size(KindOf(p.cmd)) == 4
  }

  // A gap in front of several four-byte values cannot be told from one value more.
  predicate GapRead(p: Packed) {
    p.Values? && p.gap != [] && |p.values| > 1 && Size(KindOf(p.cmd)) == 4
  }

  function PairAt(s: seq<byte>, i: nat): nat
    requires i + 2 <= |s|
  {
    s[i] as nat + 256 * s[i + 1] as nat
  }

  // The gap in front of a point, read as a length, is right for all that follows it.
  predicate LengthInGap(p: Packed) {
    && p.Payload? && KindOf(p.cmd) == Point && |p.gap| == 4 && p.gap2 != []
    && PairAt(p.gap, 0) * Describe(p.cmd).value.tokenSize == 8 + |p.payload|
  }

  function Bytes(p: Packed): seq<byte> {
    Pair(LCP + |Body(p)|) + (Pair(p.cmd) + Body(p))
  }

  // ----- what is to come out

  function ValuesOf(cmd: nat, values: seq<seq<byte>>): (es: seq<Event>)
    ensures |es| == |values|
  {
    if values == [] then [] else [Value(cmd, values[0])] + ValuesOf(cmd, values[1..])
  }

  // Every value, in order; for a point where its payload is, if it has one.
  function Meant(p: Packed, at: nat): seq<Event> {
    match p
    case Values(cmd, _, values) => ValuesOf(cmd, values)
    case Payload(cmd, gap, length, flags, gap2, payload) =>
      [Data(cmd, length, flags, if gap2 == [] && payload == [] then None else Some(at + 8 + |gap| + |gap2|))]
    case Other(cmd, _) => [Header(cmd)]
  }

  function Decoded(p: Packed, at: nat): seq<Event> {
    if Ambiguous(p) then [Value(p.cmd, p.values[1])]
    else if GapRead(p) then ValuesOf(p.cmd, [p.gap] + p.values)
    else if LengthInGap(p) then [Misread(p, at)]
    else Meant(p, at)
  }

  // The gap is taken for length and flags, and length, flags and second gap for the start of the payload.
  function Misread(p: Packed, at: nat): Event
    requires LengthInGap(p)
  {
    var d, length := Describe(p.cmd).value, PairAt(p.gap, 0);
    Data(p.cmd, length, PairAt(p.gap, 2),
         if (length > d.maxTokens && !d.noMax) || length < d.minTokens then None else Some(at + 8))
  }

  ghost predicate Holds(m: Memory, at: nat, bs: seq<byte>) {
    forall i | 0 <= i < |bs| :: m(at + i) == bs[i]
  }

  lemma HoldsParts(m: Memory, at: nat, a: seq<byte>, b: seq<byte>)
    requires Holds(m, at, a + b)
    ensures Holds(m, at, a) && Holds(m, at + |a|, b)
  {
    forall i | 0 <= i < |a|
      ensures m(at + i) == a[i]
    {
      assert (a + b)[i] == a[i];
    }
    forall i | 0 <= i < |b|
      ensures m(at + |a| + i) == b[i]
    {
      assert (a + b)[|a| + i] == b[i];
    }
  }

  lemma HoldsPair(m: Memory, at: nat, n: nat)
    requires n < 65536 && Holds(m, at, Pair(n))
    ensures U16(m, at) == n
  {
    assert m(at + 0) == Pair(n)[0] && m(at + 1) == Pair(n)[1];
  }

  lemma HoldsPairAt(m: Memory, at: nat, s: seq<byte>, i: nat)
    requires Holds(m, at, s) && i + 2 <= |s|
    ensures U16(m, at + i) == PairAt(s, i)
  {
    assert m(at + i) == s[i] && m(at + (i + 1)) == s[i + 1];
  }

  lemma HoldsCopy(m: Memory, at: nat, s: seq<byte>)
    requires Holds(m, at, s)
    ensures Copy(m, at, |s|) == s
  {
  }

  // ----- one event

  lemma ScanStep(m: Memory, end: nat, c: Cursor, version: int, e: Event, d: Cursor)
    requires Within(m, c) && Within(m, d)
    requires var o := Extracted(m, end, c, version); o.ret > 0 && o.event == e && o.cursor == d
    ensures var next := Scan(m, end, d, version); Scan(m, end, c, version) == ([e] + next.0, next.1)
  {
    hide Extracted, Within;
  }

  // The extraction of a value that is not the first of its event.
  lemma NextValue(m: Memory, end: nat, c: Cursor, version: int, value: seq<byte>)
    requires c.value.Some? && Within(m, c) && c.current + U16(m, c.current) <= end
    requires |value| == Size(KindOf(U16(m, c.current + 2))) && Holds(m, c.value.value, value)
    ensures var len, cmd, v := U16(m, c.current), U16(m, c.current + 2), c.value.value + |value|;
            Extracted(m, end, c, version) ==
            Outcome(1, Value(cmd, value),
                    if v + |value| <= c.current + len then c.(value := Some(v)) else Cursor(c.current + len, None))
  {
    hide Describe;
    HoldsCopy(m, c.value.value, value);
  }

  // From the cursor on a value that is not the first the rest of the values come out.
  lemma {:induction false} ScanRest(m: Memory, end: nat, c: Cursor, version: int, values: seq<seq<byte>>)
    requires c.value.Some? && Within(m, c) && values != []
    requires forall v | v in values :: |v| == Size(KindOf(U16(m, c.current + 2)))
    requires c.value.value + |Concat(values)| == c.current + U16(m, c.current) <= end
    requires Holds(m, c.value.value, Concat(values))
    ensures var len, cmd := U16(m, c.current), U16(m, c.current + 2);
            var next := Scan(m, end, Cursor(c.current + len, None), version);
            Scan(m, end, c, version) == (ValuesOf(cmd, values) + next.0, next.1)
    decreases |values|
  {
    hide Extracted, Scan, KindOf, Size, Holds;
    var len, cmd := U16(m, c.current), U16(m, c.current + 2);
    var v := c.value.value;
    var next := Cursor(c.current + len, None);
    assert |values[0]| == Size(KindOf(cmd));
    HoldsParts(m, v, values[0], Concat(values[1..]));
    NextValue(m, end, c, version, values[0]);
    if |values| == 1 {
      ScanStep(m, end, c, version, Value(cmd, values[0]), next);
      assert ValuesOf(cmd, values) == [Value(cmd, values[0])];
    } else {
      var d := c.(value := Some(v + |values[0]|));
      assert |values[1]| == Size(KindOf(cmd)) && |Concat(values[1..])| >= |values[1]|;
      ScanStep(m, end, c, version, Value(cmd, values[0]), d);
      ScanRest(m, end, d, version, values[1..]);
      var rest := Scan(m, end, next, version).0;
      assert ValuesOf(cmd, values) + rest == [Value(cmd, values[0])] + (ValuesOf(cmd, values[1..]) + rest);
    }
  }

  lemma {:induction false} ConcatLength(values: seq<seq<byte>>, k: nat)
    requires forall v | v in values :: |v| == k
    ensures |Concat(values)| == |values| * k
  {
    if values != [] {
      assert |values[0]| == k;
      ConcatLength(values[1..], k);
      OneMore(|values| - 1, k);
    }
  }

  // The test for a gap is right but for two values of four bytes, and for a gap in front of several.
  lemma ShiftedIff(p: Packed, version: int)
    requires WellFormed(p, version) && p.Values?
    ensures Shifted(LCP + |Body(p)|, KindOf(p.cmd)) <==> (p.gap != [] && !GapRead(p)) || Ambiguous(p)
  {
    hide Describe;
    var k, n := Size(KindOf(p.cmd)), |p.values|;
    ConcatLength(p.values, k);
    if p.gap == [] {
      Residue(|Body(p)|, k, n, 0);
    } else if k > 4 {
      Residue(|Body(p)|, k, n, 4);
    } else {
      Residue(|Body(p)|, k, n + 1, 0);
    }
  }

  lemma HoldsHeader(m: Memory, at: nat, p: Packed)
    requires LCP + |Body(p)| < 65536
    requires Holds(m, at, Bytes(p))
    ensures U16(m, at) == LCP + |Body(p)| && U16(m, at + 2) == p.cmd && Holds(m, at + LCP, Body(p))
  {
    HoldsParts(m, at, Pair(LCP + |Body(p)|), Pair(p.cmd) + Body(p));
    HoldsParts(m, at + 2, Pair(p.cmd), Body(p));
    HoldsPair(m, at, LCP + |Body(p)|);
    HoldsPair(m, at + 2, p.cmd);
  }

  lemma ExtractsValue(m: Memory, end: nat, at: nat, version: int)
    requires U16(m, at) > LCP && KindOf(U16(m, at + 2)) != Point && Size(KindOf(U16(m, at + 2))) > 0
    requires at + LCP + Size(KindOf(U16(m, at + 2))) <= end
    ensures Extracted(m, end, Cursor(at, None), version) ==
            ValueEvent(m, Cursor(at, None), U16(m, at), U16(m, at + 2), at + LCP)
  {
    hide ValueEvent, KindOf, Size;
  }

  lemma FirstValue(m: Memory, end: nat, at: nat, p: Packed, version: int)
    requires WellFormed(p, version) && p.Values? && !GapRead(p) && at + LCP + |Body(p)| <= end
    requires U16(m, at) == LCP + |Body(p)| && U16(m, at + 2) == p.cmd
    requires Holds(m, at + LCP, Body(p))
    ensures var len, k, v := LCP + |Body(p)|, Size(KindOf(p.cmd)), at + LCP + |p.gap|;
            Extracted(m, end, Cursor(at, None), version) ==
            if Ambiguous(p) then Outcome(1, Value(p.cmd, p.values[1]), Cursor(at + len, None))
            else Outcome(1, Value(p.cmd, p.values[0]),
                         if |p.values| > 1 then Cursor(at, Some(v + k)) else Cursor(at + len, None))
  {
    hide KindOf, Size, Holds, Shifted, Extracted, Copy, WellFormed, Body, U16, Describe;
    ValuesShape(p, version);
    var k, v := Size(KindOf(p.cmd)), at + LCP + |p.gap|;
    assert |p.values[0]| == k;
    HoldsParts(m, at + LCP, p.gap, Concat(p.values));
    HoldsParts(m, v, p.values[0], Concat(p.values[1..]));
    ShiftedIff(p, version);
    ExtractsValue(m, end, at, version);
    if Ambiguous(p) {
      assert p.values[1..] == [p.values[1]] && |p.values[1]| == k && Concat(p.values[1..]) == p.values[1] + [];
      HoldsParts(m, v + k, p.values[1], []);
      HoldsCopy(m, v + 4, p.values[1]);
    } else {
      HoldsCopy(m, v, p.values[0]);
      assert |p.values| > 1 ==> |p.values[1]| == k && |Concat(p.values[1..])| >= k;
    }
  }

  lemma ScanValues(m: Memory, end: nat, at: nat, p: Packed, version: int)
    requires WellFormed(p, version) && p.Values?
    requires Holds(m, at, Bytes(p)) && at + |Bytes(p)| <= end
    ensures var next := Scan(m, end, Cursor(at + |Bytes(p)|, None), version);
            Scan(m, end, Cursor(at, None), version) == (Decoded(p, at) + next.0, next.1)
  {
    hide Scan, Holds, KindOf, Body, Bytes, ValuesOf;
    if GapRead(p) {
      GapIsAValue(p, version);
      ScanUnlessGapRead(m, end, at, Values(p.cmd, [], [p.gap] + p.values), version);
    } else {
      ScanUnlessGapRead(m, end, at, p, version);
    }
  }

  lemma GapIsAValue(p: Packed, version: int)
    requires WellFormed(p, version) && GapRead(p)
    ensures var q := Values(p.cmd, [], [p.gap] + p.values);
            WellFormed(q, version) && Bytes(q) == Bytes(p) && !Ambiguous(q) && !GapRead(q)
  {
    hide Describe;
    var q := Values(p.cmd, [], [p.gap] + p.values);
    assert q.values[1..] == p.values;
    assert Body(q) == Body(p);
  }

  lemma ScanUnlessGapRead(m: Memory, end: nat, at: nat, p: Packed, version: int)
    requires WellFormed(p, version) && p.Values? && !GapRead(p)
    requires Holds(m, at, Bytes(p)) && at + |Bytes(p)| <= end
    ensures var next := Scan(m, end, Cursor(at + |Bytes(p)|, None), version);
            Scan(m, end, Cursor(at, None), version) == (Decoded(p, at) + next.0, next.1)
  {
    hide Describe, Scan, Holds, Extracted;
    var cmd, c := p.cmd, Cursor(at, None);
    var next := Cursor(at + LCP + |Body(p)|, None);
    HoldsHeader(m, at, p);
    FirstValue(m, end, at, p, version);
    if Ambiguous(p) {
      ScanStep(m, end, c, version, Value(cmd, p.values[1]), next);
    } else if |p.values| == 1 {
      ScanStep(m, end, c, version, Value(cmd, p.values[0]), next);
      assert ValuesOf(cmd, p.values) == [Value(cmd, p.values[0])];
    } else {
      ScanSeveral(m, end, at, p, version);
    }
  }

  lemma ScanSeveral(m: Memory, end: nat, at: nat, p: Packed, version: int)
    requires WellFormed(p, version) && p.Values? && !GapRead(p) && !Ambiguous(p) && |p.values| > 1
    requires at + LCP + |Body(p)| <= end
    requires U16(m, at) == LCP + |Body(p)| && U16(m, at + 2) == p.cmd
    requires Holds(m, at + LCP, Body(p))
    ensures var next := Scan(m, end, Cursor(at + LCP + |Body(p)|, None), version);
            Scan(m, end, Cursor(at, None), version) == (ValuesOf(p.cmd, p.values) + next.0, next.1)
  {
    hide Describe, Scan, Holds, Extracted, WellFormed, Body;
    ValuesShape(p, version);
    FirstValue(m, end, at, p, version);
    HoldsParts(m, at + LCP, p.gap, Concat(p.values));
    AllValues(m, end, at, at + LCP + |p.gap|, p.values, version);
  }

  // All values of an event, the first of several at v.
  lemma AllValues(m: Memory, end: nat, at: nat, v: nat, values: seq<seq<byte>>, version: int)
    requires var len, cmd := U16(m, at), U16(m, at + 2);
             var k := Size(KindOf(cmd));
             && KindOf(cmd) != Point && k > 0 && |values| > 1 && (forall w | w in values :: |w| == k)
             && at + LCP <= v && v + |Concat(values)| == at + len <= end && Holds(m, v, Concat(values))
             && Extracted(m, end, Cursor(at, None), version) ==
                Outcome(1, Value(cmd, values[0]), Cursor(at, Some(v + k)))
    ensures var next := Scan(m, end, Cursor(at + U16(m, at), None), version);
            Scan(m, end, Cursor(at, None), version) == (ValuesOf(U16(m, at + 2), values) + next.0, next.1)
  {
    hide Describe, Scan, Holds, Extracted, KindOf, Size, U16;
    var len, cmd := U16(m, at), U16(m, at + 2);
    var k := Size(KindOf(cmd));
    var d := Cursor(at, Some(v + k));
    assert |values[0]| == k && |values[1]| == k && |Concat(values[1..])| >= k;
    HoldsParts(m, v, values[0], Concat(values[1..]));
    ScanStep(m, end, Cursor(at, None), version, Value(cmd, values[0]), d);
    ScanRest(m, end, d, version, values[1..]);
    var rest := Scan(m, end, Cursor(at + len, None), version).0;
    assert ValuesOf(cmd, values) + rest == [Value(cmd, values[0])] + (ValuesOf(cmd, values[1..]) + rest);
  }

  lemma ValuesShape(p: Packed, version: int)
    requires WellFormed(p, version) && p.Values?
    ensures KindOf(p.cmd) != Point && Size(KindOf(p.cmd)) > 0 && |p.values| > 0
    ensures forall v | v in p.values :: |v| == Size(KindOf(p.cmd))
    ensures p.gap == [] || |p.gap| == 4
    ensures Body(p) == p.gap + Concat(p.values) && LCP + |Body(p)| < 65536
  {
    hide KindOf, Size;
  }

  // Where the parts of a point event are.
  lemma HoldsPayload(m: Memory, at: nat, p: Packed)
    requires p.Payload? && Holds(m, at + LCP, Body(p))
    ensures var v := at + LCP + |p.gap|;
            U16(m, v) == p.length && U16(m, v + 2) == p.flags
            && Holds(m, v + 4 + |p.gap2|, p.payload)
            && (|p.gap| >= 4 ==> U16(m, at + LCP) == PairAt(p.gap, 0) && U16(m, at + LCP + 2) == PairAt(p.gap, 2))
  {
    hide Holds;
    var length, flags, v := Pair(p.length), Pair(p.flags), at + LCP + |p.gap|;
    HoldsParts(m, at + LCP, p.gap, length + (flags + (p.gap2 + p.payload)));
    HoldsParts(m, v, length, flags + (p.gap2 + p.payload));
    HoldsParts(m, v + 2, flags, p.gap2 + p.payload);
    HoldsParts(m, v + 4, p.gap2, p.payload);
    HoldsPair(m, v, p.length);
    HoldsPair(m, v + 2, p.flags);
    if |p.gap| >= 4 {
      HoldsPairAt(m, at + LCP, p.gap, 0);
      HoldsPairAt(m, at + LCP, p.gap, 2);
    }
  }

  lemma PointMeant(m: Memory, at: nat, p: Packed, version: int)
    requires WellFormed(p, version) && p.Payload? && Holds(m, at + LCP, Body(p))
    ensures PointEvent(m, LCP + |Body(p)|, p.cmd, at + LCP, version) ==
            if LengthInGap(p) then Misread(p, at) else Meant(p, at)[0]
  {
    hide Describe, Holds, U16, PointEvent;
    if p.gap2 == [] {
      PackedPoint(m, at, p, version);
    } else {
      AlignedPoint(m, at, p, version);
    }
  }

  // The length that is left for the payload is that of the payload.
  lemma PackedPoint(m: Memory, at: nat, p: Packed, version: int)
    requires WellFormed(p, version) && p.Payload? && p.gap2 == [] && Holds(m, at + LCP, Body(p))
    ensures PointEvent(m, LCP + |Body(p)|, p.cmd, at + LCP, version) == Meant(p, at)[0]
  {
    hide Describe, Holds, U16;
    HoldsPayload(m, at, p);
    assert (LCP + |Body(p)| - (FixedLen(p.cmd, version) + LCP)) % UNSIGNED == |p.payload|;
  }

  // It is eight more with both gaps.
  lemma AlignedPoint(m: Memory, at: nat, p: Packed, version: int)
    requires WellFormed(p, version) && p.Payload? && p.gap2 != [] && Holds(m, at + LCP, Body(p))
    ensures PointEvent(m, LCP + |Body(p)|, p.cmd, at + LCP, version) ==
            if LengthInGap(p) then Misread(p, at) else Meant(p, at)[0]
  {
    hide Describe, Holds, U16;
    HoldsPayload(m, at, p);
    assert (LCP + |Body(p)| - (FixedLen(p.cmd, version) + LCP)) % UNSIGNED == 8 + |p.payload|;
  }

  lemma ScanPayload(m: Memory, end: nat, at: nat, p: Packed, version: int)
    requires WellFormed(p, version) && p.Payload?
    requires Holds(m, at, Bytes(p)) && at + |Bytes(p)| <= end
    ensures var next := Scan(m, end, Cursor(at + |Bytes(p)|, None), version);
            Scan(m, end, Cursor(at, None), version) == (Decoded(p, at) + next.0, next.1)
  {
    hide Scan, Holds, Describe, PointEvent, LengthInGap, Misread;
    HoldsHeader(m, at, p);
    PointMeant(m, at, p, version);
    ScanStep(m, end, Cursor(at, None), version, Decoded(p, at)[0], Cursor(at + |Bytes(p)|, None));
  }

  lemma ScanOther(m: Memory, end: nat, at: nat, p: Packed, version: int)
    requires WellFormed(p, version) && p.Other?
    requires Holds(m, at, Bytes(p)) && at + |Bytes(p)| <= end
    ensures var next := Scan(m, end, Cursor(at + |Bytes(p)|, None), version);
            Scan(m, end, Cursor(at, None), version) == (Decoded(p, at) + next.0, next.1)
  {
    hide Scan, Holds, Describe;
    HoldsHeader(m, at, p);
    ScanStep(m, end, Cursor(at, None), version, Header(p.cmd), Cursor(at + |Bytes(p)|, None));
  }

  // ----- whole streams

  function Stream(ps: seq<Packed>): seq<byte> {
    if ps == [] then [] else Bytes(ps[0]) + Stream(ps[1..])
  }

  function AllDecoded(ps: seq<Packed>, at: nat): seq<Event> {
    if ps == [] then [] else Decoded(ps[0], at) + AllDecoded(ps[1..], at + |Bytes(ps[0])|)
  }

  // A stream of well-formed events is scanned to its end.
  lemma {:induction false} ScanStream(m: Memory, at: nat, ps: seq<Packed>, version: int)
    requires forall p | p in ps :: WellFormed(p, version)
    requires Holds(m, at, Stream(ps))
    ensures Scan(m, at + |Stream(ps)|, Cursor(at, None), version) == (AllDecoded(ps, at), 0)
    decreases |ps|
  {
    hide Scan, WellFormed, Holds, Decoded, Bytes, Within;
    var end := at + |Stream(ps)|;
    if ps == [] {
      ScanNothing(m, at, version);
    } else {
      var p, rest := ps[0], Stream(ps[1..]);
      assert WellFormed(p, version) && forall q | q in ps[1..] :: WellFormed(q, version);
      HoldsParts(m, at, Bytes(p), rest);
      ScanStream(m, at + |Bytes(p)|, ps[1..], version);
      ScanFirst(m, end, at, p, version);
    }
  }

  lemma ScanNothing(m: Memory, at: nat, version: int)
    ensures Scan(m, at, Cursor(at, None), version) == ([], 0)
  {
  }

  lemma ScanFirst(m: Memory, end: nat, at: nat, p: Packed, version: int)
    requires WellFormed(p, version) && Holds(m, at, Bytes(p)) && at + |Bytes(p)| <= end
    ensures var next := Scan(m, end, Cursor(at + |Bytes(p)|, None), version);
            Scan(m, end, Cursor(at, None), version) == (Decoded(p, at) + next.0, next.1)
  {
    hide Scan, Holds, Decoded;
    match p
    case Values(_, _, _) => ScanValues(m, end, at, p, version);
    case Payload(_, _, _, _, _, _) => ScanPayload(m, end, at, p, version);
    case Other(_, _) => ScanOther(m, end, at, p, version);
  }

  // What the receiver of an event reads, and what the kernel sent.
  datatype Item =
    | One(cmd: nat, value: seq<byte>)
    | Many(cmd: nat, length: nat, flags: nat, tokens: seq<byte>)
    | Unknown(cmd: nat)

  function Read(m: Memory, e: Event): Item {
    match e
    case Nothing => Unknown(0)
    case Header(cmd) => Unknown(cmd)
    case Value(cmd, bytes) => One(cmd, bytes)
    case Data(cmd, length, flags, pointer) =>
      var d := Describe(cmd);
      Many(cmd, length, flags,
           if pointer.Some? && d.Some? then Copy(m, pointer.value, length * d.value.tokenSize) else [])
  }

  function ReadAll(m: Memory, es: seq<Event>): (items: seq<Item>)
    ensures |items| == |es| && forall i | 0 <= i < |es| :: items[i] == Read(m, es[i])
  {
    seq(|es|, i requires 0 <= i < |es| => Read(m, es[i]))
  }

  function Sent(p: Packed): (items: seq<Item>) {
    match p
    case Values(cmd, _, values) => seq(|values|, i requires 0 <= i < |values| => One(cmd, values[i]))
    case Payload(cmd, _, length, flags, _, payload) => [Many(cmd, length, flags, payload)]
    case Other(cmd, _) => [Unknown(cmd)]
  }

  function AllSent(ps: seq<Packed>): seq<Item> {
    if ps == [] then [] else Sent(ps[0]) + AllSent(ps[1..])
  }

  lemma {:induction false} ValuesAt(cmd: nat, values: seq<seq<byte>>, i: nat)
    requires i < |values|
    ensures ValuesOf(cmd, values)[i] == Value(cmd, values[i])
  {
    if i > 0 { ValuesAt(cmd, values[1..], i - 1); }
  }

  lemma ReadsValues(m: Memory, cmd: Short, values: seq<seq<byte>>)
    ensures ReadAll(m, ValuesOf(cmd, values)) == seq(|values|, i requires 0 <= i < |values| => One(cmd, values[i]))
  {
    forall i | 0 <= i < |values|
      ensures ValuesOf(cmd, values)[i] == Value(cmd, values[i])
    {
      ValuesAt(cmd, values, i);
    }
  }

  lemma ReadsPayload(m: Memory, at: nat, p: Packed, version: int)
    requires WellFormed(p, version) && p.Payload? && Holds(m, at, Bytes(p))
    ensures Read(m, Meant(p, at)[0]) == Many(p.cmd, p.length, p.flags, p.payload)
  {
    hide Describe, Holds;
    HoldsHeader(m, at, p);
    HoldsPayload(m, at, p);
    HoldsCopy(m, at + 8 + |p.gap| + |p.gap2|, p.payload);
  }

  // None of the three kinds that are taken for something else.
  predicate Plain(p: Packed) { !Ambiguous(p) && !GapRead(p) && !LengthInGap(p) }

  // A gap that is a length is never the length that was sent.
  lemma ReadsOther(m: Memory, at: nat, p: Packed, version: int)
    requires WellFormed(p, version) && LengthInGap(p)
    ensures Read(m, Misread(p, at)) != Many(p.cmd, p.length, p.flags, p.payload)
  {
    hide Describe, Copy;
    assert PairAt(p.gap, 0) != p.length;
  }

  // Everything that was sent is read, but an ambiguous event loses a value, one whose gap is read gains one,
  // and a point with a length in its gap reads differently.
  lemma ReadsSent(m: Memory, at: nat, p: Packed, version: int)
    requires WellFormed(p, version) && Holds(m, at, Bytes(p))
    ensures ReadAll(m, Decoded(p, at)) == Sent(p) <==> Plain(p)
    ensures |Decoded(p, at)| == |Sent(p)| + (if Ambiguous(p) then -1 else if GapRead(p) then 1 else 0)
  {
    hide Describe, Holds, WellFormed, Copy;
    match p
    case Values(cmd, _, values) => ReadsValues(m, cmd, values);
    case Payload(cmd, _, length, flags, _, payload) =>
      if LengthInGap(p) {
        ReadsOther(m, at, p, version);
        assert ReadAll(m, Decoded(p, at))[0] != Sent(p)[0];
      } else {
        ReadsPayload(m, at, p, version);
      }
    case Other(_, _) =>
  }

  lemma ReadAllConcat(m: Memory, a: seq<Event>, b: seq<Event>)
    ensures ReadAll(m, a + b) == ReadAll(m, a) + ReadAll(m, b)
  {
  }

  lemma Parts<T>(a: seq<T>, b: seq<T>, c: seq<T>, d: seq<T>)
    requires |a| == |c|
    ensures a + b == c + d <==> a == c && b == d
  {
    if a + b == c + d {
      assert a == (a + b)[..|a|] == (c + d)[..|a|] == c;
      assert b == (a + b)[|a|..] == (c + d)[|a|..] == d;
    }
  }

  // Values that are lost and gaps that are read do not make up for each other if the stream has only one kind.
  predicate OneKind(ps: seq<Packed>) { (forall p | p in ps :: !GapRead(p)) || (forall p | p in ps :: !Ambiguous(p)) }

  lemma {:induction false} AllRead(m: Memory, at: nat, ps: seq<Packed>, version: int)
    requires (forall p | p in ps :: WellFormed(p, version)) && OneKind(ps) && Holds(m, at, Stream(ps))
    ensures (forall p | p in ps :: !GapRead(p)) ==> |AllDecoded(ps, at)| <= |AllSent(ps)|
    ensures (forall p | p in ps :: !Ambiguous(p)) ==> |AllDecoded(ps, at)| >= |AllSent(ps)|
    ensures ReadAll(m, AllDecoded(ps, at)) == AllSent(ps) <==> forall p | p in ps :: Plain(p)
    decreases |ps|
  {
    hide WellFormed, Holds, Decoded, Ambiguous, GapRead, Plain, Sent, Bytes;
    if ps != [] {
      var p, next := ps[0], at + |Bytes(ps[0])|;
      PlainParts(p);
      assert forall q :: q in ps <==> q == p || q in ps[1..];
      HoldsParts(m, at, Bytes(p), Stream(ps[1..]));
      AllRead(m, next, ps[1..], version);
      ReadsSent(m, at, p, version);
      var first, rest := ReadAll(m, Decoded(p, at)), ReadAll(m, AllDecoded(ps[1..], next));
      ReadAllConcat(m, Decoded(p, at), AllDecoded(ps[1..], next));
      if |Decoded(p, at)| == |Sent(p)| {
        Parts(first, rest, Sent(p), AllSent(ps[1..]));
      }
    }
  }

  lemma PlainParts(p: Packed)
    ensures Plain(p) ==> !Ambiguous(p) && !GapRead(p)
  {
  }

  // With both kinds in one stream they can: a lost value that a gap repeats.
  lemma GapMakesUp(m: Memory, at: nat, cmd: Short, x: seq<byte>, a: seq<byte>, b: seq<byte>, version: int)
    requires KindOf(cmd) != Point && Size(KindOf(cmd)) == 4 && |x| == |a| == |b| == 4
    ensures var ps := [Values(cmd, [], [x, x]), Values(cmd, x, [a, b])];
            && (forall p | p in ps :: WellFormed(p, version)) && Ambiguous(ps[0]) && GapRead(ps[1])
            && ReadAll(m, AllDecoded(ps, at)) == AllSent(ps)
  {
    hide KindOf, Size, WellFormed, Bytes, Decoded, Sent, Ambiguous, GapRead;
    var p, q := Values(cmd, [], [x, x]), Values(cmd, x, [a, b]);
    PairsWellFormed(cmd, x, a, b, version);
    var next := at + |Bytes(p)|;
    AllOfTwo(p, q, at);
    ReadAllConcat(m, Decoded(p, at), Decoded(q, next));
    PairsRead(m, at, next, cmd, x, a, b);
  }

  lemma AllOfTwo(p: Packed, q: Packed, at: nat)
    ensures AllDecoded([p, q], at) == Decoded(p, at) + Decoded(q, at + |Bytes(p)|)
    ensures AllSent([p, q]) == Sent(p) + Sent(q)
  {
    hide Decoded, Sent, Bytes;
    var next, after := at + |Bytes(p)|, at + |Bytes(p)| + |Bytes(q)|;
    assert [p, q][1..] == [q] && [q][1..] == [];
    assert AllDecoded([], after) == [] && AllSent([]) == [];
    assert AllDecoded([q], next) == Decoded(q, next) + AllDecoded([], after);
    assert AllSent([q]) == Sent(q) + AllSent([]);
  }

  lemma PairsWellFormed(cmd: Short, x: seq<byte>, a: seq<byte>, b: seq<byte>, version: int)
    requires KindOf(cmd) != Point && Size(KindOf(cmd)) == 4 && |x| == |a| == |b| == 4
    ensures WellFormed(Values(cmd, [], [x, x]), version) && Ambiguous(Values(cmd, [], [x, x]))
    ensures WellFormed(Values(cmd, x, [a, b]), version) && GapRead(Values(cmd, x, [a, b]))
  {
    hide KindOf, Size;
    assert [x, x][1..] == [x] && [x][1..] == [] && [a, b][1..] == [b] && [b][1..] == [];
    assert Concat([x]) == x && Concat([b]) == b && |Concat([x, x])| == 8 && |Concat([a, b])| == 8;
  }

  lemma PairsRead(m: Memory, at: nat, next: nat, cmd: Short, x: seq<byte>, a: seq<byte>, b: seq<byte>)
    requires Size(KindOf(cmd)) == 4 && |x| == |a| == |b| == 4
    ensures var p, q := Values(cmd, [], [x, x]), Values(cmd, x, [a, b]);
            ReadAll(m, Decoded(p, at)) + ReadAll(m, Decoded(q, next)) == Sent(p) + Sent(q)
  {
    hide KindOf, Size, ValuesOf, ReadAll;
    var p, q := Values(cmd, [], [x, x]), Values(cmd, x, [a, b]);
    ReadsValues(m, cmd, [x] + [a, b]);
    ReadsValues(m, cmd, [x]);
    assert ValuesOf(cmd, [x]) == [Value(cmd, x)] by { ValuesAt(cmd, [x], 0); }
    assert Decoded(p, at) == ValuesOf(cmd, [x]) && Decoded(q, next) == ValuesOf(cmd, [x] + [a, b]);
    assert ReadAll(m, Decoded(p, at)) == [One(cmd, x)];
    assert ReadAll(m, Decoded(q, next)) == [One(cmd, x), One(cmd, a), One(cmd, b)];
    assert Sent(p) == [One(cmd, x), One(cmd, x)] && Sent(q) == [One(cmd, a), One(cmd, b)];
  }

  // The results of a scan are what every event decodes to, up to the end. Unless the stream has both events
  // that lose a value and events whose gap is read as one, they are read back as they were sent exactly if it
  // has neither, nor points with a length in the gap.
  lemma ScanReadsBackIff(m: Memory, at: nat, ps: seq<Packed>, version: int)
    requires forall p | p in ps :: WellFormed(p, version)
    requires Holds(m, at, Stream(ps))
    ensures var (events, ret) := Scan(m, at + |Stream(ps)|, Cursor(at, None), version);
            && ret == 0 && events == AllDecoded(ps, at)
            && (OneKind(ps) ==> (ReadAll(m, events) == AllSent(ps) <==> forall p | p in ps :: Plain(p)))
  {
    hide Scan, WellFormed, Holds, Plain, OneKind, Stream, AllDecoded, AllSent;
    ScanStream(m, at, ps, version);
    if OneKind(ps) {
      AllRead(m, at, ps, version);
    }
  }
}
