// The commands of the wireless extensions with their codes, and what a scan returns for an event of each.

module EventCommands {
  import opened Division
  import opened Options
  import opened EventStream
  import opened EventPacking

  // How many bytes one value of the command has, for those that carry values.
  function ValueBytes(cmd: nat): nat {
    match cmd
    case 0x8B01 => 16                              // SIOCGIWNAME
    case 0x8B02 => 8 case 0x8B03 => 8              // SIOCSIWNWID, SIOCGIWNWID
    case 0x8B04 => 8 case 0x8B05 => 8              // SIOCSIWFREQ, SIOCGIWFREQ
    case 0x8B06 => 4 case 0x8B07 => 4              // SIOCSIWMODE, SIOCGIWMODE
    case 0x8B08 => 8 case 0x8B09 => 8              // SIOCSIWSENS, SIOCGIWSENS
    case 0x8B14 => 16 case 0x8B15 => 16            // SIOCSIWAP, SIOCGIWAP
    case 0x8B20 => 8 case 0x8B21 => 8              // SIOCSIWRATE, SIOCGIWRATE
    case 0x8B22 => 8 case 0x8B23 => 8              // SIOCSIWRTS, SIOCGIWRTS
    case 0x8B24 => 8 case 0x8B25 => 8              // SIOCSIWFRAG, SIOCGIWFRAG
    case 0x8B26 => 8 case 0x8B27 => 8              // SIOCSIWTXPOW, SIOCGIWTXPOW
    case 0x8B28 => 8 case 0x8B29 => 8              // SIOCSIWRETRY, SIOCGIWRETRY
    case 0x8B2C => 8 case 0x8B2D => 8              // SIOCSIWPOWER, SIOCGIWPOWER
    case 0x8B2E => 8 case 0x8B2F => 8              // SIOCSIWMODUL, SIOCGIWMODUL
    case 0x8B32 => 8 case 0x8B33 => 8              // SIOCSIWAUTH, SIOCGIWAUTH
    case 0x8C00 => 16                              // IWEVTXDROP
    case 0x8C01 => 4                               // IWEVQUAL
    case 0x8C03 => 16 case 0x8C04 => 16            // IWEVREGISTERED, IWEVEXPIRED
    case _ => 0
  }

  // The bytes of a token, the least and the most tokens, and whether there may be more.
  datatype Bounds = Bounds(size: nat, least: nat, most: nat, more: bool)

  // For the commands that carry tokens.
  function TokenBounds(cmd: nat): Option<Bounds> {
    match cmd
    case 0x8B0B => Some(Bounds(1, 0, 588, false))  // SIOCGIWRANGE, struct iw_range
    case 0x8B10 => Some(Bounds(16, 0, 8, false))   // SIOCSIWSPY
    case 0x8B11 => Some(Bounds(20, 0, 8, false))   // SIOCGIWSPY
    case 0x8B12 => Some(Bounds(28, 1, 1, false))   // SIOCSIWTHRSPY
    case 0x8B13 => Some(Bounds(28, 1, 1, false))   // SIOCGIWTHRSPY
    case 0x8B16 => Some(Bounds(1, 20, 20, false))  // SIOCSIWMLME
    case 0x8B17 => Some(Bounds(20, 0, 64, true))   // SIOCGIWAPLIST
    case 0x8B18 => Some(Bounds(1, 0, 316, false))  // SIOCSIWSCAN, struct iw_scan_req
    case 0x8B19 => Some(Bounds(1, 0, 4096, true))  // SIOCGIWSCAN
    case 0x8B1A => Some(Bounds(1, 0, 33, false))   // SIOCSIWESSID
    case 0x8B1B => Some(Bounds(1, 0, 33, false))   // SIOCGIWESSID
    case 0x8B1C => Some(Bounds(1, 0, 33, false))   // SIOCSIWNICKN
    case 0x8B1D => Some(Bounds(1, 0, 33, false))   // SIOCGIWNICKN
    case 0x8B2A => Some(Bounds(1, 0, 64, false))   // SIOCSIWENCODE
    case 0x8B2B => Some(Bounds(1, 0, 64, false))   // SIOCGIWENCODE
    case 0x8B30 => Some(Bounds(1, 0, 1024, false)) // SIOCSIWGENIE
    case 0x8B31 => Some(Bounds(1, 0, 1024, false)) // SIOCGIWGENIE
    case 0x8B34 => Some(Bounds(1, 40, 104, false)) // SIOCSIWENCODEEXT
    case 0x8B35 => Some(Bounds(1, 40, 104, false)) // SIOCGIWENCODEEXT
    case 0x8B36 => Some(Bounds(1, 36, 36, false))  // SIOCSIWPMKSA
    case 0x8C02 => Some(Bounds(1, 0, 256, false))  // IWEVCUSTOM
    case 0x8C05 => Some(Bounds(1, 0, 1024, false)) // IWEVGENIE
    case 0x8C06 => Some(Bounds(1, 0, 28, false))   // IWEVMICHAELMICFAILURE
    case 0x8C07 => Some(Bounds(1, 0, 1024, false)) // IWEVASSOCREQIE
    case 0x8C08 => Some(Bounds(1, 0, 1024, false)) // IWEVASSOCRESPIE
    case 0x8C09 => Some(Bounds(1, 0, 24, false))   // IWEVPMKIDCAND
    case _ => None
  }

  // Both tables of the source say the same.
  lemma TablesAgree(cmd: nat)
    ensures ValueBytes(cmd) == if KindOf(cmd) == Point then 0 else Size(KindOf(cmd))
    ensures TokenBounds(cmd).Some? <==> KindOf(cmd) == Point
    ensures match TokenBounds(cmd)
            case Some(b) =>
              Describe(cmd) == Some(Description(Point, b.size, b.least, b.most, b.more)) && b.size > 0
            case None => true
  {
  }

  // ----- the bytes of an event

  // Length and command, the low byte of each first.
  function EventBytes(cmd: nat, body: seq<byte>): seq<byte> {
    var len := 4 + |body|;
    [(len % 256) as byte, (len / 256 % 256) as byte, (cmd % 256) as byte, (cmd / 256 % 256) as byte] + body
  }

  // What a scan returns for the bytes, wherever they are, as events and at last the code 0.
  ghost predicate Scanned(m: Memory, at: nat, bytes: seq<byte>, version: int, events: seq<Event>) {
    Scan(m, at + |bytes|, Cursor(at, None), version) == (events, 0)
  }

  ghost predicate There(m: Memory, at: nat, bytes: seq<byte>) { forall i | 0 <= i < |bytes| :: m(at + i) == bytes[i] }

  lemma OneIsScanned(m: Memory, at: nat, p: Packed, version: int)
    requires WellFormed(p, version) && There(m, at, Bytes(p))
    ensures Scanned(m, at, Bytes(p), version, Decoded(p, at))
  {
    hide Scan, WellFormed, Decoded, Bytes;
    assert Stream([p]) == Bytes(p) + Stream([]) && Stream([]) == [];
    assert Bytes(p) + [] == Bytes(p) && Stream([p]) == Bytes(p);
    ScanStream(m, at, [p], version);
    assert AllDecoded([p], at) == Decoded(p, at) + AllDecoded([], at + |Bytes(p)|);
    assert AllDecoded([], at + |Bytes(p)|) == [] && Decoded(p, at) + [] == Decoded(p, at);
  }

  lemma EventIsBytes(p: Packed)
    ensures EventBytes(p.cmd, Body(p)) == Bytes(p)
  {
    hide Body;
  }

  // One value of the length of its command comes out whole, whatever its bytes are.
  lemma ValueScanned(m: Memory, at: nat, cmd: Short, value: seq<byte>, version: int)
    requires ValueBytes(cmd) > 0 && |value| == ValueBytes(cmd) && There(m, at, EventBytes(cmd, value))
    ensures Scanned(m, at, EventBytes(cmd, value), version, [Value(cmd, value)])
  {
    hide Describe, KindOf, Size, Scanned, Scan;
    TablesAgree(cmd);
    var p := Values(cmd, [], [value]);
    assert Concat([value]) == value && Body(p) == value;
    EventIsBytes(p);
    ValuesBound(cmd);
    OneIsScanned(m, at, p, version);
    assert ValuesOf(cmd, [value]) == [Value(cmd, value)];
  }

  lemma ValuesBound(cmd: nat)
    ensures ValueBytes(cmd) <= 16
  {
  }

  // Of several values all come out, but for two of four bytes.
  lemma ValuesScanned(m: Memory, at: nat, cmd: Short, values: seq<seq<byte>>, version: int)
    requires ValueBytes(cmd) > 0 && (forall v | v in values :: |v| == ValueBytes(cmd)) && values != []
    requires 4 + |Concat(values)| < 65536 && !(ValueBytes(cmd) == 4 && |values| == 2)
    requires There(m, at, EventBytes(cmd, Concat(values)))
    ensures Scanned(m, at, EventBytes(cmd, Concat(values)), version, ValuesOf(cmd, values))
  {
    hide Describe, KindOf, Size, Scanned, Scan;
    TablesAgree(cmd);
    var p := Values(cmd, [], values);
    assert Body(p) == Concat(values);
    assert |values[0]| == ValueBytes(cmd);
    EventIsBytes(p);
    OneIsScanned(m, at, p, version);
  }

  // Up to version 18 there is a pointer in front of length and flags.
  predicate IsPointer(pointer: seq<byte>, version: int) { |pointer| == if version <= 18 then 4 else 0 }

  function TokenEvent(cmd: nat, pointer: seq<byte>, length: nat, flags: nat, payload: seq<byte>): seq<byte> {
    EventBytes(cmd, pointer + ([(length % 256) as byte, (length / 256 % 256) as byte] +
                               ([(flags % 256) as byte, (flags / 256 % 256) as byte] + payload)))
  }

  // Tokens within the bounds of the command are found behind length and flags.
  lemma TokensScanned(m: Memory, at: nat, cmd: Short, pointer: seq<byte>, length: Short, flags: Short,
                      payload: seq<byte>, version: int)
    requires TokenBounds(cmd).Some? && IsPointer(pointer, version) && 8 + |pointer| + |payload| < 65536
    requires var b := TokenBounds(cmd).value;
             |payload| == length * b.size && b.least <= length && (length <= b.most || b.more)
    requires There(m, at, TokenEvent(cmd, pointer, length, flags, payload))
    ensures Scanned(m, at, TokenEvent(cmd, pointer, length, flags, payload), version,
                    [Data(cmd, length, flags, if payload == [] then None else Some(at + 8 + |pointer|))])
  {
    hide Describe, KindOf, Size, Scanned, Scan;
    TablesAgree(cmd);
    var p := Payload(cmd, pointer, length, flags, [], payload);
    assert [] + payload == payload;
    EventIsBytes(p);
    OneIsScanned(m, at, p, version);
  }

  // Tokens that are too few or too many are not handed on.
  lemma TokensDiscarded(m: Memory, at: nat, cmd: Short, pointer: seq<byte>, length: Short, flags: Short,
                        payload: seq<byte>, version: int)
    requires TokenBounds(cmd).Some? && IsPointer(pointer, version) && 8 + |pointer| + |payload| < 65536
    requires var b := TokenBounds(cmd).value;
             |payload| == length * b.size && payload != [] && (length < b.least || (length > b.most && !b.more))
    requires There(m, at, TokenEvent(cmd, pointer, length, flags, payload))
    ensures var bytes := TokenEvent(cmd, pointer, length, flags, payload);
            Extracted(m, at + |bytes|, Cursor(at, None), version) ==
            Outcome(1, Data(cmd, length, flags, None), Cursor(at + |bytes|, None))
  {
    hide Describe, KindOf, Size, U16, PointEvent;
    TablesAgree(cmd);
    var p := Payload(cmd, pointer, length, flags, [], payload);
    assert [] + payload == payload;
    EventIsBytes(p);
    HoldsHeader(m, at, p);
    PointSize();
    DiscardedPoint(m, at, p, version);
  }

  lemma PointSize()
    ensures Size(Point) == 4
  {
  }

  lemma DiscardedPoint(m: Memory, at: nat, p: Packed, version: int)
    requires p.Payload? && p.gap2 == [] && IsPointer(p.gap, version) && KindOf(p.cmd) == Point
    requires Holds(m, at + LCP, Body(p)) && 8 + |p.gap| + |p.payload| < 65536
    requires var d := Describe(p.cmd).value;
             |p.payload| == p.length * d.tokenSize && p.payload != []
             && (p.length < d.minTokens || (p.length > d.maxTokens && !d.noMax))
    ensures PointEvent(m, LCP + |Body(p)|, p.cmd, at + LCP, version) == Data(p.cmd, p.length, p.flags, None)
  {
    hide Describe, Holds, U16, Body, FixedLen, KindOf;
    HoldsPayload(m, at, p);
    BodySize(p, version);
  }

  lemma BodySize(p: Packed, version: int)
    requires p.Payload? && p.gap2 == [] && IsPointer(p.gap, version) && KindOf(p.cmd) == Point
    ensures FixedLen(p.cmd, version) == 4 + |p.gap| && |Body(p)| == FixedLen(p.cmd, version) + |p.payload|
  {
    hide KindOf;
  }

  // Other commands give their header.
  lemma HeaderScanned(m: Memory, at: nat, cmd: Short, body: seq<byte>, version: int)
    requires ValueBytes(cmd) == 0 && TokenBounds(cmd).None? && 0 < |body| && 4 + |body| < 65536
    requires There(m, at, EventBytes(cmd, body))
    ensures Scanned(m, at, EventBytes(cmd, body), version, [Header(cmd)])
  {
    hide Describe, KindOf, Size, Scanned, Scan;
    TablesAgree(cmd);
    EventIsBytes(Other(cmd, body));
    OneIsScanned(m, at, Other(cmd, body), version);
  }

  // ----- what an extraction returns

  // How many bytes of the body are looked at in any case.
  function FixedBytes(cmd: nat, version: int): nat {
    if TokenBounds(cmd).Some? then if version <= 18 then 8 else 4 else ValueBytes(cmd)
  }

  lemma SameFixed(cmd: nat, version: int)
    ensures FixedBytes(cmd, version) == FixedLen(cmd, version)
  {
    TablesAgree(cmd);
  }

  // In front of an event the end of the data is 0, a length of 4 or less is -1, a command without body is 2, and
  // one whose body is not all there is -2; what was returned for is passed over but at the end and at a bad
  // length.
  lemma Returns(m: Memory, end: nat, at: nat, version: int)
    ensures var o := Extracted(m, end, Cursor(at, None), version);
            var len := m(at) as nat + 256 * m(at + 1) as nat;
            var cmd := m(at + 2) as nat + 256 * m(at + 3) as nat;
            && o.ret == (if at + 4 > end then 0 else if len <= 4 then -1 else if FixedBytes(cmd, version) == 0 then 2
                         else if at + 4 + FixedBytes(cmd, version) > end then -2 else 1)
            && (o.ret == 0 || o.ret == -1 ==> o.cursor == Cursor(at, None))
            && (o.ret == 2 || o.ret == -2 ==> o.cursor == Cursor(at + len, None) && o.event == Header(cmd))
  {
    hide Describe, KindOf, Size, PointEvent, FixedLen, FixedBytes, TokenBounds;
    SameFixed(m(at + 2) as nat + 256 * m(at + 3) as nat, version);
  }
}
