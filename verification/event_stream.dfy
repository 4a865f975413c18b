// iw_extract_event_stream: a cursor over packed wireless events, most of which hold several values.

module EventStream {
  import opened Options

  newtype byte = x: int | 0 <= x < 256

  // What can be read from an address on. The code may look past the end of the stream.
  type Memory = nat -> byte

  const LCP := 4         // IW_EV_LCP_PK_LEN, the packed header
  const POINT_OFF := 4   // the pointer of struct iw_point, on a machine with 32-bit pointers
  const UNSIGNED := 0x1_0000_0000

  // ----- the tables of known commands

  datatype Kind = Null | Char | Uint | Freq | Addr | Point | Param | Qual

  datatype Description = Description(kind: Kind, tokenSize: nat, minTokens: nat, maxTokens: nat, noMax: bool)

  function Plain(kind: Kind): Description { Description(kind, 0, 0, 0, false) }

  function Tokens(size: nat, least: nat, most: nat): Description { Description(Point, size, least, most, false) }

  function Unlimited(size: nat, most: nat): Description { Description(Point, size, 0, most, true) }

  // standard_ioctl_descr from SIOCIWFIRST, standard_event_descr from IWEVFIRST
  function Describe(cmd: nat): (d: Option<Description>)
    ensures d.Some? && d.value.kind == Point ==> d.value.tokenSize <= 28
  {
    if cmd <= 0x8BFF then
      if cmd < 0x8B00 || cmd > 0x8B36 then None else Some(DescribeRequest(cmd - 0x8B00))
    else
      if cmd < 0x8C00 || cmd > 0x8C09 then None else Some(DescribeEvent(cmd - 0x8C00))
  }

  function DescribeRequest(i: nat): (d: Description)
    ensures d.tokenSize <= 28
  {
    if i == 0x00 then Plain(Null)
    else if i == 0x01 then Plain(Char)
    else if i <= 0x03 then Plain(Param)
    else if i <= 0x05 then Plain(Freq)
    else if i <= 0x07 then Plain(Uint)
    else if i <= 0x09 then Plain(Param)
    else if i == 0x0A then Plain(Null)
    else if i == 0x0B then Tokens(1, 0, 588)
    else if i <= 0x0F then Plain(Null)
    else if i == 0x10 then Tokens(16, 0, 8)
    else if i == 0x11 then Tokens(20, 0, 8)
    else if i <= 0x13 then Tokens(28, 1, 1)
    else if i <= 0x15 then Plain(Addr)
    else if i == 0x16 then Tokens(1, 20, 20)
    else if i == 0x17 then Unlimited(20, 64)
    else if i == 0x18 then Tokens(1, 0, 316)
    else if i == 0x19 then Unlimited(1, 4096)
    else if i <= 0x1D then Tokens(1, 0, 33)
    else if i <= 0x1F then Plain(Null)
    else if i <= 0x29 then Plain(Param)
    else if i <= 0x2B then Tokens(1, 0, 64)
    else if i <= 0x2F then Plain(Param)
    else if i <= 0x31 then Tokens(1, 0, 1024)
    else if i <= 0x33 then Plain(Param)
    else if i <= 0x35 then Tokens(1, 40, 104)
    else Tokens(1, 36, 36)
  }

  function DescribeEvent(i: nat): (d: Description)
    ensures d.tokenSize <= 28
  {
    match i
    case 0 => Plain(Addr)
    case 1 => Plain(Qual)
    case 2 => Tokens(1, 0, 256)
    case 3 => Plain(Addr)
    case 4 => Plain(Addr)
    case 5 => Tokens(1, 0, 1024)
    case 6 => Tokens(1, 0, 28)
    case 7 => Tokens(1, 0, 1024)
    case 8 => Tokens(1, 0, 1024)
    case _ => Tokens(1, 0, 24)
  }

  function KindOf(cmd: nat): Kind {
    var d := Describe(cmd);
    if d.Some? then d.value.kind else Null
  }

  // event_type_size without the header
  function Size(kind: Kind): nat {
    match kind
    case Null => 0
    case Char => 16
    case Uint => 4
    case Freq => 8
    case Addr => 16
    case Point => 4
    case Param => 8
    case Qual => 4
  }

  // The length of the fixed part; up to version 18 a pointer comes before that of a point event.
  function FixedLen(cmd: nat, version: int): nat {
    if version <= 18 && KindOf(cmd) == Point then Size(Point) + POINT_OFF else Size(KindOf(cmd))
  }

  // ----- reading

  function U16(m: Memory, at: nat): (n: nat)
    ensures n < 65536
  {
    m(at) as nat + 256 * m(at + 1) as nat
  }

  function Copy(m: Memory, at: nat, n: nat): (s: seq<byte>)
    ensures |s| == n && forall i | 0 <= i < n :: s[i] == m(at + i)
  {
    seq(n, i requires 0 <= i => m(at + i))
  }

  datatype Cursor = Cursor(current: nat, value: Option<nat>)

  // The parts of struct iw_event that an extraction sets.
  datatype Event =
    | Nothing
    | Header(cmd: nat)
    | Value(cmd: nat, bytes: seq<byte>)
    | Data(cmd: nat, length: nat, flags: nat, pointer: Option<nat>)

  datatype Outcome = Outcome(ret: int, event: Event, cursor: Cursor)

  // ----- what one extraction does

  function Extracted(m: Memory, end: nat, c: Cursor, version: int): Outcome {
    if c.current + LCP > end then Outcome(0, Nothing, c)
    else
      var len, cmd := U16(m, c.current), U16(m, c.current + 2);
      var k := FixedLen(cmd, version);
      if len <= LCP then Outcome(-1, Header(cmd), c)
      else if k == 0 then Outcome(2, Header(cmd), c.(current := c.current + len))
      else
        var pointer := if c.value.Some? then c.value.value else c.current + LCP;
        if pointer + k > end then Outcome(-2, Header(cmd), c.(current := c.current + len))
        else if KindOf(cmd) == Point then
          Outcome(1, PointEvent(m, len, cmd, pointer, version), c.(current := c.current + len))
        else ValueEvent(m, c, len, cmd, pointer)
  }

  // One value, and the cursor on the next one or behind the event. The first value of an event is moved by
  // four bytes if a 64-bit kernel seems to have aligned it.
  function ValueEvent(m: Memory, c: Cursor, len: nat, cmd: nat, pointer: nat): Outcome
    requires len > LCP && Size(KindOf(cmd)) > 0
  {
    var k := Size(KindOf(cmd));
    var at := if c.value.None? && Shifted(len, KindOf(cmd)) then pointer + 4 else pointer;
    Outcome(1, Value(cmd, Copy(m, at, k)),
            if at + 2 * k <= c.current + len then c.(value := Some(at + k))
            else Cursor(c.current + len, None))
  }

  predicate Shifted(len: nat, kind: Kind)
    requires len > LCP && Size(kind) > 0
  {
    (len - LCP) % Size(kind) == 4 || (len == 12 && (kind == Uint || kind == Qual))
  }

  // The length and the flags, and where the payload is if there is one that can be trusted.
  function PointEvent(m: Memory, len: nat, cmd: nat, fixed: nat, version: int): Event
    requires KindOf(cmd) == Point
  {
    var k := FixedLen(cmd, version);
    var d := Describe(cmd).value;
    var at := if version > 18 then fixed else fixed + POINT_OFF;
    var pointer := fixed + k;
    var extra := (len - (k + LCP)) % UNSIGNED;
    if extra == 0 then Data(cmd, U16(m, at), U16(m, at + 2), None)
    else if U16(m, at) * d.tokenSize != extra && extra >= 4 && U16(m, pointer) * d.tokenSize + 8 == extra then
      var length := U16(m, fixed + 4);
      Data(cmd, length, U16(m, fixed + 6), Checked(d, length, U16(m, pointer) * d.tokenSize, extra, pointer + 8))
    else
      var length := U16(m, at);
      Data(cmd, length, U16(m, at + 2), Checked(d, length, length * d.tokenSize, extra, pointer))
  }

  function Checked(d: Description, length: nat, tokens: nat, extra: nat, pointer: nat): Option<nat> {
    if tokens > extra || (length > d.maxTokens && !d.noMax) || length < d.minTokens then None else Some(pointer)
  }

  // A cursor in the middle of an event is on a value that lies in it.
  predicate Within(m: Memory, c: Cursor) {
    c.value.Some? ==>
      var len, kind := U16(m, c.current), KindOf(U16(m, c.current + 2));
      len > LCP && kind != Point && Size(kind) > 0
      && c.current + LCP < c.value.value && c.value.value + Size(kind) <= c.current + len
  }

  // What is left of the stream, and of the event.
  function Left(end: nat, c: Cursor): nat { if c.current < end then end - c.current else 0 }

  function LeftOfEvent(m: Memory, c: Cursor): int {
    if c.value.None? then 65536 else c.current + U16(m, c.current) - c.value.value
  }

  // An extraction that returns more than 0 brings the cursor forward.
  lemma Advances(m: Memory, end: nat, c: Cursor, version: int)
    requires Within(m, c) && Extracted(m, end, c, version).ret > 0
    ensures var d := Extracted(m, end, c, version).cursor;
            Within(m, d) && 0 <= LeftOfEvent(m, c) &&
            (Left(end, d) < Left(end, c) || (d.current == c.current && LeftOfEvent(m, d) < LeftOfEvent(m, c)))
  {
    hide Describe;
  }

  // The events before the first extraction that returns 0 or less, and what that one returns.
  function Scan(m: Memory, end: nat, c: Cursor, version: int): (seq<Event>, int)
    requires Within(m, c)
    decreases Left(end, c), LeftOfEvent(m, c)
  {
    var o := Extracted(m, end, c, version);
    if o.ret > 0 then
      Advances(m, end, c, version);
      var (events, ret) := Scan(m, end, o.cursor, version);
      ([o.event] + events, ret)
    else ([], o.ret)
  }

  // ----- the stream and the loop of iw_process_scan

  class StreamDescr {
    const memory: Memory
    const end: nat
    var current: nat
    var value: Option<nat>

    ghost function Position(): Cursor reads this { Cursor(current, value) }

    // iw_init_event_stream
    constructor (memory: Memory, data: nat, len: nat)
      ensures this.memory == memory && end == data + len && Position() == Cursor(data, None)
    {
      this.memory, end, current, value := memory, data + len, data, None;
    }

    method Extract(version: int) returns (ret: int, event: Event)
      modifies this
      ensures Outcome(ret, event, Position()) == Extracted(memory, end, old(Position()), version)
    {
      hide DescribeRequest, DescribeEvent, PointEvent, ValueEvent;
      if current + LCP > end {
        return 0, Nothing;
      }
      var len, cmd := U16(memory, current), U16(memory, current + 2);
      event := Header(cmd);
      if len <= LCP {
        return -1, event;
      }
      var descr := Describe(cmd);
      var kind := if descr.Some? then descr.value.kind else Null;
      var eventLen := LCP + Size(kind);
      if version <= 18 && kind == Point {
        eventLen := eventLen + POINT_OFF;
      }
      if eventLen <= LCP {
        current := current + len;
        return 2, event;
      }
      eventLen := eventLen - LCP;
      var pointer := if value.Some? then value.value else current + LCP;
      if pointer + eventLen > end {
        current := current + len;
        return -2, event;
      }
      if kind == Point {
        event := ExtractPoint(len, cmd, pointer, eventLen, version);
        current := current + len;
      } else {
        event := ExtractValue(len, cmd, kind, pointer, eventLen);
      }
      ret := 1;
    }

    method ExtractValue(len: nat, cmd: nat, kind: Kind, start: nat, eventLen: nat) returns (event: Event)
      requires len > LCP && kind == KindOf(cmd) && eventLen == Size(kind) > 0
      modifies this
      ensures Outcome(1, event, Position()) == ValueEvent(memory, old(Position()), len, cmd, start)
    {
      event := Value(cmd, Copy(memory, start, eventLen));
      var pointer := start + eventLen;
      if value == None && ((len - LCP) % eventLen == 4 || (len == 12 && (kind == Uint || kind == Qual))) {
        pointer := pointer - eventLen;
        pointer := pointer + 4;
        event := Value(cmd, Copy(memory, pointer, eventLen));
        pointer := pointer + eventLen;
      }
      if pointer + eventLen <= current + len {
        value := Some(pointer);
      } else {
        value := None;
        current := current + len;
      }
    }

    method ExtractPoint(len: nat, cmd: nat, fixed: nat, eventLen: nat, version: int) returns (event: Event)
      requires KindOf(cmd) == Point && eventLen == FixedLen(cmd, version)
      ensures event == PointEvent(memory, len, cmd, fixed, version)
    {
      hide DescribeRequest, DescribeEvent, U16;
      var descr := Describe(cmd).value;
      var copied := if version > 18 then fixed else fixed + POINT_OFF;
      var length, flags := U16(memory, copied), U16(memory, copied + 2);
      var pointer := fixed + eventLen;
      var payload: Option<nat> := None;
      var extraLen := (len - (eventLen + LCP)) % UNSIGNED;
      if extraLen > 0 {
        payload := Some(pointer);
        var tokenLen := length * descr.tokenSize;
        if tokenLen != extraLen && extraLen >= 4 {
          var altDlen := U16(memory, pointer);
          var altTokenLen := altDlen * descr.tokenSize;
          if altTokenLen + 8 == extraLen {
            pointer := pointer - eventLen;
            pointer := pointer + 4;
            length, flags := U16(memory, pointer), U16(memory, pointer + 2);
            pointer := pointer + eventLen + 4;
            payload := Some(pointer);
            tokenLen := altTokenLen;
          }
        }
        if tokenLen > extraLen {
          payload := None;
        }
        if length > descr.maxTokens && !descr.noMax {
          payload := None;
        }
        if length < descr.minTokens {
          payload := None;
        }
      }
      event := Data(cmd, length, flags, payload);
    }
  }

  // The loop of iw_process_scan over the results of a scan. It ends whatever they are.
  method ProcessScan(memory: Memory, data: nat, length: nat, version: int) returns (events: seq<Event>, ret: int)
    ensures Scan(memory, data + length, Cursor(data, None), version) == (events, ret)
  {
    hide Extracted;
    var stream := new StreamDescr(memory, data, length);
    events, ret := [], 1;
    ghost var all := Scan(memory, data + length, Cursor(data, None), version);
    while ret > 0
      invariant stream.memory == memory && stream.end == data + length && fresh(stream)
      invariant ret > 0 ==> Within(memory, stream.Position())
      invariant ret > 0 ==>
        var left := Scan(memory, stream.end, stream.Position(), version);
        all.0 == events + left.0 && all.1 == left.1
      invariant ret <= 0 ==> all.0 == events && all.1 == ret
      decreases ret > 0, Left(stream.end, stream.Position()), LeftOfEvent(memory, stream.Position())
    {
      ghost var c := stream.Position();
      var event;
      ret, event := stream.Extract(version);
      if ret > 0 {
        Advances(memory, stream.end, c, version);
        events := events + [event];
      }
    }
  }
}
