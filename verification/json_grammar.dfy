// The language that the reader accepts, as trees of tokens, and that it accepts nothing else.

module JsonGrammar {
  import opened Options
  import opened JsonValue
  import opened JsonLexer
  import opened JsonText
  import opened JsonStrings
  import opened JsonParse

  // A value, with the comments in front of it.
  datatype Node = Node(lead: seq<Tok>, core: Core)

  datatype Core =
    | Word(token: Tok)
    | List(open: Tok, elements: Elements)
    | Dict(open: Tok, members: Members)

  datatype Elements =
    | NoElement(close: Tok)
    | LastElement(node: Node, trail: seq<Tok>, close: Tok)
    | MoreElements(node: Node, trail: seq<Tok>, separator: Tok, rest: Elements)

  datatype Members =
    | NoMember(lead: seq<Tok>, close: Tok)
    | LastMember(member: Member, close: Tok)
    | MoreMembers(member: Member, separator: Tok, rest: Members)

  datatype Member = Member(lead: seq<Tok>, name: Tok, colon: Tok, node: Node, trail: seq<Tok>)

  // ----- the tokens of a tree

  function NodeTokens(n: Node): seq<Tok> { n.lead + CoreTokens(n.core) }

  function CoreTokens(c: Core): (ts: seq<Tok>)
    ensures ts != []
  {
    match c
    case Word(token) => [token]
    case List(open, es) => [open] + ElementsTokens(es)
    case Dict(open, ms) => [open] + MembersTokens(ms)
  }

  function ElementsTokens(es: Elements): seq<Tok> {
    match es
    case NoElement(close) => [close]
    case LastElement(n, trail, close) => NodeTokens(n) + (trail + [close])
    case MoreElements(n, trail, separator, rest) => NodeTokens(n) + (trail + ([separator] + ElementsTokens(rest)))
  }

  function MembersTokens(ms: Members): seq<Tok> {
    match ms
    case NoMember(lead, close) => lead + [close]
    case LastMember(m, close) => MemberTokens(m, [close])
    case MoreMembers(m, separator, rest) => MemberTokens(m, [separator] + MembersTokens(rest))
  }

  // A member in front of the tokens that follow it.
  function MemberTokens(m: Member, rest: seq<Tok>): seq<Tok> {
    m.lead + ([m.name, m.colon] + (NodeTokens(m.node) + (m.trail + rest)))
  }

  // ----- which trees are allowed

  predicate Comments(ts: seq<Tok>) { forall t | t in ts :: t.kind.Comment? }

  // Comments in front of a value are only allowed with the feature, all others always.
  predicate SoundNode(f: Features, n: Node) {
    Comments(n.lead) && (n.lead != [] ==> f.allowComments) && SoundCore(f, n.core)
  }

  predicate SoundCore(f: Features, c: Core) {
    match c
    case Word(t) => t.kind.String? || t.kind.Number? || t.kind.True? || t.kind.False? || t.kind.NullToken?
    case List(open, es) => open.kind.ArrayBegin? && SoundElements(f, es)
    case Dict(open, ms) => open.kind.ObjectBegin? && SoundMembers(f, ms, true)
  }

  // An array has any number of elements, and anything between them but a closing bracket.
  predicate SoundElements(f: Features, es: Elements) {
    match es
    case NoElement(close) => close.kind.ArrayEnd?
    case LastElement(n, trail, close) => SoundNode(f, n) && Comments(trail) && close.kind.ArrayEnd?
    case MoreElements(n, trail, separator, rest) =>
      && SoundNode(f, n) && Comments(trail)
      && !separator.kind.ArrayEnd? && !separator.kind.Comment?
      && !rest.NoElement? && SoundElements(f, rest)
  }

  // An object may end at once, and behind the separator of a member whose name is empty. Between members is a
  // comma, or behind a comment anything but a closing brace.
  predicate SoundMembers(f: Features, ms: Members, mayEnd: bool) {
    match ms
    case NoMember(lead, close) => mayEnd && Comments(lead) && close.kind.ObjectEnd?
    case LastMember(m, close) => SoundMember(f, m) && close.kind.ObjectEnd?
    case MoreMembers(m, separator, rest) =>
      && SoundMember(f, m)
      && !separator.kind.ObjectEnd? && !separator.kind.Comment?
      && (m.trail == [] ==> separator.kind.ArraySeparator?)
      && SoundMembers(f, rest, NameOf(m) == Some(""))
  }

  predicate SoundMember(f: Features, m: Member) {
    && Comments(m.lead) && Comments(m.trail)
    && m.name.kind.String? && m.colon.kind.MemberSeparator? && SoundNode(f, m.node)
  }

  // ----- what a tree means, if its strings and numbers can be decoded

  function StringOf(t: Tok): Option<string> {
    if |t.text| < 2 then Some("")
    else match DecodeBody(t.text[1..|t.text| - 1]) case Good(s) => Some(s) case Bad(_) => None
  }

  function NameOf(m: Member): Option<string> { StringOf(m.name) }

  function NodeValue(scan: DoubleScanner, n: Node): Option<Value> { CoreValue(scan, n.core) }

  function CoreValue(scan: DoubleScanner, c: Core): Option<Value> {
    match c
    case Word(t) => WordValue(scan, t)
    case List(_, es) => (match ElementsValue(scan, es, 0) case Some(vs) => Some(Array(vs)) case None => None)
    case Dict(_, ms) => (match MembersValue(scan, ms, []) case Some(vs) => Some(Object(vs)) case None => None)
  }

  function WordValue(scan: DoubleScanner, t: Tok): Option<Value> {
    match t.kind
    case String => (match StringOf(t) case Some(s) => Some(Str(Some(CStr(s)))) case None => None)
    case Number => (match DecodeNumber(scan, t.text) case Good(v) => Some(v) case Bad(_) => None)
    case True => Some(Bool(true))
    case False => Some(Bool(false))
    case NullToken => Some(Null)
    case _ => None
  }

  // The elements get the indices from i on.
  function ElementsValue(scan: DoubleScanner, es: Elements, i: nat): Option<seq<Entry>> {
    match es
    case NoElement(_) => Some([])
    case LastElement(n, _, _) =>
      (match NodeValue(scan, n) case Some(v) => Some([Entry(Index(i), v)]) case None => None)
    case MoreElements(n, _, _, rest) =>
      match (NodeValue(scan, n), ElementsValue(scan, rest, i + 1))
      case (Some(v), Some(vs)) => Some([Entry(Index(i), v)] + vs)
      case _ => None
  }

  // The members are put into the map one after the other.
  function MembersValue(scan: DoubleScanner, ms: Members, before: seq<Entry>): Option<seq<Entry>> {
    match ms
    case NoMember(_, _) => Some(before)
    case LastMember(m, _) => MemberValue(scan, m, before)
    case MoreMembers(m, _, rest) =>
      match MemberValue(scan, m, before) case Some(es) => MembersValue(scan, rest, es) case None => None
  }

  function MemberValue(scan: DoubleScanner, m: Member, before: seq<Entry>): Option<seq<Entry>> {
    match (NameOf(m), NodeValue(scan, m.node))
    case (Some(name), Some(v)) => Some(Put(before, Name(CStr(name)), v))
    case _ => None
  }

  // The tree n is what the tokens start with, and means v.
  ghost predicate Derives(scan: DoubleScanner, f: Features, ts: seq<Tok>, n: Node, rest: seq<Tok>, v: Value) {
    ts == NodeTokens(n) + rest && SoundNode(f, n) && NodeValue(scan, n) == Some(v)
  }

  // ----- every such tree is accepted

  lemma {:induction false} CommentsDropped(lead: seq<Tok>, ts: seq<Tok>)
    requires Comments(lead) && !Head(ts).kind.Comment?
    ensures DropComments(lead + ts) == ts
  {
    if lead == [] {
      assert lead + ts == ts;
    } else {
      assert (lead + ts)[1..] == lead[1..] + ts;
      CommentsDropped(lead[1..], ts);
    }
  }

  lemma CoreFirst(f: Features, c: Core)
    requires SoundCore(f, c)
    ensures !CoreTokens(c)[0].kind.Comment? && !CoreTokens(c)[0].kind.ArrayEnd?
  {
  }

  // Reading from the first token that is not skipped.
  function ReadCore(scan: DoubleScanner, f: Features, us: seq<Tok>, prior: Value): Parse {
    var token, rest := Head(us), Tail(us);
    if token.kind.ObjectBegin? then ReadMembers(scan, rest, f, Object([]), "")
    else if token.kind.ArrayBegin? then ReadList(scan, f, rest)
    else ReadScalar(scan, token, rest, prior)
  }

  function ReadList(scan: DoubleScanner, f: Features, ts: seq<Tok>): Parse {
    if Head(ts).kind.ArrayEnd? then Parse(true, Tail(ts), Array([]), []) else ReadElements(scan, ts, f, Array([]), 0)
  }

  lemma ReadBehindComments(scan: DoubleScanner, f: Features, ts: seq<Tok>, prior: Value)
    ensures ReadValue(scan, f, ts, prior) ==
            ReadCore(scan, f, if f.allowComments then DropComments(ts) else ts, prior)
  {
    hide ReadMembers, ReadElements, ReadScalar;
  }

  lemma {:induction false} NodeAccepted(
    scan: DoubleScanner, f: Features, n: Node, rest: seq<Tok>, prior: Value)
    requires SoundNode(f, n) && NodeValue(scan, n).Some?
    ensures ReadValue(scan, f, NodeTokens(n) + rest, prior) == Parse(true, rest, NodeValue(scan, n).value, [])
    decreases n, 1
  {
    hide ReadValue, ReadCore, SoundCore, CoreValue, CoreTokens, Comments;
    var ts := CoreTokens(n.core) + rest;
    CoreFirst(f, n.core);
    assert NodeTokens(n) + rest == n.lead + ts;
    CommentsDropped(n.lead, ts);
    assert n.lead == [] ==> n.lead + ts == ts;
    ReadBehindComments(scan, f, n.lead + ts, prior);
    CoreAccepted(scan, f, n.core, rest, prior);
  }

  lemma {:induction false} CoreAccepted(
    scan: DoubleScanner, f: Features, c: Core, rest: seq<Tok>, prior: Value)
    requires SoundCore(f, c) && CoreValue(scan, c).Some?
    ensures ReadCore(scan, f, CoreTokens(c) + rest, prior) == Parse(true, rest, CoreValue(scan, c).value, [])
    decreases c, 0
  {
    hide ReadMembers, ReadList, SoundElements, SoundMembers, ElementsValue, MembersValue, ElementsTokens,
      MembersTokens, WordValue, Scalar;
    var ts := CoreTokens(c) + rest;
    match c {
      case Word(t) =>
        WordIsScalar(scan, t);
        assert Tail(ts) == rest;
      case List(open, es) =>
        assert Tail(ts) == ElementsTokens(es) + rest;
        ListAccepted(scan, f, es, rest);
      case Dict(open, ms) =>
        assert Tail(ts) == MembersTokens(ms) + rest;
        MembersAccepted(scan, f, ms, [], "", rest);
    }
  }

  lemma WordIsScalar(scan: DoubleScanner, t: Tok)
    ensures match WordValue(scan, t) case Some(v) => Scalar(scan, t) == Good(v) case None => Scalar(scan, t).Bad?
  {
    hide DecodeBody, DecodeNumber, CStr;
    StringIsBody(t);
  }

  lemma StringIsBody(t: Tok)
    ensures match StringOf(t) case Some(s) => DecodeBody(Body(t.text)) == Good(s)
                              case None => DecodeBody(Body(t.text)).Bad?
  {
  }

  // What follows an opening bracket.
  lemma {:induction false} ListAccepted(scan: DoubleScanner, f: Features, es: Elements, rest: seq<Tok>)
    requires SoundElements(f, es) && ElementsValue(scan, es, 0).Some?
    ensures ReadList(scan, f, ElementsTokens(es) + rest) ==
            Parse(true, rest, Array(ElementsValue(scan, es, 0).value), [])
    decreases es, 1
  {
    var ts := ElementsTokens(es) + rest;
    if es.NoElement? {
      assert Tail(ts) == rest;
    } else {
      hide ReadElements, ElementsValue, SoundElements, SoundNode, ElementsTokens;
      FirstNode(f, es, rest);
      ElementsAccepted(scan, f, es, 0, [], rest);
      assert [] + ElementsValue(scan, es, 0).value == ElementsValue(scan, es, 0).value;
    }
  }

  lemma FirstNode(f: Features, es: Elements, rest: seq<Tok>)
    requires SoundElements(f, es) && !es.NoElement?
    ensures !Head(ElementsTokens(es) + rest).kind.ArrayEnd?
  {
    var n := es.node;
    CoreFirst(f, n.core);
    var ts := NodeTokens(n);
    assert ts[0] == if n.lead == [] then CoreTokens(n.core)[0] else n.lead[0];
    assert n.lead != [] ==> n.lead[0] in n.lead;
  }

  ghost predicate Below(pre: seq<Entry>, i: nat) { forall j | 0 <= j < |pre| :: KeyLess(pre[j].key, Index(i)) }

  lemma OneElement(scan: DoubleScanner, f: Features, ts: seq<Tok>, i: nat, pre: seq<Entry>, v: Value,
                   trail: seq<Tok>, behind: seq<Tok>)
    requires ReadValue(scan, f, ts, At(Array(pre), Index(i))) == Parse(true, trail + behind, v, [])
    requires Comments(trail) && !Head(behind).kind.Comment? && Below(pre, i)
    ensures var arr := Array(pre + [Entry(Index(i), v)]);
            ReadElements(scan, ts, f, Array(pre), i) ==
            if Head(behind).kind.ArrayEnd? then Parse(true, Tail(behind), arr, [])
            else ReadElements(scan, Tail(behind), f, arr, i + 1)
  {
    hide ReadValue, Comments, Lookup, Put;
    CommentsDropped(trail, behind);
    PutLast(pre, Index(i), v);
    assert With(Array(pre), Index(i), v) == Array(pre + [Entry(Index(i), v)]);
  }

  lemma {:induction false} ElementsAccepted(
    scan: DoubleScanner, f: Features, es: Elements, i: nat, pre: seq<Entry>, rest: seq<Tok>)
    requires SoundElements(f, es) && !es.NoElement? && ElementsValue(scan, es, i).Some? && Below(pre, i)
    ensures ReadElements(scan, ElementsTokens(es) + rest, f, Array(pre), i) ==
            Parse(true, rest, Array(pre + ElementsValue(scan, es, i).value), [])
    decreases es, 0
  {
    hide ReadValue, ReadElements, NodeTokens, SoundNode, NodeValue, Comments, At, Tail;
    var v := NodeValue(scan, es.node).value;
    var left := if es.LastElement? then rest else ElementsTokens(es.rest) + rest;
    var behind := [if es.LastElement? then es.close else es.separator] + left;
    AfterNode(es, rest);
    NodeAccepted(scan, f, es.node, es.trail + behind, At(Array(pre), Index(i)));
    OneElement(scan, f, ElementsTokens(es) + rest, i, pre, v, es.trail, behind);
    TailOfOne(behind[0], left);
    if es.MoreElements? {
      ElementsAccepted(scan, f, es.rest, i + 1, pre + [Entry(Index(i), v)], rest);
      Appended(pre, Entry(Index(i), v), ElementsValue(scan, es.rest, i + 1).value);
    }
  }

  lemma TailOfOne(t: Tok, ts: seq<Tok>)
    ensures Tail([t] + ts) == ts && Head([t] + ts) == t
  {
  }

  lemma Appended(pre: seq<Entry>, e: Entry, vs: seq<Entry>)
    ensures pre + [e] + vs == pre + ([e] + vs)
  {
  }

  lemma AfterNode(es: Elements, rest: seq<Tok>)
    requires !es.NoElement?
    ensures ElementsTokens(es) + rest ==
            NodeTokens(es.node) +
            (es.trail + (if es.LastElement? then [es.close] + rest
                         else [es.separator] + (ElementsTokens(es.rest) + rest)))
  {
    hide NodeTokens;
  }

  lemma {:induction false} MembersAccepted(
    scan: DoubleScanner, f: Features, ms: Members, before: seq<Entry>, name: string, rest: seq<Tok>)
    requires SoundMembers(f, ms, name == "") && MembersValue(scan, ms, before).Some?
    ensures ReadMembers(scan, MembersTokens(ms) + rest, f, Object(before), name) ==
            Parse(true, rest, Object(MembersValue(scan, ms, before).value), [])
    decreases ms, 0
  {
    hide ReadMember, MemberTokens, SoundMember, MemberValue, Comments, NameOf;
    match ms
    case NoMember(lead, close) =>
      EndAccepted(scan, f, lead, close, before, name, rest);
    case LastMember(m, close) =>
      MemberSplit(m, [close], rest);
      MemberAccepted(scan, f, m, [close] + rest, before, name);
      assert Tail([close] + rest) == rest;
    case MoreMembers(m, separator, more) =>
      var behind := [separator] + (MembersTokens(more) + rest);
      MemberSplit(m, [separator] + MembersTokens(more), rest);
      assert [separator] + MembersTokens(more) + rest == behind;
      MemberAccepted(scan, f, m, behind, before, name);
      assert Tail(behind) == MembersTokens(more) + rest;
      MembersAccepted(scan, f, more, MemberValue(scan, m, before).value, NameOf(m).value, rest);
  }

  lemma EndAccepted(
    scan: DoubleScanner, f: Features, lead: seq<Tok>, close: Tok, before: seq<Entry>, name: string, rest: seq<Tok>)
    requires name == "" && Comments(lead) && close.kind.ObjectEnd?
    ensures ReadMember(scan, lead + [close] + rest, f, Object(before), name) ==
            Stop(Parse(true, rest, Object(before), []))
  {
    assert lead + [close] + rest == lead + ([close] + rest);
    CommentsDropped(lead, [close] + rest);
    assert Tail([close] + rest) == rest;
  }

  lemma MemberSplit(m: Member, a: seq<Tok>, b: seq<Tok>)
    ensures MemberTokens(m, a) + b == MemberTokens(m, a + b)
  {
    hide NodeTokens;
  }

  // One member, in front of the closing brace or a separator.
  lemma {:induction false} MemberAccepted(
    scan: DoubleScanner, f: Features, m: Member, behind: seq<Tok>, before: seq<Entry>, name: string)
    requires SoundMember(f, m) && MemberValue(scan, m, before).Some? && behind != [] && !behind[0].kind.Comment?
    requires m.trail == [] ==> behind[0].kind.ArraySeparator? || behind[0].kind.ObjectEnd?
    ensures NameOf(m).Some?
    ensures var obj := Object(MemberValue(scan, m, before).value);
            ReadMember(scan, MemberTokens(m, behind), f, Object(before), name) ==
            if behind[0].kind.ObjectEnd? then Stop(Parse(true, Tail(behind), obj, []))
            else Next(Tail(behind), obj, NameOf(m).value)
    decreases m, 0
  {
    hide ReadValue, NodeTokens, SoundNode, NodeValue, DecodeBody, CStr, Comments, Body, StringOf;
    var after := m.trail + behind;
    var ts := [m.name, m.colon] + (NodeTokens(m.node) + after);
    assert Tail(Tail(ts)) == NodeTokens(m.node) + after;
    CommentsDropped(m.lead, ts);
    CommentsDropped(m.trail, behind);
    StringIsBody(m.name);
    TrailFirst(m.trail, behind);
    NodeAccepted(scan, f, m.node, after, At(Object(before), Name(CStr(NameOf(m).value))));
  }

  lemma TrailFirst(trail: seq<Tok>, behind: seq<Tok>)
    requires Comments(trail)
    ensures Head(trail + behind) == if trail == [] then Head(behind) else trail[0]
    ensures trail != [] ==> trail[0].kind.Comment?
  {
    assert [] + behind == behind;
    assert trail != [] ==> trail[0] in trail;
  }

  // ----- nothing else is accepted

  // The comments in front of the rest.
  lemma {:induction false} CommentsInFront(ts: seq<Tok>) returns (lead: seq<Tok>)
    ensures Comments(lead) && ts == lead + DropComments(ts)
    ensures lead != [] <==> (ts != [] && ts[0].kind.Comment?)
  {
    if ts != [] && ts[0].kind.Comment? {
      lead := CommentsInFront(ts[1..]);
      assert [ts[0]] + (lead + DropComments(ts)) == [ts[0]] + lead + DropComments(ts);
      lead := [ts[0]] + lead;
    } else {
      lead := [];
    }
  }

  lemma HeadAndTail(ts: seq<Tok>)
    requires ts != []
    ensures ts == [Head(ts)] + Tail(ts)
  {
  }

  lemma NothingRead(scan: DoubleScanner, f: Features, prior: Value, obj: Value, arr: Value, name: string, i: nat)
    requires obj.Object? && arr.Array?
    ensures !ReadValue(scan, f, [], prior).ok
    ensures !ReadMembers(scan, [], f, obj, name).ok && !ReadElements(scan, [], f, arr, i).ok
  {
    assert DropComments([]) == [];
    assert !ReadValue(scan, f, [], At(arr, Index(i))).ok;
  }

  lemma {:induction false} OnlyNodes(scan: DoubleScanner, f: Features, ts: seq<Tok>, prior: Value) returns (n: Node)
    requires ReadValue(scan, f, ts, prior).ok
    ensures var r := ReadValue(scan, f, ts, prior); Derives(scan, f, ts, n, r.rest, r.value)
    decreases |ts|, 1
  {
    hide ReadValue, ReadCore, SoundCore, CoreValue, CoreTokens;
    var r := ReadValue(scan, f, ts, prior);
    var us := if f.allowComments then DropComments(ts) else ts;
    var lead := [];
    if f.allowComments {
      lead := CommentsInFront(ts);
    }
    assert ts == lead + us;
    ReadBehindComments(scan, f, ts, prior);
    var c := OnlyCores(scan, f, us, prior);
    n := Node(lead, c);
    assert lead + CoreTokens(c) + r.rest == lead + (CoreTokens(c) + r.rest);
  }

  lemma {:induction false} OnlyCores(scan: DoubleScanner, f: Features, us: seq<Tok>, prior: Value) returns (c: Core)
    requires ReadCore(scan, f, us, prior).ok
    ensures var r := ReadCore(scan, f, us, prior);
            us == CoreTokens(c) + r.rest && SoundCore(f, c) && CoreValue(scan, c) == Some(r.value)
    decreases |us|, 0
  {
    hide ReadMembers, ReadList, WordValue, Scalar, SoundElements, SoundMembers, ElementsTokens, MembersTokens,
      ElementsValue, MembersValue;
    EmptyRejected(scan, f, prior);
    HeadAndTail(us);
    var token, rest := us[0], Tail(us);
    match token.kind {
      case ObjectBegin =>
        var ms := OnlyMembers(scan, f, rest, [], "");
        c := Dict(token, ms);
        assert [token] + MembersTokens(ms) + ReadCore(scan, f, us, prior).rest == us;
      case ArrayBegin =>
        var es := OnlyLists(scan, f, rest);
        c := List(token, es);
        assert [token] + ElementsTokens(es) + ReadCore(scan, f, us, prior).rest == us;
      case _ =>
        c := Word(token);
        WordIsScalar(scan, token);
        WordKinds(scan, token);
    }
  }

  lemma EmptyRejected(scan: DoubleScanner, f: Features, prior: Value)
    ensures !ReadCore(scan, f, [], prior).ok
  {
  }

  lemma WordKinds(scan: DoubleScanner, t: Tok)
    requires WordValue(scan, t).Some?
    ensures t.kind.String? || t.kind.Number? || t.kind.True? || t.kind.False? || t.kind.NullToken?
  {
  }

  lemma {:induction false} OnlyLists(scan: DoubleScanner, f: Features, ts: seq<Tok>) returns (es: Elements)
    requires ReadList(scan, f, ts).ok
    ensures var r := ReadList(scan, f, ts);
            && ts == ElementsTokens(es) + r.rest && SoundElements(f, es)
            && ElementsValue(scan, es, 0).Some? && r.value == Array(ElementsValue(scan, es, 0).value)
    decreases |ts|, 3
  {
    if Head(ts).kind.ArrayEnd? {
      es := NoElement(ts[0]);
    } else {
      hide ReadElements, ElementsTokens, SoundElements, ElementsValue;
      es := OnlyElements(scan, f, ts, 0, []);
      assert [] + ElementsValue(scan, es, 0).value == ElementsValue(scan, es, 0).value;
    }
  }

  lemma {:induction false} OnlyElements(scan: DoubleScanner, f: Features, ts: seq<Tok>, i: nat, pre: seq<Entry>)
    returns (es: Elements)
    requires ReadElements(scan, ts, f, Array(pre), i).ok && Below(pre, i)
    ensures var r := ReadElements(scan, ts, f, Array(pre), i);
            && ts == ElementsTokens(es) + r.rest && SoundElements(f, es) && !es.NoElement?
            && ElementsValue(scan, es, i).Some? && r.value == Array(pre + ElementsValue(scan, es, i).value)
    decreases |ts|, 2
  {
    hide ReadValue, NodeTokens, SoundNode, NodeValue, Comments, Lookup, Put, Recover;
    var r := ReadValue(scan, f, ts, At(Array(pre), Index(i)));
    var n := OnlyNodes(scan, f, ts, At(Array(pre), Index(i)));
    var trail := CommentsInFront(r.rest);
    var behind := DropComments(r.rest);
    var arr := Array(pre + [Entry(Index(i), r.value)]);
    PutLast(pre, Index(i), r.value);
    assert arr == With(Array(pre), Index(i), r.value);
    NothingRead(scan, f, Null, Object([]), arr, "", i + 1);
    HeadAndTail(behind);
    if Head(behind).kind.ArrayEnd? {
      es := LastElement(n, trail, Head(behind));
      AfterNode(es, Tail(behind));
    } else {
      var more := OnlyElements(scan, f, Tail(behind), i + 1, pre + [Entry(Index(i), r.value)]);
      es := MoreElements(n, trail, Head(behind), more);
      var q := ReadElements(scan, Tail(behind), f, arr, i + 1);
      AfterNode(es, q.rest);
      var vs := ElementsValue(scan, more, i + 1).value;
      Appended(pre, Entry(Index(i), r.value), vs);
    }
  }

  lemma {:induction false} OnlyMembers(scan: DoubleScanner, f: Features, ts: seq<Tok>, before: seq<Entry>, name: string)
    returns (ms: Members)
    requires ReadMembers(scan, ts, f, Object(before), name).ok
    ensures var r := ReadMembers(scan, ts, f, Object(before), name);
            && ts == MembersTokens(ms) + r.rest && SoundMembers(f, ms, name == "")
            && MembersValue(scan, ms, before).Some? && r.value == Object(MembersValue(scan, ms, before).value)
    decreases |ts|, 3
  {
    hide ReadMember, MemberTokens, SoundMember, MemberValue, Comments, NameOf;
    var r := ReadMembers(scan, ts, f, Object(before), name);
    if Head(DropComments(ts)).kind.ObjectEnd? && name == "" {
      var lead := CommentsInFront(ts);
      var us := DropComments(ts);
      HeadAndTail(us);
      ms := NoMember(lead, Head(us));
      EndAccepted(scan, f, lead, Head(us), before, name, Tail(us));
      assert lead + [Head(us)] + Tail(us) == lead + ([Head(us)] + Tail(us));
    } else {
      var m, behind := OnlyRounds(scan, f, ts, before, name);
      NothingRead(scan, f, Null, Object(MemberValue(scan, m, before).value), Array([]), NameOf(m).value, 0);
      HeadAndTail(behind);
      if behind[0].kind.ObjectEnd? {
        ms := LastMember(m, behind[0]);
        MemberSplit(m, [behind[0]], Tail(behind));
      } else {
        var more := OnlyMembers(scan, f, Tail(behind), MemberValue(scan, m, before).value, NameOf(m).value);
        ms := MoreMembers(m, behind[0], more);
        MemberSplit(m, [behind[0]] + MembersTokens(more), r.rest);
        assert [behind[0]] + MembersTokens(more) + r.rest == [behind[0]] + (MembersTokens(more) + r.rest);
      }
    }
  }

  // A round of the loop that succeeds. What is behind the member is a closing brace or passes for a separator.
  lemma {:induction false} OnlyRounds(scan: DoubleScanner, f: Features, ts: seq<Tok>, before: seq<Entry>, name: string)
    returns (m: Member, behind: seq<Tok>)
    requires !(Head(DropComments(ts)).kind.ObjectEnd? && name == "")
    requires var r := ReadMember(scan, ts, f, Object(before), name); r.Stop? ==> r.parse.ok
    ensures ts == MemberTokens(m, behind) && SoundMember(f, m) && MemberValue(scan, m, before).Some?
    ensures NameOf(m).Some? && |behind| < |ts| && !Head(behind).kind.Comment?
    ensures m.trail == [] ==> Head(behind).kind.ArraySeparator? || Head(behind).kind.ObjectEnd?
    ensures var obj := Object(MemberValue(scan, m, before).value);
            ReadMember(scan, ts, f, Object(before), name) ==
            if Head(behind).kind.ObjectEnd? then Stop(Parse(true, Tail(behind), obj, []))
            else Next(Tail(behind), obj, NameOf(m).value)
    decreases |ts|, 2
  {
    hide ReadValue, NodeTokens, SoundNode, NodeValue, DecodeBody, CStr, Comments, Body, StringOf, Recover;
    var us := DropComments(ts);
    var lead := CommentsInFront(ts);
    HeadAndTail(us);
    StringIsBody(Head(us));
    var colon := Tail(us);
    HeadAndTail(colon);
    var key := Name(CStr(StringOf(Head(us)).value));
    var r := ReadValue(scan, f, Tail(colon), At(Object(before), key));
    var n := OnlyNodes(scan, f, Tail(colon), At(Object(before), key));
    var trail := CommentsInFront(r.rest);
    behind := DropComments(r.rest);
    m := Member(lead, Head(us), Head(colon), n, trail);
    assert [m.name] + ([m.colon] + Tail(colon)) == [m.name, m.colon] + Tail(colon);
    TrailFirst(trail, behind);
  }

  lemma MembersAre(scan: DoubleScanner, f: Features, ts: seq<Tok>, before: seq<Entry>, name: string)
    ensures ReadMembers(scan, ts, f, Object(before), name) ==
            match ReadMember(scan, ts, f, Object(before), name)
            case Stop(r) => r
            case Next(rest, obj, member) => ReadMembers(scan, rest, f, obj, member)
  {
    hide ReadMember;
  }

  // ----- the language

  // A value is read exactly if the tokens start with a tree of the grammar that can be decoded; its tokens are
  // consumed, and its value is the one left. On nothing else the reader succeeds.
  lemma AcceptedIff(scan: DoubleScanner, f: Features, ts: seq<Tok>, prior: Value)
    ensures var r := ReadValue(scan, f, ts, prior);
            && (r.ok <==> exists n, rest, v :: Derives(scan, f, ts, n, rest, v))
            && (forall n, rest, v :: Derives(scan, f, ts, n, rest, v) ==> r.rest == rest && r.value == v)
  {
    hide ReadValue, SoundNode, NodeTokens, NodeValue;
    forall n, rest, v | Derives(scan, f, ts, n, rest, v)
      ensures ReadValue(scan, f, ts, prior) == Parse(true, rest, v, [])
    {
      NodeAccepted(scan, f, n, rest, prior);
    }
    if ReadValue(scan, f, ts, prior).ok {
      var n := OnlyNodes(scan, f, ts, prior);
    }
  }

  // What a document may be in strict mode.
  ghost predicate AtRoot(f: Features, v: Value) { f.strictRoot ==> v.Array? || v.Object? || v.Null? }

  // The same for documents.
  lemma DocumentAcceptedIff(scan: DoubleScanner, f: Features, document: string, prior: Value)
    ensures var r := ParseDocument(scan, f, document, prior);
            && (r.ok <==> exists n, rest, v :: Derives(scan, f, Lex(document), n, rest, v) && AtRoot(f, v))
            && (forall n, rest, v :: Derives(scan, f, Lex(document), n, rest, v) ==> r.value == v)
  {
    hide ReadValue, Derives, Lex, AtRoot;
    AcceptedIff(scan, f, Lex(document), prior);
    RootIsChecked(scan, f, document, prior);
  }

  lemma RootIsChecked(scan: DoubleScanner, f: Features, document: string, prior: Value)
    ensures var r := ReadValue(scan, f, Lex(document), prior);
            && (ParseDocument(scan, f, document, prior).ok <==> r.ok && AtRoot(f, r.value))
            && ParseDocument(scan, f, document, prior).value == r.value
  {
    hide ReadValue, Lex;
  }
}
