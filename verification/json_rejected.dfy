// The texts that the reader rejects: where it stops, which error it reports there and what it leaves.

module JsonRejected {
  import opened Options
  import opened JsonValue
  import opened JsonLexer
  import opened JsonText
  import opened JsonStrings
  import opened JsonParse
  import opened JsonGrammar

  // A value that breaks off in front of a token that cannot be next.
  datatype Broken = Broken(lead: seq<Tok>, place: Place)

  datatype Place = AtWord | InList(open: Tok, list: BrokenList) | InDict(open: Tok, dict: BrokenDict)

  datatype BrokenList =
    | Here(broken: Broken)
    | Unclosed(node: Node, trail: seq<Tok>)
    | Behind(node: Node, trail: seq<Tok>, separator: Tok, rest: BrokenList)

  datatype BrokenDict =
    | AtName(lead: seq<Tok>)
    | AtColon(lead: seq<Tok>, name: Tok)
    | InValue(lead: seq<Tok>, name: Tok, colon: Tok, broken: Broken)
    | AtSeparator(lead: seq<Tok>, name: Tok, colon: Tok, node: Node)
    | Unended(member: Member)
    | Past(member: Member, separator: Tok, rest: BrokenDict)

  // ----- the tokens in front of the one that cannot be next

  function BrokenTokens(b: Broken): seq<Tok> { b.lead + PlaceTokens(b.place) }

  function PlaceTokens(p: Place): seq<Tok> {
    match p
    case AtWord => []
    case InList(open, l) => [open] + ListTokens(l)
    case InDict(open, d) => [open] + DictTokens(d)
  }

  function ListTokens(l: BrokenList): seq<Tok> {
    match l
    case Here(b) => BrokenTokens(b)
    case Unclosed(n, trail) => NodeTokens(n) + trail
    case Behind(n, trail, separator, rest) => NodeTokens(n) + (trail + ([separator] + ListTokens(rest)))
  }

  function DictTokens(d: BrokenDict): seq<Tok> {
    match d
    case AtName(lead) => lead
    case AtColon(lead, name) => lead + [name]
    case InValue(lead, name, colon, b) => lead + ([name, colon] + BrokenTokens(b))
    case AtSeparator(lead, name, colon, n) => lead + ([name, colon] + NodeTokens(n))
    case Unended(m) => MemberTokens(m, [])
    case Past(m, separator, rest) => MemberTokens(m, [separator] + DictTokens(rest))
  }

  // ----- what is broken, with the tokens from there on

  predicate SoundBroken(scan: DoubleScanner, f: Features, b: Broken, rest: seq<Tok>) {
    && Comments(b.lead) && (b.lead != [] ==> f.allowComments)
    && SoundPlace(scan, f, b.place, rest)
  }

  predicate SoundPlace(scan: DoubleScanner, f: Features, p: Place, rest: seq<Tok>) {
    match p
    case AtWord =>
      && !Head(rest).kind.ObjectBegin? && !Head(rest).kind.ArrayBegin? && WordValue(scan, Head(rest)).None?
      && (f.allowComments ==> !Head(rest).kind.Comment?)
    case InList(open, l) =>
      open.kind.ArrayBegin? && SoundList(scan, f, l, rest)
      && (l == Here(Broken([], AtWord)) ==> !Head(rest).kind.ArrayEnd?)
    case InDict(open, d) => open.kind.ObjectBegin? && SoundDict(scan, f, d, true, rest)
  }

  // The end of the text passes for a separator, and a value is missed behind it.
  predicate SoundList(scan: DoubleScanner, f: Features, l: BrokenList, rest: seq<Tok>) {
    match l
    case Here(b) => SoundBroken(scan, f, b, rest)
    case Unclosed(n, trail) => SoundNode(f, n) && NodeValue(scan, n).Some? && Comments(trail) && rest == []
    case Behind(n, trail, separator, more) =>
      && SoundNode(f, n) && NodeValue(scan, n).Some? && Comments(trail)
      && !separator.kind.ArrayEnd? && !separator.kind.Comment? && SoundList(scan, f, more, rest)
  }

  predicate SoundDict(scan: DoubleScanner, f: Features, d: BrokenDict, mayEnd: bool, rest: seq<Tok>) {
    match d
    case AtName(lead) =>
      && Comments(lead) && !Head(rest).kind.Comment? && !(mayEnd && Head(rest).kind.ObjectEnd?)
      && (Head(rest).kind.String? ==> StringOf(Head(rest)).None?)
    case AtColon(lead, name) => SoundName(lead, name) && !Head(rest).kind.MemberSeparator?
    case InValue(lead, name, colon, b) =>
      SoundName(lead, name) && colon.kind.MemberSeparator? && SoundBroken(scan, f, b, rest)
    case AtSeparator(lead, name, colon, n) =>
      && SoundName(lead, name) && colon.kind.MemberSeparator? && SoundNode(f, n) && NodeValue(scan, n).Some?
      && !Head(rest).kind.ObjectEnd? && !Head(rest).kind.ArraySeparator? && !Head(rest).kind.Comment?
    case Unended(m) => SoundMember(f, m) && MemberValue(scan, m, []).Some? && m.trail != [] && rest == []
    case Past(m, separator, more) =>
      && SoundMember(f, m) && MemberValue(scan, m, []).Some?
      && !separator.kind.ObjectEnd? && !separator.kind.Comment?
      && (m.trail == [] ==> separator.kind.ArraySeparator?)
      && SoundDict(scan, f, more, NameOf(m) == Some(""), rest)
  }

  predicate SoundName(lead: seq<Tok>, name: Tok) {
    Comments(lead) && name.kind.String? && StringOf(name).Some?
  }

  // ----- the error that is reported, and what is left in a slot that held prior

  function BrokenMessage(p: Place, next: Tok): Message {
    match p
    case AtWord =>
      if next.kind.Number? then NotANumber else if next.kind.String? then StringMessage(next) else ValueExpected
    case InList(_, l) => ListMessage(l, next)
    case InDict(_, d) => DictMessage(d, next)
  }

  function StringMessage(t: Tok): Message {
    if |t.text| < 2 then ValueExpected
    else match DecodeBody(t.text[1..|t.text| - 1]) case Bad(m) => m case Good(_) => ValueExpected
  }

  function ListMessage(l: BrokenList, next: Tok): Message {
    match l
    case Here(b) => BrokenMessage(b.place, next)
    case Unclosed(_, _) => ValueExpected
    case Behind(_, _, _, rest) => ListMessage(rest, next)
  }

  function DictMessage(d: BrokenDict, next: Tok): Message {
    match d
    case AtName(_) => if next.kind.String? then StringMessage(next) else MissingBraceOrName
    case AtColon(_, _) => MissingColon
    case InValue(_, _, _, b) => BrokenMessage(b.place, next)
    case AtSeparator(_, _, _, _) => MissingCommaOrBrace
    case Unended(_) => MissingBraceOrName
    case Past(_, _, rest) => DictMessage(rest, next)
  }

  function BrokenValue(scan: DoubleScanner, p: Place, prior: Value): Value {
    match p
    case AtWord => prior
    case InList(_, l) => Array(ListValue(scan, l, 0))
    case InDict(_, d) => Object(DictValue(scan, d, []))
  }

  // The elements that were read, and what there is of the last one.
  function ListValue(scan: DoubleScanner, l: BrokenList, i: nat): seq<Entry> {
    match l
    case Here(b) => [Entry(Index(i), BrokenValue(scan, b.place, Null))]
    case Unclosed(n, _) => [Entry(Index(i), ValueOrNull(scan, n)), Entry(Index(i + 1), Null)]
    case Behind(n, _, _, rest) => [Entry(Index(i), ValueOrNull(scan, n))] + ListValue(scan, rest, i + 1)
  }

  function DictValue(scan: DoubleScanner, d: BrokenDict, before: seq<Entry>): seq<Entry> {
    match d
    case AtName(_) => before
    case AtColon(_, _) => before
    case InValue(_, name, _, b) =>
      var k := KeyOf(name);
      Put(before, k, BrokenValue(scan, b.place, Lookup(before, k)))
    case AtSeparator(_, name, _, n) =>
      Put(before, KeyOf(name), ValueOrNull(scan, n))
    case Unended(m) => WithMember(scan, m, before)
    case Past(m, _, rest) => DictValue(scan, rest, WithMember(scan, m, before))
  }

  function ValueOrNull(scan: DoubleScanner, n: Node): Value {
    match NodeValue(scan, n) case Some(v) => v case None => Null
  }

  function WithMember(scan: DoubleScanner, m: Member, before: seq<Entry>): seq<Entry> {
    match MemberValue(scan, m, before) case Some(es) => es case None => before
  }

  function KeyOf(name: Tok): Key { Name(match StringOf(name) case Some(s) => CStr(s) case None => "") }

  ghost predicate Breaks(scan: DoubleScanner, f: Features, ts: seq<Tok>, b: Broken, rest: seq<Tok>) {
    ts == BrokenTokens(b) + rest && SoundBroken(scan, f, b, rest)
  }

  // What failing there means.
  ghost predicate Fails(r: Parse, m: Message, next: Tok, v: Value) {
    !r.ok && r.errors == [ErrorInfo(m, next)] && r.value == v
  }

  // ----- every broken value is rejected

  lemma {:induction false} BrokenRejected(
    scan: DoubleScanner, f: Features, b: Broken, rest: seq<Tok>, prior: Value)
    requires SoundBroken(scan, f, b, rest)
    ensures Fails(ReadValue(scan, f, BrokenTokens(b) + rest, prior), BrokenMessage(b.place, Head(rest)), Head(rest),
                  BrokenValue(scan, b.place, prior))
    decreases b, 1
  {
    hide ReadValue, ReadCore, SoundPlace, BrokenMessage, BrokenValue, PlaceTokens, Comments, Fails;
    var ts := PlaceTokens(b.place) + rest;
    PlaceFirst(scan, f, b.place, rest);
    assert BrokenTokens(b) + rest == b.lead + ts;
    if f.allowComments { CommentsDropped(b.lead, ts); }
    assert b.lead == [] ==> b.lead + ts == ts;
    ReadBehindComments(scan, f, b.lead + ts, prior);
    PlaceRejected(scan, f, b.place, rest, prior);
  }

  lemma PlaceFirst(scan: DoubleScanner, f: Features, p: Place, rest: seq<Tok>)
    requires SoundPlace(scan, f, p, rest)
    ensures f.allowComments ==> !Head(PlaceTokens(p) + rest).kind.Comment?
  {
    assert [] + rest == rest;
  }

  lemma {:induction false} PlaceRejected(
    scan: DoubleScanner, f: Features, p: Place, rest: seq<Tok>, prior: Value)
    requires SoundPlace(scan, f, p, rest)
    ensures Fails(ReadCore(scan, f, PlaceTokens(p) + rest, prior), BrokenMessage(p, Head(rest)), Head(rest),
                  BrokenValue(scan, p, prior))
    decreases p, 0
  {
    hide ReadMembers, ReadElements, SoundList, SoundDict, ListValue, DictValue, ListTokens, DictTokens, WordValue,
      ListMessage, DictMessage, StringMessage, Scalar;
    var ts := PlaceTokens(p) + rest;
    match p {
      case AtWord =>
        assert ts == rest;
        WordMessage(scan, Head(rest));
      case InList(open, l) =>
        assert Tail(ts) == ListTokens(l) + rest;
        FirstOfList(scan, f, l, rest);
        ListRejected(scan, f, l, 0, [], rest);
        assert [] + ListValue(scan, l, 0) == ListValue(scan, l, 0);
      case InDict(open, d) =>
        assert Tail(ts) == DictTokens(d) + rest;
        DictRejected(scan, f, d, [], "", rest);
    }
  }

  lemma WordMessage(scan: DoubleScanner, t: Tok)
    requires WordValue(scan, t).None?
    ensures Scalar(scan, t) == Bad(if t.kind.Number? then NotANumber else if t.kind.String? then StringMessage(t)
                                   else ValueExpected)
  {
    hide DecodeBody, CStr;
    StringIsBody(t);
    NothingToDecode();
    if t.kind.Number? { OnlyNotANumber(scan, t.text); }
  }

  lemma NothingToDecode()
    ensures DecodeBody([]) == Good([])
  {
  }

  lemma OnlyNotANumber(scan: DoubleScanner, text: string)
    ensures DecodeNumber(scan, text).Bad? ==> DecodeNumber(scan, text) == Bad(NotANumber)
  {
  }

  lemma FirstOfList(scan: DoubleScanner, f: Features, l: BrokenList, rest: seq<Tok>)
    requires SoundList(scan, f, l, rest) && (l == Here(Broken([], AtWord)) ==> !Head(rest).kind.ArrayEnd?)
    ensures !Head(ListTokens(l) + rest).kind.ArrayEnd?
  {
    match l
    case Here(b) =>
      if b == Broken([], AtWord) {
        assert ListTokens(l) + rest == rest;
      } else if b.lead == [] {
        PlaceHead(scan, f, b.place, rest);
        assert BrokenTokens(b) == PlaceTokens(b.place);
      } else {
        assert b.lead[0] in b.lead && (BrokenTokens(b) + rest)[0] == b.lead[0];
      }
    case Unclosed(n, _) => NodeFirst(f, n);
    case Behind(n, _, _, _) => NodeFirst(f, n);
  }

  lemma PlaceHead(scan: DoubleScanner, f: Features, p: Place, rest: seq<Tok>)
    requires SoundPlace(scan, f, p, rest) && !p.AtWord?
    ensures PlaceTokens(p) != [] && !PlaceTokens(p)[0].kind.ArrayEnd?
  {
  }

  lemma NodeFirst(f: Features, n: Node)
    requires SoundNode(f, n)
    ensures NodeTokens(n) != [] && !NodeTokens(n)[0].kind.ArrayEnd?
  {
    CoreFirst(f, n.core);
    assert n.lead != [] ==> n.lead[0] in n.lead;
    assert NodeTokens(n)[0] == if n.lead == [] then CoreTokens(n.core)[0] else n.lead[0];
  }

  lemma {:induction false} ListRejected(
    scan: DoubleScanner, f: Features, l: BrokenList, i: nat, pre: seq<Entry>, rest: seq<Tok>)
    requires SoundList(scan, f, l, rest) && Below(pre, i)
    ensures Fails(ReadElements(scan, ListTokens(l) + rest, f, Array(pre), i), ListMessage(l, Head(rest)), Head(rest),
                  Array(pre + ListValue(scan, l, i)))
    decreases l, 0
  {
    hide ReadValue, NodeTokens, SoundNode, NodeValue, BrokenTokens, BrokenValue, BrokenMessage, Comments, Recover;
    var prior := At(Array(pre), Index(i));
    NotYetThere(pre, i);
    match l
    case Here(b) =>
      BrokenRejected(scan, f, b, rest, prior);
      PutLast(pre, Index(i), BrokenValue(scan, b.place, Null));
    case Unclosed(n, trail) =>
      UnclosedRejected(scan, f, n, trail, i, pre);
      assert NodeTokens(n) + trail + rest == NodeTokens(n) + trail;
      OneMore(pre, Entry(Index(i), NodeValue(scan, n).value), [Entry(Index(i + 1), Null)]);
    case Behind(n, trail, separator, more) =>
      var v := NodeValue(scan, n).value;
      var behind := [separator] + (ListTokens(more) + rest);
      ListFirst(n, trail, [separator], ListTokens(more), rest);
      NodeAccepted(scan, f, n, trail + behind, prior);
      CommentsDropped(trail, behind);
      PutLast(pre, Index(i), v);
      assert Tail(behind) == ListTokens(more) + rest;
      ListRejected(scan, f, more, i + 1, pre + [Entry(Index(i), v)], rest);
      OneMore(pre, Entry(Index(i), v), ListValue(scan, more, i + 1));
  }

  lemma OneMore(pre: seq<Entry>, e: Entry, more: seq<Entry>)
    ensures pre + [e] + more == pre + ([e] + more)
  {
  }

  // The end of the text behind an element.
  lemma UnclosedRejected(scan: DoubleScanner, f: Features, n: Node, trail: seq<Tok>, i: nat, pre: seq<Entry>)
    requires SoundNode(f, n) && NodeValue(scan, n).Some? && Comments(trail) && Below(pre, i)
    ensures var es := pre + [Entry(Index(i), NodeValue(scan, n).value)];
            Fails(ReadElements(scan, NodeTokens(n) + trail, f, Array(pre), i), ValueExpected, END,
                  Array(es + [Entry(Index(i + 1), Null)]))
  {
    hide ReadValue, NodeTokens, SoundNode, NodeValue, Comments, Put, Lookup;
    var v := NodeValue(scan, n).value;
    NodeAccepted(scan, f, n, trail, At(Array(pre), Index(i)));
    CommentsDropped(trail, []);
    assert trail + [] == trail;
    PutLast(pre, Index(i), v);
    var es := pre + [Entry(Index(i), v)];
    assert With(Array(pre), Index(i), v) == Array(es);
    NotYetThere(es, i + 1);
    PutLast(es, Index(i + 1), Null);
    NothingRead(scan, f, Null, Object([]), Array(es), "", i + 1);
    EndOfText(scan, f);
  }

  lemma EndOfText(scan: DoubleScanner, f: Features)
    ensures ReadValue(scan, f, [], Null) == Parse(false, [], Null, [ErrorInfo(ValueExpected, END)])
  {
    assert DropComments([]) == [];
  }

  lemma NotYetThere(pre: seq<Entry>, i: nat)
    requires Below(pre, i)
    ensures At(Array(pre), Index(i)) == Null
  {
    forall j | 0 <= j < |pre|
      ensures pre[j].key != Index(i)
    {
      KeyTrichotomy(pre[j].key, Index(i));
    }
    LookupMissing(pre, Index(i));
  }

  lemma ListFirst(n: Node, trail: seq<Tok>, s: seq<Tok>, more: seq<Tok>, rest: seq<Tok>)
    ensures NodeTokens(n) + (trail + (s + more)) + rest == NodeTokens(n) + (trail + (s + (more + rest)))
  {
    hide NodeTokens;
  }

  lemma {:induction false} DictRejected(
    scan: DoubleScanner, f: Features, d: BrokenDict, before: seq<Entry>, name: string, rest: seq<Tok>)
    requires SoundDict(scan, f, d, name == "", rest)
    ensures Fails(ReadMembers(scan, DictTokens(d) + rest, f, Object(before), name), DictMessage(d, Head(rest)),
                  Head(rest), Object(DictValue(scan, d, before)))
    decreases d, 2
  {
    hide ReadMember, MemberTokens, SoundMember, MemberValue, Comments, NameOf, StringMessage;
    MembersAre(scan, f, DictTokens(d) + rest, before, name);
    if d.Past? {
      var behind := [d.separator] + (DictTokens(d.rest) + rest);
      MemberSplit(d.member, [d.separator] + DictTokens(d.rest), rest);
      assert [d.separator] + DictTokens(d.rest) + rest == behind;
      AnyBefore(scan, d.member, before);
      MemberAccepted(scan, f, d.member, behind, before, name);
      assert Tail(behind) == DictTokens(d.rest) + rest;
      DictRejected(scan, f, d.rest, MemberValue(scan, d.member, before).value, NameOf(d.member).value, rest);
    } else if d.Unended? {
      AnyBefore(scan, d.member, before);
      UnendedRejected(scan, f, d.member, before, name);
      assert DictTokens(d) + rest == MemberTokens(d.member, []);
    } else {
      hide DictTokens, DictValue, DictMessage, SoundDict;
      RoundRejected(scan, f, d, before, name, rest);
    }
  }

  // The end of the text behind a member and a comment.
  lemma UnendedRejected(scan: DoubleScanner, f: Features, m: Member, before: seq<Entry>, name: string)
    requires SoundMember(f, m) && MemberValue(scan, m, before).Some? && m.trail != []
    ensures Fails(ReadMembers(scan, MemberTokens(m, []), f, Object(before), name), MissingBraceOrName, END,
                  Object(MemberValue(scan, m, before).value))
  {
    hide ReadMember, MemberTokens, SoundMember, MemberValue, Comments, NameOf;
    UnendedRound(scan, f, m, before, name);
    var obj := Object(MemberValue(scan, m, before).value);
    MembersAre(scan, f, MemberTokens(m, []), before, name);
    MembersAre(scan, f, [], obj.entries, NameOf(m).value);
    NoMoreNames(scan, f, obj, NameOf(m).value);
  }

  lemma NoMoreNames(scan: DoubleScanner, f: Features, obj: Value, name: string)
    requires obj.Object?
    ensures ReadMember(scan, [], f, obj, name) ==
            Stop(Parse(false, [], obj, [ErrorInfo(MissingBraceOrName, END)]))
  {
    assert DropComments([]) == [];
  }

  lemma UnendedRound(scan: DoubleScanner, f: Features, m: Member, before: seq<Entry>, name: string)
    requires SoundMember(f, m) && MemberValue(scan, m, before).Some? && m.trail != []
    ensures NameOf(m).Some?
    ensures ReadMember(scan, MemberTokens(m, []), f, Object(before), name) ==
            Next([], Object(MemberValue(scan, m, before).value), NameOf(m).value)
  {
    hide ReadValue, NodeTokens, SoundNode, NodeValue, DecodeBody, CStr, Body, StringOf;
    var ts := [m.name, m.colon] + (NodeTokens(m.node) + (m.trail + []));
    assert Tail(Tail(ts)) == NodeTokens(m.node) + (m.trail + []);
    CommentsDropped(m.lead, ts);
    CommentsDropped(m.trail, []);
    StringIsBody(m.name);
    assert m.trail[0] in m.trail;
    NodeAccepted(scan, f, m.node, m.trail + [], At(Object(before), Name(CStr(NameOf(m).value))));
  }

  lemma AnyBefore(scan: DoubleScanner, m: Member, before: seq<Entry>)
    ensures MemberValue(scan, m, before).Some? <==> MemberValue(scan, m, []).Some?
  {
  }

  // The round of the loop that fails.
  lemma {:induction false} RoundRejected(
    scan: DoubleScanner, f: Features, d: BrokenDict, before: seq<Entry>, name: string, rest: seq<Tok>)
    requires SoundDict(scan, f, d, name == "", rest) && !d.Past? && !d.Unended?
    ensures var r := ReadMember(scan, DictTokens(d) + rest, f, Object(before), name);
            r.Stop? && Fails(r.parse, DictMessage(d, Head(rest)), Head(rest), Object(DictValue(scan, d, before)))
    decreases d, 1
  {
    hide ReadNamed, Recover, Comments, DecodeBody, Body, StringOf, BrokenTokens, NodeTokens, CStr, BrokenValue;
    var next := Head(rest);
    if d.AtName? {
      CommentsDropped(d.lead, rest);
      NameMessage(next);
    } else {
      var behind := if d.AtColon? then rest
                    else [d.colon] + ((if d.InValue? then BrokenTokens(d.broken) else NodeTokens(d.node)) + rest);
      assert DictTokens(d) + rest == d.lead + ([d.name] + behind);
      CommentsDropped(d.lead, [d.name] + behind);
      assert Tail([d.name] + behind) == behind;
      StringIsBody(d.name);
      NamedRejected(scan, f, d, before, rest);
    }
  }

  lemma NameMessage(t: Tok)
    ensures StringOf(t).None? ==> DecodeBody(Body(t.text)) == Bad(StringMessage(t))
  {
    NothingToDecode();
  }

  lemma {:induction false} NamedRejected(
    scan: DoubleScanner, f: Features, d: BrokenDict, before: seq<Entry>, rest: seq<Tok>)
    requires SoundDict(scan, f, d, false, rest) && !d.Past? && !d.Unended? && !d.AtName?
    ensures var behind := if d.AtColon? then rest
                          else [d.colon] + ((if d.InValue? then BrokenTokens(d.broken) else NodeTokens(d.node)) + rest);
            var r := ReadNamed(scan, behind, f, Object(before), StringOf(d.name).value);
            r.Stop? && Fails(r.parse, DictMessage(d, Head(rest)), Head(rest), Object(DictValue(scan, d, before)))
    decreases d, 0
  {
    hide ReadValue, Recover, Comments, StringOf, BrokenTokens, NodeTokens, CStr, BrokenValue, SoundNode, NodeValue,
      SoundBroken, DropComments;
    var prior := At(Object(before), KeyOf(d.name));
    if d.InValue? {
      assert Tail([d.colon] + (BrokenTokens(d.broken) + rest)) == BrokenTokens(d.broken) + rest;
      BrokenRejected(scan, f, d.broken, rest, prior);
    } else if d.AtSeparator? {
      assert Tail([d.colon] + (NodeTokens(d.node) + rest)) == NodeTokens(d.node) + rest;
      NodeAccepted(scan, f, d.node, rest, prior);
    }
  }

  // ----- and nothing else is

  lemma {:induction false} OnlyBroken(scan: DoubleScanner, f: Features, ts: seq<Tok>, prior: Value)
    returns (b: Broken, rest: seq<Tok>)
    requires !ReadValue(scan, f, ts, prior).ok
    ensures Breaks(scan, f, ts, b, rest)
    decreases |ts|, 1
  {
    hide ReadValue, ReadCore, SoundPlace, PlaceTokens;
    var us := if f.allowComments then DropComments(ts) else ts;
    var lead := [];
    if f.allowComments {
      lead := CommentsInFront(ts);
    }
    assert ts == lead + us;
    ReadBehindComments(scan, f, ts, prior);
    var p;
    p, rest := OnlyPlaces(scan, f, us, prior);
    b := Broken(lead, p);
    assert lead + PlaceTokens(p) + rest == lead + (PlaceTokens(p) + rest);
  }

  lemma {:induction false} OnlyPlaces(scan: DoubleScanner, f: Features, us: seq<Tok>, prior: Value)
    returns (p: Place, rest: seq<Tok>)
    requires !ReadCore(scan, f, us, prior).ok && (f.allowComments ==> !Head(us).kind.Comment?)
    ensures us == PlaceTokens(p) + rest && SoundPlace(scan, f, p, rest)
    decreases |us|, 0
  {
    hide ReadMembers, ReadList, ReadScalar, SoundList, SoundDict, ListTokens, DictTokens;
    match Head(us).kind {
      case ObjectBegin =>
        HeadAndTail(us);
        var d;
        d, rest := OnlyDicts(scan, f, Tail(us), [], "");
        p := InDict(us[0], d);
        OneFirst(us[0], DictTokens(d), rest);
      case ArrayBegin =>
        HeadAndTail(us);
        var l;
        l, rest := OnlyOpenLists(scan, f, Tail(us));
        p := InList(us[0], l);
        OneFirst(us[0], ListTokens(l), rest);
      case _ =>
        OnlyWord(scan, f, us, prior);
        p, rest := AtWord, us;
    }
  }

  lemma OnlyWord(scan: DoubleScanner, f: Features, us: seq<Tok>, prior: Value)
    requires !ReadCore(scan, f, us, prior).ok && (f.allowComments ==> !Head(us).kind.Comment?)
    requires !Head(us).kind.ObjectBegin? && !Head(us).kind.ArrayBegin?
    ensures us == PlaceTokens(AtWord) + us && SoundPlace(scan, f, AtWord, us)
  {
    hide WordValue, Scalar;
    WordIsScalar(scan, Head(us));
    assert [] + us == us;
  }

  lemma OneFirst(t: Tok, ts: seq<Tok>, rest: seq<Tok>)
    ensures [t] + ts + rest == [t] + (ts + rest)
  {
  }

  lemma {:induction false} OnlyOpenLists(scan: DoubleScanner, f: Features, ts: seq<Tok>)
    returns (l: BrokenList, rest: seq<Tok>)
    requires !ReadList(scan, f, ts).ok
    ensures ts == ListTokens(l) + rest && SoundList(scan, f, l, rest)
    ensures l == Here(Broken([], AtWord)) ==> !Head(rest).kind.ArrayEnd?
    decreases |ts|, 3
  {
    hide ReadElements, SoundList, ListTokens;
    l, rest := OnlyBrokenLists(scan, f, ts, 0, []);
    NothingThere(l, rest);
  }

  lemma NothingThere(l: BrokenList, rest: seq<Tok>)
    ensures l == Here(Broken([], AtWord)) ==> ListTokens(l) + rest == rest
  {
    assert [] + [] + rest == rest;
  }

  lemma {:induction false} OnlyBrokenLists(scan: DoubleScanner, f: Features, ts: seq<Tok>, i: nat, pre: seq<Entry>)
    returns (l: BrokenList, rest: seq<Tok>)
    requires !ReadElements(scan, ts, f, Array(pre), i).ok
    ensures ts == ListTokens(l) + rest && SoundList(scan, f, l, rest)
    decreases |ts|, 2
  {
    hide ReadValue, NodeTokens, SoundNode, NodeValue, BrokenTokens, SoundBroken, Comments, Recover, Put, Lookup;
    var prior := At(Array(pre), Index(i));
    var r := ReadValue(scan, f, ts, prior);
    if !r.ok {
      var b;
      b, rest := OnlyBroken(scan, f, ts, prior);
      l := Here(b);
    } else {
      var n := OnlyNodes(scan, f, ts, prior);
      var trail := CommentsInFront(r.rest);
      var behind := DropComments(r.rest);
      var arr := With(Array(pre), Index(i), r.value);
      if behind == [] {
        l, rest := Unclosed(n, trail), [];
        assert NodeTokens(n) + trail + [] == NodeTokens(n) + (trail + behind);
      } else {
        HeadAndTail(behind);
        var more;
        more, rest := OnlyBrokenLists(scan, f, Tail(behind), i + 1, arr.entries);
        l := Behind(n, trail, Head(behind), more);
        ListFirst(n, trail, [Head(behind)], ListTokens(more), rest);
      }
    }
  }

  lemma {:induction false} OnlyDicts(scan: DoubleScanner, f: Features, ts: seq<Tok>, before: seq<Entry>, name: string)
    returns (d: BrokenDict, rest: seq<Tok>)
    requires !ReadMembers(scan, ts, f, Object(before), name).ok
    ensures ts == DictTokens(d) + rest && SoundDict(scan, f, d, name == "", rest)
    decreases |ts|, 3
  {
    hide ReadMember, MemberTokens, SoundMember, MemberValue, Comments, NameOf;
    MembersAre(scan, f, ts, before, name);
    var r := ReadMember(scan, ts, f, Object(before), name);
    if r.Stop? {
      d, rest := OnlyBrokenRounds(scan, f, ts, before, name);
    } else {
      NextIsNoEnd(scan, f, ts, before, name);
      var m, behind := OnlyRounds(scan, f, ts, before, name);
      AnyBefore(scan, m, before);
      if behind == [] {
        d, rest := Unended(m), [];
        assert MemberTokens(m, []) + [] == MemberTokens(m, []);
      } else {
        HeadAndTail(behind);
        var more;
        more, rest := OnlyDicts(scan, f, Tail(behind), MemberValue(scan, m, before).value, NameOf(m).value);
        d := Past(m, behind[0], more);
        MemberSplit(m, [behind[0]] + DictTokens(more), rest);
        assert [behind[0]] + DictTokens(more) + rest == [behind[0]] + (DictTokens(more) + rest);
      }
    }
  }

  lemma NextIsNoEnd(scan: DoubleScanner, f: Features, ts: seq<Tok>, before: seq<Entry>, name: string)
    ensures ReadMember(scan, ts, f, Object(before), name).Next? ==>
              !(Head(DropComments(ts)).kind.ObjectEnd? && name == "")
  {
    hide ReadNamed;
  }

  lemma {:induction false} OnlyBrokenRounds(
    scan: DoubleScanner, f: Features, ts: seq<Tok>, before: seq<Entry>, name: string)
    returns (d: BrokenDict, rest: seq<Tok>)
    requires var r := ReadMember(scan, ts, f, Object(before), name); r.Stop? && !r.parse.ok
    ensures ts == DictTokens(d) + rest && SoundDict(scan, f, d, name == "", rest) && !d.Past? && !d.Unended?
    decreases |ts|, 2
  {
    hide ReadNamed, Recover, Comments, DecodeBody, Body, StringOf, BrokenTokens, NodeTokens, CStr;
    var lead := CommentsInFront(ts);
    var us := DropComments(ts);
    StringIsBody(Head(us));
    if !Head(us).kind.String? || StringOf(Head(us)).None? {
      d, rest := AtName(lead), us;
    } else {
      HeadAndTail(us);
      d, rest := OnlyBrokenNamed(scan, f, lead, us[0], Tail(us), before);
    }
  }

  lemma {:induction false} OnlyBrokenNamed(
    scan: DoubleScanner, f: Features, lead: seq<Tok>, name: Tok, colon: seq<Tok>, before: seq<Entry>)
    returns (d: BrokenDict, rest: seq<Tok>)
    requires SoundName(lead, name)
    requires var r := ReadNamed(scan, colon, f, Object(before), StringOf(name).value); r.Stop? && !r.parse.ok
    ensures lead + ([name] + colon) == DictTokens(d) + rest && SoundDict(scan, f, d, false, rest)
    ensures !d.Past? && !d.Unended? && !d.AtName?
    decreases |colon|, 2
  {
    hide ReadValue, Recover, Comments, StringOf, BrokenTokens, NodeTokens, CStr, SoundNode, NodeValue, SoundBroken,
      DropComments;
    if !Head(colon).kind.MemberSeparator? {
      d, rest := AtColon(lead, name), colon;
      assert lead + [name] + colon == lead + ([name] + colon);
    } else {
      HeadAndTail(colon);
      var prior := At(Object(before), KeyOf(name));
      var r := ReadValue(scan, f, Tail(colon), prior);
      if r.ok {
        var n := OnlyNodes(scan, f, Tail(colon), prior);
        d, rest := AtSeparator(lead, name, colon[0], n), r.rest;
        NameColon(lead, name, colon[0], NodeTokens(n), rest);
      } else {
        var b;
        b, rest := OnlyBroken(scan, f, Tail(colon), prior);
        d := InValue(lead, name, colon[0], b);
        NameColon(lead, name, colon[0], BrokenTokens(b), rest);
      }
    }
  }

  lemma NameColon(lead: seq<Tok>, name: Tok, colon: Tok, ts: seq<Tok>, rest: seq<Tok>)
    ensures lead + ([name, colon] + ts) + rest == lead + ([name] + ([colon] + (ts + rest)))
  {
  }

  // ----- the rejected texts

  // A value fails to be read exactly if the tokens start with a broken tree. The one error is at the token where
  // it breaks off and says what was missed there; the slot is left with what there is of the value.
  lemma RejectedIff(scan: DoubleScanner, f: Features, ts: seq<Tok>, prior: Value)
    ensures var r := ReadValue(scan, f, ts, prior);
            && (!r.ok <==> exists b, rest :: Breaks(scan, f, ts, b, rest))
            && (forall b, rest :: Breaks(scan, f, ts, b, rest) ==>
                  && r.errors == [ErrorInfo(BrokenMessage(b.place, Head(rest)), Head(rest))]
                  && r.value == BrokenValue(scan, b.place, prior))
  {
    hide ReadValue, SoundBroken, BrokenTokens, BrokenMessage, BrokenValue;
    forall b, rest | Breaks(scan, f, ts, b, rest)
      ensures Fails(ReadValue(scan, f, ts, prior), BrokenMessage(b.place, Head(rest)), Head(rest),
                    BrokenValue(scan, b.place, prior))
    {
      BrokenRejected(scan, f, b, rest, prior);
    }
    if !ReadValue(scan, f, ts, prior).ok {
      var b, rest := OnlyBroken(scan, f, ts, prior);
    }
  }

  // The same for documents, with the error that strict mode adds.
  lemma DocumentErrors(scan: DoubleScanner, f: Features, document: string, prior: Value, b: Broken, rest: seq<Tok>)
    requires Breaks(scan, f, Lex(document), b, rest)
    ensures var r, v := ParseDocument(scan, f, document, prior), BrokenValue(scan, b.place, prior);
            && !r.ok && r.value == v
            && r.errors == [ErrorInfo(BrokenMessage(b.place, Head(rest)), Head(rest))] +
                           (if AtRoot(f, v) then [] else [ErrorInfo(RootNotContainer, Tok(Error, document))])
  {
    hide ReadValue, Breaks, Lex, BrokenMessage, BrokenValue;
    RejectedIff(scan, f, Lex(document), prior);
  }

  // A comma in front of the closing brace is an error exactly if the name in front of it is not empty; the
  // members are kept.
  lemma CommaBeforeBrace(
    scan: DoubleScanner, f: Features, open: Tok, m: Member, comma: Tok, close: Tok, rest: seq<Tok>, prior: Value)
    requires open.kind.ObjectBegin? && comma.kind.ArraySeparator? && close.kind.ObjectEnd?
    requires SoundMember(f, m) && MemberValue(scan, m, []).Some?
    ensures var r := ReadValue(scan, f, [open] + MemberTokens(m, [comma, close] + rest), prior);
            && r.value == Object(MemberValue(scan, m, []).value)
            && (r.ok <==> NameOf(m) == Some(""))
            && (!r.ok ==> r.errors == [ErrorInfo(MissingBraceOrName, close)])
  {
    hide ReadValue, SoundMember, MemberValue, NameOf;
    MemberSplit(m, [comma, close], rest);
    MemberSplit(m, [comma], [close] + rest);
    assert [comma] + ([close] + rest) == [comma, close] + rest && [comma] + [close] == [comma, close];
    if NameOf(m) == Some("") {
      var end := NoMember([], close);
      var all := MoreMembers(m, comma, end);
      var n := Node([], Dict(open, all));
      assert MembersTokens(end) == [close] && SoundMembers(f, end, true);
      assert MembersTokens(all) == MemberTokens(m, [comma, close]) && SoundMembers(f, all, true);
      assert MembersValue(scan, all, []) == MemberValue(scan, m, []);
      assert SoundCore(f, n.core) && CoreTokens(n.core) == [open] + MembersTokens(all);
      OneFirst(open, MemberTokens(m, [comma, close]), rest);
      assert NodeTokens(n) == CoreTokens(n.core);
      NodeAccepted(scan, f, n, rest, prior);
    } else {
      var end, next := AtName([]), [close] + rest;
      var all := Past(m, comma, end);
      var b := Broken([], InDict(open, all));
      assert DictTokens(end) == [] && SoundDict(scan, f, end, false, next);
      assert DictTokens(all) == MemberTokens(m, [comma]) && SoundDict(scan, f, all, true, next);
      assert SoundPlace(scan, f, b.place, next) && PlaceTokens(b.place) == [open] + DictTokens(all);
      OneFirst(open, MemberTokens(m, [comma]), next);
      assert BrokenTokens(b) == PlaceTokens(b.place);
      assert DictMessage(all, close) == DictMessage(end, close) == MissingBraceOrName;
      assert DictValue(scan, all, []) == DictValue(scan, end, MemberValue(scan, m, []).value);
      BrokenRejected(scan, f, b, next, prior);
    }
  }
}
