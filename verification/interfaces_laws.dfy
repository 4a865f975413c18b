// What writing an interface's settings means for reading and for writing again. The laws hold
// for every file; they show that an attribute line behind an erased auto line, an orphan, is the
// one thing that stands in the way of the round trip, of absorption and of the frame.

module InterfaceLaws {
  import opened InterfaceLines
  import opened Interfaces

  predicate IsKey(k: string) {
    IsWord(k) && k[0] != '#' && k != "iface" && k != "auto" && k != "mapping"
  }

  // Settings that make one line of each entry and keep the words of a header apart.
  predicate Writable(s: Settings) {
    && IsWord(s.name) && IsWord(s.family) && IsWord(s.method_)
    && forall i :: 0 <= i < |s.attributes| ==> IsKey(s.attributes[i].key) && '\n' !in s.attributes[i].value
  }

  // The attributes of a std::map.
  predicate DistinctKeys(attrs: seq<Attr>) {
    forall i, j :: 0 <= i < j < |attrs| ==> attrs[i].key != attrs[j].key
  }

  function AttrMap(attrs: seq<Attr>): map<string, string> {
    if attrs == [] then map[] else map[attrs[0].key := attrs[0].value] + AttrMap(attrs[1..])
  }

  // What the reader takes of a value: its first word, and nothing at all without one.
  function FirstWords(attrs: seq<Attr>): map<string, string> {
    if attrs == [] then map[]
    else
      var w := Words(attrs[0].value);
      (if w == [] then map[] else map[attrs[0].key := w[0]]) + FirstWords(attrs[1..])
  }

  predicate SingleWords(attrs: seq<Attr>) { forall i :: 0 <= i < |attrs| ==> IsWord(attrs[i].value) }

  ghost predicate WordValues(m: map<string, string>) { forall k :: k in m ==> IsWord(m[k]) }

  lemma {:induction false} FirstWordsAreWords(attrs: seq<Attr>)
    ensures WordValues(FirstWords(attrs))
    ensures SingleWords(attrs) ==> FirstWords(attrs) == AttrMap(attrs)
  {
    if attrs != [] {
      hide IsWord, Words;
      FirstWordsAreWords(attrs[1..]);
      if SingleWords(attrs) { WordsOfValue(attrs[0]); }
    }
  }

  lemma {:induction false} AttrMapAt(attrs: seq<Attr>, i: nat)
    requires DistinctKeys(attrs) && i < |attrs|
    ensures attrs[i].key in AttrMap(attrs) && AttrMap(attrs)[attrs[i].key] == attrs[i].value
  {
    if i > 0 {
      AttrMapAt(attrs[1..], i - 1);
    } else {
      NoSuchKey(attrs[1..], attrs[0].key);
    }
  }

  lemma {:induction false} NoSuchKey(attrs: seq<Attr>, k: string)
    requires forall i :: 0 <= i < |attrs| ==> attrs[i].key != k
    ensures k !in AttrMap(attrs)
  {
    if attrs != [] { NoSuchKey(attrs[1..], k); }
  }

  // ----- the written lines, seen by the name and by others

  lemma AutoLineKinds(name: string, other: string)
    requires IsWord(name)
    ensures KindOf(name, AutoLine(name)).AutoOnly?
    ensures other != name ==> KindOf(other, AutoLine(name)).AutoOther?
  {
    assert AutoLine(name) == Join(["auto", name]);
    WordsOfJoin(["auto", name]);
    assert ["auto", name][1..] == [name];
  }

  lemma HeaderLineKinds(s: Settings, other: string)
    requires Writable(s)
    ensures KindOf(s.name, HeaderLine(s)).IfaceOwn?
    ensures Words(HeaderLine(s)) == ["iface", s.name, s.family, s.method_]
    ensures other != s.name ==> KindOf(other, HeaderLine(s)).IfaceOther?
  {
    var ws := ["iface", s.name, s.family, s.method_];
    WordsOfJoin(ws);
    HeaderIsJoin(s);
  }

  lemma HeaderIsJoin(s: Settings)
    ensures HeaderLine(s) == Join(["iface", s.name, s.family, s.method_])
  {
    var m, fm, nfm := [s.method_], [s.family, s.method_], [s.name, s.family, s.method_];
    assert fm[1..] == m && nfm[1..] == fm && ["iface", s.name, s.family, s.method_][1..] == nfm;
    assert Join(fm) == s.family + " " + s.method_;
    assert Join(nfm) == s.name + " " + Join(fm);
    assert HeaderLine(s) == "iface" + " " + (s.name + " " + (s.family + " " + s.method_));
  }

  lemma AttrLineKind(name: string, a: Attr)
    requires IsKey(a.key)
    ensures KindOf(name, AttrLine(a)).Attribute?
    ensures Words(AttrLine(a)) == [a.key] + Words(a.value)
  {
    var rest := " " + a.value;
    assert AttrLine(a)[1..] == a.key + rest;
    WordsOfWord(a.key, rest);
    assert rest[1..] == a.value;
  }

  lemma WordsOfValue(a: Attr)
    requires IsWord(a.value)
    ensures Words(a.value) == [a.value]
  {
    WordsOfJoin([a.value]);
  }

  // ----- reading over a written stanza

  lemma {:induction false} SkipAttrLines(name: string, attrs: seq<Attr>, rest: seq<string>, st: Reading)
    requires forall i :: 0 <= i < |attrs| ==> IsKey(attrs[i].key)
    ensures ReadOuter(name, AttrLines(attrs) + rest, st) == ReadOuter(name, rest, st)
  {
    var all := AttrLines(attrs) + rest;
    if attrs == [] {
      assert all == rest;
    } else {
      hide KindOf, Words, IsKey, ReadInner, Assign;
      AttrLineKind(name, attrs[0]);
      assert all[0] == AttrLine(attrs[0]) && all[1..] == AttrLines(attrs[1..]) + rest;
      SkipAttrLines(name, attrs[1..], rest, st);
    }
  }

  lemma FirstWordsStep(attrs: seq<Attr>, m: map<string, string>)
    requires attrs != []
    ensures var w := Words(attrs[0].value);
            (if w == [] then m else m[attrs[0].key := w[0]]) + FirstWords(attrs[1..]) == m + FirstWords(attrs)
  {
    hide Words;
  }

  lemma {:induction false} ReadAttrLines(name: string, attrs: seq<Attr>, rest: seq<string>, st: Reading)
    requires forall i :: 0 <= i < |attrs| ==> IsKey(attrs[i].key)
    ensures ReadInner(name, AttrLines(attrs) + rest, st) ==
            ReadInner(name, rest, st.(attributes := st.attributes + FirstWords(attrs)))
  {
    var all := AttrLines(attrs) + rest;
    if attrs == [] {
      assert all == rest && st.attributes + map[] == st.attributes;
    } else {
      hide KindOf, Words, IsKey, IsWord, ReadOuter, FirstWords;
      var a, w := attrs[0], Words(attrs[0].value);
      AttrLineKind(name, a);
      assert all[0] == AttrLine(a) && all[1..] == AttrLines(attrs[1..]) + rest;
      var m := if w == [] then st.attributes else st.attributes[a.key := w[0]];
      assert Assign(AttrLine(a), st) == st.(attributes := m);
      ReadAttrLines(name, attrs[1..], rest, st.(attributes := m));
      FirstWordsStep(attrs, st.attributes);
    }
  }

  // What the reader knows behind its own stanza.
  function Entered(s: Settings, st: Reading): Reading {
    Reading(st.automatic || s.automatic, Header(s.family, s.method_), st.attributes + FirstWords(s.attributes))
  }

  lemma OwnStanzaRead(s: Settings, rest: seq<string>, st: Reading)
    requires Writable(s)
    ensures ReadOuter(s.name, Stanza(s) + rest, st) == ReadInner(s.name, rest, Entered(s, st))
    ensures ReadInner(s.name, Stanza(s) + rest, st) == ReadOuter(s.name, Stanza(s) + rest, st)
  {
    hide KindOf, Words, FirstWords;
    AutoLineKinds(s.name, s.name);
    HeaderLineKinds(s, s.name);
    var all := Stanza(s) + rest;
    var tail := [HeaderLine(s)] + (AttrLines(s.attributes) + rest);
    assert all == if s.automatic then [AutoLine(s.name)] + tail else tail;
    assert s.automatic ==> all[1..] == tail;
    assert tail[1..] == AttrLines(s.attributes) + rest;
    var st' := st.(automatic := st.automatic || s.automatic, header := Header(s.family, s.method_));
    ReadAttrLines(s.name, s.attributes, rest, st');
  }

  lemma OtherStanzaRead(s: Settings, other: string, rest: seq<string>, st: Reading)
    requires Writable(s) && other != s.name
    ensures ReadOuter(other, Stanza(s) + rest, st) == ReadOuter(other, rest, st)
    ensures ReadInner(other, Stanza(s) + rest, st) == ReadOuter(other, rest, st)
  {
    hide KindOf, Words, FirstWords, ReadOuter, ReadInner;
    AutoLineKinds(s.name, other);
    HeaderLineKinds(s, other);
    var attrs := AttrLines(s.attributes) + rest;
    StanzaParts(s, rest);
    OtherLineRead(other, AutoLine(s.name), [HeaderLine(s)] + attrs, st);
    OtherLineRead(other, HeaderLine(s), attrs, st);
    SkipAttrLines(other, s.attributes, rest, st);
  }

  lemma StanzaParts(s: Settings, rest: seq<string>)
    ensures var tail := [HeaderLine(s)] + (AttrLines(s.attributes) + rest);
            Stanza(s) + rest == if s.automatic then [AutoLine(s.name)] + tail else tail
  {
    hide HeaderLine, AutoLine, AttrLines;
  }

  lemma OtherLineRead(other: string, line: string, rest: seq<string>, st: Reading)
    requires KindOf(other, line).AutoOther? || KindOf(other, line).IfaceOther?
    ensures ReadOuter(other, [line] + rest, st) == ReadOuter(other, rest, st)
    ensures ReadInner(other, [line] + rest, st) == ReadOuter(other, rest, st)
  {
    hide KindOf;
    assert ([line] + rest)[1..] == rest;
  }

  // ----- where in the file a line stands

  // Outside the interface's stanzas; in one, as the writer sees it; or behind an auto line that
  // ended one but that the writer erases.
  datatype Mode = Outside | InStanza | AfterAuto

  function NextMode(mode: Mode, k: Kind): Mode {
    match k
    case Blank => mode
    case Comment => mode
    case Attribute => mode
    case IfaceOwn => InStanza
    case AutoOnly => if mode.Outside? then Outside else AfterAuto
    case _ => Outside
  }

  predicate IsOrphan(name: string, mode: Mode, line: string) {
    mode.AfterAuto? && KindOf(name, line).Attribute?
  }

  function Orphans(name: string, mode: Mode, lines: seq<string>): seq<string>
    decreases |lines|
  {
    if lines == [] then []
    else
      (if IsOrphan(name, mode, lines[0]) then [lines[0]] else []) +
      Orphans(name, NextMode(mode, KindOf(name, lines[0])), lines[1..])
  }

  function DropOrphans(name: string, mode: Mode, lines: seq<string>): seq<string>
    decreases |lines|
  {
    if lines == [] then []
    else
      (if IsOrphan(name, mode, lines[0]) then [] else [lines[0]]) +
      DropOrphans(name, NextMode(mode, KindOf(name, lines[0])), lines[1..])
  }

  // What the writer makes of the lines from a given mode on.
  function Output(s: Settings, mode: Mode, lines: seq<string>): seq<string> {
    if mode.InStanza? then Body(s, lines) else Scan(s, lines)
  }

  // One line of the output.
  function OutputOf(s: Settings, mode: Mode, line: string): seq<string> {
    match KindOf(s.name, line)
    case AutoOnly => []
    case AutoShared => [RemoveName(s.name, line)]
    case IfaceOwn => Stanza(s)
    case Attribute => if mode.InStanza? then [] else [line]
    case _ => [line]
  }

  lemma OutputStep(s: Settings, mode: Mode, lines: seq<string>)
    requires lines != []
    ensures Output(s, mode, lines) ==
            OutputOf(s, mode, lines[0]) + Output(s, NextMode(mode, KindOf(s.name, lines[0])), lines[1..])
  {
    hide KindOf, RemoveName, Stanza;
    var rest := Output(s, NextMode(mode, KindOf(s.name, lines[0])), lines[1..]);
    assert [] + rest == rest;
    assert Scan(s, lines) == OutputOf(s, Outside, lines[0]) +
      (if KindOf(s.name, lines[0]).IfaceOwn? then Body(s, lines[1..]) else Scan(s, lines[1..])) by {
      assert [] + Scan(s, lines[1..]) == Scan(s, lines[1..]);
    }
  }

  // The reader of the interface is inside a stanza behind an erased auto line, too.
  function ReadIn(name: string, mode: Mode, lines: seq<string>, st: Reading): Reading {
    if mode.Outside? then ReadOuter(name, lines, st) else ReadInner(name, lines, st)
  }

  // ----- reading back

  // The effect of one input line on what is read back: stanzas set the written attributes, and
  // orphans add theirs.
  function Effect(s: Settings, mode: Mode, line: string, st: Reading): Reading {
    if KindOf(s.name, line).IfaceOwn? then Entered(s, st)
    else if IsOrphan(s.name, mode, line) then Assign(line, st)
    else st
  }

  function Effects(s: Settings, mode: Mode, lines: seq<string>, st: Reading): Reading
    decreases |lines|
  {
    if lines == [] then st
    else Effects(s, NextMode(mode, KindOf(s.name, lines[0])), lines[1..], Effect(s, mode, lines[0], st))
  }

  // Reading one kept or rewritten line.
  lemma ReadKeptLine(s: Settings, mode: Mode, line: string, rest: seq<string>, st: Reading)
    requires Writable(s)
    ensures ReadIn(s.name, mode, OutputOf(s, mode, line) + rest, st) ==
            ReadIn(s.name, NextMode(mode, KindOf(s.name, line)), rest, Effect(s, mode, line, st))
  {
    var out := OutputOf(s, mode, line);
    var k := KindOf(s.name, line);
    if k.IfaceOwn? {
      OwnStanzaRead(s, rest, st);
    } else if out == [] {
      assert out + rest == rest;
    } else {
      if k.AutoShared? { RemoveNameKeepsOthers(s.name, line); }
      hide KindOf, RemoveName, Stanza;
      assert out + rest == [out[0]] + rest;
      ReadOneLine(s.name, out[0], rest, st);
    }
  }

  // The reader's step on a line that neither opens a stanza nor starts the interface.
  lemma ReadOneLine(name: string, line: string, rest: seq<string>, st: Reading)
    requires var k := KindOf(name, line); !k.IfaceOwn? && !k.AutoOnly? && !k.AutoShared?
    ensures ReadOuter(name, [line] + rest, st) == ReadOuter(name, rest, st)
    ensures ReadInner(name, [line] + rest, st) ==
            match KindOf(name, line)
            case Blank => ReadInner(name, rest, st)
            case Comment => ReadInner(name, rest, st)
            case Attribute => ReadInner(name, rest, Assign(line, st))
            case _ => ReadOuter(name, rest, st)
  {
    hide KindOf, Assign;
    assert ([line] + rest)[0] == line && ([line] + rest)[1..] == rest;
    assert ReadOuter(name, [line] + rest, st) == ReadOuter(name, rest, st);
  }

  lemma {:induction false} ReadOutput(s: Settings, mode: Mode, lines: seq<string>, st: Reading)
    requires Writable(s)
    ensures ReadIn(s.name, mode, Output(s, mode, lines), st) == Effects(s, mode, lines, st)
    decreases |lines|
  {
    if lines != [] {
      hide KindOf, OutputOf, ReadIn, Output, Effect, NextMode, Writable;
      var next := NextMode(mode, KindOf(s.name, lines[0]));
      OutputStep(s, mode, lines);
      ReadKeptLine(s, mode, lines[0], Output(s, next, lines[1..]), st);
      ReadOutput(s, next, lines[1..], Effect(s, mode, lines[0], st));
    }
  }

  // ----- a file without a stanza of the interface gets one at its end

  // The lines with a header for the interface at the end if there is none.
  function Anchored(s: Settings, lines: seq<string>): seq<string> {
    if HasOwn(s.name, lines) then lines else lines + [HeaderLine(s)]
  }

  lemma {:induction false} ScanToHeader(s: Settings, lines: seq<string>, h: string)
    requires !HasOwn(s.name, lines) && KindOf(s.name, h).IfaceOwn?
    ensures Scan(s, lines + [h]) == Scan(s, lines) + Stanza(s) && HasOwn(s.name, lines + [h])
  {
    var all := lines + [h];
    if lines == [] {
      assert all == [h] && all[1..] == [];
    } else {
      hide KindOf, Stanza, RemoveName;
      assert all[0] == lines[0] && all[1..] == lines[1..] + [h];
      ScanToHeader(s, lines[1..], h);
    }
  }

  lemma WrittenIsScan(s: Settings, lines: seq<string>)
    requires Writable(s)
    ensures Written(s, lines) == Scan(s, Anchored(s, lines)) && HasOwn(s.name, Anchored(s, lines))
  {
    HeaderLineKinds(s, s.name);
    if !HasOwn(s.name, lines) { ScanToHeader(s, lines, HeaderLine(s)); }
  }

  // ----- reading back what was written

  // The keys orphans set, and the values the orphans of the last stanza leave.
  function OrphanKeys(name: string, mode: Mode, lines: seq<string>): set<string>
    decreases |lines|
  {
    if lines == [] then {}
    else
      var w := Words(lines[0]);
      (if IsOrphan(name, mode, lines[0]) && |w| >= 2 then {w[0]} else {}) +
      OrphanKeys(name, NextMode(mode, KindOf(name, lines[0])), lines[1..])
  }

  function LastOrphans(name: string, mode: Mode, lines: seq<string>, m: map<string, string>): map<string, string>
    decreases |lines|
  {
    if lines == [] then m
    else
      var w := Words(lines[0]);
      LastOrphans(name, NextMode(mode, KindOf(name, lines[0])), lines[1..],
                  if KindOf(name, lines[0]).IfaceOwn? then map[]
                  else if IsOrphan(name, mode, lines[0]) && |w| >= 2 then m[w[0] := w[1]]
                  else m)
  }

  // Flag and header come back as written, whatever the file held.
  lemma {:induction false} EffectsHeader(s: Settings, mode: Mode, lines: seq<string>, st: Reading)
    ensures var r := Effects(s, mode, lines, st);
            if HasOwn(s.name, lines) then
              r.automatic == (st.automatic || s.automatic) && r.header == Header(s.family, s.method_)
            else r.automatic == st.automatic && r.header == st.header
    decreases |lines|
  {
    if lines != [] {
      hide KindOf, NextMode;
      EffectsHeader(s, NextMode(mode, KindOf(s.name, lines[0])), lines[1..], Effect(s, mode, lines[0], st));
    }
  }

  // Inside or behind a stanza, the keys read back are the written ones and those of orphans, and
  // a written key reads as the last stanza and its orphans leave it.
  lemma {:induction false} EffectsAttributes(
    s: Settings, mode: Mode, lines: seq<string>, st: Reading, m: map<string, string>)
    requires var a := FirstWords(s.attributes);
             a.Keys <= st.attributes.Keys && forall k :: k in a ==> st.attributes[k] == (a + m)[k]
    ensures var a := FirstWords(s.attributes);
            var r := Effects(s, mode, lines, st).attributes;
            && r.Keys == st.attributes.Keys + OrphanKeys(s.name, mode, lines)
            && forall k :: k in a ==> r[k] == (a + LastOrphans(s.name, mode, lines, m))[k]
    decreases |lines|
  {
    hide KindOf, NextMode, FirstWords, Words;
    if lines != [] {
      var w := Words(lines[0]);
      var m' := if KindOf(s.name, lines[0]).IfaceOwn? then map[]
                else if IsOrphan(s.name, mode, lines[0]) && |w| >= 2 then m[w[0] := w[1]] else m;
      EffectsAttributes(s, NextMode(mode, KindOf(s.name, lines[0])), lines[1..], Effect(s, mode, lines[0], st), m');
    }
  }

  // Up to the first stanza nothing is an orphan and nothing is set.
  lemma {:induction false} EffectsFromStart(s: Settings, lines: seq<string>, st: Reading)
    requires HasOwn(s.name, lines) && st.attributes == map[]
    ensures var a := FirstWords(s.attributes);
            var r := Effects(s, Outside, lines, st).attributes;
            && r.Keys == a.Keys + OrphanKeys(s.name, Outside, lines)
            && forall k :: k in a ==> r[k] == (a + LastOrphans(s.name, Outside, lines, map[]))[k]
  {
    hide KindOf, FirstWords;
    var a := FirstWords(s.attributes);
    if KindOf(s.name, lines[0]).IfaceOwn? {
      assert map[] + a == a && a + map[] == a;
      EffectsAttributes(s, InStanza, lines[1..], Entered(s, st), map[]);
    } else {
      EffectsFromStart(s, lines[1..], st);
    }
  }

  // Without a stanza there are no orphans; a header at the end adds none.
  lemma {:induction false} NoStanzaNoOrphans(name: string, lines: seq<string>, tail: seq<string>)
    requires !HasOwn(name, lines)
    requires tail == [] || (|tail| == 1 && KindOf(name, tail[0]).IfaceOwn?)
    ensures OrphanKeys(name, Outside, lines + tail) == {} && LastOrphans(name, Outside, lines + tail, map[]) == map[]
    ensures Orphans(name, Outside, lines + tail) == [] && DropOrphans(name, Outside, lines + tail) == lines + tail
  {
    hide KindOf, Words;
    var all := lines + tail;
    if lines == [] {
      assert all == tail;
      if tail != [] { assert all[1..] == []; }
    } else {
      assert !KindOf(name, lines[0]).IfaceOwn? && NextMode(Outside, KindOf(name, lines[0])) == Outside;
      hide NextMode;
      assert all[0] == lines[0] && all[1..] == lines[1..] + tail;
      NoStanzaNoOrphans(name, lines[1..], tail);
      assert [] + ([lines[0]] + (lines[1..] + tail)) == all;
    }
  }

  lemma AnchoredOrphans(s: Settings, lines: seq<string>)
    requires Writable(s)
    ensures OrphanKeys(s.name, Outside, Anchored(s, lines)) == OrphanKeys(s.name, Outside, lines)
    ensures LastOrphans(s.name, Outside, Anchored(s, lines), map[]) == LastOrphans(s.name, Outside, lines, map[])
    ensures Orphans(s.name, Outside, Anchored(s, lines)) == Orphans(s.name, Outside, lines)
    ensures !HasOwn(s.name, lines) ==> DropOrphans(s.name, Outside, lines) == lines
    ensures DropOrphans(s.name, Outside, Anchored(s, lines)) == Anchored(s, DropOrphans(s.name, Outside, lines))
  {
    if !HasOwn(s.name, lines) {
      HeaderLineKinds(s, s.name);
      NoStanzaNoOrphans(s.name, lines, [HeaderLine(s)]);
      NoStanzaNoOrphans(s.name, lines, []);
      assert lines + [] == lines;
    } else {
      DropKeepsStanzas(s.name, Outside, lines);
    }
  }

  lemma {:induction false} DropKeepsStanzas(name: string, mode: Mode, lines: seq<string>)
    ensures HasOwn(name, DropOrphans(name, mode, lines)) <==> HasOwn(name, lines)
    decreases |lines|
  {
    if lines != [] {
      hide KindOf;
      var next := NextMode(mode, KindOf(name, lines[0]));
      DropKeepsStanzas(name, next, lines[1..]);
      var rest := DropOrphans(name, next, lines[1..]);
      assert [] + rest == rest && ([lines[0]] + rest)[1..] == rest;
    }
  }

  lemma {:induction false} EffectsAreWords(s: Settings, mode: Mode, lines: seq<string>, st: Reading)
    requires WordValues(st.attributes)
    ensures WordValues(Effects(s, mode, lines, st).attributes)
    decreases |lines|
  {
    if lines != [] {
      hide KindOf, NextMode, FirstWords, IsWord, Words;
      FirstWordsAreWords(s.attributes);
      EffectsAreWords(s, NextMode(mode, KindOf(s.name, lines[0])), lines[1..], Effect(s, mode, lines[0], st));
    }
  }

  // Reading the interface after writing it, for every file: flag, family and method are the
  // written ones; the attributes are exactly the written ones if and only if every value is one
  // word, orphans set no other key, and those of the last stanza no other value.
  lemma WriteThenRead(s: Settings, lines: seq<string>)
    requires Writable(s) && DistinctKeys(s.attributes)
    ensures var r := ReadOuter(s.name, Written(s, lines), START);
            var a := AttrMap(s.attributes);
            var keys := OrphanKeys(s.name, Outside, lines);
            var last := LastOrphans(s.name, Outside, lines, map[]);
            && r.automatic == s.automatic && r.header == Header(s.family, s.method_)
            && r.attributes.Keys == FirstWords(s.attributes).Keys + keys
            && (r.attributes == a <==>
                SingleWords(s.attributes) && keys <= a.Keys && forall k :: k in last && k in a ==> last[k] == a[k])
  {
    hide KindOf, AttrMap, FirstWords, OrphanKeys, LastOrphans, IsWord, WordValues, DistinctKeys;
    var all := Anchored(s, lines);
    WrittenIsScan(s, lines);
    AnchoredOrphans(s, lines);
    ReadOutput(s, Outside, all, START);
    EffectsHeader(s, Outside, all, START);
    EffectsFromStart(s, all, START);
    var r := ReadOuter(s.name, Written(s, lines), START);
    FirstWordsAreWords(s.attributes);
    if SingleWords(s.attributes) {
      OnlyAdded(r.attributes, AttrMap(s.attributes), OrphanKeys(s.name, Outside, lines),
                LastOrphans(s.name, Outside, lines, map[]));
    } else {
      NothingButWords();
      EffectsAreWords(s, Outside, all, START);
      NotReadBack(s.attributes, r.attributes);
    }
  }

  lemma NothingButWords()
    ensures WordValues(START.attributes)
  {
  }

  lemma OnlyAdded(r: map<string, string>, a: map<string, string>, keys: set<string>, last: map<string, string>)
    requires r.Keys == a.Keys + keys && forall k :: k in a ==> r[k] == (a + last)[k]
    ensures r == a <==> keys <= a.Keys && forall k :: k in last && k in a ==> last[k] == a[k]
  {
    assert r.Keys == a.Keys ==> (r == a <==> forall k :: k in a ==> r[k] == a[k]);
    assert forall k :: k in last && k in a ==> (a + last)[k] == last[k];
  }

  lemma NotReadBack(attrs: seq<Attr>, r: map<string, string>)
    requires DistinctKeys(attrs) && !SingleWords(attrs) && WordValues(r)
    ensures r != AttrMap(attrs)
  {
    hide IsWord, AttrMap;
    var i :| 0 <= i < |attrs| && !IsWord(attrs[i].value);
    AttrMapAt(attrs, i);
  }

  // In particular a file without orphans keeps what was written, under any settings.
  lemma {:induction false} NoOrphansNoKeys(name: string, mode: Mode, lines: seq<string>, m: map<string, string>)
    requires Orphans(name, mode, lines) == []
    ensures OrphanKeys(name, mode, lines) == {}
    ensures m == map[] ==> LastOrphans(name, mode, lines, m) == map[]
    decreases |lines|
  {
    if lines != [] {
      hide KindOf, NextMode;
      NoOrphansNoKeys(name, NextMode(mode, KindOf(name, lines[0])), lines[1..], m);
      NoOrphansNoKeys(name, NextMode(mode, KindOf(name, lines[0])), lines[1..], map[]);
    }
  }

  lemma RoundTripWithoutOrphans(s: Settings, lines: seq<string>)
    requires Writable(s) && DistinctKeys(s.attributes) && Orphans(s.name, Outside, lines) == []
    ensures var r := ReadOuter(s.name, Written(s, lines), START);
            && r == Reading(s.automatic, Header(s.family, s.method_), FirstWords(s.attributes))
            && (r.attributes == AttrMap(s.attributes) <==> SingleWords(s.attributes))
  {
    hide KindOf, AttrMap, FirstWords, IsWord, DistinctKeys, OrphanKeys, LastOrphans;
    WriteThenRead(s, lines);
    NoOrphansNoKeys(s.name, Outside, lines, map[]);
    var all := Anchored(s, lines);
    WrittenIsScan(s, lines);
    AnchoredOrphans(s, lines);
    ReadOutput(s, Outside, all, START);
    EffectsFromStart(s, all, START);
    var a := FirstWords(s.attributes);
    assert a + map[] == a;
    assert ReadOuter(s.name, Written(s, lines), START).attributes.Keys == a.Keys + {};
  }

  // ----- writing again

  lemma {:induction false} BodyOfAttrLines(s: Settings, attrs: seq<Attr>, rest: seq<string>)
    requires forall i :: 0 <= i < |attrs| ==> IsKey(attrs[i].key)
    ensures Body(s, AttrLines(attrs) + rest) == Body(s, rest)
  {
    var all := AttrLines(attrs) + rest;
    if attrs == [] {
      assert all == rest;
    } else {
      hide KindOf, Stanza;
      AttrLineKind(s.name, attrs[0]);
      assert all[0] == AttrLine(attrs[0]) && all[1..] == AttrLines(attrs[1..]) + rest;
      BodyOfAttrLines(s, attrs[1..], rest);
    }
  }

  // A stanza written before is replaced whole.
  lemma StanzaAbsorbed(a: Settings, b: Settings, rest: seq<string>)
    requires Writable(a) && a.name == b.name
    ensures Scan(b, Stanza(a) + rest) == Stanza(b) + Body(b, rest)
    ensures Body(b, Stanza(a) + rest) == Stanza(b) + Body(b, rest)
  {
    AutoLineKinds(a.name, a.name);
    HeaderLineKinds(a, a.name);
    BodyOfAttrLines(b, a.attributes, rest);
    StanzaParts(a, rest);
    hide Writable, KindOf, Words, Scan, Body, Stanza, AttrLines, IsKey, IsWord;
    var all, attrs := Stanza(a) + rest, AttrLines(a.attributes) + rest;
    var tail := [HeaderLine(a)] + attrs;
    assert tail[0] == HeaderLine(a) && tail[1..] == attrs;
    OutputStep(b, Outside, tail);
    OutputStep(b, InStanza, tail);
    if a.automatic {
      assert all[0] == AutoLine(a.name) && all[1..] == tail;
      OutputStep(b, Outside, all);
      OutputStep(b, InStanza, all);
      assert [] + Scan(b, tail) == Scan(b, tail);
    }
  }

  // The mode of the second writer: what the first one left behind an erased auto line is, to the
  // second, still in the stanza.
  function Again(mode: Mode): Mode { if mode.Outside? then Outside else InStanza }

  lemma RewriteKeptLine(a: Settings, b: Settings, mode: Mode, line: string, rest: seq<string>)
    requires Writable(a) && a.name == b.name
    ensures Output(b, Again(mode), OutputOf(a, mode, line) + rest) ==
            (if IsOrphan(a.name, mode, line) then [] else OutputOf(b, mode, line)) +
            Output(b, Again(NextMode(mode, KindOf(a.name, line))), rest)
  {
    var out := OutputOf(a, mode, line);
    var k := KindOf(a.name, line);
    if k.IfaceOwn? {
      StanzaAbsorbed(a, b, rest);
    } else if out == [] {
      assert out + rest == rest;
      var o := Output(b, Again(NextMode(mode, k)), rest);
      assert [] + o == o;
    } else {
      if k.AutoShared? { RemoveNameKeepsOthers(a.name, line); }
      hide KindOf, RemoveName, Stanza;
      assert out + rest == [out[0]] + rest && ([out[0]] + rest)[1..] == rest;
      OutputStep(b, Again(mode), [out[0]] + rest);
    }
  }

  lemma {:induction false} WriteAgain(a: Settings, b: Settings, mode: Mode, lines: seq<string>)
    requires Writable(a) && a.name == b.name
    ensures Output(b, Again(mode), Output(a, mode, lines)) == Output(b, mode, DropOrphans(a.name, mode, lines))
    decreases |lines|
  {
    if lines == [] {
    } else {
      hide KindOf, OutputOf, Output, NextMode, Writable;
      var next := NextMode(mode, KindOf(a.name, lines[0]));
      var rest := DropOrphans(a.name, next, lines[1..]);
      OutputStep(a, mode, lines);
      RewriteKeptLine(a, b, mode, lines[0], Output(a, next, lines[1..]));
      WriteAgain(a, b, next, lines[1..]);
      assert DropOrphans(a.name, mode, lines) ==
             if IsOrphan(a.name, mode, lines[0]) then rest else [lines[0]] + rest by {
        assert [] + rest == rest;
      }
      if IsOrphan(a.name, mode, lines[0]) {
        OrphanKeepsMode(a.name, mode, lines[0]);
        assert [] + Output(b, next, rest) == Output(b, next, rest);
      } else {
        assert ([lines[0]] + rest)[0] == lines[0] && ([lines[0]] + rest)[1..] == rest;
        OutputStep(b, mode, [lines[0]] + rest);
      }
    }
  }

  lemma OrphanKeepsMode(name: string, mode: Mode, line: string)
    requires IsOrphan(name, mode, line)
    ensures NextMode(mode, KindOf(name, line)) == mode
  {}

  lemma {:induction false} HasOwnConcat(name: string, xs: seq<string>, ys: seq<string>)
    ensures HasOwn(name, xs + ys) <==> HasOwn(name, xs) || HasOwn(name, ys)
  {
    if xs == [] {
      assert xs + ys == ys;
    } else {
      hide KindOf;
      assert (xs + ys)[0] == xs[0] && (xs + ys)[1..] == xs[1..] + ys;
      HasOwnConcat(name, xs[1..], ys);
    }
  }

  lemma {:induction false} OutputHasOwn(s: Settings, mode: Mode, lines: seq<string>)
    requires Writable(s) && HasOwn(s.name, lines)
    ensures HasOwn(s.name, Output(s, mode, lines))
    decreases |lines|
  {
    var next := NextMode(mode, KindOf(s.name, lines[0]));
    var auto := if s.automatic then [AutoLine(s.name)] else [];
    OutputStep(s, mode, lines);
    if KindOf(s.name, lines[0]).IfaceOwn? {
      hide KindOf;
      HeaderLineKinds(s, s.name);
      assert HasOwn(s.name, [HeaderLine(s)]);
      HasOwnConcat(s.name, auto, [HeaderLine(s)]);
      HasOwnConcat(s.name, auto + [HeaderLine(s)], AttrLines(s.attributes));
    } else {
      hide KindOf;
      OutputHasOwn(s, next, lines[1..]);
    }
    HasOwnConcat(s.name, OutputOf(s, mode, lines[0]), Output(s, next, lines[1..]));
  }

  lemma {:induction false} OrphansCount(s: Settings, mode: Mode, lines: seq<string>)
    ensures |Output(s, mode, lines)| ==
            |Output(s, mode, DropOrphans(s.name, mode, lines))| + |Orphans(s.name, mode, lines)|
    ensures Orphans(s.name, mode, lines) == [] ==> DropOrphans(s.name, mode, lines) == lines
    decreases |lines|
  {
    if lines != [] {
      hide KindOf, OutputOf, Output;
      var next := NextMode(mode, KindOf(s.name, lines[0]));
      var rest := DropOrphans(s.name, next, lines[1..]);
      OutputStep(s, mode, lines);
      OrphansCount(s, next, lines[1..]);
      if IsOrphan(s.name, mode, lines[0]) {
        OrphanKept(s, mode, lines[0]);
        assert [] + rest == rest;
      } else {
        assert ([lines[0]] + rest)[0] == lines[0] && ([lines[0]] + rest)[1..] == rest;
        OutputStep(s, mode, [lines[0]] + rest);
        assert [lines[0]] + lines[1..] == lines;
      }
    }
  }

  lemma OrphanKept(s: Settings, mode: Mode, line: string)
    requires IsOrphan(s.name, mode, line)
    ensures OutputOf(s, mode, line) == [line] && NextMode(mode, KindOf(s.name, line)) == mode
  {}

  // Writing settings a and then b is writing b to the file without its orphans. So the second
  // writing makes the first one as if it had not been exactly when there are none.
  lemma WriteTwice(a: Settings, b: Settings, lines: seq<string>)
    requires Writable(a) && Writable(b) && a.name == b.name
    ensures Written(b, Written(a, lines)) == Written(b, DropOrphans(a.name, Outside, lines))
    ensures Written(b, Written(a, lines)) == Written(b, lines) <==> Orphans(a.name, Outside, lines) == []
  {
    hide KindOf, Writable, Stanza;
    var all, dropped := Anchored(a, lines), DropOrphans(a.name, Outside, lines);
    WrittenIsScan(a, lines);
    OutputHasOwn(a, Outside, all);
    WriteAgain(a, b, Outside, all);
    AnchoredOrphans(a, lines);
    AnyAnchor(a, b, dropped);
    assert Written(b, Written(a, lines)) == Scan(b, Scan(a, all)) by {
      assert Scan(b, Scan(a, all)) + [] == Scan(b, Scan(a, all));
    }
    OrphansCount(b, Outside, lines);
    DropKeepsStanzas(a.name, Outside, lines);
  }

  lemma AnyAnchor(a: Settings, b: Settings, lines: seq<string>)
    requires Writable(a) && Writable(b) && a.name == b.name
    ensures Scan(b, Anchored(a, lines)) == Written(b, lines)
  {
    HeaderLineKinds(a, a.name);
    if HasOwn(a.name, lines) {
      assert Scan(b, lines) + [] == Scan(b, lines);
    } else {
      ScanToHeader(b, lines, HeaderLine(a));
    }
  }

  // ----- other interfaces

  // Reading another interface in the file as it was, with auto lines that name only the written
  // interface taken for no end of a stanza.
  function Over(other: string, name: string, inside: bool, lines: seq<string>, st: Reading): Reading
    decreases |lines|
  {
    if lines == [] then st
    else
      var k := KindOf(other, lines[0]);
      if inside && (k.Blank? || k.Comment? || KindOf(name, lines[0]).AutoOnly?) then
        Over(other, name, inside, lines[1..], st)
      else if inside && k.Attribute? then Over(other, name, inside, lines[1..], Assign(lines[0], st))
      else
        var (opens, st') := OuterLine(other, lines[0], st);
        Over(other, name, opens, lines[1..], st')
  }

  function ReadAs(other: string, inside: bool, lines: seq<string>, st: Reading): Reading {
    if inside then ReadInner(other, lines, st) else ReadOuter(other, lines, st)
  }

  lemma KindsOfTwo(name: string, other: string, line: string)
    requires other != name
    ensures var k, l := KindOf(name, line), KindOf(other, line);
            && (k.Blank? <==> l.Blank?) && (k.Comment? <==> l.Comment?) && (k.Attribute? <==> l.Attribute?)
            && (k.Mapping? <==> l.Mapping?) && (k.IfaceOwn? ==> l.IfaceOther?) && (k.AutoOnly? ==> l.AutoOther?)
            && (k.IfaceOwn? || k.IfaceOther? <==> l.IfaceOwn? || l.IfaceOther?)
            && (k.AutoShared? ==> (l.AutoOther? <==> KindOf(other, RemoveName(name, line)).AutoOther?) &&
                                  (KindOf(other, RemoveName(name, line)).AutoOther? ||
                                   KindOf(other, RemoveName(name, line)).AutoOnly? ||
                                   KindOf(other, RemoveName(name, line)).AutoShared?))
  {
    KindFromWords(name, line);
    KindFromWords(other, line);
    if KindOf(name, line).AutoShared? {
      RemoveNameKeepsOthers(name, line);
      KindFromWords(other, RemoveName(name, line));
    }
  }

  // One line read for another interface, and what it leaves the reader in.
  function OverLine(other: string, name: string, inside: bool, line: string, st: Reading): (bool, Reading) {
    var k := KindOf(other, line);
    if inside && (k.Blank? || k.Comment? || KindOf(name, line).AutoOnly?) then (true, st)
    else if inside && k.Attribute? then (true, Assign(line, st))
    else OuterLine(other, line, st)
  }

  // Reading any one line in front of others.
  lemma ReadAnyLine(other: string, inside: bool, line: string, rest: seq<string>, st: Reading)
    ensures var k := KindOf(other, line);
            ReadAs(other, inside, [line] + rest, st) ==
            if inside && (k.Blank? || k.Comment?) then ReadInner(other, rest, st)
            else if inside && k.Attribute? then ReadInner(other, rest, Assign(line, st))
            else var (opens, st') := OuterLine(other, line, st); ReadAs(other, opens, rest, st')
  {
    hide KindOf, OuterLine, Assign;
    assert ([line] + rest)[0] == line && ([line] + rest)[1..] == rest;
    assert var (opens, st') := OuterLine(other, line, st);
      ReadOuter(other, [line] + rest, st) == ReadAs(other, opens, rest, st');
  }

  lemma ShortenedLine(name: string, other: string, line: string, st: Reading)
    requires other != name && KindOf(name, line).AutoShared?
    ensures OuterLine(other, RemoveName(name, line), st) == OuterLine(other, line, st)
    ensures var k := KindOf(other, RemoveName(name, line)); !k.Blank? && !k.Comment? && !k.Attribute?
    ensures var k := KindOf(other, line); !k.Blank? && !k.Comment? && !k.Attribute?
  {
    KindsOfTwo(name, other, line);
    KindFromWords(name, line);
    KindFromWords(other, line);
    hide KindOf, RemoveName, Words;
  }

  lemma ReadOthersLine(
    s: Settings, other: string, mode: Mode, inside: bool, line: string, rest: seq<string>, st: Reading)
    requires Writable(s) && other != s.name && (mode.InStanza? ==> !inside)
    ensures var (inside', st') := OverLine(other, s.name, inside, line, st);
            ReadAs(other, inside, OutputOf(s, mode, line) + rest, st) == ReadAs(other, inside', rest, st') &&
            (NextMode(mode, KindOf(s.name, line)).InStanza? ==> !inside')
  {
    var out := OutputOf(s, mode, line);
    KindsOfTwo(s.name, other, line);
    if KindOf(s.name, line).IfaceOwn? {
      OtherStanzaRead(s, other, rest, st);
    } else if out == [] {
      assert out + rest == rest;
    } else {
      if KindOf(s.name, line).AutoShared? { ShortenedLine(s.name, other, line, st); }
      hide KindOf, RemoveName, Stanza, Words, Assign;
      assert out + rest == [out[0]] + rest;
      ReadAnyLine(other, inside, out[0], rest, st);
    }
  }

  lemma {:induction false} ReadOthers(
    s: Settings, other: string, mode: Mode, inside: bool, lines: seq<string>, st: Reading)
    requires Writable(s) && other != s.name && (mode.InStanza? ==> !inside)
    ensures ReadAs(other, inside, Output(s, mode, lines), st) == Over(other, s.name, inside, lines, st)
    decreases |lines|
  {
    if lines != [] {
      hide KindOf, OutputOf, Output, NextMode, Writable, ReadAs, Assign, OuterLine;
      var next := NextMode(mode, KindOf(s.name, lines[0]));
      var (inside', st') := OverLine(other, s.name, inside, lines[0], st);
      OutputStep(s, mode, lines);
      ReadOthersLine(s, other, mode, inside, lines[0], Output(s, next, lines[1..]), st);
      ReadOthers(s, other, next, inside', lines[1..], st');
    } else {
      assert Output(s, mode, lines) == [];
    }
  }

  // Writing one interface does to every other exactly what leaving out the auto lines that name
  // only the written one would do.
  lemma WriteSeenByOthers(s: Settings, other: string, lines: seq<string>)
    requires Writable(s) && other != s.name
    ensures ReadOuter(other, Written(s, lines), START) == Over(other, s.name, false, lines, START)
  {
    hide KindOf, Writable;
    WrittenIsScan(s, lines);
    ReadOthers(s, other, Outside, false, Anchored(s, lines), START);
    if !HasOwn(s.name, lines) {
      HeaderLineKinds(s, other);
      OverSkipsLast(other, s.name, false, lines, HeaderLine(s), START);
    }
  }

  lemma {:induction false} OverSkipsLast(
    other: string, name: string, inside: bool, lines: seq<string>, h: string, st: Reading)
    requires KindOf(other, h).IfaceOther? && !KindOf(name, h).AutoOnly?
    ensures Over(other, name, inside, lines + [h], st) == Over(other, name, inside, lines, st)
    decreases |lines|
  {
    var all := lines + [h];
    if lines == [] {
      assert all == [h] && all[1..] == [];
    } else {
      hide KindOf, Assign, OuterLine;
      assert all[0] == lines[0] && all[1..] == lines[1..] + [h];
      var (inside', st') := OverLine(other, name, inside, lines[0], st);
      OverSkipsLast(other, name, inside', lines[1..], h, st');
    }
  }

  // The attributes another interface gains: what its stanzas would assign last if the auto lines of the
  // written one did not end them, at lines its reader stood outside of. Inside is where the lines without
  // these auto lines leave the reader, was where the lines as they are do.
  function Strays(other: string, name: string, inside: bool, was: bool, lines: seq<string>, m: map<string, string>):
      map<string, string>
    decreases |lines|
  {
    if lines == [] then m
    else
      var k, own, w := KindOf(other, lines[0]), KindOf(name, lines[0]).AutoOnly?, Words(lines[0]);
      if inside && (k.Blank? || k.Comment? || own) then Strays(other, name, inside, was && !own, lines[1..], m)
      else if inside && k.Attribute? then
        Strays(other, name, inside, was, lines[1..],
               if |w| < 2 then m else if was then m - {w[0]} else m[w[0] := w[1]])
      else
        var opens := k.IfaceOwn? && |w| >= 4;
        Strays(other, name, opens, opens, lines[1..], m)
  }

  function With(r: Reading, m: map<string, string>): Reading { r.(attributes := r.attributes + m) }

  lemma OuterLineWith(other: string, line: string, st: Reading, m: map<string, string>)
    ensures var (opens, st') := OuterLine(other, line, st);
            OuterLine(other, line, With(st, m)) == (opens, With(st', m)) &&
            (opens <==> KindOf(other, line).IfaceOwn? && |Words(line)| >= 4)
  {
    hide KindOf, Words;
  }

  lemma AssignWith(line: string, st: Reading, m: map<string, string>)
    ensures var w := Words(line);
            && Assign(line, With(st, m)) == With(st, if |w| < 2 then m else m[w[0] := w[1]])
            && Assign(line, With(st, m)) == With(Assign(line, st), if |w| < 2 then m else m - {w[0]})
  {
    hide Words;
    var w := Words(line);
    if |w| >= 2 {
      var a := st.attributes;
      assert (a + m)[w[0] := w[1]] == a + m[w[0] := w[1]];
      assert (a + m)[w[0] := w[1]] == a[w[0] := w[1]] + (m - {w[0]});
    }
  }

  lemma {:induction false} OverWithStrays(
    other: string, name: string, inside: bool, was: bool, lines: seq<string>, st: Reading, m: map<string, string>)
    requires other != name && (was ==> inside)
    ensures Over(other, name, inside, lines, With(st, m)) ==
            With(ReadAs(other, was, lines, st), Strays(other, name, inside, was, lines, m))
    decreases |lines|
  {
    if lines != [] {
      var line, rest, w := lines[0], lines[1..], Words(lines[0]);
      assert lines == [line] + rest;
      KindsOfTwo(name, other, line);
      ReadAnyLine(other, was, line, rest, st);
      OuterLineWith(other, line, st, m);
      AssignWith(line, st, m);
      var k, own := KindOf(other, line), KindOf(name, line).AutoOnly?;
      assert own || k.Blank? || k.Comment? || k.Attribute? ==> OuterLine(other, line, st) == (false, st);
      hide KindOf, Assign, OuterLine, RemoveName, Words, With, ReadInner, ReadOuter;
      if inside && (k.Blank? || k.Comment? || own) {
        OverWithStrays(other, name, inside, was && !own, rest, st, m);
      } else if inside && k.Attribute? {
        if was {
          OverWithStrays(other, name, inside, was, rest, Assign(line, st), if |w| < 2 then m else m - {w[0]});
        } else {
          OverWithStrays(other, name, inside, was, rest, st, if |w| < 2 then m else m[w[0] := w[1]]);
        }
      } else {
        var (opens, st') := OuterLine(other, line, st);
        OverWithStrays(other, name, opens, opens, rest, st', m);
      }
    }
  }

  // Writing one interface adds exactly the strays to what is read of another one, and so leaves it as it
  // was if and only if every stray has the value it had before.
  lemma OthersUnchangedIff(s: Settings, other: string, lines: seq<string>)
    requires Writable(s) && other != s.name
    ensures var before, strays := ReadOuter(other, lines, START), Strays(other, s.name, false, false, lines, map[]);
            && ReadOuter(other, Written(s, lines), START) == With(before, strays)
            && (ReadOuter(other, Written(s, lines), START) == before <==>
                forall k :: k in strays ==> k in before.attributes && before.attributes[k] == strays[k])
  {
    hide KindOf, Writable, Written, ReadOuter, Strays, Over;
    WriteSeenByOthers(s, other, lines);
    OverWithStrays(other, s.name, false, false, lines, START, map[]);
    assert With(START, map[]) == START;
    SameWith(ReadOuter(other, lines, START), Strays(other, s.name, false, false, lines, map[]));
  }

  lemma SameWith(r: Reading, m: map<string, string>)
    ensures With(r, m) == r <==> forall k :: k in m ==> k in r.attributes && r.attributes[k] == m[k]
  {
    assert forall k :: k in m ==> k in With(r, m).attributes && With(r, m).attributes[k] == m[k];
    if forall k :: k in m ==> k in r.attributes && r.attributes[k] == m[k] {
      assert r.attributes + m == r.attributes;
    }
  }

  // No attribute line follows, past blanks, comments and further such lines, an auto line that
  // names only the interface.
  predicate Tidy(name: string, behind: bool, lines: seq<string>)
    decreases |lines|
  {
    lines == [] ||
    var k := KindOf(name, lines[0]);
    !(behind && k.Attribute?) &&
    Tidy(name, k.AutoOnly? || (behind && (k.Blank? || k.Comment?)), lines[1..])
  }

  lemma {:induction false} TidyOver(
    other: string, name: string, behind: bool, inside: bool, lines: seq<string>, st: Reading)
    requires other != name && Tidy(name, behind, lines)
    ensures Over(other, name, inside, lines, st) == ReadAs(other, inside && !behind, lines, st)
    decreases |lines|
  {
    if lines != [] {
      KindsOfTwo(name, other, lines[0]);
      var k, l := KindOf(name, lines[0]), KindOf(other, lines[0]);
      assert k.AutoOnly? ==> OuterLine(other, lines[0], st) == (false, st);
      assert l.Blank? || l.Comment? ==> OuterLine(other, lines[0], st) == (false, st);
      hide KindOf, Assign, OuterLine, RemoveName;
      var behind' := k.AutoOnly? || (behind && (k.Blank? || k.Comment?));
      var (inside', st') := OverLine(other, name, inside, lines[0], st);
      TidyOver(other, name, behind', inside', lines[1..], st');
      assert lines == [lines[0]] + lines[1..];
      ReadAnyLine(other, inside && !behind, lines[0], lines[1..], st);
    }
  }

  lemma {:induction false} TidyHasNoOrphans(name: string, mode: Mode, behind: bool, lines: seq<string>)
    requires Tidy(name, behind, lines) && (mode.AfterAuto? ==> behind)
    ensures Orphans(name, mode, lines) == []
    decreases |lines|
  {
    if lines != [] {
      hide KindOf;
      var k := KindOf(name, lines[0]);
      TidyHasNoOrphans(name, NextMode(mode, k), k.AutoOnly? || (behind && (k.Blank? || k.Comment?)), lines[1..]);
    }
  }

  // In a tidy file, writing an interface changes nothing for the others, the written settings
  // are read back, and the last writing counts alone.
  lemma TidyFile(s: Settings, lines: seq<string>)
    requires Writable(s) && DistinctKeys(s.attributes) && Tidy(s.name, false, lines)
    ensures forall other :: other != s.name ==>
              ReadOuter(other, Written(s, lines), START) == ReadOuter(other, lines, START)
    ensures ReadOuter(s.name, Written(s, lines), START) ==
            Reading(s.automatic, Header(s.family, s.method_), FirstWords(s.attributes))
    ensures forall a :: Writable(a) && a.name == s.name ==> Written(s, Written(a, lines)) == Written(s, lines)
  {
    hide KindOf, Writable, FirstWords;
    forall other | other != s.name
      ensures ReadOuter(other, Written(s, lines), START) == ReadOuter(other, lines, START)
    {
      WriteSeenByOthers(s, other, lines);
      TidyOver(other, s.name, false, false, lines, START);
    }
    TidyHasNoOrphans(s.name, Outside, false, lines);
    RoundTripWithoutOrphans(s, lines);
    forall a | Writable(a) && a.name == s.name ensures Written(s, Written(a, lines)) == Written(s, lines) {
      WriteTwice(a, s, lines);
    }
  }

  // The smallest files that are not tidy: with the auto line gone, the attribute falls to the
  // stanza above, be it the interface's own or another's.
  lemma StrayToOwn(s: Settings, header: string, auto: string, attr: string)
    requires Writable(s) && s.attributes == [] && |Words(attr)| >= 2
    requires KindOf(s.name, header).IfaceOwn? && KindOf(s.name, auto).AutoOnly? && KindOf(s.name, attr).Attribute?
    ensures var lines := [header, auto, attr];
            Words(attr)[0] in ReadOuter(s.name, Written(s, lines), START).attributes &&
            Written(s, Written(s, lines)) != Written(s, lines)
  {
    hide KindOf, Words, Written, ReadOuter;
    var lines := [header, auto, attr];
    assert lines[1..] == [auto, attr] && [auto, attr][1..] == [attr] && [attr][1..] == [];
    WriteThenRead(s, lines);
    WriteTwice(s, s, lines);
    assert OrphanKeys(s.name, AfterAuto, [attr]) == {Words(attr)[0]};
    assert OrphanKeys(s.name, InStanza, [auto, attr]) == {Words(attr)[0]};
    assert Orphans(s.name, AfterAuto, [attr]) == [attr];
    assert Orphans(s.name, InStanza, [auto, attr]) == [attr];
  }

  lemma StrayToOther(s: Settings, other: string, header: string, auto: string, attr: string)
    requires Writable(s) && other != s.name && |Words(attr)| >= 2 && |Words(header)| >= 4
    requires KindOf(other, header).IfaceOwn? && KindOf(s.name, auto).AutoOnly? && KindOf(other, attr).Attribute?
    ensures var lines := [header, auto, attr];
            Words(attr)[0] in ReadOuter(other, Written(s, lines), START).attributes &&
            ReadOuter(other, lines, START).attributes == map[]
  {
    KindsOfTwo(s.name, other, header);
    KindsOfTwo(s.name, other, auto);
    KindsOfTwo(s.name, other, attr);
    hide KindOf, Words, Writable, Written, RemoveName;
    var lines := [header, auto, attr];
    assert lines[1..] == [auto, attr] && [auto, attr][1..] == [attr] && [attr][1..] == [];
    WriteSeenByOthers(s, other, lines);
    var (opens, st) := OuterLine(other, header, START);
    assert Over(other, s.name, true, [attr], st) == Assign(attr, st);
    assert Over(other, s.name, true, [auto, attr], st) == Assign(attr, st);
    assert ReadOuter(other, [attr], st) == st;
    assert ReadOuter(other, [auto, attr], st) == st;
    assert ReadInner(other, [auto, attr], st) == st;
  }

  // Such a file, with eth0 written.
  lemma StrayNetmask()
    ensures var s := Settings("eth0", false, "inet", "dhcp", []);
            var lines := [HeaderLine(s), AutoLine("eth0"), AttrLine(Attr("netmask", "m"))];
            "netmask" in ReadOuter("eth0", Written(s, lines), START).attributes
  {
    hide KindOf, Words, Written, ReadOuter, HeaderLine, AutoLine, AttrLine;
    var s := Settings("eth0", false, "inet", "dhcp", []);
    var a := Attr("netmask", "m");
    HeaderLineKinds(s, "eth0");
    AutoLineKinds("eth0", "eth0");
    AttrLineKind("eth0", a);
    WordsOfValue(a);
    StrayToOwn(s, HeaderLine(s), AutoLine("eth0"), AttrLine(a));
  }
}
