// write_interface and read_interface, on the file as a list of lines.

module Interfaces {
  import opened InterfaceLines

  datatype Attr = Attr(key: string, value: string)

  // attributes: the std::map in iteration order
  datatype Settings = Settings(name: string, automatic: bool, family: string, method_: string, attributes: seq<Attr>)

  datatype Header = Untouched | Header(family: string, method_: string)

  // The out-parameters of read_interface.
  datatype Reading = Reading(automatic: bool, header: Header, attributes: map<string, string>)

  // A missing file has no lines.
  datatype File = Missing | Present(lines: seq<string>)

  function LinesOf(file: File): seq<string> { if file.Missing? then [] else file.lines }

  // ----- the lines written for one interface

  function AutoLine(name: string): string { "auto " + name }

  function HeaderLine(s: Settings): string { "iface " + s.name + " " + s.family + " " + s.method_ }

  function AttrLine(a: Attr): string { "\t" + a.key + " " + a.value }

  function AttrLines(attrs: seq<Attr>): seq<string> {
    if attrs == [] then [] else [AttrLine(attrs[0])] + AttrLines(attrs[1..])
  }

  function Stanza(s: Settings): seq<string> {
    (if s.automatic then [AutoLine(s.name)] else []) + [HeaderLine(s)] + AttrLines(s.attributes)
  }

  // The scan of write_interface outside the stanza being replaced, and behind its new lines.
  function Scan(s: Settings, lines: seq<string>): seq<string>
    decreases |lines|, 0
  {
    if lines == [] then []
    else match KindOf(s.name, lines[0])
      case AutoOnly => Scan(s, lines[1..])
      case AutoShared => [RemoveName(s.name, lines[0])] + Scan(s, lines[1..])
      case IfaceOwn => Stanza(s) + Body(s, lines[1..])
      case _ => [lines[0]] + Scan(s, lines[1..])
  }

  function Body(s: Settings, lines: seq<string>): seq<string>
    decreases |lines|, 1
  {
    if lines == [] then []
    else match KindOf(s.name, lines[0])
      case Blank => [lines[0]] + Body(s, lines[1..])
      case Comment => [lines[0]] + Body(s, lines[1..])
      case Attribute => Body(s, lines[1..])
      case _ => Scan(s, lines)
  }

  predicate HasOwn(name: string, lines: seq<string>) {
    lines != [] && (KindOf(name, lines[0]).IfaceOwn? || HasOwn(name, lines[1..]))
  }

  // The file write_interface leaves.
  function Written(s: Settings, lines: seq<string>): seq<string> {
    Scan(s, lines) + if HasOwn(s.name, lines) then [] else Stanza(s)
  }

  method AddAttributes(attribute: seq<Attr>, line: seq<string>, here: nat) returns (out: seq<string>, it: nat)
    requires here <= |line|
    ensures out == line[..here] + AttrLines(attribute) + line[here..]
    ensures it == here + |AttrLines(attribute)|
  {
    out, it := line, here;
    var i := 0;
    while i < |attribute|
      invariant 0 <= i <= |attribute| && here <= it <= |out|
      invariant out[it..] == line[here..]
      invariant out[..it] + AttrLines(attribute[i..]) == line[..here] + AttrLines(attribute)
    {
      assert attribute[i..][1..] == attribute[i + 1..];
      ghost var before := out[..it];
      out := out[..it] + [AttrLine(attribute[i])] + out[it..];
      it := it + 1;
      assert out[..it] == before + [AttrLine(attribute[i])];
      i := i + 1;
    }
    assert attribute[i..] == [];
    assert out == out[..it] + out[it..];
  }

  // The header line, an auto line in front of it if wanted, and the attributes behind it.
  method ReplaceHeader(s: Settings, line: seq<string>, here: nat) returns (out: seq<string>, it: nat)
    requires here < |line|
    ensures out == line[..here] + Stanza(s) + line[here + 1..]
    ensures it == here + |Stanza(s)|
  {
    out, it := line[here := HeaderLine(s)], here;
    if s.automatic {
      out := out[..it] + [AutoLine(s.name)] + out[it..];
      it := it + 1;
    }
    it := it + 1;
    assert out[..it] == line[..here] + (Stanza(s)[..it - here]) && out[it..] == line[here + 1..];
    out, it := AddAttributes(s.attributes, out, it);
  }

  // Removes the attribute lines of the stanza, up to the next iface, auto or mapping line.
  method RemoveAttributes(s: Settings, line: seq<string>, here: nat) returns (out: seq<string>, it: nat)
    requires here <= |line|
    ensures it <= |out| && |out| - it <= |line| - here
    ensures out[..it] + Scan(s, out[it..]) == line[..here] + Body(s, line[here..])
    ensures HasOwn(s.name, out[it..]) <==> HasOwn(s.name, line[here..])
  {
    hide KindOf, Words, Stanza;
    ghost var done, rest := line[..here], line[here..];
    out, it := line, here;
    while it < |out|
      invariant out == done + rest && it == |done| && |rest| <= |line| - here
      invariant done + Body(s, rest) == line[..here] + Body(s, line[here..])
      invariant HasOwn(s.name, rest) <==> HasOwn(s.name, line[here..])
      decreases |rest|
    {
      assert out[it] == rest[0];
      KindFromWords(s.name, rest[0]);
      var w := Words(out[it]);
      if w == [] || w[0][0] == '#' {
        Regroup(done, rest[0], Body(s, rest[1..]));
        done := done + [rest[0]];
        it := it + 1;
      } else if w[0] == "iface" || w[0] == "auto" || w[0] == "mapping" {
        break;
      } else {
        out := out[..it] + out[it + 1..];
      }
      rest := rest[1..];
    }
    assert out[..it] == done && out[it..] == rest;
  }

  lemma Regroup(a: seq<string>, x: string, b: seq<string>)
    ensures a + ([x] + b) == a + [x] + b
  {}

  // The tests on the words of a line, as its kind.
  lemma KindFromWords(name: string, line: string)
    ensures var w, k := Words(line), KindOf(name, line);
            && (k.Blank? <==> w == [])
            && (w != [] ==> (k.IfaceOwn? || k.IfaceOther? <==> w[0] == "iface"))
            && (k.IfaceOwn? <==> |w| > 1 && w[0] == "iface" && w[1] == name)
            && (w != [] ==> (k.AutoOnly? || k.AutoShared? || k.AutoOther? <==> w[0] == "auto"))
            && (k.AutoOnly? || k.AutoShared? <==> w != [] && w[0] == "auto" && name in w[1..])
            && (k.AutoOnly? ==> RemoveName(name, line) == "")
            && (k.Mapping? <==> w != [] && w[0] == "mapping")
            && (k.Comment? <==> w != [] && w[0][0] == '#')
  {
    if KindOf(name, line).AutoShared? { RemoveNameKeepsOthers(name, line); }
  }

  // What the scan leaves of an auto line with the name.
  function ShortenedAuto(name: string, line: string): seq<string> {
    if RemoveName(name, line) == "" then [] else [RemoveName(name, line)]
  }

  lemma ShortenedScan(s: Settings, lines: seq<string>)
    requires lines != []
    requires KindOf(s.name, lines[0]).AutoOnly? || KindOf(s.name, lines[0]).AutoShared?
    ensures Scan(s, lines) == ShortenedAuto(s.name, lines[0]) + Scan(s, lines[1..])
  {
    KindFromWords(s.name, lines[0]);
    if KindOf(s.name, lines[0]).AutoShared? { RemoveNameKeepsOthers(s.name, lines[0]); }
    hide KindOf, Words, RemoveName, Stanza, Body;
  }

  // An auto line with the name: shortened, or erased if nothing is left.
  method ShortenAuto(name: string, line: seq<string>, here: nat) returns (out: seq<string>, it: nat)
    requires here < |line|
    ensures out == line[..here] + ShortenedAuto(name, line[here]) + line[here + 1..]
    ensures it == here + |ShortenedAuto(name, line[here])|
  {
    var shortened := RemoveInterfaceFromLine(name, line[here]);
    out, it := line[here := shortened], here;
    if shortened == "" {
      out := out[..it] + out[it + 1..];
    } else {
      it := it + 1;
    }
  }

  // One line that does not open a stanza of the interface, as the scan passes over it.
  method ScanLine(s: Settings, line: seq<string>, here: nat) returns (out: seq<string>, it: nat)
    requires here < |line| && !KindOf(s.name, line[here]).IfaceOwn?
    ensures it <= |out| && out[it..] == line[here + 1..]
    ensures out[..it] + Scan(s, out[it..]) == line[..here] + Scan(s, line[here..])
  {
    hide KindOf, Words, Stanza, RemoveName, Body;
    ghost var done, rest := line[..here], line[here..];
    KindFromWords(s.name, rest[0]);
    Regroup(done, rest[0], Scan(s, rest[1..]));
    var w := Words(line[here]);
    if |w| > 0 && w[0] == "auto" && s.name in w[1..] {
      ShortenedScan(s, rest);
      Prepend(done, ShortenedAuto(s.name, rest[0]), Scan(s, rest[1..]));
      out, it := ShortenAuto(s.name, line, here);
      assert out[..it] == done + ShortenedAuto(s.name, rest[0]);
    } else {
      out, it := line, here + 1;
      assert out[..it] == done + [rest[0]];
    }
  }

  lemma Prepend(a: seq<string>, b: seq<string>, c: seq<string>)
    ensures a + (b + c) == a + b + c
  {}

  // A stanza of the interface: its new lines, and the old ones removed.
  method ReplaceStanza(s: Settings, line: seq<string>, here: nat) returns (out: seq<string>, it: nat)
    requires here < |line| && KindOf(s.name, line[here]).IfaceOwn?
    ensures it <= |out| && |out| - it < |line| - here
    ensures out[..it] + Scan(s, out[it..]) == line[..here] + Scan(s, line[here..])
    ensures HasOwn(s.name, out[it..]) <==> HasOwn(s.name, line[here + 1..])
  {
    hide KindOf, Stanza, Body;
    ghost var rest := line[here..];
    Prepend(line[..here], Stanza(s), Body(s, rest[1..]));
    out, it := ReplaceHeader(s, line, here);
    assert out[..it] == line[..here] + Stanza(s) && out[it..] == rest[1..];
    out, it := RemoveAttributes(s, out, it);
  }

  method AppendStanza(s: Settings, lines: seq<string>) returns (line: seq<string>)
    ensures line == lines + Stanza(s)
  {
    line := lines;
    if s.automatic {
      line := line + [AutoLine(s.name)];
    }
    line := line + [HeaderLine(s)];
    var end;
    line, end := AddAttributes(s.attributes, line, |line|);
    assert line == lines + Stanza(s);
  }

  method WriteInterface(file: File, s: Settings) returns (written: File)
    ensures written == Present(Written(s, LinesOf(file)))
  {
    hide KindOf, Words, Stanza, Scan;
    var line := LinesOf(file);
    ghost var original := line;
    var found := false;
    var it := 0;
    assert line[..it] + Scan(s, line[it..]) == Scan(s, original) by { assert line[it..] == original; }
    while it < |line|
      invariant 0 <= it <= |line|
      invariant line[..it] + Scan(s, line[it..]) == Scan(s, original)
      invariant HasOwn(s.name, original) <==> found || HasOwn(s.name, line[it..])
      decreases |line| - it
    {
      KindFromWords(s.name, line[it]);
      assert line[it..][1..] == line[it + 1..];
      var w := Words(line[it]);
      if |w| > 1 && w[0] == "iface" && w[1] == s.name {
        found := true;
        line, it := ReplaceStanza(s, line, it);
      } else {
        line, it := ScanLine(s, line, it);
      }
    }
    assert line[it..] == [] && line[..it] + [] == line;
    ScanNothing(s);
    if !found {
      line := AppendStanza(s, line);
    }
    written := Present(line);
  }

  lemma ScanNothing(s: Settings)
    ensures Scan(s, []) == []
  {}

  // ----- read_interface

  // A line for the outer loop: an auto line sets the flag, a complete header of the interface
  // sets family and method and opens its stanza.
  function OuterLine(name: string, line: string, st: Reading): (bool, Reading) {
    var w := Words(line);
    match KindOf(name, line)
    case AutoOnly => (false, st.(automatic := true))
    case AutoShared => (false, st.(automatic := true))
    case IfaceOwn => if |w| < 4 then (false, st) else (true, st.(header := Header(w[2], w[3])))
    case _ => (false, st)
  }

  function ReadOuter(name: string, lines: seq<string>, st: Reading): Reading
    decreases |lines|, 0
  {
    if lines == [] then st
    else
      var (opens, st') := OuterLine(name, lines[0], st);
      if opens then ReadInner(name, lines[1..], st') else ReadOuter(name, lines[1..], st')
  }

  // The inner loop: attributes, until a keyword hands the line back to the outer loop.
  function ReadInner(name: string, lines: seq<string>, st: Reading): Reading
    decreases |lines|, 1
  {
    if lines == [] then st
    else match KindOf(name, lines[0])
      case Blank => ReadInner(name, lines[1..], st)
      case Comment => ReadInner(name, lines[1..], st)
      case Attribute => ReadInner(name, lines[1..], Assign(lines[0], st))
      case _ => ReadOuter(name, lines, st)
  }

  function Assign(line: string, st: Reading): Reading {
    var w := Words(line);
    if |w| < 2 then st else st.(attributes := st.attributes[w[0] := w[1]])
  }

  const START := Reading(false, Untouched, map[])

  // The body of the outer loop for the line s.
  method TakeOuterLine(name: string, s: string, before: Reading) returns (opens: bool, st: Reading)
    ensures (opens, st) == OuterLine(name, s, before)
  {
    KindFromWords(name, s);
    hide KindOf, Words, RemoveName;
    opens, st := false, before;
    var w := Words(s);
    if w == [] {
      return;
    }
    if w[0] != "iface" {
      if w[0] == "auto" && name in w[1..] {
        st := st.(automatic := true);
      }
      return;
    }
    if |w| < 2 || w[1] != name || |w| < 3 || |w| < 4 {
      return;
    }
    opens, st := true, st.(header := Header(w[2], w[3]));
  }

  method ReadInterface(file: File, name: string) returns (ok: bool, st: Reading)
    ensures ok <==> file.Present?
    ensures st == ReadOuter(name, LinesOf(file), START)
  {
    hide OuterLine, ReadInner, ReadOuter;
    st := START;
    if file.Missing? {
      OuterEnd(name, [], 0, st);
      return false, st;
    }
    var lines := file.lines;
    ghost var pos := 0;   // the line the outer loop looks at next
    assert lines[pos..] == lines;
    var at := 0;          // lines taken from the stream
    var s := "";
    var advance := true;
    while true
      invariant pos <= at <= |lines| && pos == (if advance then at else at - 1)
      invariant !advance ==> s == lines[pos]
      invariant ReadOuter(name, lines[pos..], st) == ReadOuter(name, file.lines, START)
      decreases |lines| - pos
    {
      if advance {
        if at == |lines| {
          OuterEnd(name, lines, at, st);
          break;
        }
        s := lines[at];
        at := at + 1;
      } else {
        advance := true;
      }
      OuterStep(name, lines, pos, st);
      pos := pos + 1;
      var opens;
      opens, st := TakeOuterLine(name, s, st);
      if opens {
        var done;
        done, at, st := ReadStanza(name, lines, at, st, file.lines);
        if done {
          return true, st;
        }
        s := lines[at - 1];
        advance := false;
        pos := at - 1;
      }
    }
    ok := true;
  }

  lemma OuterStep(name: string, lines: seq<string>, k: nat, st: Reading)
    requires k < |lines|
    ensures var (opens, st') := OuterLine(name, lines[k], st);
            ReadOuter(name, lines[k..], st) ==
            if opens then ReadInner(name, lines[k + 1..], st') else ReadOuter(name, lines[k + 1..], st')
  {
    hide OuterLine, ReadInner;
    assert lines[k..][1..] == lines[k + 1..];
  }

  lemma OuterEnd(name: string, lines: seq<string>, k: nat, st: Reading)
    requires k == |lines|
    ensures ReadOuter(name, lines[k..], st) == st
  {}

  // The inner loop on the lines from start on; unless the file ended, the last line taken is one
  // for the outer loop.
  method ReadStanza(name: string, lines: seq<string>, start: nat, initial: Reading, ghost all: seq<string>)
    returns (done: bool, at: nat, st: Reading)
    requires start <= |lines|
    requires ReadInner(name, lines[start..], initial) == ReadOuter(name, all, START)
    ensures done ==> st == ReadOuter(name, all, START)
    ensures !done ==> start < at <= |lines| && ReadOuter(name, lines[at - 1..], st) == ReadOuter(name, all, START)
  {
    hide KindOf, Words, RemoveName;
    at, st := start, initial;
    while true
      invariant start <= at <= |lines|
      invariant ReadInner(name, lines[at..], st) == ReadOuter(name, all, START)
      decreases |lines| - at
    {
      if at == |lines| {
        return true, at, st;
      }
      var s := lines[at];
      assert lines[at..] == [s] + lines[at + 1..];
      at := at + 1;
      KindFromWords(name, s);
      var w := Words(s);
      if w == [] || w[0][0] == '#' {
        continue;
      }
      if w[0] == "iface" || w[0] == "auto" || w[0] == "mapping" {
        return false, at, st;
      }
      if |w| >= 2 {
        st := st.(attributes := st.attributes[w[0] := w[1]]);
      }
    }
  }
}
