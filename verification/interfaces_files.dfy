// What the lines of /etc/network/interfaces are, and one file that has them all.

module InterfaceFiles {
  import opened Characters
  import opened InterfaceLines
  import opened Interfaces

  const SPACES := " \t\n\U{0B}\U{0C}\r"

  predicate Spaces(s: string) { forall c | c in s :: c in SPACES }

  predicate Letters(s: string) { s != [] && forall c | c in s :: c !in SPACES && c != '\0' }

  // ----- words

  lemma SpaceIs(c: char)
    ensures IsSpace(c) <==> c in SPACES
  {
  }

  lemma {:induction false} SpacesSkipped(s: string, rest: string)
    requires Spaces(s)
    ensures Words(s + rest) == Words(rest)
  {
    if s == [] {
      assert s + rest == rest;
    } else {
      SpaceIs(s[0]);
      assert (s + rest)[1..] == s[1..] + rest && s[0] in s;
      SpacesSkipped(s[1..], rest);
    }
  }

  // A line falls apart into what is between the blanks; a NUL ends it.
  lemma WordsAre(spaces: string, w: string, rest: string)
    requires Spaces(spaces) && Letters(w) && (rest == [] || rest[0] in SPACES || rest[0] == '\0')
    ensures Words(spaces + w + rest) == [w] + Words(rest)
    ensures Words(spaces) == [] && (rest != [] && rest[0] == '\0' ==> Words(rest) == [])
  {
    assert spaces + w + rest == spaces + (w + rest) && spaces + [] == spaces;
    SpacesSkipped(spaces, w + rest);
    SpacesSkipped(spaces, []);
    forall i | 0 <= i < |w|
      ensures !IsSpace(w[i]) && w[i] != '\0'
    {
      SpaceIs(w[i]);
    }
    if rest != [] { SpaceIs(rest[0]); }
    WordLenOf(w, rest);
    assert (w + rest)[0] == w[0] && (w + rest)[..|w|] == w && (w + rest)[|w|..] == rest;
  }

  // ----- kinds of lines

  // What a line is for an interface, by its words.
  lemma KindsAre(name: string, line: string)
    ensures var w := Words(line);
            && (KindOf(name, line).Blank? <==> w == [])
            && (KindOf(name, line).Comment? <==> w != [] && w[0][0] == '#')
            && (KindOf(name, line).Mapping? <==> w != [] && w[0] == "mapping")
            && (KindOf(name, line).IfaceOwn? <==> |w| > 1 && w[0] == "iface" && w[1] == name)
            && (KindOf(name, line).IfaceOther? <==> |w| > 0 && w[0] == "iface" && !(|w| > 1 && w[1] == name))
            && (KindOf(name, line).AutoOther? <==> |w| > 0 && w[0] == "auto" && name !in w[1..])
            && (KindOf(name, line).AutoOnly? <==>
                |w| > 1 && w[0] == "auto" && forall x | x in w[1..] :: x == name)
            && (KindOf(name, line).Attribute? <==>
                w != [] && w[0][0] != '#' && w[0] !in {"iface", "auto", "mapping"})
  {
    var w := Words(line);
    if |w| > 1 && w[0] == "auto" {
      assert w[1..][0] == w[1];
      OnlyNamesAre(name, w[1..]);
    }
  }

  lemma OnlyNamesAre(name: string, ws: seq<string>)
    ensures OnlyNames(name, ws) <==> forall x | x in ws :: x == name
  {
    if OnlyNames(name, ws) {
      forall x | x in ws ensures x == name {
        var i :| 0 <= i < |ws| && ws[i] == x;
      }
    } else {
      var i :| 0 <= i < |ws| && ws[i] != name;
      assert ws[i] in ws;
    }
  }

  // ----- a file

  const FILE: seq<string> := [
    "# the loopback", "auto lo eth0", "iface lo inet loopback", "", "iface eth0 inet dhcp", "# and more",
    "\thostname box", "mapping wlan", "auto eth0", "iface eth1 inet manual"]

  const STATIC := Settings("eth0", true, "inet", "static", [Attr("address", "10.0.0.1"), Attr("netmask", "255.0.0.0")])

  const NEW_FILE: seq<string> := [
    "# the loopback", "auto lo", "iface lo inet loopback", "", "auto eth0", "iface eth0 inet static",
    "\taddress 10.0.0.1", "\tnetmask 255.0.0.0", "# and more", "mapping wlan", "iface eth1 inet manual"]

  // Two words, and three, and four, one blank apart.
  lemma TwoWords(a: string, b: string)
    requires IsWord(a) && IsWord(b)
    ensures Words(a + " " + b) == [a, b]
  {
    WordsOfJoin([a, b]);
    assert [a, b][1..] == [b] && Join([b]) == b;
  }

  lemma ThreeWords(a: string, b: string, c: string)
    requires IsWord(a) && IsWord(b) && IsWord(c)
    ensures Words(a + " " + (b + " " + c)) == [a, b, c]
  {
    WordsOfJoin([a, b, c]);
    assert [a, b, c][1..] == [b, c] && [b, c][1..] == [c] && Join([c]) == c && Join([b, c]) == b + " " + c;
  }

  lemma FourWords(a: string, b: string, c: string, d: string)
    requires IsWord(a) && IsWord(b) && IsWord(c) && IsWord(d)
    ensures Words(a + " " + (b + " " + (c + " " + d))) == [a, b, c, d]
  {
    WordsOfJoin([a, b, c, d]);
    assert [a, b, c, d][1..] == [b, c, d] && [b, c, d][1..] == [c, d] && [c, d][1..] == [d];
    assert Join([d]) == d && Join([c, d]) == c + " " + d && Join([b, c, d]) == b + " " + (c + " " + d);
  }

  lemma Comment1Words()
    ensures Words("# the loopback") == ["#", "the", "loopback"]
  {
    hide Words;
    ThreeWords("#", "the", "loopback");
    assert "#" + " " + ("the" + " " + "loopback") == "# the loopback";
  }

  lemma Comment2Words()
    ensures Words("# and more") == ["#", "and", "more"]
  {
    hide Words;
    ThreeWords("#", "and", "more");
    assert "#" + " " + ("and" + " " + "more") == "# and more";
  }

  lemma SharedAutoWords()
    ensures Words("auto lo eth0") == ["auto", "lo", "eth0"]
  {
    hide Words;
    ThreeWords("auto", "lo", "eth0");
    assert "auto" + " " + ("lo" + " " + "eth0") == "auto lo eth0";
  }

  lemma OwnAutoWords()
    ensures Words("auto eth0") == ["auto", "eth0"]
  {
    hide Words;
    TwoWords("auto", "eth0");
    assert "auto" + " " + "eth0" == "auto eth0";
  }

  lemma LoopbackAutoWords()
    ensures Words("auto lo") == ["auto", "lo"]
  {
    hide Words;
    TwoWords("auto", "lo");
    assert "auto" + " " + "lo" == "auto lo";
  }

  lemma MappingWords()
    ensures Words("mapping wlan") == ["mapping", "wlan"]
  {
    hide Words;
    TwoWords("mapping", "wlan");
    assert "mapping" + " " + "wlan" == "mapping wlan";
  }

  lemma LoopbackWords()
    ensures Words("iface lo inet loopback") == ["iface", "lo", "inet", "loopback"]
  {
    hide Words;
    FourWords("iface", "lo", "inet", "loopback");
    assert "iface" + " " + ("lo" + " " + ("inet" + " " + "loopback")) == "iface lo inet loopback";
  }

  lemma DhcpWords()
    ensures Words("iface eth0 inet dhcp") == ["iface", "eth0", "inet", "dhcp"]
  {
    hide Words;
    FourWords("iface", "eth0", "inet", "dhcp");
    assert "iface" + " " + ("eth0" + " " + ("inet" + " " + "dhcp")) == "iface eth0 inet dhcp";
  }

  lemma ManualWords()
    ensures Words("iface eth1 inet manual") == ["iface", "eth1", "inet", "manual"]
  {
    hide Words;
    FourWords("iface", "eth1", "inet", "manual");
    assert "iface" + " " + ("eth1" + " " + ("inet" + " " + "manual")) == "iface eth1 inet manual";
  }

  lemma NoWords()
    ensures Words("") == []
  {
  }

  lemma AttributeWords()
    ensures Words("\thostname box") == ["hostname", "box"]
  {
    hide Words;
    TwoWords("hostname", "box");
    assert Spaces("\t");
    SpacesSkipped("\t", "hostname" + " " + "box");
    assert "\t" + ("hostname" + " " + "box") == "\thostname box";
  }

  // What the lines are for eth0.
  lemma KindsOfFile()
    ensures KindOf("eth0", "# the loopback").Comment? && KindOf("eth0", "# and more").Comment?
    ensures KindOf("eth0", "auto lo eth0").AutoShared? && KindOf("eth0", "auto eth0").AutoOnly?
    ensures KindOf("eth0", "iface lo inet loopback").IfaceOther? && KindOf("eth0", "").Blank?
    ensures KindOf("eth0", "iface eth0 inet dhcp").IfaceOwn? && KindOf("eth0", "\thostname box").Attribute?
    ensures KindOf("eth0", "mapping wlan").Mapping? && KindOf("eth0", "iface eth1 inet manual").IfaceOther?
    ensures RemoveName("eth0", "auto lo eth0") == "auto lo"
  {
    hide Words;
    Comment1Words();
    Comment2Words();
    SharedAutoWords();
    OwnAutoWords();
    MappingWords();
    LoopbackWords();
    DhcpWords();
    ManualWords();
    NoWords();
    AttributeWords();
    Shortened();
  }

  lemma Shortened()
    ensures RemoveName("eth0", "auto lo eth0") == "auto lo" && KindOf("eth0", "auto lo eth0").AutoShared?
  {
    hide Words;
    SharedAutoWords();
    assert ["auto", "lo", "eth0"][1..] == ["lo", "eth0"] && ["lo", "eth0"][1..] == ["eth0"] && ["eth0"][1..] == [];
    assert Without("eth0", ["eth0"]) == [] && Without("eth0", ["lo", "eth0"]) == ["lo"];
    assert ["auto"] + ["lo"] == ["auto", "lo"] && ["auto", "lo"][1..] == ["lo"] && Join(["lo"]) == "lo";
    assert Join(["auto", "lo"]) == "auto" + " " + "lo" == "auto lo";
    assert !OnlyNames("eth0", ["lo", "eth0"]) by { assert ["lo", "eth0"][0] != "eth0"; }
  }

  lemma StanzaIs()
    ensures Stanza(STATIC) == NEW_FILE[4..8] && STATIC.name == "eth0"
  {
    var one, two := Attr("address", "10.0.0.1"), Attr("netmask", "255.0.0.0");
    assert [one, two][1..] == [two] && [two][1..] == [];
    assert AttrLines([two]) == [AttrLine(two)] && AttrLines([one, two]) == [AttrLine(one), AttrLine(two)];
    AttributeLines();
    HeaderIs();
    assert NEW_FILE[4..8] == [NEW_FILE[4], NEW_FILE[5]] + [NEW_FILE[6], NEW_FILE[7]];
  }

  lemma AttributeLines()
    ensures AttrLine(Attr("address", "10.0.0.1")) == NEW_FILE[6]
    ensures AttrLine(Attr("netmask", "255.0.0.0")) == NEW_FILE[7]
  {
  }

  lemma HeaderIs()
    ensures AutoLine("eth0") == NEW_FILE[4] && HeaderLine(STATIC) == NEW_FILE[5]
  {
  }

  lemma ScanStep(s: Settings, line: string, rest: seq<string>)
    ensures Scan(s, [line] + rest) ==
            match KindOf(s.name, line)
            case AutoOnly => Scan(s, rest)
            case AutoShared => [RemoveName(s.name, line)] + Scan(s, rest)
            case IfaceOwn => Stanza(s) + Body(s, rest)
            case _ => [line] + Scan(s, rest)
    ensures Body(s, [line] + rest) ==
            match KindOf(s.name, line)
            case Blank => [line] + Body(s, rest)
            case Comment => [line] + Body(s, rest)
            case Attribute => Body(s, rest)
            case _ => Scan(s, [line] + rest)
  {
    hide KindOf, RemoveName, Stanza;
    assert ([line] + rest)[1..] == rest;
  }

  // The lines behind the header, and all of them.
  lemma ScanEnd(s: Settings, a: string, b: string, c: string, d: string, e: string)
    requires KindOf(s.name, a).Comment? && KindOf(s.name, b).Attribute? && KindOf(s.name, c).Mapping?
    requires KindOf(s.name, d).AutoOnly? && KindOf(s.name, e).IfaceOther?
    ensures Body(s, [a, b, c, d, e]) == [a, c, e]
  {
    hide KindOf, Scan, Body, Stanza;
    ScanNothing(s);
    ScanStep(s, e, []);
    ScanStep(s, d, [e]);
    ScanStep(s, c, [d, e]);
    ScanStep(s, b, [c, d, e]);
    ScanStep(s, a, [b, c, d, e]);
    assert [e] == [e] + [] && [d, e] == [d] + [e] && [c, d, e] == [c] + [d, e] && [b, c, d, e] == [b] + [c, d, e];
    assert [a, b, c, d, e] == [a] + [b, c, d, e];
  }

  lemma ScanAll(s: Settings, a: string, b: string, c: string, d: string, e: string, rest: seq<string>)
    requires KindOf(s.name, a).Comment? && KindOf(s.name, b).AutoShared? && KindOf(s.name, c).IfaceOther?
    requires KindOf(s.name, d).Blank? && KindOf(s.name, e).IfaceOwn?
    ensures Scan(s, [a, b, c, d, e] + rest) == [a, RemoveName(s.name, b), c, d] + Stanza(s) + Body(s, rest)
  {
    hide KindOf, Scan, Body, Stanza, RemoveName;
    var r4 := [e] + rest;
    var r3 := [d] + r4;
    var r2 := [c] + r3;
    var r1 := [b] + r2;
    ScanStep(s, e, rest);
    ScanStep(s, d, r4);
    ScanStep(s, c, r3);
    ScanStep(s, b, r2);
    ScanStep(s, a, r1);
    FiveLines(a, b, c, d, e, rest);
    FourLines(a, RemoveName(s.name, b), c, d, Stanza(s), Body(s, rest));
  }

  lemma FiveLines(a: string, b: string, c: string, d: string, e: string, rest: seq<string>)
    ensures [a, b, c, d, e] + rest == [a] + ([b] + ([c] + ([d] + ([e] + rest))))
  {
  }

  lemma FourLines(a: string, b: string, c: string, d: string, x: seq<string>, y: seq<string>)
    ensures [a] + ([b] + ([c] + ([d] + (x + y)))) == [a, b, c, d] + x + y
  {
  }

  // Writing eth0 shortens or erases the auto lines, replaces the stanza and its attributes, and keeps the rest.
  lemma FileWritten()
    ensures Written(STATIC, FILE) == NEW_FILE
  {
    hide KindOf, RemoveName, Words, Scan, Body, Stanza, HasOwn;
    KindsOfFile();
    StanzaIs();
    OwnAtFour();
    ScanEnd(STATIC, "# and more", "\thostname box", "mapping wlan", "auto eth0", "iface eth1 inet manual");
    var rest := ["# and more", "\thostname box", "mapping wlan", "auto eth0", "iface eth1 inet manual"];
    ScanAll(STATIC, "# the loopback", "auto lo eth0", "iface lo inet loopback", "", "iface eth0 inet dhcp", rest);
    FileParts(rest);
  }

  lemma FileParts(rest: seq<string>)
    requires rest == ["# and more", "\thostname box", "mapping wlan", "auto eth0", "iface eth1 inet manual"]
    ensures FILE ==
            ["# the loopback", "auto lo eth0", "iface lo inet loopback", "", "iface eth0 inet dhcp"] + rest
    ensures NEW_FILE == ["# the loopback", "auto lo", "iface lo inet loopback", ""] + NEW_FILE[4..8] +
                        ["# and more", "mapping wlan", "iface eth1 inet manual"]
  {
  }

  lemma OwnAtFour()
    ensures HasOwn("eth0", FILE)
  {
    hide Words;
    DhcpWords();
    assert FILE[1..][1..][1..][1..] == FILE[4..] && FILE[4..][0] == "iface eth0 inet dhcp";
    assert HasOwn("eth0", FILE[4..]);
    assert HasOwn("eth0", FILE[1..][1..][1..]) && HasOwn("eth0", FILE[1..][1..]) && HasOwn("eth0", FILE[1..]);
  }

  lemma ReadStep(name: string, line: string, rest: seq<string>, st: Reading)
    ensures ReadOuter(name, [line] + rest, st) ==
            var (opens, st') := OuterLine(name, line, st);
            if opens then ReadInner(name, rest, st') else ReadOuter(name, rest, st')
    ensures ReadInner(name, [line] + rest, st) ==
            match KindOf(name, line)
            case Blank => ReadInner(name, rest, st)
            case Comment => ReadInner(name, rest, st)
            case Attribute => ReadInner(name, rest, Assign(line, st))
            case _ => ReadOuter(name, [line] + rest, st)
  {
    hide KindOf, OuterLine, Assign;
    assert ([line] + rest)[1..] == rest;
  }

  lemma NothingToRead(name: string, st: Reading)
    ensures ReadOuter(name, [], st) == st && ReadInner(name, [], st) == st
  {
  }

  lemma ReadEnd(name: string, a: string, b: string, c: string, d: string, e: string, st: Reading)
    requires KindOf(name, a).Comment? && KindOf(name, b).Attribute? && KindOf(name, c).Mapping?
    requires KindOf(name, d).AutoOnly? && KindOf(name, e).IfaceOther? && st.automatic
    ensures ReadInner(name, [a, b, c, d, e], st) == Assign(b, st)
  {
    hide KindOf, Words, ReadInner, ReadOuter, Assign;
    var done := Assign(b, st);
    StillOn(b, st);
    ReadStep(name, a, [b, c, d, e], st);
    ReadStep(name, b, [c, d, e], st);
    ReadStep(name, c, [d, e], done);
    ReadStep(name, d, [e], done);
    ReadStep(name, e, [], done);
    NothingToRead(name, done);
    assert [e] == [e] + [] && [d, e] == [d] + [e] && [c, d, e] == [c] + [d, e] && [b, c, d, e] == [b] + [c, d, e];
    assert [a, b, c, d, e] == [a] + [b, c, d, e];
  }

  lemma StillOn(line: string, st: Reading)
    ensures Assign(line, st).automatic == st.automatic
    ensures st.automatic ==> st.(automatic := true) == st
  {
    hide Words;
  }

  lemma ReadAll(name: string, a: string, b: string, c: string, d: string, e: string, rest: seq<string>)
    requires KindOf(name, a).Comment? && KindOf(name, b).AutoShared? && KindOf(name, c).IfaceOther?
    requires KindOf(name, d).Blank? && KindOf(name, e).IfaceOwn? && |Words(e)| == 4
    ensures ReadOuter(name, [a, b, c, d, e] + rest, START) ==
            ReadInner(name, rest, Reading(true, Header(Words(e)[2], Words(e)[3]), map[]))
  {
    hide KindOf, Words, ReadInner, ReadOuter;
    var r4 := [e] + rest;
    var r3 := [d] + r4;
    var r2 := [c] + r3;
    var r1 := [b] + r2;
    var on := Reading(true, Untouched, map[]);
    ReadStep(name, a, r1, START);
    ReadStep(name, b, r2, START);
    ReadStep(name, c, r3, on);
    ReadStep(name, d, r4, on);
    ReadStep(name, e, rest, on);
    FiveLines(a, b, c, d, e, rest);
  }

  // Reading eth0 finds the flag, the family and method, and the attribute up to the mapping.
  lemma FileRead()
    ensures ReadOuter("eth0", FILE, START) == Reading(true, Header("inet", "dhcp"), map["hostname" := "box"])
  {
    hide KindOf, Words, ReadOuter, ReadInner;
    KindsOfFile();
    DhcpWords();
    AttributeWords();
    var rest := ["# and more", "\thostname box", "mapping wlan", "auto eth0", "iface eth1 inet manual"];
    ReadAll("eth0", "# the loopback", "auto lo eth0", "iface lo inet loopback", "", "iface eth0 inet dhcp", rest);
    var inside := Reading(true, Header("inet", "dhcp"), map[]);
    ReadEnd("eth0", "# and more", "\thostname box", "mapping wlan", "auto eth0", "iface eth1 inet manual", inside);
    FileParts(rest);
  }
}
