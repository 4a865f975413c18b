// Lines of /etc/network/interfaces as their words, and the kinds of lines the editor tells apart.

module InterfaceLines {
  import opened Characters

  // A string operator>> can deliver: not empty, no blank, and no NUL to end a C string early.
  predicate IsWord(s: string) {
    s != [] && forall i :: 0 <= i < |s| ==> !IsSpace(s[i]) && s[i] != '\0'
  }

  // The length of the leading word, ended by a blank or by the NUL of c_str().
  function WordLen(s: string): (n: nat)
    ensures n <= |s| && (n > 0 ==> IsWord(s[..n]))
    ensures n < |s| ==> IsSpace(s[n]) || s[n] == '\0'
  {
    if s == [] || IsSpace(s[0]) || s[0] == '\0' then 0
    else
      var n := 1 + WordLen(s[1..]);
      assert s[1..][..n - 1] == s[..n][1..];
      assert forall i :: 0 < i < n ==> s[i] == s[1..][i - 1];
      n
  }

  // All words an istringstream on line.c_str() delivers.
  function Words(s: string): (ws: seq<string>)
    ensures forall i :: 0 <= i < |ws| ==> IsWord(ws[i])
    decreases |s|
  {
    if s == [] || s[0] == '\0' then []
    else if IsSpace(s[0]) then Words(s[1..])
    else var n := WordLen(s); [s[..n]] + Words(s[n..])
  }

  // The words separated by single blanks.
  function Join(ws: seq<string>): string {
    if ws == [] then ""
    else if |ws| == 1 then ws[0]
    else ws[0] + " " + Join(ws[1..])
  }

  lemma {:induction false} WordLenOf(w: string, rest: string)
    requires forall i :: 0 <= i < |w| ==> !IsSpace(w[i]) && w[i] != '\0'
    requires rest == [] || IsSpace(rest[0]) || rest[0] == '\0'
    ensures WordLen(w + rest) == |w|
  {
    if w == [] {
      assert w + rest == rest;
    } else {
      assert (w + rest)[1..] == w[1..] + rest;
      WordLenOf(w[1..], rest);
    }
  }

  lemma WordsOfWord(w: string, rest: string)
    requires IsWord(w) && (rest == [] || IsSpace(rest[0]))
    ensures Words(w + rest) == [w] + Words(rest)
  {
    WordLenOf(w, rest);
    assert (w + rest)[0] == w[0];
    assert (w + rest)[..|w|] == w && (w + rest)[|w|..] == rest;
  }

  lemma {:induction false} WordsOfJoin(ws: seq<string>)
    requires forall i :: 0 <= i < |ws| ==> IsWord(ws[i])
    ensures Words(Join(ws)) == ws
  {
    if |ws| == 1 {
      WordsOfWord(ws[0], "");
      assert ws[0] + "" == ws[0] && ws == [ws[0]] + [];
    } else if |ws| > 1 {
      var rest := " " + Join(ws[1..]);
      WordsOfJoin(ws[1..]);
      assert rest[1..] == Join(ws[1..]);
      WordsOfWord(ws[0], rest);
      assert ws[0] + " " + Join(ws[1..]) == ws[0] + rest;
      assert ws == [ws[0]] + ws[1..];
    }
  }

  lemma {:induction false} JoinSnoc(ws: seq<string>, w: string)
    requires ws != []
    ensures Join(ws + [w]) == Join(ws) + (" " + w)
  {
    if |ws| == 1 {
      assert (ws + [w])[1..] == [w];
    } else {
      assert (ws + [w])[1..] == ws[1..] + [w];
      JoinSnoc(ws[1..], w);
    }
  }

  // ----- kinds of lines, as seen for one interface

  datatype Kind =
    | Blank | Comment | Attribute | Mapping
    | IfaceOwn      // the header of a stanza for the interface
    | IfaceOther
    | AutoOnly      // an auto line naming the interface and nothing else
    | AutoShared    // an auto line naming it together with others
    | AutoOther

  predicate OnlyNames(name: string, ws: seq<string>) {
    forall i :: 0 <= i < |ws| ==> ws[i] == name
  }

  function KindOf(name: string, line: string): Kind {
    var w := Words(line);
    if w == [] then Blank
    else if w[0] == "iface" then (if |w| > 1 && w[1] == name then IfaceOwn else IfaceOther)
    else if w[0] == "auto" then
      if name !in w[1..] then AutoOther
      else if OnlyNames(name, w[1..]) then AutoOnly
      else AutoShared
    else if w[0] == "mapping" then Mapping
    else if w[0][0] == '#' then Comment
    else Attribute
  }

  // The words but the given one.
  function Without(name: string, ws: seq<string>): (r: seq<string>)
    ensures forall x :: x in r <==> x in ws && x != name
    ensures r == [] <==> OnlyNames(name, ws)
  {
    if ws == [] then []
    else if ws[0] == name then Without(name, ws[1..])
    else [ws[0]] + Without(name, ws[1..])
  }

  lemma {:induction false} WithoutSnoc(name: string, ws: seq<string>, w: string)
    ensures Without(name, ws + [w]) == Without(name, ws) + (if w == name then [] else [w])
  {
    if ws == [] {
      assert ws + [w] == [w];
    } else {
      assert (ws + [w])[1..] == ws[1..] + [w];
      WithoutSnoc(name, ws[1..], w);
    }
  }

  // remove_interface_from_line
  function RemoveName(name: string, line: string): string {
    var w := Words(line);
    if w == [] || Without(name, w[1..]) == [] then "" else Join([w[0]] + Without(name, w[1..]))
  }

  // The first word is kept, then every word but the name; nothing if no other word is left.
  method RemoveInterfaceFromLine(name: string, line: string) returns (out: string)
    ensures out == RemoveName(name, line)
  {
    var w := Words(line);
    if w == [] {
      return "";
    }
    out := w[0];
    NoneYet(name, w[0]);
    hide Words, Without, Join;
    var containsAtLeastOneInterface := false;
    var i := 1;
    ghost var kept: seq<string> := [];
    assert w[1..1] == [] && [w[0]] + kept == [w[0]];
    while i < |w|
      invariant 1 <= i <= |w|
      invariant kept == Without(name, w[1..i])
      invariant out == Join([w[0]] + kept)
      invariant containsAtLeastOneInterface <==> kept != []
    {
      assert w[1..i + 1] == w[1..i] + [w[i]];
      WithoutSnoc(name, w[1..i], w[i]);
      if w[i] != name {
        JoinSnoc([w[0]] + kept, w[i]);
        assert [w[0]] + kept + [w[i]] == [w[0]] + (kept + [w[i]]);
        out := out + (" " + w[i]);
        kept := kept + [w[i]];
        containsAtLeastOneInterface := true;
      }
      i := i + 1;
    }
    assert w[1..i] == w[1..];
    if !containsAtLeastOneInterface {
      out := "";
    }
  }

  lemma NoneYet(name: string, first: string)
    ensures Without(name, []) == [] && Join([first] + []) == first
  {
    assert [first] + [] == [first];
  }

  // What is left of a shared auto line still starts that line's other interfaces, and only them.
  lemma RemoveNameKeepsOthers(name: string, line: string)
    requires KindOf(name, line).AutoShared?
    ensures RemoveName(name, line) != "" && KindOf(name, RemoveName(name, line)).AutoOther?
    ensures Words(RemoveName(name, line)) == ["auto"] + Without(name, Words(line)[1..])
    ensures forall other :: other != name ==>
              (other in Words(RemoveName(name, line))[1..] <==> other in Words(line)[1..])
  {
    var w := Words(line);
    var ws := ["auto"] + Without(name, w[1..]);
    assert forall i :: 0 <= i < |ws[1..]| ==> ws[1..][i] in w[1..];
    forall i | 0 <= i < |ws| ensures IsWord(ws[i]) {
      if i > 0 {
        assert ws[i] in w[1..];
        var j :| 0 <= j < |w[1..]| && w[1..][j] == ws[i];
        assert IsWord(w[j + 1]);
      }
    }
    assert ws[0] == w[0];
    WordsOfJoin(ws);
    assert ws[1..] == Without(name, w[1..]);
  }
}
