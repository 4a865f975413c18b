// The file of CConfigFile: one key and value a line. When loading undoes saving.

module ConfigText {

  type Data = map<string, string>

  // std::string::find, the length if there is none
  function Find(s: string, c: char): (i: nat)
    ensures i <= |s| && (i < |s| ==> s[i] == c)
    ensures c !in s[..i]
    ensures i == |s| <==> c !in s
  {
    if s == [] || s[0] == c then 0
    else
      var i := 1 + Find(s[1..], c);
      assert s[..i] == [s[0]] + s[1..][..i - 1];
      i
  }

  // ----- the file

  // What a line puts into the map. A '#' that comes before the delimiter does not cut anything off.
  function LineData(data: Data, s: string, delimiter: char): Data {
    var i := Find(s, delimiter);
    if i == |s| then data
    else
      var j := Find(s, '#');
      data[s[..i] := if j < i + 1 then s[i + 1..] else s[i + 1..j]]
  }

  function Parsed(data: Data, content: string, delimiter: char): Data
    decreases |content|
  {
    if content == [] then data
    else
      var n := Find(content, '\n');
      Parsed(LineData(data, content[..n], delimiter), if n < |content| then content[n + 1..] else [], delimiter)
  }

  function Line(key: string, value: string, delimiter: char): string { key + [delimiter] + value + "\n" }

  // The lines of the keys in the order the map is walked.
  function Text(data: Data, keys: seq<string>, delimiter: char): string
    requires forall k | k in keys :: k in data
  {
    if keys == [] then [] else Line(keys[0], data[keys[0]], delimiter) + Text(data, keys[1..], delimiter)
  }

  ghost predicate Walk(data: Data, keys: seq<string>) {
    && (forall k :: k in keys <==> k in data)
    && (forall i, j | 0 <= i < j < |keys| :: keys[i] != keys[j])
  }

  // Keys and values that stay on their line, keys that stop at the delimiter.
  predicate OneLine(key: string, value: string, delimiter: char) {
    '\n' !in key && '\n' !in value && delimiter !in key && delimiter != '\n'
  }

  // ... and values of which nothing is cut off.
  predicate Clean(key: string, value: string, delimiter: char) {
    OneLine(key, value, delimiter) && ('#' in value ==> '#' in key || delimiter == '#')
  }

  function Kept(key: string, value: string, delimiter: char): string {
    if '#' in key || delimiter == '#' then value else value[..Find(value, '#')]
  }

  lemma FindIn(a: string, b: string, c: char)
    ensures c in a ==> Find(a + b, c) == Find(a, c)
    ensures c !in a ==> Find(a + b, c) == |a| + Find(b, c)
  {
    if a == [] {
      assert a + b == b;
    } else {
      assert (a + b)[1..] == a[1..] + b;
      FindIn(a[1..], b, c);
    }
  }

  // Where the delimiter and the first '#' of a saved line are.
  lemma FindInLine(key: string, value: string, delimiter: char, c: char)
    ensures Find(key + [delimiter] + value, c) ==
            if c in key then Find(key, c) else if c == delimiter then |key| else |key| + 1 + Find(value, c)
  {
    hide Find;
    assert key + [delimiter] + value == key + ([delimiter] + value);
    FindIn(key, [delimiter] + value, c);
    FindIn([delimiter], value, c);
    FindSelf(delimiter);
  }

  lemma LineIsRead(data: Data, key: string, value: string, delimiter: char)
    requires OneLine(key, value, delimiter)
    ensures LineData(data, key + [delimiter] + value, delimiter) == data[key := Kept(key, value, delimiter)]
  {
    var s, n := key + [delimiter] + value, |key| + 1;
    FindInLine(key, value, delimiter, delimiter);
    FindInLine(key, value, delimiter, '#');
    var k := Find(value, '#');
    hide Find;
    assert s[..|key|] == key;
    assert s[n..] == value;
    assert s[n..n + k] == value[..k];
  }

  lemma FindSelf(c: char)
    ensures Find([c], c) == 0
    ensures forall d | d != c :: Find([c], d) == 1
  {
  }

  lemma ParsedLine(start: Data, line: string, rest: string, delimiter: char)
    requires '\n' !in line
    ensures Parsed(start, line + "\n" + rest, delimiter) == Parsed(LineData(start, line, delimiter), rest, delimiter)
  {
    hide LineData;
    var content := line + "\n" + rest;
    assert content == line + ("\n" + rest);
    FindIn(line, "\n" + rest, '\n');
    assert content[..|line|] == line && content[|line| + 1..] == rest;
  }

  function AllKept(data: Data, keys: seq<string>, delimiter: char): Data {
    map k | k in keys && k in data :: Kept(k, data[k], delimiter)
  }

  lemma KeptFirst(start: Data, data: Data, keys: seq<string>, delimiter: char)
    requires keys != [] && keys[0] in data
    ensures start[keys[0] := Kept(keys[0], data[keys[0]], delimiter)] + AllKept(data, keys[1..], delimiter) ==
            start + AllKept(data, keys, delimiter)
  {
    hide Kept;
    assert forall k :: k in keys <==> k == keys[0] || k in keys[1..] by {
      assert keys == [keys[0]] + keys[1..];
    }
  }

  lemma {:induction false} LinesAreRead(start: Data, data: Data, keys: seq<string>, delimiter: char)
    requires forall k | k in keys :: k in data && OneLine(k, data[k], delimiter)
    ensures Parsed(start, Text(data, keys, delimiter), delimiter) == start + AllKept(data, keys, delimiter)
    decreases |keys|
  {
    hide Parsed, LineData, Kept;
    if keys == [] {
      ParsedNothing(start, delimiter);
    } else {
      hide AllKept;
      var k, v, rest := keys[0], data[keys[0]], Text(data, keys[1..], delimiter);
      ParsedLine(start, k + [delimiter] + v, rest, delimiter);
      LineIsRead(start, k, v, delimiter);
      LinesAreRead(start[k := Kept(k, v, delimiter)], data, keys[1..], delimiter);
      KeptFirst(start, data, keys, delimiter);
      assert Text(data, keys, delimiter) == k + [delimiter] + v + "\n" + rest;
    }
  }

  lemma ParsedStep(data: Data, content: string, delimiter: char)
    requires content != []
    ensures var n := Find(content, '\n');
            Parsed(data, content, delimiter) ==
            Parsed(LineData(data, content[..n], delimiter), if n < |content| then content[n + 1..] else [], delimiter)
  {
  }

  lemma ParsedNothing(start: Data, delimiter: char)
    ensures Parsed(start, [], delimiter) == start
  {
  }

  // Whatever a file holds, the keys and values read from it are lines without line ends, and the keys have
  // no delimiter.
  lemma {:induction false} ReadIsOneLine(start: Data, content: string, delimiter: char)
    requires delimiter != '\n' && forall k | k in start :: OneLine(k, start[k], delimiter)
    ensures forall k | k in Parsed(start, content, delimiter) ::
              OneLine(k, Parsed(start, content, delimiter)[k], delimiter)
    decreases |content|
  {
    hide LineData, OneLine;
    if content != [] {
      var n := Find(content, '\n');
      var rest := if n < |content| then content[n + 1..] else [];
      LineIsOneLine(start, content[..n], delimiter);
      ReadIsOneLine(LineData(start, content[..n], delimiter), rest, delimiter);
    }
  }

  lemma LineIsOneLine(start: Data, s: string, delimiter: char)
    requires delimiter != '\n' && '\n' !in s && forall k | k in start :: OneLine(k, start[k], delimiter)
    ensures var data := LineData(start, s, delimiter); forall k | k in data :: OneLine(k, data[k], delimiter)
  {
    var i, j := Find(s, delimiter), Find(s, '#');
    assert forall a, b | 0 <= a <= b <= |s| :: '\n' !in s[a..b];
  }

  lemma {:induction false} NoLineHasALineEnd(start: Data, content: string)
    ensures Parsed(start, content, '\n') == start
    decreases |content|
  {
    if content != [] {
      var n := Find(content, '\n');
      assert '\n' !in content[..n];
      NoLineHasALineEnd(start, if n < |content| then content[n + 1..] else []);
    }
  }

  lemma KeptIff(key: string, value: string, delimiter: char)
    ensures Kept(key, value, delimiter) == value <==> ('#' in value ==> '#' in key || delimiter == '#')
  {
  }

  // Loading a saved file restores the map exactly if every entry is clean.
  lemma LoadSaveIff(data: Data, keys: seq<string>, delimiter: char)
    requires Walk(data, keys)
    ensures Parsed(map[], Text(data, keys, delimiter), delimiter) == data <==>
            forall k | k in data :: Clean(k, data[k], delimiter)
  {
    hide Parsed, Text, Kept;
    var text := Text(data, keys, delimiter);
    var read := Parsed(map[], text, delimiter);
    if delimiter == '\n' {
      NoLineHasALineEnd(map[], text);
    } else {
      ReadIsOneLine(map[], text, delimiter);
      if forall k | k in data :: OneLine(k, data[k], delimiter) {
        LinesAreRead(map[], data, keys, delimiter);
        assert forall k | k in data :: read[k] == Kept(k, data[k], delimiter);
        forall k | k in data
          ensures read[k] == data[k] <==> Clean(k, data[k], delimiter)
        {
          KeptIff(k, data[k], delimiter);
        }
      }
    }
  }
}
