// CConfigFile: the map, its flags, and getting, setting, loading and saving.

module ConfigFile {
  import opened Decimals
  import opened Integers
  import opened Options
  import opened ConfigText
  import opened ConfigVectors

  // ----- what the values mean

  function BoolText(b: bool): string { if b then "true" else "false" }

  function BoolOf(s: string): bool { !(s == "false" || s == "0") }

  function Int32Of(s: string): int { if s == "false" then 0 else if s == "true" then 1 else Atoi(s) }

  // What a getter answers, and the map it leaves: missing keys may get their default.
  function Found<T>(data: Data, key: string, meaning: string -> T, byDefault: T): T {
    if key in data then meaning(data[key]) else byDefault
  }

  function Queried(data: Data, key: string, byDefault: string, saveDefaults: bool): Data {
    if key !in data && saveDefaults then data[key := byDefault] else data
  }

  // Whether a setter writes: the key is missing and was given its default, or the old value is another one.
  predicate Writes<T(==)>(data: Data, key: string, meaning: string -> T, byDefault: T, value: T, saveDefaults: bool) {
    (key !in data && saveDefaults) || Found(data, key, meaning, byDefault) != value
  }

  function Written<T(==)>(data: Data, key: string, meaning: string -> T, byDefault: T, value: T, text: string,
                          saveDefaults: bool): Data {
    if Writes(data, key, meaning, byDefault, value, saveDefaults) then data[key := text] else data
  }

  // One call of a setter stores its value or leaves the key missing, and touches no other key.
  lemma SetOnce<T>(data: Data, key: string, meaning: string -> T, byDefault: T, value: T, text: string,
                   saveDefaults: bool, other: string)
    requires meaning(text) == value
    ensures var d := Written(data, key, meaning, byDefault, value, text, saveDefaults);
            && (key in d <==> key in data || saveDefaults || value != byDefault)
            && (key in d ==> meaning(d[key]) == value)
            && (other != key ==> (other in d <==> other in data) && (other in data ==> d[other] == data[other]))
  {
  }

  datatype Update<T> = Update(key: string, value: T)

  // The map after any calls of a setter.
  function AllWritten<T(==)>(data: Data, updates: seq<Update<T>>, meaning: string -> T, text: T -> string,
                             byDefault: T, saveDefaults: bool): Data
  {
    if updates == [] then data
    else
      var n := |updates| - 1;
      var d := AllWritten(data, updates[..n], meaning, text, byDefault, saveDefaults);
      Written(d, updates[n].key, meaning, byDefault, updates[n].value, text(updates[n].value), saveDefaults)
  }

  function LastSet<T>(updates: seq<Update<T>>, key: string): Option<T> {
    if updates == [] then None
    else
      var n := |updates| - 1;
      if updates[n].key == key then Some(updates[n].value) else LastSet(updates[..n], key)
  }

  // Whether any call makes sure that the key is there.
  predicate Stored<T(==)>(updates: seq<Update<T>>, key: string, byDefault: T, saveDefaults: bool) {
    exists i | 0 <= i < |updates| :: updates[i].key == key && (saveDefaults || updates[i].value != byDefault)
  }

  // After any calls a getter with any default answers what was set last, unless the key is missing still:
  // all it was set to is the setter's default, which is not written, and the getter has another one.
  lemma {:induction false} LastSetIff<T>(data: Data, updates: seq<Update<T>>, key: string, meaning: string -> T,
                                         text: T -> string, byDefault: T, saveDefaults: bool, default2: T)
    requires forall v :: meaning(text(v)) == v
    ensures var d := AllWritten(data, updates, meaning, text, byDefault, saveDefaults);
            && (key in d <==> key in data || Stored(updates, key, byDefault, saveDefaults))
            && match LastSet(updates, key)
               case None => Found(d, key, meaning, default2) == Found(data, key, meaning, default2)
               case Some(v) => Found(d, key, meaning, default2) == v <==> key in d || v == default2
  {
    if updates != [] {
      var n := |updates| - 1;
      var before, u := updates[..n], updates[n];
      LastSetIff(data, before, key, meaning, text, byDefault, saveDefaults, default2);
      var d := AllWritten(data, before, meaning, text, byDefault, saveDefaults);
      SetOnce(d, u.key, meaning, byDefault, u.value, text(u.value), saveDefaults, key);
      hide Written;
      assert Stored(updates, key, byDefault, saveDefaults) <==>
             Stored(before, key, byDefault, saveDefaults)
             || (u.key == key && (saveDefaults || u.value != byDefault)) by {
        StoredStep(updates, key, byDefault, saveDefaults);
      }
    }
  }

  lemma StoredStep<T>(updates: seq<Update<T>>, key: string, byDefault: T, saveDefaults: bool)
    requires updates != []
    ensures var n := |updates| - 1;
            Stored(updates, key, byDefault, saveDefaults) <==>
            Stored(updates[..n], key, byDefault, saveDefaults)
            || (updates[n].key == key && (saveDefaults || updates[n].value != byDefault))
  {
    var n := |updates| - 1;
    assert forall i | 0 <= i < n :: updates[..n][i] == updates[i];
  }

  lemma TextsMean(n: int, b: bool)
    ensures Int32Of(IntText(n)) == n && BoolOf(BoolText(b)) == b
  {
    AtoiOfText(n);
    assert IsDigit(Decimal(if n < 0 then -n else n)[0]);
    assert n < 0 ==> IntText(n)[0] == '-';
  }

  // A vector that was set is what the getter answers exactly if no element has the delimiter in it, the
  // last one is not empty, and the joined text has at most 65535 characters; with more there is no answer.
  lemma VectorComesBackIff(data: Data, key: string, vec: seq<string>, delimiter: char, saveDefaults: bool)
    ensures var text := Join(vec, delimiter);
            var stored := Found(Written(data, key, s => s, "", text, text, saveDefaults), key, s => s, "");
            && (Answers(stored, delimiter, vec) <==>
                Separable(vec, delimiter) && (vec == [] || Last(vec) != []) && |text| <= 65535)
            && (Ends(stored, delimiter) <==> |text| <= 65535)
  {
    hide Answers, Ends, Separable;
    StringsComeBackIff(vec, delimiter);
    EndsIff(Join(vec, delimiter), delimiter);
  }

  function Ints(vec: seq<int32>): seq<int> { seq(|vec|, i requires 0 <= i < |vec| => vec[i] as int) }

  lemma Int32VectorComesBackIff(data: Data, key: string, vec: seq<int32>, delimiter: char, saveDefaults: bool)
    ensures var text := Join(Texts(Ints(vec)), delimiter);
            var stored := Found(Written(data, key, s => s, "", text, text, saveDefaults), key, s => s, "");
            AnswersNumbers(stored, delimiter, Ints(vec)) <==> Recoverable(Ints(vec), delimiter) && |text| <= 65535
  {
    hide AnswersNumbers, Recoverable;
    NumbersComeBackIff(Ints(vec), delimiter);
  }

  class ConfigFile {
    var configData: Data
    var modifiedFlag: bool
    var unknownKeyQueryedFlag: bool
    const delimiter: char
    const saveDefaults: bool

    constructor (delimiter: char, saveDefaults: bool)
      ensures configData == map[] && !modifiedFlag && !unknownKeyQueryedFlag
      ensures this.delimiter == delimiter && this.saveDefaults == saveDefaults
    {
      configData, modifiedFlag, unknownKeyQueryedFlag := map[], false, false;
      this.delimiter, this.saveDefaults := delimiter, saveDefaults;
    }

    // ----- the file

    // The file is absent if it cannot be opened.
    method LoadConfig(file: Option<string>, delimiter: char) returns (ok: bool)
      modifies `configData, `modifiedFlag
      ensures ok == file.Some?
      ensures if ok then configData == Parsed(map[], file.value, delimiter) && !modifiedFlag
              else configData == old(configData) && modifiedFlag == old(modifiedFlag)
    {
      if file.None? {
        return false;
      }
      hide Parsed, LineData;
      configData, modifiedFlag := map[], false;
      var rest := file.value;
      while rest != []
        invariant Parsed(configData, rest, delimiter) == Parsed(map[], file.value, delimiter)
        invariant !modifiedFlag
        decreases |rest|
      {
        ParsedStep(configData, rest, delimiter);
        var n := Find(rest, '\n');
        var s := rest[..n];
        rest := if n < |rest| then rest[n + 1..] else [];
        LoadLine(s, delimiter);
      }
      ParsedNothing(configData, delimiter);
      ok := true;
    }

    method LoadLine(s: string, delimiter: char)
      modifies `configData
      ensures configData == LineData(old(configData), s, delimiter)
    {
      var i := Find(s, delimiter);
      if i != |s| {
        var j := Find(s, '#');
        // the length j - ( i + 1 ) is unsigned, a negative one takes all
        configData := configData[s[..i] := if j < i + 1 then s[i + 1..] else s[i + 1..j]];
      }
    }

    // The new content of the file, unless it cannot be written.
    method SaveConfig(writable: bool, delimiter: char) returns (file: Option<string>, ghost keys: seq<string>)
      modifies `modifiedFlag
      ensures file.Some? == writable && Walk(configData, keys)
      ensures if writable then file == Some(Text(configData, keys, delimiter)) && !modifiedFlag
              else modifiedFlag == old(modifiedFlag)
    {
      var text, left := "", configData.Keys;
      keys := [];
      while left != {}
        invariant left <= configData.Keys
        invariant forall k :: k in keys <==> k in configData && k !in left
        invariant forall i, j | 0 <= i < j < |keys| :: keys[i] != keys[j]
        invariant text == Text(configData, keys, delimiter) && modifiedFlag == old(modifiedFlag)
        decreases |left|
      {
        var k :| k in left;
        TextOfOneMore(configData, keys, k, delimiter);
        text := text + k + [delimiter] + configData[k] + "\n";
        keys, left := keys + [k], left - {k};
      }
      if !writable {
        return None, keys;
      }
      file, modifiedFlag := Some(text), false;
    }

    // ----- values

    method GetString(key: string, byDefault: string) returns (value: string)
      modifies `configData, `unknownKeyQueryedFlag
      ensures value == Found(old(configData), key, s => s, byDefault)
      ensures configData == Queried(old(configData), key, byDefault, saveDefaults)
      ensures unknownKeyQueryedFlag == (old(unknownKeyQueryedFlag) || (key !in old(configData) && saveDefaults))
    {
      if key !in configData {
        if saveDefaults {
          unknownKeyQueryedFlag := true;
          configData := configData[key := byDefault];
        } else {
          return byDefault;
        }
      }
      value := configData[key];
    }

    method GetBool(key: string, byDefault: bool) returns (value: bool)
      modifies `configData, `unknownKeyQueryedFlag
      ensures value == Found(old(configData), key, BoolOf, byDefault)
      ensures configData == Queried(old(configData), key, BoolText(byDefault), saveDefaults)
      ensures unknownKeyQueryedFlag == (old(unknownKeyQueryedFlag) || (key !in old(configData) && saveDefaults))
    {
      if key !in configData {
        if saveDefaults {
          unknownKeyQueryedFlag := true;
          configData := configData[key := BoolText(byDefault)];
        } else {
          return byDefault;
        }
      }
      value := !(configData[key] == "false" || configData[key] == "0");
    }

    method GetInt32(key: string, byDefault: int32) returns (value: int)
      modifies `configData, `unknownKeyQueryedFlag
      ensures value == Found(old(configData), key, Int32Of, byDefault as int)
      ensures configData == Queried(old(configData), key, IntText(byDefault as int), saveDefaults)
      ensures unknownKeyQueryedFlag == (old(unknownKeyQueryedFlag) || (key !in old(configData) && saveDefaults))
    {
      TextsMean(byDefault as int, false);
      if key !in configData {
        if saveDefaults {
          unknownKeyQueryedFlag := true;
          configData := configData[key := IntText(byDefault as int)];
        } else {
          return byDefault as int;
        }
      }
      if configData[key] == "false" {
        return 0;
      }
      if configData[key] == "true" {
        return 1;
      }
      value := Atoi(configData[key]);
    }

    method SetString(key: string, val: string)
      modifies this
      ensures configData == Written(old(configData), key, s => s, "", val, val, saveDefaults)
      ensures modifiedFlag == (old(modifiedFlag) || Writes(old(configData), key, s => s, "", val, saveDefaults))
      ensures unknownKeyQueryedFlag == old(unknownKeyQueryedFlag)
    {
      var tmp := unknownKeyQueryedFlag;
      unknownKeyQueryedFlag := false;
      var oldVal := GetString(key, "");
      if oldVal != val || unknownKeyQueryedFlag {
        modifiedFlag := true;
        configData := configData[key := val];
      }
      unknownKeyQueryedFlag := tmp;
    }

    method SetBool(key: string, val: bool)
      modifies this
      ensures configData == Written(old(configData), key, BoolOf, false, val, BoolText(val), saveDefaults)
      ensures modifiedFlag == (old(modifiedFlag) || Writes(old(configData), key, BoolOf, false, val, saveDefaults))
      ensures unknownKeyQueryedFlag == old(unknownKeyQueryedFlag)
    {
      var tmp := unknownKeyQueryedFlag;
      unknownKeyQueryedFlag := false;
      var oldVal := GetBool(key, false);
      if oldVal != val || unknownKeyQueryedFlag {
        modifiedFlag := true;
        configData := configData[key := BoolText(val)];
      }
      unknownKeyQueryedFlag := tmp;
    }

    method SetInt32(key: string, val: int32)
      modifies this
      ensures configData == Written(old(configData), key, Int32Of, 0, val as int, IntText(val as int), saveDefaults)
      ensures modifiedFlag == (old(modifiedFlag) || Writes(old(configData), key, Int32Of, 0, val as int, saveDefaults))
      ensures unknownKeyQueryedFlag == old(unknownKeyQueryedFlag)
    {
      var tmp := unknownKeyQueryedFlag;
      unknownKeyQueryedFlag := false;
      var oldVal := GetInt32(key, 0);
      if oldVal != val as int || unknownKeyQueryedFlag {
        modifiedFlag := true;
        configData := configData[key := IntText(val as int)];
      }
      unknownKeyQueryedFlag := tmp;
    }

    // ----- vectors

    // configData[key], which adds a missing key
    method Value(key: string) returns (val: string)
      modifies `configData
      ensures val == Found(old(configData), key, s => s, "")
      ensures configData == Queried(old(configData), key, "", true)
    {
      if key !in configData {
        configData := configData[key := ""];
      }
      val := configData[key];
    }

    // The loop ends on values of up to 65535 characters.
    method GetStringVector(key: string) returns (vec: seq<string>)
      requires |Found(configData, key, s => s, "")| <= 65535
      modifies `configData, `unknownKeyQueryedFlag
      ensures vec == Split(Found(old(configData), key, s => s, ""), delimiter)
      ensures configData == Queried(old(configData), key, "", true)
      ensures unknownKeyQueryedFlag ==
              (old(unknownKeyQueryedFlag) || OpenEnded(Found(old(configData), key, s => s, ""), delimiter))
    {
      hide Split, Queried, Found, Rounds;
      var val := Value(key);
      ghost var data := configData;
      vec := [];
      var length: uint16, pos: uint16, i: uint16 := 0, 0, 0;
      NoRound(val, delimiter);
      while i as int < |val|
        invariant i as int <= |val|
        invariant Counters(i as int, pos as int, length as int, vec) == Rounds(val, delimiter, i as int)
        invariant configData == data && unknownKeyQueryedFlag == old(unknownKeyQueryedFlag)
        decreases |val| - i as int
      {
        RoundsInRange(val, delimiter, i as int);
        NextRound(val, delimiter, i as int);
        if val[i] == delimiter {
          vec := vec + [val[pos..pos as int + length as int]];
          pos := i + 1;
          length := 0;
        } else {
          length := length + 1;
        }
        i := i + 1;
      }
      RoundsInRange(val, delimiter, |val|);
      CutIsSplit(val, delimiter);
      LastPiece(val, delimiter);
      if length == 0 {
        unknownKeyQueryedFlag := true;
      } else {
        vec := vec + [val[pos..pos as int + length as int]];
      }
    }

    method SetStringVector(key: string, vec: seq<string>)
      modifies this
      ensures configData ==
              Written(old(configData), key, s => s, "", Join(vec, delimiter), Join(vec, delimiter), saveDefaults)
      ensures modifiedFlag ==
              (old(modifiedFlag) || Writes(old(configData), key, s => s, "", Join(vec, delimiter), saveDefaults))
      ensures unknownKeyQueryedFlag == old(unknownKeyQueryedFlag)
    {
      var tmp := unknownKeyQueryedFlag;
      unknownKeyQueryedFlag := false;
      var oldVal := GetString(key, "");
      var newVal := Joined(vec);
      if oldVal != newVal || unknownKeyQueryedFlag {
        modifiedFlag := true;
        configData := configData[key := newVal];
      }
      unknownKeyQueryedFlag := tmp;
    }

    method Joined(vec: seq<string>) returns (newVal: string)
      ensures newVal == Join(vec, delimiter)
    {
      newVal := "";
      var it: nat := 0;
      while true
        invariant it <= |vec| && (it == |vec| ==> vec == [])
        invariant newVal + Join(vec[it..], delimiter) == Join(vec, delimiter)
        decreases |vec| - it
      {
        if it == |vec| {
          break;
        }
        ghost var rest := vec[it..];
        newVal := newVal + vec[it];
        it := it + 1;
        assert vec[it..] == rest[1..];
        if it == |vec| {
          break;
        }
        newVal := newVal + [delimiter];
      }
    }

    method GetInt32Vector(key: string) returns (vec: seq<int>)
      requires |Found(configData, key, s => s, "")| <= 65535
      modifies `configData, `unknownKeyQueryedFlag
      ensures vec == Numbers(Split(Found(old(configData), key, s => s, ""), delimiter))
      ensures configData == Queried(old(configData), key, "", true)
      ensures unknownKeyQueryedFlag ==
              (old(unknownKeyQueryedFlag) || OpenEnded(Found(old(configData), key, s => s, ""), delimiter))
    {
      hide Split, Queried, Found, Rounds, Atoi;
      var val := Value(key);
      ghost var data, pieces := configData, [];
      vec := [];
      var length: uint16, pos: uint16, i: uint16 := 0, 0, 0;
      NoRound(val, delimiter);
      while i as int < |val|
        invariant i as int <= |val| && vec == Numbers(pieces)
        invariant Counters(i as int, pos as int, length as int, pieces) == Rounds(val, delimiter, i as int)
        invariant configData == data && unknownKeyQueryedFlag == old(unknownKeyQueryedFlag)
        decreases |val| - i as int
      {
        RoundsInRange(val, delimiter, i as int);
        NextRound(val, delimiter, i as int);
        if val[i] == delimiter {
          pieces := pieces + [val[pos..pos as int + length as int]];
          vec := vec + [Atoi(val[pos..pos as int + length as int])];
          pos := i + 1;
          length := 0;
        } else {
          length := length + 1;
        }
        i := i + 1;
      }
      RoundsInRange(val, delimiter, |val|);
      CutIsSplit(val, delimiter);
      LastPiece(val, delimiter);
      if length == 0 {
        unknownKeyQueryedFlag := true;
      } else {
        pieces := pieces + [val[pos..pos as int + length as int]];
        vec := vec + [Atoi(val[pos..pos as int + length as int])];
      }
    }

    method SetInt32Vector(key: string, vec: seq<int32>)
      modifies this
      ensures var text := Join(Texts(Ints(vec)), delimiter);
              && configData == Written(old(configData), key, s => s, "", text, text, saveDefaults)
              && modifiedFlag == (old(modifiedFlag) || Writes(old(configData), key, s => s, "", text, saveDefaults))
      ensures unknownKeyQueryedFlag == old(unknownKeyQueryedFlag)
    {
      var tmp := unknownKeyQueryedFlag;
      unknownKeyQueryedFlag := false;
      var oldVal := GetString(key, "");
      var s := JoinedNumbers(vec);
      if oldVal != s || unknownKeyQueryedFlag {
        modifiedFlag := true;
        configData := configData[key := s];
      }
      unknownKeyQueryedFlag := tmp;
    }

    method JoinedNumbers(vec: seq<int32>) returns (s: string)
      ensures s == Join(Texts(Ints(vec)), delimiter)
    {
      hide IntText;
      s := "";
      var it: nat := 0;
      while true
        invariant it <= |vec| && (it == |vec| ==> vec == [])
        invariant s + Join(Texts(Ints(vec))[it..], delimiter) == Join(Texts(Ints(vec)), delimiter)
        decreases |vec| - it
      {
        if it == |vec| {
          break;
        }
        ghost var rest := Texts(Ints(vec))[it..];
        s := s + IntText(vec[it] as int);
        it := it + 1;
        assert Texts(Ints(vec))[it..] == rest[1..];
        if it == |vec| {
          break;
        }
        s := s + [delimiter];
      }
    }

    method DeleteKey(key: string) returns (ret: bool)
      modifies `configData, `modifiedFlag
      ensures ret == (key in old(configData)) && configData == old(configData) - {key}
      ensures modifiedFlag == (old(modifiedFlag) || ret)
    {
      ret := key in configData;
      configData := configData - {key};
      if ret {
        modifiedFlag := true;
      }
    }
  }

  // The last piece is empty.
  predicate OpenEnded(s: string, delimiter: char) { s == [] || s[|s| - 1] == delimiter }

  lemma NoRound(s: string, delimiter: char)
    ensures Rounds(s, delimiter, 0) == Counters(0, 0, 0, [])
  {
  }

  lemma NextRound(s: string, delimiter: char, n: nat)
    ensures Rounds(s, delimiter, n + 1) == Round(s, delimiter, Rounds(s, delimiter, n))
  {
  }

  lemma LastPiece(s: string, delimiter: char)
    requires |s| <= 65535
    ensures Rounds(s, delimiter, |s|).length == 0 <==> OpenEnded(s, delimiter)
  {
    hide InRange, Round, Rounds;
    if s == [] {
      NoRound(s, delimiter);
    } else {
      RoundsInRange(s, delimiter, |s| - 1);
      NextRound(s, delimiter, |s| - 1);
      LastRound(s, delimiter, Rounds(s, delimiter, |s| - 1));
    }
  }

  lemma LastRound(s: string, delimiter: char, v: Counters)
    requires 0 < |s| <= 65535 && InRange(s, delimiter, |s| - 1, v)
    ensures Round(s, delimiter, v).length == 0 <==> OpenEnded(s, delimiter)
  {
    hide Split;
  }

  lemma {:induction false} TextOfOneMore(data: Data, keys: seq<string>, k: string, delimiter: char)
    requires (forall q | q in keys :: q in data) && k in data
    ensures Text(data, keys + [k], delimiter) == Text(data, keys, delimiter) + k + [delimiter] + data[k] + "\n"
  {
    if keys == [] {
      assert [k][1..] == [];
    } else {
      TextOfOneMore(data, keys[1..], k, delimiter);
      assert (keys + [k])[1..] == keys[1..] + [k];
    }
  }
}
