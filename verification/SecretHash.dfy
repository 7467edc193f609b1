/**
 serializeSecretData of utils/hash.go, which turns the data of a Secret into the bytes
 that are hashed.  A byte string is a string whose characters are bytes; the hash itself is
 left out.
 */
module SecretHash {
  import opened SortedStrings

  const NUL: char := '\0'

  type Data = map<string, string>

  function Entry(key: string, value: string): string {
    key + [NUL] + value + [NUL]
  }

  /** <key> NUL <value> NUL for each key in turn. */
  function SerializeKeys(keys: seq<string>, data: Data): string
    requires forall k :: k in keys ==> k in data
  {
    if keys == [] then ""
    else Entry(keys[0], data[keys[0]]) + SerializeKeys(keys[1..], data)
  }

  /** The bytes of a secret: its entries in ascending key order. */
  ghost predicate HasBytes(data: Data, bytes: string) {
    exists keys :: Ascending(keys) && Lists(keys, data.Keys) && SerializeKeys(keys, data) == bytes
  }

  /** serializeSecretData */
  method SerializeSecretData(data: Data) returns (dataBuffer: string)
    ensures HasBytes(data, dataBuffer)
  {
    hide Ascending, Entry;
    var dataKeys := MapKeys(data);
    dataKeys := SortStrings(dataKeys, data.Keys);
    dataBuffer := "";
    for i := 0 to |dataKeys|
      invariant forall k :: k in dataKeys ==> k in data
      invariant dataBuffer + SerializeKeys(dataKeys[i..], data) == SerializeKeys(dataKeys, data)
    {
      var k := dataKeys[i];
      ghost var before := dataBuffer;
      dataBuffer := dataBuffer + k;
      dataBuffer := dataBuffer + [NUL];
      dataBuffer := dataBuffer + data[k];
      dataBuffer := dataBuffer + [NUL];
      AppendedEntry(before, k, data[k], SerializeKeys(dataKeys[i + 1..], data));
      assert dataKeys[i..][1..] == dataKeys[i + 1..];
    }
    assert dataBuffer == SerializeKeys(dataKeys, data);
  }

  lemma AppendedEntry(before: string, key: string, value: string, rest: string)
    ensures before + (Entry(key, value) + rest) == before + key + [NUL] + value + [NUL] + rest
  {
  }

  /** The output does not depend on the order in which the map was iterated. */
  lemma SerializationIsCanonical(data: Data, keys1: seq<string>, keys2: seq<string>)
    requires Ascending(keys1) && Lists(keys1, data.Keys)
    requires Ascending(keys2) && Lists(keys2, data.Keys)
    ensures SerializeKeys(keys1, data) == SerializeKeys(keys2, data)
  {
    AscendingListIsUnique(keys1, keys2, data.Keys);
  }

  /**
   The bytes, key by key: nothing for no entries, and otherwise the smallest key and its
   value, each followed by a NUL byte, before the bytes of the other entries.
   */
  lemma BytesByKey(data: Data, k: string, rest: string)
    requires k in data && (forall x :: x in data && x != k ==> StringLess(k, x))
    requires HasBytes(data - {k}, rest)
    ensures HasBytes(data, k + "\0" + data[k] + "\0" + rest)
  {
    hide Entry, Ascending;
    var others := data - {k};
    var keys :| Ascending(keys) && Lists(keys, others.Keys) && SerializeKeys(keys, others) == rest;
    var all := [k] + keys;
    SmallestFirst(data, k, keys);
    assert all[1..] == keys;
    assert forall x :: x in keys ==> x in others;
    OnlyListedCount(keys, others, data);
    EntryBytes(k, data[k], rest);
    assert SerializeKeys(all, data) == Entry(k, data[k]) + rest;
  }

  lemma NoBytes()
    ensures HasBytes(map[], "")
  {
    assert SerializeKeys([], map[]) == "" && Ascending([]);
  }

  lemma EntryBytes(k: string, v: string, rest: string)
    ensures Entry(k, v) + rest == k + "\0" + v + "\0" + rest
  {
    assert [NUL] == "\0";
  }

  lemma SmallestFirst(data: Data, k: string, keys: seq<string>)
    requires k in data && (forall x :: x in data && x != k ==> StringLess(k, x))
    requires Ascending(keys) && Lists(keys, (data - {k}).Keys)
    ensures Ascending([k] + keys) && Lists([k] + keys, data.Keys)
  {
    assert forall i :: 0 <= i < |keys| ==> keys[i] in data - {k};
  }

  lemma {:induction false} OnlyListedCount(keys: seq<string>, data1: Data, data2: Data)
    requires forall k :: k in keys ==> k in data1 && k in data2 && data1[k] == data2[k]
    ensures SerializeKeys(keys, data1) == SerializeKeys(keys, data2)
  {
    if keys != [] {
      OnlyListedCount(keys[1..], data1, data2);
    }
  }

  // ---------------------------------------------------------------------
  // Reading the bytes back
  // ---------------------------------------------------------------------

  /** Everything up to the first NUL. */
  function Field(s: string): (f: string)
    ensures |f| <= |s|
  {
    if s == "" || s[0] == NUL then "" else [s[0]] + Field(s[1..])
  }

  function Rest(s: string): (r: string)
    ensures s != "" ==> |r| < |s|
    ensures |r| <= |s|
  {
    if |Field(s)| < |s| then s[|Field(s)| + 1..] else ""
  }

  /** Reads key and value in turn. */
  function Parse(s: string): Data
    decreases |s|
  {
    if s == "" then map[]
    else Parse(Rest(Rest(s)))[Field(s) := Field(Rest(s))]
  }

  lemma {:induction false} FieldOf(a: string, rest: string)
    requires NUL !in a
    ensures Field(a + [NUL] + rest) == a && Rest(a + [NUL] + rest) == rest
  {
    var s := a + [NUL] + rest;
    if a == "" {
      assert s[0] == NUL && s[1..] == rest;
    } else {
      assert s[0] == a[0] && a[0] in a;
      assert s[1..] == a[1..] + [NUL] + rest;
      FieldOf(a[1..], rest);
      assert a == [a[0]] + a[1..];
    }
  }

  ghost predicate NulFree(data: Data) {
    forall k :: k in data ==> NUL !in k && NUL !in data[k]
  }

  lemma ParseEntry(key: string, value: string, tail: string)
    requires NUL !in key && NUL !in value
    ensures Parse(Entry(key, value) + tail) == Parse(tail)[key := value]
  {
    hide Field, Rest;
    var s := Entry(key, value) + tail;
    assert s == key + [NUL] + (value + [NUL] + tail);
    FieldOf(key, value + [NUL] + tail);
    FieldOf(value, tail);
  }

  /** The part of the data that a list of keys covers. */
  ghost function Listed(keys: seq<string>, data: Data): Data
    requires forall k :: k in keys ==> k in data
  {
    map k | k in keys :: data[k]
  }

  /** Parsing recovers the listed part of the data. */
  lemma {:induction false} ParseOfSerialize(keys: seq<string>, data: Data)
    requires (forall k :: k in keys ==> k in data) && NulFree(data)
    ensures Parse(SerializeKeys(keys, data)) == Listed(keys, data)
  {
    hide Parse, Entry, Field, Rest;
    if keys == [] {
      ParseNothing();
    } else {
      var k := keys[0];
      assert k in keys;
      ParseEntry(k, data[k], SerializeKeys(keys[1..], data));
      ParseOfSerialize(keys[1..], data);
      ListedStep(keys, data);
    }
  }

  lemma ParseNothing()
    ensures Parse("") == map[]
  {
  }

  lemma ListedStep(keys: seq<string>, data: Data)
    requires keys != [] && forall k :: k in keys ==> k in data
    ensures Listed(keys, data) == Listed(keys[1..], data)[keys[0] := data[keys[0]]]
  {
    assert forall x :: x in keys <==> x == keys[0] || x in keys[1..];
  }

  lemma ListedAll(keys: seq<string>, data: Data)
    requires Lists(keys, data.Keys)
    ensures Listed(keys, data) == data
  {
  }

  lemma {:induction false} FieldIsNulFree(s: string)
    ensures NUL !in Field(s)
  {
    if s != "" && s[0] != NUL {
      FieldIsNulFree(s[1..]);
    }
  }

  lemma {:induction false} ParsedIsNulFree(s: string)
    ensures NulFree(Parse(s))
    decreases |s|
  {
    if s != "" {
      ParsedIsNulFree(Rest(Rest(s)));
      FieldIsNulFree(s);
      FieldIsNulFree(Rest(s));
    }
  }

  /** The parser recovers a secret if and only if it has no NUL bytes. */
  lemma RoundTripExactly(keys: seq<string>, data: Data)
    requires Lists(keys, data.Keys)
    ensures Parse(SerializeKeys(keys, data)) == data <==> NulFree(data)
  {
    hide Parse, SerializeKeys, Listed;
    ParsedIsNulFree(SerializeKeys(keys, data));
    if NulFree(data) {
      ParseOfSerialize(keys, data);
      ListedAll(keys, data);
    }
  }

  /** Without NUL bytes the serialization is injective: equal bytes mean equal secrets. */
  lemma SerializationIsInjective(data1: Data, keys1: seq<string>, data2: Data, keys2: seq<string>)
    requires Ascending(keys1) && Lists(keys1, data1.Keys) && NulFree(data1)
    requires Ascending(keys2) && Lists(keys2, data2.Keys) && NulFree(data2)
    requires SerializeKeys(keys1, data1) == SerializeKeys(keys2, data2)
    ensures data1 == data2
  {
    hide Ascending, NulFree, Parse, SerializeKeys, Listed;
    ParseOfSerialize(keys1, data1);
    ParseOfSerialize(keys2, data2);
    ListedAll(keys1, data1);
    ListedAll(keys2, data2);
  }

  /** With them it is not: one value can pass for the end of an entry and a second one. */
  lemma NulMakesCollisions(a: string, x: string, b: string, y: string)
    requires StringLess(a, b)
    ensures var one: Data := map[a := x + [NUL] + b + [NUL] + y];
            var two: Data := map[a := x, b := y];
            && Ascending([a]) && Lists([a], one.Keys)
            && Ascending([a, b]) && Lists([a, b], two.Keys)
            && one != two
            && SerializeKeys([a], one) == SerializeKeys([a, b], two)
  {
    var one: Data := map[a := x + [NUL] + b + [NUL] + y];
    var two: Data := map[a := x, b := y];
    LessIrreflexive(a);
    assert [a][1..] == [] && [a, b][1..] == [b] && [b][1..] == [];
    assert SerializeKeys([b], two) == Entry(b, y);
    assert b in two && b !in one;
    assert SerializeKeys([a], one) == a + [NUL] + (x + [NUL] + b + [NUL] + y) + [NUL];
    assert SerializeKeys([a, b], two) == a + [NUL] + x + [NUL] + (b + [NUL] + y + [NUL]);
  }

  // ---------------------------------------------------------------------
  // Which secrets share their bytes with another one
  // ---------------------------------------------------------------------

  /** Every Secret: the API server admits no key with a NUL byte, but any value. */
  ghost predicate KeysNulFree(data: Data) {
    forall k :: k in data ==> NUL !in k
  }

  /** NUL bytes at `i` and `j` enclose a part of the value that can pass for the next key. */
  ghost predicate SplitsAt(key: string, value: string, i: nat, j: nat) {
    && i < j < |value| && value[i] == NUL == value[j]
    && NUL !in value[i + 1..j] && StringLess(key, value[i + 1..j])
  }

  ghost predicate Splits(key: string, value: string) {
    exists i: nat, j: nat :: SplitsAt(key, value, i, j)
  }

  lemma OneEntryBytes(key: string, value: string)
    ensures HasBytes(map[key := value], Entry(key, value))
  {
    var one: Data := map[key := value];
    LessIrreflexive(key);
    assert [key][1..] == [];
    assert Ascending([key]) && Lists([key], one.Keys);
    assert SerializeKeys([key], one) == Entry(key, value);
  }

  lemma {:induction false} SerializedEndsInNul(keys: seq<string>, data: Data)
    requires keys != [] && forall k :: k in keys ==> k in data
    ensures var s := SerializeKeys(keys, data); s != "" && s[|s| - 1] == NUL
  {
    if |keys| > 1 {
      SerializedEndsInNul(keys[1..], data);
    }
  }

  lemma EntryTakesMore(key: string, value: string, tail: string)
    requires tail != "" && tail[|tail| - 1] == NUL
    ensures Entry(key, value + [NUL] + tail[..|tail| - 1]) == Entry(key, value) + tail
  {
    assert tail == tail[..|tail| - 1] + [NUL];
  }

  lemma SecondKeyFollows(keys: seq<string>)
    requires |keys| > 1 && Ascending(keys)
    ensures StringLess(keys[0], keys[1]) && keys[0] != keys[1]
  {
    LessIrreflexive(keys[0]);
  }

  /** Whatever follows the first entry can pass for a part of its value. */
  lemma FirstEntryTakesAll(keys: seq<string>, data: Data)
    requires |keys| > 1 && Ascending(keys) && Lists(keys, data.Keys) && KeysNulFree(data)
    ensures exists other: Data :: other != data && KeysNulFree(other) && HasBytes(other, SerializeKeys(keys, data))
  {
    hide Entry, Ascending, HasBytes;
    var k, tail := keys[0], SerializeKeys(keys[1..], data);
    SerializedEndsInNul(keys[1..], data);
    EntryTakesMore(k, data[k], tail);
    var value := data[k] + [NUL] + tail[..|tail| - 1];
    OneEntryBytes(k, value);
    SecondKeyFollows(keys);
    var other: Data := map[k := value];
    assert k in data && keys[1] in data && keys[1] !in other;
    assert HasBytes(other, SerializeKeys(keys, data));
  }

  lemma TwoEntryBytes(a: string, x: string, b: string, y: string)
    requires StringLess(a, b)
    ensures HasBytes(map[a := x, b := y], Entry(a, x + [NUL] + b + [NUL] + y))
    ensures a != b
  {
    hide Entry, Ascending, Lists;
    var one: Data, two: Data := map[a := x + [NUL] + b + [NUL] + y], map[a := x, b := y];
    NulMakesCollisions(a, x, b, y);
    LessIrreflexive(a);
    OneKey(a, one);
    assert SerializeKeys([a, b], two) == Entry(a, x + [NUL] + b + [NUL] + y);
  }

  lemma OneKey(key: string, data: Data)
    requires key in data
    ensures SerializeKeys([key], data) == Entry(key, data[key])
  {
    assert [key][1..] == [];
  }

  /** A value that splits can pass for two entries. */
  lemma SplitMakesTwo(key: string, value: string)
    requires NUL !in key && Splits(key, value)
    ensures exists other: Data :: other != map[key := value] && KeysNulFree(other) && HasBytes(other, Entry(key, value))
  {
    hide HasBytes, Entry, StringLess;
    var i: nat, j: nat :| SplitsAt(key, value, i, j);
    var x, b, y := value[..i], value[i + 1..j], value[j + 1..];
    assert value == x + [NUL] + b + [NUL] + y;
    TwoEntryBytes(key, x, b, y);
    var two: Data := map[key := x, b := y];
    assert b in two && b !in map[key := value];
    assert KeysNulFree(two) && HasBytes(two, Entry(key, value));
  }

  /** The first key is what comes before the first NUL byte. */
  lemma FirstKeyIsFixed(key: string, value: string, k: string, v: string, rest: string)
    requires NUL !in key && NUL !in k && Entry(k, v) + rest == Entry(key, value)
    ensures k == key && v + [NUL] + rest == value + [NUL]
    ensures rest == "" ==> v == value
  {
    hide Field, Rest;
    FieldOf(key, value + [NUL]);
    FieldOf(k, v + [NUL] + rest);
    assert Entry(key, value) == key + [NUL] + (value + [NUL]);
    assert Entry(k, v) + rest == k + [NUL] + (v + [NUL] + rest);
    assert value == (value + [NUL])[..|value|];
    assert rest == "" ==> v == (v + [NUL] + rest)[..|v|] && |v| == |value|;
  }

  /** A second entry in the bytes of one entry is a part of its value. */
  lemma SecondEntrySplits(key: string, value: string, v: string, b: string, y: string, rest: string)
    requires v + [NUL] + (Entry(b, y) + rest) == value + [NUL]
    requires NUL !in b && StringLess(key, b)
    ensures Splits(key, value)
  {
    var s := value + [NUL];
    var i, j := |v|, |v| + 1 + |b|;
    assert s == v + [NUL] + b + [NUL] + (y + [NUL] + rest);
    assert j < |value| && s[i] == NUL && s[j] == NUL;
    assert value == s[..|value|];
    assert value[i + 1..j] == s[i + 1..j] == b;
    assert SplitsAt(key, value, i, j);
  }

  /** The bytes of one entry whose value does not split are those of no other secret. */
  lemma OneEntryIsRecognized(key: string, value: string, keys: seq<string>, other: Data)
    requires NUL !in key && !Splits(key, value) && KeysNulFree(other)
    requires Ascending(keys) && Lists(keys, other.Keys) && SerializeKeys(keys, other) == Entry(key, value)
    ensures other == map[key := value]
  {
    hide Entry, Splits, Ascending;
    EntryIsNotEmpty(key, value);
    var k, rest := keys[0], SerializeKeys(keys[1..], other);
    assert k in other;
    FirstKeyIsFixed(key, value, k, other[k], rest);
    if |keys| > 1 {
      var b := keys[1];
      SecondKeyFollows(keys);
      assert b in other && keys[1..][0] == b;
      SecondEntrySplits(key, value, other[k], b, other[b], SerializeKeys(keys[1..][1..], other));
    }
    assert rest == "" && keys == [k];
    assert forall x :: x in other <==> x in keys;
  }

  lemma EntryIsNotEmpty(key: string, value: string)
    ensures Entry(key, value) != ""
  {
    assert |Entry(key, value)| > 0;
  }

  /**
   No other Secret has the same bytes if and only if there is no entry, or just one whose
   value has no part between two NUL bytes that could be the key of a second one.
   */
  lemma BytesAreUniqueExactly(keys: seq<string>, data: Data)
    requires Ascending(keys) && Lists(keys, data.Keys) && KeysNulFree(data)
    ensures (forall other: Data :: KeysNulFree(other) && HasBytes(other, SerializeKeys(keys, data)) ==> other == data)
            <==> |keys| == 0 || (|keys| == 1 && !Splits(keys[0], data[keys[0]]))
  {
    hide HasBytes, Entry, Splits;
    if |keys| > 1 {
      FirstEntryTakesAll(keys, data);
    } else if keys == [] {
      NothingListsNothing(keys, data.Keys);
      forall other: Data | HasBytes(other, "")
        ensures other == data
      {
        NoBytesNoEntries(other);
      }
    } else {
      var k := keys[0];
      assert k in keys && keys[1..] == [];
      assert forall x :: x in data <==> x in keys;
      assert data == map[k := data[k]];
      assert SerializeKeys(keys, data) == Entry(k, data[k]);
      if Splits(k, data[k]) {
        SplitMakesTwo(k, data[k]);
      } else {
        forall other: Data | KeysNulFree(other) && HasBytes(other, Entry(k, data[k]))
          ensures other == data
        {
          OneEntryIsUnique(k, data[k], other);
        }
      }
    }
  }

  lemma OneEntryIsUnique(key: string, value: string, other: Data)
    requires NUL !in key && !Splits(key, value) && KeysNulFree(other) && HasBytes(other, Entry(key, value))
    ensures other == map[key := value]
  {
    hide Entry, SerializeKeys, Splits;
    var keys :| Ascending(keys) && Lists(keys, other.Keys) && SerializeKeys(keys, other) == Entry(key, value);
    OneEntryIsRecognized(key, value, keys, other);
  }

  lemma NoBytesNoEntries(other: Data)
    requires HasBytes(other, "")
    ensures other == map[]
  {
    var keys :| Ascending(keys) && Lists(keys, other.Keys) && SerializeKeys(keys, other) == "";
    if keys != [] {
      SerializedEndsInNul(keys, other);
    }
    NothingListsNothing(keys, other.Keys);
    assert other.Keys == {};
  }
}
