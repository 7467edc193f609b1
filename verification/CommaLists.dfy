/**
 Comma-separated lists: strings.TrimSpace, strings.Split, strings.Join, and the codec
 EncodeListToString / DecodeStringToList of utils/utils.go.
 */
module CommaLists {

  // ---------------------------------------------------------------------
  // Trimming
  // ---------------------------------------------------------------------

  /** unicode.IsSpace */
  predicate IsSpace(c: char) {
    || '\t' <= c <= '\r' || c == ' '
    || c == '\U{85}' || c == '\U{A0}' || c == '\U{1680}'
    || '\U{2000}' <= c <= '\U{200A}'
    || c == '\U{2028}' || c == '\U{2029}' || c == '\U{202F}' || c == '\U{205F}' || c == '\U{3000}'
  }

  function TrimLeft(s: string): string {
    if s != "" && IsSpace(s[0]) then TrimLeft(s[1..]) else s
  }

  function TrimRight(s: string): string {
    if s != "" && IsSpace(s[|s| - 1]) then TrimRight(s[..|s| - 1]) else s
  }

  function TrimSpace(s: string): string {
    TrimRight(TrimLeft(s))
  }

  predicate Trimmed(s: string) {
    s != "" ==> !IsSpace(s[0]) && !IsSpace(s[|s| - 1])
  }

  lemma {:induction false} TrimLeftStarts(s: string)
    ensures TrimLeft(s) != "" ==> !IsSpace(TrimLeft(s)[0])
  {
    if s != "" && IsSpace(s[0]) {
      TrimLeftStarts(s[1..]);
    }
  }

  lemma {:induction false} TrimRightTrims(s: string)
    requires s != "" ==> !IsSpace(s[0])
    ensures Trimmed(TrimRight(s))
  {
    if s != "" && IsSpace(s[|s| - 1]) {
      TrimRightTrims(s[..|s| - 1]);
    }
  }

  lemma TrimSpaceTrims(s: string)
    ensures Trimmed(TrimSpace(s))
  {
    TrimLeftStarts(s);
    TrimRightTrims(TrimLeft(s));
  }

  ghost predicate Blank(s: string) {
    forall i :: 0 <= i < |s| ==> IsSpace(s[i])
  }

  lemma {:induction false} TrimLeftSplits(s: string) returns (a: string)
    ensures Blank(a) && s == a + TrimLeft(s)
  {
    a := "";
    if s != "" && IsSpace(s[0]) {
      var rest := TrimLeftSplits(s[1..]);
      a := [s[0]] + rest;
      assert s == [s[0]] + s[1..];
    }
  }

  lemma {:induction false} TrimRightSplits(s: string) returns (b: string)
    ensures Blank(b) && s == TrimRight(s) + b
  {
    b := "";
    if s != "" && IsSpace(s[|s| - 1]) {
      var init := TrimRightSplits(s[..|s| - 1]);
      b := init + [s[|s| - 1]];
      assert s == s[..|s| - 1] + [s[|s| - 1]];
    }
  }

  /** `m` is what is left of `s` when blanks around it are taken away. */
  ghost predicate IsCore(s: string, m: string) {
    Trimmed(m) && exists a: string, b: string :: Blank(a) && Blank(b) && s == a + m + b
  }

  /** Trimming takes away the outer blanks and nothing else. */
  lemma TrimSpaceExactly(s: string, m: string)
    ensures IsCore(s, m) <==> m == TrimSpace(s)
  {
    hide TrimLeft, TrimRight;
    TrimSpaceTrims(s);
    var a := TrimLeftSplits(s);
    var b := TrimRightSplits(TrimLeft(s));
    assert s == a + TrimSpace(s) + b;
    if IsCore(s, m) {
      var x: string, y: string :| Blank(x) && Blank(y) && s == x + m + y;
      TrimOfPadded(x, m, y);
    }
  }

  lemma {:induction false} TrimOfPadded(a: string, m: string, b: string)
    requires Blank(a) && Blank(b) && Trimmed(m)
    ensures TrimSpace(a + m + b) == m
    decreases |a| + |b|
  {
    var s := a + m + b;
    if a != "" {
      assert s[0] == a[0] && s[1..] == a[1..] + m + b;
      TrimOfPadded(a[1..], m, b);
    } else if b != "" && m != "" {
      assert s == m + b && s[0] == m[0];
      TrimRightOfPadded(m, b);
    } else if m == "" {
      assert s == b;
      BlankTrims(b);
    } else {
      assert s == m;
    }
  }

  lemma {:induction false} BlankTrims(s: string)
    requires Blank(s)
    ensures TrimLeft(s) == ""
  {
    if s != "" {
      BlankTrims(s[1..]);
    }
  }

  lemma {:induction false} TrimRightOfPadded(m: string, b: string)
    requires Blank(b) && Trimmed(m)
    ensures TrimRight(m + b) == m
  {
    var s := m + b;
    if b != "" {
      assert s[|s| - 1] == b[|b| - 1] && s[..|s| - 1] == m + b[..|b| - 1];
      TrimRightOfPadded(m, b[..|b| - 1]);
    } else {
      assert s == m;
    }
  }

  lemma TrimmedStays(s: string)
    requires Trimmed(s)
    ensures TrimSpace(s) == s
  {
  }

  lemma {:induction false} TrimLeftKeepsCommaFree(s: string)
    requires ',' !in s
    ensures ',' !in TrimLeft(s)
  {
    if s != "" && IsSpace(s[0]) {
      TrimLeftKeepsCommaFree(s[1..]);
    }
  }

  lemma {:induction false} TrimRightKeepsCommaFree(s: string)
    requires ',' !in s
    ensures ',' !in TrimRight(s)
  {
    if s != "" && IsSpace(s[|s| - 1]) {
      TrimRightKeepsCommaFree(s[..|s| - 1]);
    }
  }

  // ---------------------------------------------------------------------
  // Splitting and joining
  // ---------------------------------------------------------------------

  /** strings.Split(s, ",") */
  function Split(s: string): (parts: seq<string>)
    ensures |parts| > 0
  {
    if s == "" then [""]
    else if s[0] == ',' then [""] + Split(s[1..])
    else
      var parts := Split(s[1..]);
      [[s[0]] + parts[0]] + parts[1..]
  }

  /** strings.Join(l, ",") */
  function Join(l: seq<string>): string {
    if l == [] then ""
    else if |l| == 1 then l[0]
    else l[0] + "," + Join(l[1..])
  }

  ghost predicate CommaFree(l: seq<string>) {
    forall i :: 0 <= i < |l| ==> ',' !in l[i]
  }

  ghost predicate AllTrimmed(l: seq<string>) {
    forall i :: 0 <= i < |l| ==> Trimmed(l[i])
  }

  lemma {:induction false} SplitParts(s: string)
    ensures CommaFree(Split(s))
    ensures |Split(s)| == 1 ==> Split(s)[0] == s
  {
    if s != "" {
      SplitParts(s[1..]);
      assert s == [s[0]] + s[1..];
    }
  }

  lemma {:induction false} SplitPrefix(a: string, rest: string)
    requires ',' !in a
    ensures Split(a + "," + rest) == [a] + Split(rest)
  {
    if a == "" {
      assert a + "," + rest == "," + rest;
      assert ("," + rest)[1..] == rest;
    } else {
      SplitPrefix(a[1..], rest);
      var whole := a + "," + rest;
      assert whole[1..] == a[1..] + "," + rest;
      assert whole[0] == a[0] && a[0] in a;
      assert [a[0]] + a[1..] == a;
    }
  }

  lemma {:induction false} SplitCommaFree(a: string)
    requires ',' !in a
    ensures Split(a) == [a]
  {
    if a != "" {
      SplitCommaFree(a[1..]);
      assert a[0] in a && [a[0]] + a[1..] == a;
    }
  }

  lemma {:induction false} SplitOfJoin(l: seq<string>)
    requires l != [] && CommaFree(l)
    ensures Split(Join(l)) == l
  {
    if |l| == 1 {
      SplitCommaFree(l[0]);
    } else {
      SplitOfJoin(l[1..]);
      SplitPrefix(l[0], Join(l[1..]));
      assert l == [l[0]] + l[1..];
    }
  }

  /** Splitting is the only way to read a string as comma-free parts. */
  lemma {:induction false} JoinOfSplit(s: string)
    ensures Join(Split(s)) == s
  {
    hide Join;
    if s == "" {
      JoinOne("");
    } else {
      JoinOfSplit(s[1..]);
      assert s == [s[0]] + s[1..];
      if s[0] == ',' {
        JoinTwo("", Split(s[1..]));
      } else {
        JoinLonger(s[0], Split(s[1..]));
      }
    }
  }

  lemma JoinOne(part: string)
    ensures Join([part]) == part
  {
  }

  lemma JoinTwo(part: string, l: seq<string>)
    requires l != []
    ensures Join([part] + l) == part + "," + Join(l)
  {
    assert ([part] + l)[1..] == l;
  }

  lemma JoinLonger(c: char, l: seq<string>)
    requires l != []
    ensures Join([[c] + l[0]] + l[1..]) == [c] + Join(l)
  {
    hide Join;
    var head, rest := l[0], l[1..];
    assert l == [head] + rest;
    if rest == [] {
      assert l == [head] && [[c] + head] + rest == [[c] + head];
      JoinOne(head);
      JoinOne([c] + head);
    } else {
      JoinTwo([c] + head, rest);
      JoinTwo(head, rest);
      var tail := "," + Join(rest);
      assert [c] + head + tail == [c] + (head + tail);
      assert [c] + head + "," + Join(rest) == [c] + head + tail;
      assert head + "," + Join(rest) == head + tail;
    }
  }

  /** A joined list of trimmed parts is itself trimmed and not empty. */
  lemma {:induction false} JoinIsTrimmed(l: seq<string>)
    requires l != [] && AllTrimmed(l)
    ensures Trimmed(Join(l))
    ensures Join(l) == "" <==> l == [""]
  {
    if |l| > 1 {
      JoinIsTrimmed(l[1..]);
      var tail := Join(l[1..]);
      var whole := l[0] + "," + tail;
      assert whole[0] == if l[0] == "" then ',' else l[0][0];
      assert whole[|whole| - 1] == if tail == "" then ',' else tail[|tail| - 1];
    } else {
      assert l == [l[0]];
    }
  }

  // ---------------------------------------------------------------------
  // The codec
  // ---------------------------------------------------------------------

  function TrimAll(l: seq<string>): (r: seq<string>)
    ensures |r| == |l|
    ensures forall i :: 0 <= i < |l| ==> r[i] == TrimSpace(l[i])
  {
    if l == [] then [] else [TrimSpace(l[0])] + TrimAll(l[1..])
  }

  function Decoded(s: string): seq<string> {
    var t := TrimSpace(s);
    if t == "" then [] else TrimAll(Split(t))
  }

  /** EncodeListToString */
  function EncodeListToString(l: seq<string>): string {
    Join(l)
  }

  /** DecodeStringToList */
  method DecodeStringToList(commaSeparatedString: string) returns (arr: seq<string>)
    ensures arr == Decoded(commaSeparatedString)
  {
    var s := TrimSpace(commaSeparatedString);
    if s == "" {
      return [];
    }
    arr := Split(s);
    for i := 0 to |arr|
      invariant |arr| == |Split(s)|
      invariant forall j :: 0 <= j < |arr| ==> arr[j] == if j < i then TrimSpace(Split(s)[j]) else Split(s)[j]
    {
      arr := arr[i := TrimSpace(arr[i])];
    }
  }

  /** What decoding can produce: trimmed parts without commas, and never one empty part. */
  lemma DecodedParts(s: string)
    ensures AllTrimmed(Decoded(s)) && CommaFree(Decoded(s)) && Decoded(s) != [""]
  {
    var t := TrimSpace(s);
    TrimSpaceTrims(s);
    SplitParts(t);
    var parts := Split(t);
    forall i | 0 <= i < |parts|
      ensures Trimmed(TrimSpace(parts[i])) && ',' !in TrimSpace(parts[i])
    {
      TrimSpaceTrims(parts[i]);
      TrimLeftKeepsCommaFree(parts[i]);
      TrimRightKeepsCommaFree(TrimLeft(parts[i]));
    }
    if |parts| == 1 {
      TrimmedStays(t);
    }
  }

  /** Decoding undoes encoding exactly for every such list but the one empty part. */
  lemma DecodeOfEncode(l: seq<string>)
    requires AllTrimmed(l) && CommaFree(l)
    ensures Decoded(EncodeListToString(l)) == l <==> l != [""]
  {
    if l != [] {
      JoinIsTrimmed(l);
      TrimmedStays(Join(l));
      if l != [""] {
        SplitOfJoin(l);
        forall i | 0 <= i < |l|
          ensures TrimSpace(l[i]) == l[i]
        {
          TrimmedStays(l[i]);
        }
        assert TrimAll(l) == l;
      }
    }
  }

  lemma CoreOfMore(s: string, c: char)
    requires IsSpace(c)
    ensures TrimSpace([c] + s) == TrimSpace(s) == TrimSpace(s + [c])
  {
    hide TrimSpace, Trimmed;
    var m := TrimSpace(s);
    TrimSpaceExactly(s, m);
    var a: string, b: string :| Blank(a) && Blank(b) && s == a + m + b;
    assert [c] + s == ([c] + a) + m + b && s + [c] == a + m + (b + [c]);
    assert Blank([c] + a) && Blank(b + [c]);
    TrimSpaceExactly([c] + s, m);
    TrimSpaceExactly(s + [c], m);
  }

  function AppendToLast(l: seq<string>, c: char): (r: seq<string>)
    requires l != []
    ensures |r| == |l|
  {
    l[|l| - 1 := l[|l| - 1] + [c]]
  }

  lemma {:induction false} JoinMore(l: seq<string>, c: char)
    requires l != []
    ensures Join(AppendToLast(l, c)) == Join(l) + [c]
  {
    if |l| > 1 {
      JoinMore(l[1..], c);
      assert AppendToLast(l, c)[1..] == AppendToLast(l[1..], c);
    }
  }

  lemma SplitMore(s: string, c: char)
    requires c != ','
    ensures Split(s + [c]) == AppendToLast(Split(s), c)
  {
    hide Split, Join;
    var p := Split(s);
    SplitParts(s);
    JoinOfSplit(s);
    JoinMore(p, c);
    SplitOfJoin(AppendToLast(p, c));
  }

  lemma TrimAllSnoc(l: seq<string>, x: string)
    ensures TrimAll(l + [x]) == TrimAll(l) + [TrimSpace(x)]
  {
    hide TrimSpace;
  }

  /** Blanks around the whole list are blanks around its outer parts. */
  lemma {:induction false} LeftBlanksDoNotMatter(s: string)
    ensures TrimAll(Split(TrimLeft(s))) == TrimAll(Split(s))
  {
    hide TrimSpace;
    if s != "" && IsSpace(s[0]) {
      var p := Split(s[1..]);
      LeftBlanksDoNotMatter(s[1..]);
      CoreOfMore(p[0], s[0]);
    }
  }

  lemma {:induction false} RightBlanksDoNotMatter(s: string)
    ensures TrimAll(Split(TrimRight(s))) == TrimAll(Split(s))
  {
    hide TrimAll, Split;
    if s != "" && IsSpace(s[|s| - 1]) {
      RightBlanksDoNotMatter(s[..|s| - 1]);
      assert s == s[..|s| - 1] + [s[|s| - 1]];
      BlankAtTheEnd(s[..|s| - 1], s[|s| - 1]);
    }
  }

  lemma BlankAtTheEnd(s: string, c: char)
    requires IsSpace(c)
    ensures TrimAll(Split(s + [c])) == TrimAll(Split(s))
  {
    hide TrimSpace, Split, TrimAll;
    var p := Split(s);
    var init, last := p[..|p| - 1], p[|p| - 1];
    SplitMore(s, c);
    CoreOfMore(last, c);
    TrimAllSnoc(init, last);
    TrimAllSnoc(init, last + [c]);
    assert p == init + [last] && AppendToLast(p, c) == init + [last + [c]];
  }

  ghost predicate AreCores(padded: seq<string>, l: seq<string>) {
    |padded| == |l| && forall i :: 0 <= i < |l| ==> IsCore(padded[i], l[i])
  }

  /**
   Decoding gives exactly what was listed: comma-free parts in any padding of blanks, joined
   by commas, are read as what is inside the padding, except a single part of blanks only.
   */
  lemma DecodeOfPadded(padded: seq<string>, l: seq<string>)
    requires padded != [] && CommaFree(padded) && AreCores(padded, l)
    ensures Decoded(Join(padded)) == if l == [""] then [] else l
  {
    hide TrimSpace, IsCore;
    var s := Join(padded);
    LeftBlanksDoNotMatter(s);
    RightBlanksDoNotMatter(TrimLeft(s));
    SplitOfJoin(padded);
    forall i | 0 <= i < |l|
      ensures TrimSpace(padded[i]) == l[i]
    {
      TrimSpaceExactly(padded[i], l[i]);
    }
    assert TrimAll(padded) == l;
    TrimIsBothSides(s);
    assert TrimAll(Split(TrimSpace(s))) == l;
    NothingToSplit();
    if l == [""] {
      assert s == padded[0];
    }
  }

  lemma TrimIsBothSides(s: string)
    ensures TrimSpace(s) == TrimRight(TrimLeft(s))
  {
  }

  lemma NothingToSplit()
    ensures TrimAll(Split("")) == [""]
  {
    assert Split("") == [""] && TrimSpace("") == "";
  }

  /** `value` is one of the comma-separated parts of `list`, blanks around it aside. */
  ghost predicate Listed(value: string, list: string) {
    exists parts: seq<string>, i: nat ::
      parts != [] && CommaFree(parts) && Join(parts) == list && i < |parts| && IsCore(parts[i], value)
  }

  lemma ListedExactly(value: string, list: string)
    ensures Listed(value, list) <==> value in TrimAll(Split(list))
  {
    hide TrimSpace, IsCore;
    JoinOfSplit(list);
    SplitParts(list);
    var split := Split(list);
    if i :| 0 <= i < |split| && TrimAll(split)[i] == value {
      TrimSpaceExactly(split[i], value);
      assert Listed(value, list);
    }
    if Listed(value, list) {
      var parts: seq<string>, i: nat :|
        parts != [] && CommaFree(parts) && Join(parts) == list && i < |parts| && IsCore(parts[i], value);
      SplitOfJoin(parts);
      TrimSpaceExactly(parts[i], value);
      assert TrimAll(split)[i] == value;
    }
  }

  /** Re-encoding a decoded string loses nothing. */
  lemma DecodeIsStable(s: string)
    ensures Decoded(EncodeListToString(Decoded(s))) == Decoded(s)
  {
    DecodedParts(s);
    DecodeOfEncode(Decoded(s));
  }
}
