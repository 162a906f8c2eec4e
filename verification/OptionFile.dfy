/** The option file of `options.c`: lines of key=value, printed in a fixed order
    and read back key by key, each from the first line that contains the key. */
module OptionFile {
  import opened LinkedLists
  import opened Scanning

  // ----- strstr -----

  predicate Contains(s: string, name: string) {
    |name| <= |s| && (s[..|name|] == name || (s != [] && Contains(s[1..], name)))
  }

  ghost predicate At(s: string, name: string, i: int) {
    0 <= i && i + |name| <= |s| && s[i..i + |name|] == name
  }

  lemma SliceOfSlice(s: string, i: nat, n: nat, p: nat, q: nat)
    requires i + n <= |s| && p <= q <= n
    ensures s[i..i + n][p..q] == s[i + p..i + q]
  {
    var slice := s[i..i + n];
    assert |slice[p..q]| == |s[i + p..i + q]|;
    forall t | 0 <= t < q - p
      ensures slice[p..q][t] == s[i + p..i + q][t]
    {
      assert slice[p..q][t] == slice[p + t] == s[i + (p + t)];
    }
  }

  lemma AtTail(s: string, name: string, i: int)
    requires s != [] && i >= 1
    ensures At(s, name, i) <==> At(s[1..], name, i - 1)
  {
    if i + |name| <= |s| {
      SliceOfSlice(s, 1, |s| - 1, i - 1, i - 1 + |name|);
      assert s[1..1 + (|s| - 1)] == s[1..];
    }
  }

  lemma {:induction false} ContainsAt(s: string, name: string, i: int)
    requires At(s, name, i)
    ensures Contains(s, name)
  {
    if i > 0 {
      AtTail(s, name, i);
      ContainsAt(s[1..], name, i - 1);
    }
  }

  lemma {:induction false} ContainedAt(s: string, name: string) returns (i: nat)
    requires Contains(s, name)
    ensures At(s, name, i)
  {
    if s[..|name|] == name {
      return 0;
    }
    var j := ContainedAt(s[1..], name);
    AtTail(s, name, j + 1);
    i := j + 1;
  }

  // ----- keys and lines -----

  /** A key of three parts, such as server.listen.port. */
  datatype Key = Key(first: string, middle: string, last: string)

  predicate Plain(part: string) {
    forall i | 0 <= i < |part| :: part[i] != '.' && part[i] != '=' && !IsSpace(part[i])
  }

  predicate Proper(key: Key) {
    key.first != [] && Plain(key.first) && Plain(key.middle) && Plain(key.last)
  }

  function Name(key: Key): (name: string)
    ensures |name| == |key.first| + |key.middle| + |key.last| + 2
  {
    key.first + "." + key.middle + "." + key.last
  }

  lemma NameDots(key: Key)
    requires Proper(key)
    ensures var name, d := Name(key), |key.first|;
            && name[d] == '.' && name[d + 1 + |key.middle|] == '.'
            && (forall i | 0 <= i < |name| :: name[i] == '.' ==> i == d || i == d + 1 + |key.middle|)
  {
  }

  lemma NameParts(key: Key)
    ensures var name, d, m := Name(key), |key.first|, |key.middle|;
            && name[..d] == key.first && name[d + 1..d + 1 + m] == key.middle && name[d + 2 + m..] == key.last
  {
  }

  lemma NamePlain(key: Key)
    requires Proper(key)
    ensures '=' !in Name(key) && NoSpace(Name(key))
  {
  }

  /** The two dots of a contained key fall on the two dots of the other. */
  lemma DotsAlign(a: Key, b: Key, i: nat)
    requires Proper(a) && Proper(b) && At(Name(a), Name(b), i)
    ensures i + |b.first| == |a.first| && |b.middle| == |a.middle|
  {
    NameDots(a);
    NameDots(b);
    assert Name(a)[i + |b.first|] == Name(b)[|b.first|];
    assert Name(a)[i + (|b.first| + 1 + |b.middle|)] == Name(b)[|b.first| + 1 + |b.middle|];
  }

  lemma MiddlesEqual(a: Key, b: Key, i: nat)
    requires At(Name(a), Name(b), i) && i + |b.first| == |a.first| && |b.middle| == |a.middle|
    ensures a.middle == b.middle
  {
    var n, d, m := |Name(b)|, |b.first|, |b.middle|;
    SliceOfSlice(Name(a), i, n, d + 1, d + 1 + m);
    NameParts(a);
    NameParts(b);
  }

  lemma FirstsAgree(a: Key, b: Key, i: nat)
    requires At(Name(a), Name(b), i) && i + |b.first| == |a.first| && |b.middle| == |a.middle|
    ensures b.first == a.first[i..]
  {
    SliceOfSlice(Name(a), i, |Name(b)|, 0, |b.first|);
    SliceOfSlice(Name(a), 0, |a.first|, i, |a.first|);
    NameParts(a);
    NameParts(b);
    assert Name(a)[0..0 + |a.first|] == Name(a)[..|a.first|];
    assert Name(b)[0..|b.first|] == Name(b)[..|b.first|];
  }

  lemma LastsAgree(a: Key, b: Key, i: nat)
    requires At(Name(a), Name(b), i) && i + |b.first| == |a.first| && |b.middle| == |a.middle|
    ensures |b.last| <= |a.last| && b.last == a.last[..|b.last|]
  {
    var n, e := |Name(b)|, |b.first| + 2 + |b.middle|;
    SliceOfSlice(Name(a), i, n, e, n);
    NameParts(a);
    NameParts(b);
    var from := |a.first| + 2 + |a.middle|;
    assert Name(a)[i + e..i + n] == Name(a)[from..][..|b.last|];
    assert Name(b)[e..n] == Name(b)[e..];
  }

  /** One key contained in another has the same middle part, ends the other's first
      part with its own, and begins the other's last part with its own. */
  lemma ContainedKey(a: Key, b: Key)
    requires Proper(a) && Proper(b) && Contains(Name(a), Name(b))
    ensures a.middle == b.middle
    ensures |b.first| <= |a.first| && b.first == a.first[|a.first| - |b.first|..]
    ensures |b.last| <= |a.last| && b.last == a.last[..|b.last|]
  {
    var i := ContainedAt(Name(a), Name(b));
    DotsAlign(a, b, i);
    MiddlesEqual(a, b, i);
    FirstsAgree(a, b, i);
    LastsAgree(a, b, i);
  }

  datatype Setting = Setting(key: Key, value: string)

  function Line(x: Setting): string {
    Name(x.key) + "=" + x.value + "\n"
  }

  lemma AtConcat(a: string, b: string, c: string, name: string, i: nat)
    requires At(b, name, i)
    ensures At(a + b + c, name, |a| + i)
  {
    assert (a + b + c)[|a| + i..|a| + i + |name|] == b[i..i + |name|];
  }

  /** An occurrence does not run over a character that is not in it. */
  lemma Avoids(s: string, name: string, i: nat, at: nat)
    requires At(s, name, i) && at < |s| && s[at] !in name
    ensures at < i || at >= i + |name|
  {
    var t := if i <= at < i + |name| then at - i else 0;
    assert s[i..i + |name|] == name;
    assert |name| > 0 ==> s[i + t] == name[t] && name[t] in name;
  }

  lemma ContainedChars(s: string, name: string, c: char)
    requires Contains(s, name) && c in name
    ensures c in s
  {
    var i := ContainedAt(s, name);
    var k :| 0 <= k < |name| && name[k] == c;
    assert s[i..i + |name|][k] == s[i + k];
  }

  /** An occurrence that avoids '=' and newlines lies on one side of the '='. */
  lemma AtOneSide(k: string, v: string, name: string, i: nat)
    requires name != [] && '=' !in name && NoSpace(name) && At(k + "=" + v + "\n", name, i)
    ensures At(k, name, i) || (i > |k| && At(v, name, i - |k| - 1))
  {
    var line := k + "=" + v + "\n";
    assert '\n' !in name;
    Avoids(line, name, i, |k|);
    Avoids(line, name, i, |line| - 1);
    if i + |name| <= |k| {
      assert line[i..i + |name|] == k[i..i + |name|];
    } else {
      assert line[i..i + |name|] == v[i - |k| - 1..i - |k| - 1 + |name|];
    }
  }

  lemma KeyInLine(k: string, v: string, name: string)
    requires Contains(k, name)
    ensures Contains(k + "=" + v + "\n", name)
  {
    var i := ContainedAt(k, name);
    AtConcat("", k, "=" + v + "\n", name, i);
    assert "" + k + ("=" + v + "\n") == k + "=" + v + "\n";
    ContainsAt(k + "=" + v + "\n", name, i);
  }

  lemma ValueInLine(k: string, v: string, name: string)
    requires Contains(v, name)
    ensures Contains(k + "=" + v + "\n", name)
  {
    var i := ContainedAt(v, name);
    AtConcat(k + "=", v, "\n", name, i);
    ContainsAt(k + "=" + v + "\n", name, |k| + 1 + i);
  }

  lemma InOneSide(k: string, v: string, name: string)
    requires name != [] && '=' !in name && NoSpace(name) && Contains(k + "=" + v + "\n", name)
    ensures Contains(k, name) || Contains(v, name)
  {
    var i := ContainedAt(k + "=" + v + "\n", name);
    AtOneSide(k, v, name, i);
    if At(k, name, i) {
      ContainsAt(k, name, i);
    } else {
      ContainsAt(v, name, i - |k| - 1);
    }
  }

  /** A line contains a key in its own key or in its value, never across the '='. */
  lemma LineContains(x: Setting, key: Key)
    requires Proper(key)
    ensures Contains(Line(x), Name(key)) <==> Contains(Name(x.key), Name(key)) || Contains(x.value, Name(key))
  {
    var k, v, name := Name(x.key), x.value, Name(key);
    NamePlain(key);
    if Contains(k, name) {
      KeyInLine(k, v, name);
    } else if Contains(v, name) {
      ValueInLine(k, v, name);
    } else if Contains(Line(x), name) {
      InOneSide(k, v, name);
    }
  }

  // ----- the file -----

  const LINE_MAX := 254  // fgets is given 255 bytes

  /** What `fgets` takes: up to a newline, or as much as fits. */
  function TakeLine(text: string, room: nat): (n: nat)
    ensures n <= |text| && (text != [] && room > 0 ==> n > 0)
  {
    if text == [] || room == 0 then 0
    else if text[0] == '\n' then 1
    else 1 + TakeLine(text[1..], room - 1)
  }

  /** The first line that contains the name, trimmed on the left; "" if none does.
      The last, empty read contains no name. */
  function FindLine(text: string, name: string): (line: string)
    decreases |text|
  {
    if text == [] then ""
    else
      var n := TakeLine(text, LINE_MAX);
      var line := SkipSpace(text[..n]);
      if Contains(line, name) then line else FindLine(text[n..], name)
  }

  method ReadLine(text: string, name: string) returns (line: string)
    ensures line == FindLine(text, name)
  {
    var rest := text;
    while rest != []
      invariant FindLine(rest, name) == FindLine(text, name)
      decreases |rest|
    {
      var n := TakeLine(rest, LINE_MAX);
      line := SkipSpace(rest[..n]);
      if Contains(line, name) {
        return;
      }
      rest := rest[n..];
    }
    return "";
  }

  function PrintFile(settings: seq<Setting>): string {
    if settings == [] then "" else Line(settings[0]) + PrintFile(settings[1..])
  }

  /** A line that `fgets` takes whole. */
  predicate Fits(x: Setting) {
    Proper(x.key) && '\n' !in x.value && |Line(x)| <= LINE_MAX
  }

  lemma {:induction false} TakeWhole(body: string, rest: string, room: nat)
    requires '\n' !in body && |body| < room
    ensures TakeLine(body + "\n" + rest, room) == |body| + 1
  {
    var text := body + "\n" + rest;
    if body != [] {
      assert text[1..] == body[1..] + "\n" + rest;
      TakeWhole(body[1..], rest, room - 1);
    }
  }

  lemma LineStartsPlain(x: Setting)
    requires Proper(x.key)
    ensures SkipSpace(Line(x)) == Line(x) && '\n' !in Name(x.key)
  {
    NamePlain(x.key);
    assert Line(x)[0] == Name(x.key)[0];
  }

  lemma FindFirst(x: Setting, rest: string, name: string)
    requires Fits(x)
    ensures FindLine(Line(x) + rest, name) == if Contains(Line(x), name) then Line(x) else FindLine(rest, name)
  {
    var body := Name(x.key) + "=" + x.value;
    LineStartsPlain(x);
    TakeWhole(body, rest, LINE_MAX);
    assert Line(x) + rest == body + "\n" + rest;
    assert (Line(x) + rest)[..|Line(x)|] == Line(x) && (Line(x) + rest)[|Line(x)|..] == rest;
  }

  /** The line of the setting contains the key. */
  predicate Mentions(x: Setting, key: Key) {
    Contains(Name(x.key), Name(key)) || Contains(x.value, Name(key))
  }

  lemma {:induction false} FindInFile(settings: seq<Setting>, key: Key)
    requires Proper(key) && forall i | 0 <= i < |settings| :: Fits(settings[i])
    ensures var p := FirstMatch(settings, x => Mentions(x, key));
            FindLine(PrintFile(settings), Name(key)) == if p < |settings| then Line(settings[p]) else ""
  {
    if settings != [] {
      FindFirst(settings[0], PrintFile(settings[1..]), Name(key));
      LineContains(settings[0], key);
      FindInFile(settings[1..], key);
    }
  }

  /** No key contains the key of a later setting. */
  ghost predicate Unmixed(settings: seq<Setting>) {
    forall i, j | 0 <= i < j < |settings| :: !Contains(Name(settings[i].key), Name(settings[j].key))
  }

  lemma SelfContained(s: string)
    ensures Contains(s, s)
  {
    assert s[..|s|] == s;
  }

  lemma FirstMatchExact<X>(s: seq<X>, matches: X -> bool, j: nat)
    requires j < |s| && matches(s[j])
    ensures FirstMatch(s, matches) <= j
    ensures FirstMatch(s, matches) == j <==> forall i | 0 <= i < j :: !matches(s[i])
  {
    if forall i | 0 <= i < j :: !matches(s[i]) {
      FirstMatchUnique(s, matches, j);
    }
  }

  lemma MentionedBefore(settings: seq<Setting>, i: nat, j: nat)
    requires i < j < |settings| && Unmixed(settings)
    ensures Mentions(settings[i], settings[j].key) <==> Contains(settings[i].value, Name(settings[j].key))
  {
  }

  /** A key is found on its own line exactly when no value printed before it
      contains the key. */
  lemma FoundExact(settings: seq<Setting>, j: nat)
    requires j < |settings| && (forall i | 0 <= i < |settings| :: Fits(settings[i])) && Unmixed(settings)
    ensures FirstMatch(settings, x => Mentions(x, settings[j].key)) == j
            <==> forall i | 0 <= i < j :: !Contains(settings[i].value, Name(settings[j].key))
    ensures FirstMatch(settings, x => Mentions(x, settings[j].key)) <= j
  {
    var key := settings[j].key;
    SelfContained(Name(key));
    FirstMatchExact(settings, x => Mentions(x, key), j);
    forall i | 0 <= i < j
      ensures Mentions(settings[i], key) <==> Contains(settings[i].value, Name(key))
    {
      MentionedBefore(settings, i, j);
    }
  }
}
