/** The two character scanners over method keys and method values:
    `getDescriptor`, which cuts the descriptor out of `name(desc)`, and
    `remapMethodDescriptor`, which renames the class names written as
    `L<name>;` after the first `(`. Each is a method with the source's loop and
    flags, proved equal to a reference function that reads the text token by
    token. */
module Descriptors {
  import opened Wrappers
  import opened JavaStrings
  import opened LinkedMaps

  /** The suffix of `s` that starts at its first '(', or "" when there is none. */
  function DescriptorOf(s: string): string {
    match IndexOf(s, '(')
    case None => ""
    case Some(i) => s[i..]
  }

  /** The descriptor is the suffix of `s` that begins at its first '(', and is
      empty exactly when `s` has no '('. */
  lemma DescriptorOfIsSuffix(s: string)
    ensures var r := DescriptorOf(s);
      && |r| <= |s| && r == s[|s| - |r|..]
      && (r == "" <==> '(' !in s)
      && (r != "" ==> r[0] == '(' && '(' !in s[..|s| - |r|])
  {
    IndexOfFirst(s, '(');
    match IndexOf(s, '(')
    case None =>
    case Some(i) => assert |s| - |s[i..]| == i;
  }

  /** Cutting the descriptor out of a descriptor gives it back. */
  lemma DescriptorOfIdempotent(s: string)
    ensures DescriptorOf(DescriptorOf(s)) == DescriptorOf(s)
  {
    DescriptorOfIsSuffix(s);
    var d := DescriptorOf(s);
    if d != "" {
      assert IndexOf(d, '(') == Some(0);
    }
  }

  /** `getDescriptor`: copies every character from the first '(' on. */
  method GetDescriptor(member: string) returns (r: string)
    ensures r == DescriptorOf(member)
  {
    IndexOfFirst(member, '(');
    ghost var first := IndexOf(member, '(');
    var result := "";
    var started := false;
    var i := 0;
    while i < |member|
      invariant 0 <= i <= |member|
      invariant !started ==> result == "" && '(' !in member[..i]
      invariant started ==> first.Some? && first.value < i && result == member[first.value..i]
    {
      var c := member[i];
      if c == '(' {
        if !started {
          IndexOfAt(member, '(', i);
        }
        started := true;
      }
      if started {
        result := result + [c];
      }
      assert member[..i + 1] == member[..i] + [c];
      i := i + 1;
    }
    assert member[..i] == member;
    r := result;
  }

  /** What `remapMethodDescriptor` looks a class name up as: what follows the
      last 'L' of the text collected, since each 'L' clears the buffer. */
  function AfterLastL(x: string): (r: string)
    ensures 'L' !in r
    ensures 'L' !in x ==> r == x
  {
    if x == [] then []
    else if x[|x| - 1] == 'L' then []
    else
      assert 'L' !in x ==> 'L' !in x[..|x| - 1];
      assert x == x[..|x| - 1] + [x[|x| - 1]];
      AfterLastL(x[..|x| - 1]) + [x[|x| - 1]]
  }

  lemma {:induction false} AfterLastLClears(a: string, t: string)
    ensures AfterLastL(a + ['L'] + t) == AfterLastL(t)
  {
    var x := a + ['L'] + t;
    if t != [] {
      var n := |t| - 1;
      assert x[..|x| - 1] == a + ['L'] + t[..n];
      AfterLastLClears(a, t[..n]);
    }
  }

  /** The reference reading of `remapMethodDescriptor(s, cm)`. Before the first
      '(' characters are copied, except that a ';' there emits the lookup of the
      still-empty class name before itself. From the '(' on, see AfterParen. */
  function Remap(s: string, cm: map<string, string>): string
    decreases |s|
  {
    if s == [] then ""
    else if s[0] == '(' then "(" + AfterParen(s[1..], cm, "")
    else if s[0] == ';' then GetOrDefault(cm, "", "") + ";" + Remap(s[1..], cm)
    else [s[0]] + Remap(s[1..], cm)
  }

  /** The text after the first '(': an 'L' opens a class token (ClassToken),
      a ';' outside a token emits the lookup of the last name looked up
      (`last`) before itself, any other character is copied. */
  function AfterParen(s: string, cm: map<string, string>, last: string): string
    decreases |s|, 1
  {
    if s == [] then ""
    else if s[0] == 'L' then "L" + ClassToken("", s[1..], cm)
    else if s[0] == ';' then GetOrDefault(cm, last, last) + ";" + AfterParen(s[1..], cm, last)
    else [s[0]] + AfterParen(s[1..], cm, last)
  }

  /** The rest of a class token whose name so far is `buf`: the name runs to
      the next ';'; what follows its last 'L' is looked up and emitted with
      the ';'. A token with no ';' emits nothing. */
  function ClassToken(buf: string, s: string, cm: map<string, string>): string
    decreases |s|, 0
  {
    match IndexOf(s, ';')
    case None => ""
    case Some(j) =>
      var name := AfterLastL(buf + s[..j]);
      GetOrDefault(cm, name, name) + ";" + AfterParen(s[j + 1..], cm, name)
  }

  /** What is still to be emitted for `rest` in a given scanner state. */
  ghost function Resume(started: bool, inside: bool, buf: string, rest: string, cm: map<string, string>): string {
    if !started then Remap(rest, cm)
    else if inside then ClassToken(buf, rest, cm)
    else AfterParen(rest, cm, buf)
  }

  lemma ResumeBeforeParen(c: char, rest: string, cm: map<string, string>)
    ensures c == ';' ==> Resume(false, false, "", [c] + rest, cm) == GetOrDefault(cm, "", "") + [c] + Resume(false, false, "", rest, cm)
    ensures c == '(' ==> Resume(false, false, "", [c] + rest, cm) == [c] + Resume(true, false, "", rest, cm)
    ensures c != ';' && c != '(' ==> Resume(false, false, "", [c] + rest, cm) == [c] + Resume(false, false, "", rest, cm)
  {
    assert ([c] + rest)[1..] == rest;
  }

  lemma ResumeOutside(c: char, rest: string, buf: string, cm: map<string, string>)
    ensures c == ';' ==> Resume(true, false, buf, [c] + rest, cm) == GetOrDefault(cm, buf, buf) + [c] + Resume(true, false, buf, rest, cm)
    ensures c == 'L' ==> Resume(true, false, buf, [c] + rest, cm) == [c] + Resume(true, true, "", rest, cm)
    ensures c != ';' && c != 'L' ==> Resume(true, false, buf, [c] + rest, cm) == [c] + Resume(true, false, buf, rest, cm)
  {
    assert ([c] + rest)[1..] == rest;
  }

  lemma ResumeInside(c: char, rest: string, buf: string, cm: map<string, string>)
    requires 'L' !in buf
    ensures c == ';' ==> Resume(true, true, buf, [c] + rest, cm) == GetOrDefault(cm, buf, buf) + [c] + Resume(true, false, buf, rest, cm)
    ensures c == 'L' ==> Resume(true, true, buf, [c] + rest, cm) == Resume(true, true, "", rest, cm)
    ensures c != ';' && c != 'L' ==> Resume(true, true, buf, [c] + rest, cm) == Resume(true, true, buf + [c], rest, cm)
  {
    var s := [c] + rest;
    assert s[1..] == rest;
    if c == ';' {
      assert IndexOf(s, ';') == Some(0);
      assert buf + s[..0] == buf;
    } else {
      match IndexOf(rest, ';')
      case None =>
      case Some(j) =>
        assert IndexOf(s, ';') == Some(j + 1);
        assert s[j + 2..] == rest[j + 1..];
        if c == 'L' {
          assert buf + s[..j + 1] == buf + ['L'] + rest[..j];
          AfterLastLClears(buf, rest[..j]);
          assert "" + rest[..j] == rest[..j];
        } else {
          assert buf + s[..j + 1] == (buf + [c]) + rest[..j];
        }
    }
  }

  /** The variables of `remapMethodDescriptor`'s loop. */
  datatype Scanner = Scanner(started: bool, insideClassName: bool, className: string, result: string)

  /** One turn of `remapMethodDescriptor`'s loop, on character `c`. */
  ghost function Step(st: Scanner, c: char, cm: map<string, string>): Scanner {
    var insideClassName := if c == ';' then false else st.insideClassName;
    var result := if c == ';' then st.result + GetOrDefault(cm, st.className, st.className) else st.result;
    var className := if insideClassName then st.className + [c] else st.className;
    var result := if insideClassName then result else result + [c];
    var started := st.started || c == '(';
    if started && c == 'L' then Scanner(started, true, "", result)
    else Scanner(started, insideClassName, className, result)
  }

  /** The loop's variables after reading all of `s`. */
  ghost function ScanPrefix(s: string, cm: map<string, string>): Scanner {
    if s == [] then Scanner(false, false, "", "")
    else Step(ScanPrefix(s[..|s| - 1], cm), s[|s| - 1], cm)
  }

  ghost predicate Consistent(st: Scanner) {
    && (st.insideClassName ==> st.started)
    && (!st.started ==> st.className == "")
    && 'L' !in st.className
  }

  lemma StepResume(st: Scanner, c: char, rest: string, cm: map<string, string>)
    requires Consistent(st)
    ensures Consistent(Step(st, c, cm))
    ensures st.result + Resume(st.started, st.insideClassName, st.className, [c] + rest, cm)
         == Step(st, c, cm).result + Resume(Step(st, c, cm).started, Step(st, c, cm).insideClassName, Step(st, c, cm).className, rest, cm)
  {
    if !st.started {
      StepBeforeParen(st, c, rest, cm);
    } else if st.insideClassName {
      StepInside(st, c, rest, cm);
    } else {
      StepOutside(st, c, rest, cm);
    }
  }

  lemma StepBeforeParen(st: Scanner, c: char, rest: string, cm: map<string, string>)
    requires Consistent(st) && !st.started
    ensures Consistent(Step(st, c, cm))
    ensures st.result + Resume(false, false, "", [c] + rest, cm)
         == Step(st, c, cm).result + Resume(Step(st, c, cm).started, Step(st, c, cm).insideClassName, Step(st, c, cm).className, rest, cm)
  {
    ResumeBeforeParen(c, rest, cm);
    var out := if c == ';' then GetOrDefault(cm, "", "") + [c] else [c];
    assert Step(st, c, cm) == Scanner(c == '(', false, "", st.result + out);
    assert st.result + (out + Resume(c == '(', false, "", rest, cm)) == (st.result + out) + Resume(c == '(', false, "", rest, cm);
  }

  lemma StepOutside(st: Scanner, c: char, rest: string, cm: map<string, string>)
    requires Consistent(st) && st.started && !st.insideClassName
    ensures Consistent(Step(st, c, cm))
    ensures st.result + Resume(true, false, st.className, [c] + rest, cm)
         == Step(st, c, cm).result + Resume(Step(st, c, cm).started, Step(st, c, cm).insideClassName, Step(st, c, cm).className, rest, cm)
  {
    var buf := st.className;
    var out := if c == ';' then GetOrDefault(cm, buf, buf) + [c] else [c];
    var next := if c == 'L' then Scanner(true, true, "", st.result + out) else Scanner(true, false, buf, st.result + out);
    assert Step(st, c, cm) == next;
    assert Resume(true, false, buf, [c] + rest, cm) == out + Resume(true, next.insideClassName, next.className, rest, cm) by {
      ResumeOutside(c, rest, buf, cm);
    }
    assert st.result + (out + Resume(true, next.insideClassName, next.className, rest, cm))
        == (st.result + out) + Resume(true, next.insideClassName, next.className, rest, cm);
  }

  lemma StepInside(st: Scanner, c: char, rest: string, cm: map<string, string>)
    requires Consistent(st) && st.started && st.insideClassName
    ensures Consistent(Step(st, c, cm))
    ensures st.result + Resume(true, true, st.className, [c] + rest, cm)
         == Step(st, c, cm).result + Resume(Step(st, c, cm).started, Step(st, c, cm).insideClassName, Step(st, c, cm).className, rest, cm)
  {
    var buf := st.className;
    ResumeInside(c, rest, buf, cm);
    if c == ';' {
      var out := GetOrDefault(cm, buf, buf) + [c];
      assert Step(st, c, cm) == Scanner(true, false, buf, st.result + out);
      assert st.result + (out + Resume(true, false, buf, rest, cm)) == (st.result + out) + Resume(true, false, buf, rest, cm);
    } else if c == 'L' {
      assert Step(st, c, cm) == Scanner(true, true, "", st.result);
    } else {
      assert Step(st, c, cm) == Scanner(true, true, buf + [c], st.result);
    }
  }

  /** Whatever has been read, what the scanner has emitted followed by what it
      will emit for the rest is the reference reading of the whole text. */
  lemma {:induction false} ScanPrefixResumes(s: string, rest: string, cm: map<string, string>)
    ensures Consistent(ScanPrefix(s, cm))
    ensures var st := ScanPrefix(s, cm);
      st.result + Resume(st.started, st.insideClassName, st.className, rest, cm) == Remap(s + rest, cm)
  {
    if s == [] {
      assert s + rest == rest;
    } else {
      var n := |s| - 1;
      ScanPrefixResumes(s[..n], [s[n]] + rest, cm);
      assert s[..n] + ([s[n]] + rest) == s + rest;
      ResumeStep(ScanPrefix(s[..n], cm), ScanPrefix(s, cm), s[n], rest, cm, Remap(s + rest, cm));
    }
  }

  // One step of the induction above, over the states as plain values.
  lemma ResumeStep(prev: Scanner, next: Scanner, c: char, rest: string, cm: map<string, string>, whole: string)
    requires Consistent(prev) && next == Step(prev, c, cm)
    requires prev.result + Resume(prev.started, prev.insideClassName, prev.className, [c] + rest, cm) == whole
    ensures Consistent(next)
    ensures next.result + Resume(next.started, next.insideClassName, next.className, rest, cm) == whole
  {
    StepResume(prev, c, rest, cm);
  }

  /** `remapMethodDescriptor`: the source's scanner with its `started` and
      `insideClassName` flags and its `className` buffer. */
  method RemapMethodDescriptor(member: string, classMappings: map<string, string>) returns (r: string)
    ensures r == Remap(member, classMappings)
  {
    var result := "";
    var started := false;
    var insideClassName := false;
    var className := "";
    var i := 0;
    while i < |member|
      invariant 0 <= i <= |member|
      invariant Scanner(started, insideClassName, className, result) == ScanPrefix(member[..i], classMappings)
    {
      var c := member[i];
      assert member[..i + 1][..i] == member[..i];
      if c == ';' {
        insideClassName := false;
        result := result + GetOrDefault(classMappings, className, className);
      }
      if insideClassName {
        className := className + [c];
      } else {
        result := result + [c];
      }
      if c == '(' {
        started := true;
      }
      if started && c == 'L' {
        insideClassName := true;
        className := "";
      }
      i := i + 1;
    }
    assert member[..i] == member && member + "" == member;
    ScanPrefixResumes(member, "", classMappings);
    r := result;
  }
}
