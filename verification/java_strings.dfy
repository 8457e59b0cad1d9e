/** The few pieces of java.lang.String behaviour the remapping core relies on:
    `split` with a one-character literal separator, the text that string
    concatenation produces for a null reference, and the position of a
    character's first occurrence, which is where a character scanner that
    waits for that character starts copying. */
module JavaStrings {
  import opened Wrappers

  /** Index of the first occurrence of `c` in `s`, or None when there is none:
      where `getDescriptor` turns its `started` flag on, for `c` == '('. */
  function IndexOf(s: string, c: char): (r: Option<nat>)
    ensures r.Some? ==> r.value < |s| && s[r.value] == c
  {
    if s == [] then None
    else if s[0] == c then Some(0)
    else
      match IndexOf(s[1..], c)
      case None => None
      case Some(j) => Some(j + 1)
  }

  /** IndexOf finds the first occurrence, and finds one whenever there is one. */
  lemma {:induction false} IndexOfFirst(s: string, c: char)
    ensures IndexOf(s, c).None? <==> c !in s
    ensures IndexOf(s, c).Some? ==> c !in s[..IndexOf(s, c).value]
  {
    if s != [] && s[0] != c {
      IndexOfFirst(s[1..], c);
      assert s == [s[0]] + s[1..];
      match IndexOf(s[1..], c)
      case None =>
      case Some(j) => assert s[..j + 1] == [s[0]] + s[1..][..j];
    }
  }

  /** An occurrence of `c` with no `c` before it is what IndexOf finds. */
  lemma {:induction false} IndexOfAt(s: string, c: char, i: nat)
    requires i < |s| && s[i] == c && c !in s[..i]
    ensures IndexOf(s, c) == Some(i)
  {
    if i > 0 {
      assert s[..i][0] == s[0];
      assert s[1..][..i - 1] == s[..i][1..];
      IndexOfAt(s[1..], c, i - 1);
    }
  }

  /** The pieces of `s` between occurrences of `sep`, empty pieces included:
      "a,,b" gives ["a", "", "b"] and "" gives [""]. */
  function Pieces(s: string, sep: char): (r: seq<string>)
    ensures |r| >= 1
    ensures forall i :: 0 <= i < |r| ==> sep !in r[i]
    decreases |s|
  {
    IndexOfFirst(s, sep);
    match IndexOf(s, sep)
    case None => [s]
    case Some(i) => [s[..i]] + Pieces(s[i + 1..], sep)
  }

  /** Drops the empty strings at the end of `ps`. */
  function DropTrailingEmpty(ps: seq<string>): (r: seq<string>)
    ensures r <= ps
    ensures r == [] || r[|r| - 1] != ""
    ensures forall i :: |r| <= i < |ps| ==> ps[i] == ""
  {
    if ps != [] && ps[|ps| - 1] == "" then DropTrailingEmpty(ps[..|ps| - 1]) else ps
  }

  /** `s.split(sep)` for a separator that is a single character with no regular
      expression meaning: the pieces between separators with trailing empty
      pieces removed, or `[s]` itself when `sep` does not occur. */
  function Split(s: string, sep: char): (r: seq<string>)
    ensures forall i :: 0 <= i < |r| ==> sep !in r[i]
    ensures sep !in s ==> r == [s]
  {
    if sep !in s then [s] else DropTrailingEmpty(Pieces(s, sep))
  }

  /** `String.join(sep, ps)`: the pieces with `sep` between neighbours. */
  function Join(ps: seq<string>, sep: char): string {
    if ps == [] then ""
    else if |ps| == 1 then ps[0]
    else ps[0] + [sep] + Join(ps[1..], sep)
  }

  lemma {:induction false} PiecesJoin(ps: seq<string>, sep: char)
    requires |ps| >= 1
    requires forall i :: 0 <= i < |ps| ==> sep !in ps[i]
    ensures Pieces(Join(ps, sep), sep) == ps
    ensures |ps| > 1 <==> sep in Join(ps, sep)
  {
    if |ps| == 1 {
      IndexOfFirst(ps[0], sep);
    } else {
      var k := |ps[0]|;
      var rest := Join(ps[1..], sep);
      var s := ps[0] + [sep] + rest;
      assert Join(ps, sep) == s;
      assert forall i :: 0 <= i < |ps[1..]| ==> sep !in ps[1..][i] by {
        assert forall i :: 0 <= i < |ps[1..]| ==> ps[1..][i] == ps[i + 1];
      }
      PiecesJoin(ps[1..], sep);
      assert IndexOf(s, sep) == Some(k) by {
        SeparatorAt(ps[0], sep, rest);
        IndexOfAt(s, sep, k);
      }
      assert s[k + 1..] == rest && s[..k] == ps[0] by {
        SeparatorAt(ps[0], sep, rest);
      }
      assert Pieces(s, sep) == [ps[0]] + Pieces(rest, sep);
      assert ps == [ps[0]] + ps[1..];
    }
  }

  /** The pieces around a separator placed between `a` and `b`. */
  lemma SeparatorAt(a: string, sep: char, b: string)
    ensures var s := a + [sep] + b;
      |s| == |a| + 1 + |b| && s[..|a|] == a && s[|a|] == sep && s[|a| + 1..] == b
  {
  }

  /** Splitting joined pieces gives the pieces back, as long as none holds the
      separator and the last is not empty (it would be dropped). */
  lemma SplitJoin(ps: seq<string>, sep: char)
    requires |ps| >= 1
    requires forall i :: 0 <= i < |ps| ==> sep !in ps[i]
    requires |ps| == 1 || ps[|ps| - 1] != ""
    ensures Split(Join(ps, sep), sep) == ps
  {
    PiecesJoin(ps, sep);
  }

  /** The text string concatenation writes for a possibly-null String. */
  function NullText(o: Option<string>): string {
    match o
    case Some(s) => s
    case None => "null"
  }

  /** Whether the line begins with a tab: a member line of a TSRG file. */
  predicate StartsWithTab(line: string) {
    |line| > 0 && line[0] == '\t'
  }

  /** A composite key `owner:member`, split on ':' as the rewrite step does,
      gives back its owner and member when neither holds a ':' and the member
      is not empty (an empty member would be dropped as a trailing empty piece). */
  lemma CompositeKeySplits(owner: string, member: string)
    requires ':' !in owner && ':' !in member && member != ""
    ensures Split(owner + ":" + member, ':') == [owner, member]
  {
    SplitJoin([owner, member], ':');
    assert Join([owner, member], ':') == owner + ":" + member;
  }

  /** `a sep b` splits into a and b. */
  lemma SplitPair(a: string, b: string, sep: char)
    requires sep !in a && sep !in b && b != ""
    ensures Split(a + [sep] + b, sep) == [a, b]
  {
    SplitJoin([a, b], sep);
    assert Join([a, b], sep) == a + [sep] + b;
  }

  /** `a sep b sep c` splits into a, b and c. */
  lemma SplitTriple(a: string, b: string, c: string, sep: char)
    requires sep !in a && sep !in b && sep !in c && c != ""
    ensures Split(a + [sep] + b + [sep] + c, sep) == [a, b, c]
  {
    SplitJoin([a, b, c], sep);
    assert Join([b, c], sep) == b + [sep] + c;
    assert Join([a, b, c], sep) == a + [sep] + b + [sep] + c;
  }
}
