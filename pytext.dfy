/**
  The pieces of Python's text handling the three tools rely on:
  `str.isspace`, `str.strip`, `str.startswith`, `str.lower` on ASCII letters,
  `readlines` (split after every '\n', keeping it) and `writelines` (concatenation).
*/
module PyText {

  /** `c.isspace()` in Python: the characters of bidirectional class WS, B or S
      and of category Zs. */
  predicate IsSpace(c: char) {
    || c == ' '
    || ('\t' <= c <= '\r')
    || ('\U{1c}' <= c <= '\U{1f}')
    || c == '\U{85}' || c == '\U{a0}' || c == '\U{1680}'
    || ('\U{2000}' <= c <= '\U{200a}')
    || c == '\U{2028}' || c == '\U{2029}' || c == '\U{202f}' || c == '\U{205f}'
    || c == '\U{3000}'
  }

  /** The first index at or after `i` that does not hold whitespace, or |s|. */
  function SkipSpaces(s: string, i: nat): (j: nat)
    requires i <= |s|
    ensures i <= j <= |s|
    decreases |s| - i
  {
    if i < |s| && IsSpace(s[i]) then SkipSpaces(s, i + 1) else i
  }

  /** The index just after the last non-whitespace character in s[lo..j], or lo. */
  function SkipSpacesBack(s: string, lo: nat, j: nat): (k: nat)
    requires lo <= j <= |s|
    ensures lo <= k <= j
    decreases j
  {
    if lo < j && IsSpace(s[j - 1]) then SkipSpacesBack(s, lo, j - 1) else j
  }

  /** `s.strip()`: `s` without its leading and trailing whitespace. */
  function Strip(s: string): (r: string)
    ensures |r| <= |s|
  {
    var lo := SkipSpaces(s, 0);
    s[lo..SkipSpacesBack(s, lo, |s|)]
  }

  lemma {:induction false} SkipSpacesSpec(s: string, i: nat)
    requires i <= |s|
    ensures forall k :: i <= k < SkipSpaces(s, i) ==> IsSpace(s[k])
    ensures SkipSpaces(s, i) < |s| ==> !IsSpace(s[SkipSpaces(s, i)])
    decreases |s| - i
  {
    if i < |s| && IsSpace(s[i]) {
      SkipSpacesSpec(s, i + 1);
    }
  }

  lemma {:induction false} SkipSpacesBackSpec(s: string, lo: nat, j: nat)
    requires lo <= j <= |s|
    ensures forall k :: SkipSpacesBack(s, lo, j) <= k < j ==> IsSpace(s[k])
    ensures lo < SkipSpacesBack(s, lo, j) ==> !IsSpace(s[SkipSpacesBack(s, lo, j) - 1])
    decreases j
  {
    if lo < j && IsSpace(s[j - 1]) {
      SkipSpacesBackSpec(s, lo, j - 1);
    }
  }

  /** What `strip` returns: the middle of `s` between a run of leading and a run
      of trailing whitespace, starting and ending with a non-whitespace
      character; empty exactly when `s` is all whitespace. */
  lemma StripShape(s: string)
    ensures var r := Strip(s);
      && (var i := SkipSpaces(s, 0);
            && i + |r| <= |s| && r == s[i..i + |r|]
            && (forall k :: 0 <= k < i ==> IsSpace(s[k]))
            && (forall k :: i + |r| <= k < |s| ==> IsSpace(s[k])))
      && (r != [] ==> !IsSpace(r[0]) && !IsSpace(r[|r| - 1]))
      && (r == [] <==> forall k :: 0 <= k < |s| ==> IsSpace(s[k]))
  {
    var lo := SkipSpaces(s, 0);
    var hi := SkipSpacesBack(s, lo, |s|);
    SkipSpacesSpec(s, 0);
    SkipSpacesBackSpec(s, lo, |s|);
    var r := Strip(s);
    assert r == s[lo..hi] && lo + |r| == hi;
    StripEnds(s);
  }

  /** Stripped text that is not empty starts and ends with a non-space. */
  lemma StripEnds(s: string)
    ensures var r := Strip(s); r != [] ==> !IsSpace(r[0]) && !IsSpace(r[|r| - 1])
  {
    var lo := SkipSpaces(s, 0);
    var hi := SkipSpacesBack(s, lo, |s|);
    SkipSpacesSpec(s, 0);
    SkipSpacesBackSpec(s, lo, |s|);
    var r := Strip(s);
    if r != [] {
      assert r[0] == s[lo] && r[|r| - 1] == s[hi - 1];
    }
  }

  predicate StartsWith(s: string, prefix: string) {
    |prefix| <= |s| && s[..|prefix|] == prefix
  }

  predicate EndsWith(s: string, suffix: string) {
    |suffix| <= |s| && s[|s| - |suffix|..] == suffix
  }

  /** `str.lower()` restricted to ASCII letters; other characters are kept. */
  function LowerChar(c: char): char {
    if 'A' <= c <= 'Z' then (c as int - 'A' as int + 'a' as int) as char else c
  }

  function Lower(s: string): (r: string)
    ensures |r| == |s|
    ensures forall k :: 0 <= k < |s| ==> r[k] == LowerChar(s[k])
  {
    if s == [] then [] else [LowerChar(s[0])] + Lower(s[1..])
  }

  // ---------------------------------------------------------------------------
  // readlines / writelines

  /** A line as `readlines` produces it: non-empty, and a '\n' only at its end. */
  predicate LineShaped(l: string) {
    l != [] && forall k :: 0 <= k < |l| - 1 ==> l[k] != '\n'
  }

  predicate Terminated(l: string) {
    l != [] && l[|l| - 1] == '\n'
  }

  /** The shape of every result of `readlines`: every line is line-shaped and
      every line except possibly the last ends with '\n'. */
  predicate WellFormedLines(ls: seq<string>) {
    && (forall i :: 0 <= i < |ls| ==> LineShaped(ls[i]))
    && (forall i :: 0 <= i < |ls| - 1 ==> Terminated(ls[i]))
  }

  /** `writelines`: the text made of the lines one after another. */
  function Join(ls: seq<string>): string
  {
    if ls == [] then [] else ls[0] + Join(ls[1..])
  }

  /** The text of lines is the text of a prefix followed by that of the rest. */
  lemma JoinSplit(ls: seq<string>, k: nat)
    requires k <= |ls|
    ensures Join(ls[..k]) + Join(ls[k..]) == Join(ls)
  {
    JoinConcat(ls[..k], ls[k..]);
    assert ls[..k] + ls[k..] == ls;
  }

  /** `readlines` on a file whose decoded text is `t`. */
  function SplitLines(t: string): (ls: seq<string>)
    ensures Join(ls) == t
    ensures WellFormedLines(ls)
    ensures t == [] <==> ls == []
    decreases |t|
  {
    if t == [] then []
    else
      var rest := SplitLines(t[1..]);
      if t[0] == '\n' then
        assert (["\n"] + rest)[1..] == rest;
        ["\n"] + rest
      else if rest == [] then
        [[t[0]]]
      else
        var ls := [[t[0]] + rest[0]] + rest[1..];
        assert ls[1..] == rest[1..];
        assert Join(rest) == rest[0] + Join(rest[1..]);
        assert ([t[0]] + rest[0]) + Join(rest[1..]) == [t[0]] + Join(rest);
        ls
  }

  lemma {:induction false} JoinConcat(a: seq<string>, b: seq<string>)
    ensures Join(a + b) == Join(a) + Join(b)
    decreases |a|
  {
    if a == [] {
      assert a + b == b;
    } else {
      assert (a + b)[1..] == a[1..] + b;
      JoinConcat(a[1..], b);
    }
  }

  /** Reading back text that starts with one line `l` gives `l` and then the
      lines of the rest. */
  lemma {:induction false} SplitLinesCons(l: string, u: string)
    requires LineShaped(l)
    requires u != [] ==> Terminated(l)
    ensures SplitLines(l + u) == [l] + SplitLines(u)
    decreases |l|
  {
    var t := l + u;
    if l[0] == '\n' {
      assert |l| == 1;
      assert t[1..] == u;
    } else {
      var l' := l[1..];
      assert t[1..] == l' + u;
      if l' == [] {
        assert t[1..] == u;
        assert u == [];
        assert t == [l[0]];
      } else {
        SplitLinesCons(l', u);
        assert [l[0]] + l' == l;
      }
    }
  }

  /** `readlines` after `writelines` gives the lines back, provided they have
      the shape `readlines` produces. */
  lemma {:induction false} SplitJoin(ls: seq<string>)
    requires WellFormedLines(ls)
    ensures SplitLines(Join(ls)) == ls
    decreases |ls|
  {
    if ls != [] {
      assert WellFormedLines(ls[1..]);
      SplitJoin(ls[1..]);
      assert Join(ls[1..]) != [] ==> ls[1..] != [];
      SplitLinesCons(ls[0], Join(ls[1..]));
      assert [ls[0]] + ls[1..] == ls;
    }
  }

  /** Every contiguous run of well-formed lines is well-formed. */
  lemma SliceWellFormed(ls: seq<string>, a: nat, b: nat)
    requires WellFormedLines(ls) && a <= b <= |ls|
    ensures WellFormedLines(ls[a..b])
  {
  }

  /** Removing a contiguous run of lines keeps the rest well-formed. */
  lemma CutWellFormed(ls: seq<string>, a: nat, b: nat)
    requires WellFormedLines(ls) && a <= b <= |ls|
    ensures WellFormedLines(ls[..a] + ls[b..])
  {
    var r := ls[..a] + ls[b..];
    forall i | 0 <= i < |r| - 1
      ensures Terminated(r[i])
    {
      if i < a {
        assert r[i] == ls[i];
      } else {
        assert r[i] == ls[i - a + b];
      }
    }
    forall i | 0 <= i < |r|
      ensures LineShaped(r[i])
    {
      if i < a {
        assert r[i] == ls[i];
      } else {
        assert r[i] == ls[i - a + b];
      }
    }
  }

  /** Two runs of lines, the first closed by a newline, make one run. */
  lemma ConcatWellFormed(a: seq<string>, b: seq<string>)
    requires WellFormedLines(a) && WellFormedLines(b)
    requires a != [] ==> Terminated(a[|a| - 1])
    ensures WellFormedLines(a + b)
  {
    var r := a + b;
    forall i | 0 <= i < |r| - 1
      ensures Terminated(r[i])
    {
      if i < |a| {
        assert r[i] == a[i];
      } else {
        assert r[i] == b[i - |a|];
      }
    }
  }

  /** The text of non-empty lines ends with the last line. */
  lemma JoinLast(ls: seq<string>)
    requires ls != []
    ensures Join(ls) == Join(ls[..|ls| - 1]) + ls[|ls| - 1]
  {
    var init, last := ls[..|ls| - 1], ls[|ls| - 1];
    assert init + [last] == ls;
    JoinConcat(init, [last]);
    assert [last][1..] == [];
    assert Join([last]) == last;
  }
}
