/** The string searches of Go's `strings` package that the address codecs use. */
module Text {

  /** `sub` occurs in `s` at position `i`. */
  ghost predicate At(s: string, sub: string, i: int) {
    0 <= i <= |s| - |sub| && s[i..i + |sub|] == sub
  }

  ghost predicate Contains(s: string, sub: string) {
    exists i :: At(s, sub, i)
  }

  /** strings.Index: the first occurrence of `sub` at or after `from`, or -1. */
  function IndexFrom(s: string, sub: string, from: nat): (r: int)
    requires from <= |s|
    ensures r == -1 || r >= from
    ensures r != -1 ==> At(s, sub, r)
    ensures forall i :: from <= i && (r == -1 || i < r) ==> !At(s, sub, i)
    decreases |s| - from
  {
    if from + |sub| > |s| then -1
    else if s[from..from + |sub|] == sub then from
    else if from == |s| then -1
    else IndexFrom(s, sub, from + 1)
  }

  function Index(s: string, sub: string): (r: int)
    ensures r != -1 ==> At(s, sub, r)
    ensures r == -1 <==> !Contains(s, sub)
    ensures forall i :: i < r ==> !At(s, sub, i)
  {
    IndexFrom(s, sub, 0)
  }

  /** strings.LastIndex: the last occurrence of `sub` at or before `upto`, or -1. */
  function LastIndexUpTo(s: string, sub: string, upto: int): (r: int)
    requires -1 <= upto <= |s|
    ensures -1 <= r <= upto
    ensures r != -1 ==> At(s, sub, r)
    ensures forall i :: r < i <= upto ==> !At(s, sub, i)
    decreases upto
  {
    if upto < 0 then -1
    else if upto + |sub| <= |s| && s[upto..upto + |sub|] == sub then upto
    else LastIndexUpTo(s, sub, upto - 1)
  }

  function LastIndex(s: string, sub: string): (r: int)
    ensures r != -1 ==> At(s, sub, r)
    ensures r == -1 <==> !Contains(s, sub)
    ensures forall i :: r < i ==> !At(s, sub, i)
  {
    LastIndexUpTo(s, sub, |s|)
  }

  predicate HasPrefix(s: string, prefix: string) {
    |prefix| <= |s| && s[..|prefix|] == prefix
  }

  predicate HasSuffix(s: string, suffix: string) {
    |suffix| <= |s| && s[|s| - |suffix|..] == suffix
  }

  /** strings.TrimSuffix. */
  function TrimSuffix(s: string, suffix: string): string {
    if HasSuffix(s, suffix) then s[..|s| - |suffix|] else s
  }

  lemma AtChar(s: string, c: char, i: int)
    ensures At(s, [c], i) <==> 0 <= i < |s| && s[i] == c
  {
    if 0 <= i < |s| {
      assert s[i..i + 1] == [s[i]];
    }
  }

  lemma AtIndex(s: string, sub: string, i: int, k: int)
    requires At(s, sub, i) && 0 <= k < |sub|
    ensures s[i + k] == sub[k]
  {
    assert s[i..i + |sub|][k] == s[i + k];
  }

  lemma AtLeft(a: string, b: string, sub: string, i: int)
    requires i + |sub| <= |a|
    ensures At(a + b, sub, i) <==> At(a, sub, i)
  {
    if 0 <= i {
      assert (a + b)[i..i + |sub|] == a[i..i + |sub|];
    }
  }

  lemma AtRight(a: string, b: string, sub: string, i: int)
    requires i >= |a|
    ensures At(a + b, sub, i) <==> At(b, sub, i - |a|)
  {
    if i + |sub| <= |a + b| {
      assert (a + b)[i..i + |sub|] == b[i - |a|..i - |a| + |sub|];
    }
  }

  /** Splitting `a ++ c ++ b` at the first `c` gives back `a` and `b`. */
  lemma FirstSplit(a: string, c: char, b: string)
    requires c !in a
    ensures Index(a + [c] + b, [c]) == |a|
    ensures (a + [c] + b)[..|a|] == a && (a + [c] + b)[|a| + 1..] == b
  {
    var s := a + [c] + b;
    AtChar(s, c, |a|);
    var r := Index(s, [c]);
    AtChar(s, c, r);
  }

  /** Splitting `a ++ c ++ b` at the last `c` gives back `a` and `b`. */
  lemma LastSplit(a: string, c: char, b: string)
    requires c !in b
    ensures LastIndex(a + [c] + b, [c]) == |a|
    ensures (a + [c] + b)[..|a|] == a && (a + [c] + b)[|a| + 1..] == b
  {
    var s := a + [c] + b;
    AtChar(s, c, |a|);
    var r := LastIndex(s, [c]);
    AtChar(s, c, r);
  }

  /** What strings.Cut at a found first separator says about its two halves. */
  lemma FirstCut(s: string, c: char)
    ensures var r := Index(s, [c]);
            if r == -1 then c !in s
            else 0 <= r < |s| && c !in s[..r] && s == s[..r] + [c] + s[r + 1..]
  {
    var r := Index(s, [c]);
    forall i | 0 <= i < |s| && (r == -1 || i < r)
      ensures s[i] != c
    {
      AtChar(s, c, i);
    }
    if r != -1 {
      AtChar(s, c, r);
    }
  }

  lemma LastCut(s: string, c: char)
    ensures var r := LastIndex(s, [c]);
            if r == -1 then c !in s
            else 0 <= r < |s| && c !in s[r + 1..] && s == s[..r] + [c] + s[r + 1..]
  {
    var r := LastIndex(s, [c]);
    forall i | 0 <= i < |s| && r < i
      ensures s[i] != c
    {
      AtChar(s, c, i);
    }
    if r != -1 {
      AtChar(s, c, r);
    }
  }

  lemma SuffixOfConcat(a: string, suffix: string)
    ensures HasSuffix(a + suffix, suffix) && TrimSuffix(a + suffix, suffix) == a
  {
    assert (a + suffix)[|a|..] == suffix;
    assert (a + suffix)[..|a|] == a;
  }

  function LowerChar(c: char): char {
    if 'A' <= c <= 'Z' then c - 'A' + 'a' else c
  }

  /** strings.ToLower, on ASCII letters. */
  function Lower(s: string): (r: string)
    ensures |r| == |s|
  {
    seq(|s|, i requires 0 <= i < |s| => LowerChar(s[i]))
  }

  function UpperChar(c: char): char {
    if 'a' <= c <= 'z' then c - 'a' + 'A' else c
  }

  /** strings.ToUpper, on ASCII letters. */
  function Upper(s: string): (r: string)
    ensures |r| == |s|
  {
    seq(|s|, i requires 0 <= i < |s| => UpperChar(s[i]))
  }

  /** strings.EqualFold, on ASCII letters. */
  predicate EqualFold(a: string, b: string) { Lower(a) == Lower(b) }

  predicate IsSpace(c: char) { c == ' ' || '\t' <= c <= '\r' }

  function TrimLeft(s: string, cut: char -> bool): string {
    if s != "" && cut(s[0]) then TrimLeft(s[1..], cut) else s
  }

  function TrimRight(s: string, cut: char -> bool): string {
    if s != "" && cut(s[|s| - 1]) then TrimRight(s[..|s| - 1], cut) else s
  }

  function Trim(s: string, cut: char -> bool): string { TrimRight(TrimLeft(s, cut), cut) }

  /** strings.TrimSpace, on ASCII white space. */
  function TrimSpace(s: string): string { Trim(s, IsSpace) }

  lemma {:induction false} TrimmedLeft(gap: string, rest: string, cut: char -> bool)
    requires forall c :: c in gap ==> cut(c)
    ensures TrimLeft(gap + rest, cut) == TrimLeft(rest, cut)
  {
    if gap == "" {
      assert gap + rest == rest;
    } else {
      assert (gap + rest)[1..] == gap[1..] + rest;
      TrimmedLeft(gap[1..], rest, cut);
    }
  }

  lemma {:induction false} TrimmedEnds(s: string, cut: char -> bool)
    ensures var l := TrimLeft(s, cut); l != "" ==> !cut(l[0])
    ensures var r := TrimRight(s, cut); r <= s && (r != "" ==> !cut(r[|r| - 1]))
  {
    if s != "" {
      TrimmedEnds(s[1..], cut);
      TrimmedEnds(s[..|s| - 1], cut);
    }
  }

  lemma {:induction false} TrimmedRight(rest: string, gap: string, cut: char -> bool)
    requires forall c :: c in gap ==> cut(c)
    ensures TrimRight(rest + gap, cut) == TrimRight(rest, cut)
  {
    if gap == "" {
      assert rest + gap == rest;
    } else {
      assert (rest + gap)[..|rest + gap| - 1] == rest + gap[..|gap| - 1];
      TrimmedRight(rest, gap[..|gap| - 1], cut);
    }
  }

  /** The six ASCII characters that count as white space. */
  lemma Spaces()
    ensures forall c :: IsSpace(c) <==> c in " \t\n\r" || c as int == 11 || c as int == 12
  {
  }

  /** White space around a text goes, the text stays. */
  lemma TrimSpaceOf(left: string, s: string, right: string)
    requires forall c :: c in left + right ==> IsSpace(c)
    requires s != "" ==> !IsSpace(s[0]) && !IsSpace(s[|s| - 1])
    ensures TrimSpace(left + s + right) == s
  {
    hide IsSpace;
    assert forall c :: c in left ==> c in left + right;
    assert forall c :: c in right ==> c in left + right;
    assert left + s + right == left + (s + right);
    TrimmedLeft(left, s + right, IsSpace);
    if s == "" {
      assert s + right == right + "";
      TrimmedLeft(right, "", IsSpace);
    } else {
      assert TrimLeft(s + right, IsSpace) == s + right;
      TrimmedRight(s, right, IsSpace);
    }
  }
}
