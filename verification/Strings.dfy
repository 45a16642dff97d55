/**
 The pieces of Go's `strings` package that the sidecar uses, on ASCII strings and one-character
 separators, with the laws the rest of the project needs.
 */
module Strings {

  predicate HasSuffix(s: string, suffix: string) {
    |suffix| <= |s| && s[|s| - |suffix|..] == suffix
  }

  /** `strings.Index`: the first position of `c`, or -1. */
  function Index(s: string, c: char): (i: int)
    ensures -1 <= i < |s|
    ensures i < 0 <==> c !in s
    ensures i >= 0 ==> s[i] == c && c !in s[..i]
  {
    if s == "" then -1
    else if s[0] == c then 0
    else
      var i := Index(s[1..], c);
      if i < 0 then -1 else assert s[..i + 1] == [s[0]] + s[1..][..i]; i + 1
  }

  /** `strings.LastIndex`: the last position of `c`, or -1. */
  function LastIndex(s: string, c: char): (i: int)
    ensures -1 <= i < |s|
    ensures i < 0 <==> c !in s
    ensures i >= 0 ==> s[i] == c && c !in s[i + 1..]
  {
    if s == "" then -1
    else if s[|s| - 1] == c then |s| - 1
    else
      var front := s[..|s| - 1];
      var i := LastIndex(front, c);
      assert s == front + [s[|s| - 1]];
      assert i >= 0 ==> s[i + 1..] == front[i + 1..] + [s[|s| - 1]];
      i
  }

  lemma LastIndexUnique(s: string, c: char, k: nat)
    requires k < |s| && s[k] == c && c !in s[k + 1..]
    ensures LastIndex(s, c) == k
  {
    var i := LastIndex(s, c);
    assert forall j :: i < j < |s| ==> s[j] == s[i + 1..][j - i - 1];
    assert forall j :: k < j < |s| ==> s[j] == s[k + 1..][j - k - 1];
  }

  lemma LastIndexAt(a: string, c: char, b: string)
    requires c !in b
    ensures LastIndex(a + [c] + b, c) == |a|
  {
    var s := a + [c] + b;
    assert s[|a|] == c && s[|a| + 1..] == b;
    LastIndexUnique(s, c, |a|);
  }

  lemma IndexAt(a: string, c: char, b: string)
    requires c !in a
    ensures Index(a + [c] + b, c) == |a|
  {
    var s := a + [c] + b;
    var i := Index(s, c);
    assert s[|a|] == c;
    assert forall k :: 0 <= k < |a| ==> s[k] == a[k];
    assert forall k :: 0 <= k < i ==> s[k] == s[..i][k];
  }

  /** `strings.Count` for a one-character pattern. */
  function Count(s: string, c: char): nat {
    multiset(s)[c]
  }

  /** `strings.Split`. */
  function Split(s: string, sep: char): (parts: seq<string>)
    ensures parts != []
    decreases |s|
  {
    var i := Index(s, sep);
    if i < 0 then [s] else [s[..i]] + Split(s[i + 1..], sep)
  }

  function Join(parts: seq<string>, sep: char): string
    requires parts != []
  {
    if |parts| == 1 then parts[0] else parts[0] + [sep] + Join(parts[1..], sep)
  }

  lemma SplitCons(a: string, sep: char, b: string)
    requires sep !in a
    ensures Split(a + [sep] + b, sep) == [a] + Split(b, sep)
  {
    var s := a + [sep] + b;
    IndexAt(a, sep, b);
    assert s[..|a|] == a && s[|a| + 1..] == b;
  }

  lemma SplitConsAs(s: string, head: string, sep: char, tail: string)
    requires sep !in head && s == head + [sep] + tail
    ensures Split(s, sep) == [head] + Split(tail, sep)
  {
    SplitCons(head, sep, tail);
  }

  /** Splitting undoes joining. */
  lemma {:induction false} SplitJoin(parts: seq<string>, sep: char)
    requires parts != []
    requires forall p :: p in parts ==> sep !in p
    ensures Split(Join(parts, sep), sep) == parts
  {
    if |parts| == 1 {
      assert Join(parts, sep) == parts[0];
    } else {
      var rest := parts[1..];
      assert parts[0] in parts && parts == [parts[0]] + rest;
      SplitJoin(rest, sep);
      SplitConsAs(Join(parts, sep), parts[0], sep, Join(rest, sep));
    }
  }

  lemma SameHead(whole: string, a: string, head: string, sep: char, tail: string, rest: string, more: seq<string>)
    requires sep !in head && whole == head + [sep] + tail && a == head + [sep] + rest
    requires Split(tail, sep) == Split(rest, sep) + more
    ensures Split(whole, sep) == Split(a, sep) + more
  {
    SplitConsAs(whole, head, sep, tail);
    SplitConsAs(a, head, sep, rest);
    ConcatAssociates([head], Split(rest, sep), more);
  }

  lemma ConcatAssociates(a: seq<string>, b: seq<string>, c: seq<string>)
    ensures a + (b + c) == (a + b) + c
  {
  }

  lemma SplitAtFirst(a: string, sep: char) returns (head: string, rest: string)
    requires sep in a
    ensures sep !in head && a == head + [sep] + rest
  {
    var i := Index(a, sep);
    head, rest := a[..i], a[i + 1..];
  }

  /** Splitting turns a separator between two strings into concatenation. */
  lemma {:induction false} SplitConcat(a: string, sep: char, b: string)
    ensures Split(a + [sep] + b, sep) == Split(a, sep) + Split(b, sep)
    decreases |a|
  {
    if sep !in a {
      SplitConsAs(a + [sep] + b, a, sep, b);
    } else {
      var head, rest := SplitAtFirst(a, sep);
      var tail := rest + [sep] + b;
      SplitConcat(rest, sep, b);
      assert a + [sep] + b == head + [sep] + tail;
      SameHead(a + [sep] + b, a, head, sep, tail, rest, Split(b, sep));
    }
  }

  function LowerChar(c: char): char {
    if 'A' <= c <= 'Z' then (c as int + 32) as char else c
  }

  /** `strings.ToLower` on ASCII. */
  function ToLower(s: string): (r: string)
    ensures |r| == |s|
  {
    seq(|s|, i requires 0 <= i < |s| => LowerChar(s[i]))
  }

  lemma ToLowerConcat(a: string, b: string)
    ensures ToLower(a + b) == ToLower(a) + ToLower(b)
  {
  }

  // ----- Letter case -----

  /** `c` is one of the letters A to Z and `d` the same one of a to z. */
  predicate IsCapitalOf(c: char, d: char) {
    'A' <= c <= 'Z' && 'a' <= d <= 'z' && c as int - 'A' as int == d as int - 'a' as int
  }

  predicate SameLetter(c: char, d: char) {
    c == d || IsCapitalOf(c, d) || IsCapitalOf(d, c)
  }

  /** Equal strings up to the case of the letters A to Z. */
  predicate SameUpToCase(s: string, t: string) {
    |s| == |t| && forall i :: 0 <= i < |s| ==> SameLetter(s[i], t[i])
  }

  predicate NoCapitals(s: string) {
    forall c :: 'A' <= c <= 'Z' ==> c !in s
  }

  lemma LowerCharMeaning(c: char, d: char)
    ensures LowerChar(c) == LowerChar(d) <==> SameLetter(c, d)
    ensures SameLetter(c, LowerChar(c)) && !('A' <= LowerChar(c) <= 'Z')
  {
  }

  /** Lowering decides equality up to case. */
  lemma LoweredEqualIff(s: string, t: string)
    ensures ToLower(s) == ToLower(t) <==> SameUpToCase(s, t)
  {
    forall i | 0 <= i < |s| && i < |t|
      ensures ToLower(s)[i] == ToLower(t)[i] <==> SameLetter(s[i], t[i])
    {
      LowerCharMeaning(s[i], t[i]);
    }
    if SameUpToCase(s, t) {
      forall i | 0 <= i < |s| ensures ToLower(s)[i] == ToLower(t)[i] {
        assert SameLetter(s[i], t[i]);
      }
    }
  }

  /** The lower-cased string is the only one without capitals that equals the given one up to case. */
  lemma ToLowerMeaning(s: string, t: string)
    ensures t == ToLower(s) <==> SameUpToCase(s, t) && NoCapitals(t)
  {
    forall i | 0 <= i < |s| ensures SameLetter(s[i], ToLower(s)[i]) && !('A' <= ToLower(s)[i] <= 'Z') {
      LowerCharMeaning(s[i], s[i]);
    }
    if SameUpToCase(s, t) && NoCapitals(t) {
      LoweredEqualIff(s, t);
      LoweredWithoutCapitals(t);
    }
  }

  lemma LoweredWithoutCapitals(t: string)
    requires NoCapitals(t)
    ensures ToLower(t) == t
  {
    forall i | 0 <= i < |t| ensures LowerChar(t[i]) == t[i] {
      assert t[i] in t;
    }
  }

  lemma SameUpToCaseConcat(a: string, b: string, rest: string)
    requires SameUpToCase(a, b)
    ensures SameUpToCase(a + rest, b + rest)
  {
    forall i | 0 <= i < |a + rest| ensures SameLetter((a + rest)[i], (b + rest)[i]) {
      assert i < |a| ==> SameLetter(a[i], b[i]);
    }
  }

  lemma SameUpToCaseFront(a: string, b: string, rest: string)
    requires SameUpToCase(a + rest, b + rest)
    ensures SameUpToCase(a, b)
  {
    forall i | 0 <= i < |a| ensures SameLetter(a[i], b[i]) {
      assert SameLetter((a + rest)[i], (b + rest)[i]);
    }
  }
}
