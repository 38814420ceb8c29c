/** The few string operations of Go's strings package that the keys, the redirect
    query and the signed cookie depend on. A char stands for one byte. */
module Strings {

  predicate Bytes(s: string) {
    forall i :: 0 <= i < |s| ==> s[i] as int < 256
  }

  predicate HasPrefix(s: string, prefix: string) {
    prefix <= s
  }

  /** strings.Split(s, sep) for a one-character separator. */
  function Split(s: string, sep: char): (parts: seq<string>)
    ensures |parts| >= 1
  {
    if s == "" then [""]
    else if s[0] == sep then [""] + Split(s[1..], sep)
    else
      var rest := Split(s[1..], sep);
      [[s[0]] + rest[0]] + rest[1..]
  }

  lemma {:induction false} SplitPartsSeparatorFree(s: string, sep: char)
    ensures forall i :: 0 <= i < |Split(s, sep)| ==> sep !in Split(s, sep)[i]
  {
    if s == "" {
    } else {
      SplitPartsSeparatorFree(s[1..], sep);
    }
  }

  lemma {:induction false} SplitSeparatorFree(s: string, sep: char)
    requires sep !in s
    ensures Split(s, sep) == [s]
  {
    if s == "" {
    } else {
      SplitSeparatorFree(s[1..], sep);
      assert [s[0]] + s[1..] == s;
    }
  }

  /** The first separator ends the first part. */
  lemma {:induction false} SplitFirst(head: string, rest: string, sep: char)
    requires sep !in head
    ensures Split(head + [sep] + rest, sep) == [head] + Split(rest, sep)
  {
    var s := head + [sep] + rest;
    if head == "" {
      assert s[1..] == rest;
    } else {
      SplitFirst(head[1..], rest, sep);
      assert s[1..] == head[1..] + [sep] + rest;
      assert [head[0]] + head[1..] == head;
    }
  }

  /** The two halves strings.Cut returns: before and after the first `sep`; the
      whole string and "" when there is none. */
  function Cut(s: string, sep: char): (string, string) {
    if s == "" then ("", "")
    else if s[0] == sep then ("", s[1..])
    else
      var (before, after) := Cut(s[1..], sep);
      ([s[0]] + before, after)
  }

  lemma {:induction false} CutFirst(before: string, after: string, sep: char)
    requires sep !in before
    ensures Cut(before + [sep] + after, sep) == (before, after)
  {
    var s := before + [sep] + after;
    if before == "" {
      assert s[1..] == after;
    } else {
      CutFirst(before[1..], after, sep);
      assert s[1..] == before[1..] + [sep] + after;
      assert [before[0]] + before[1..] == before;
    }
  }

  lemma {:induction false} CutAfterFree(s: string, sep: char, other: char)
    requires other !in s
    ensures other !in Cut(s, sep).0 && other !in Cut(s, sep).1
  {
    if s == "" || s[0] == sep {
    } else {
      CutAfterFree(s[1..], sep, other);
    }
  }

  /** Two separator-free heads followed by the separator can only agree as a whole. */
  lemma {:induction false} HeadsUnique(a: string, r: string, b: string, s: string, sep: char)
    requires sep !in a && sep !in b
    requires a + [sep] + r == b + [sep] + s
    ensures a == b && r == s
  {
    CutFirst(a, r, sep);
    CutFirst(b, s, sep);
  }

  /** Two heads can be completed to one string exactly when one is a prefix of the other. */
  lemma {:induction false} HeadsMeetIff(a: string, b: string)
    ensures (exists x, y :: a + x == b + y) <==> a <= b || b <= a
  {
    if x, y :| a + x == b + y {
      assert forall i :: 0 <= i < |a| ==> (a + x)[i] == a[i];
      assert forall i :: 0 <= i < |b| ==> (b + y)[i] == b[i];
    }
    if a <= b { assert a + b[|a|..] == b + ""; }
    if b <= a { assert a + "" == b + a[|b|..]; }
  }

  lemma {:induction false} HashedPrefix(a: string, b: string)
    ensures a + "#" <= b + "#" <==> a == b || a + "#" <= b
  {
    if a + "#" <= b + "#" && |a| < |b| { assert (b + "#")[..|a| + 1] == b[..|a| + 1]; }
    if a + "#" <= b + "#" && |a| == |b| { assert (b + "#")[..|a|] == b && (a + "#")[..|a|] == a; }
  }
}
