// Splitting, joining and ordering of strings, as the programs use them.
module Strings {

  /** The index of the first c, or |s| when there is none. */
  function IndexOf(s: string, c: char): (i: nat)
    ensures i <= |s|
    ensures c !in s[..i]
    ensures i < |s| ==> s[i] == c
  {
    if s == "" || s[0] == c then 0
    else
      var i := 1 + IndexOf(s[1..], c);
      assert s[..i] == [s[0]] + s[1..][..i - 1];
      i
  }

  lemma {:induction false} IndexOfFirst(p: string, c: char, q: string)
    requires c !in p
    ensures IndexOf(p + [c] + q, c) == |p|
    ensures (p + [c] + q)[..|p|] == p && (p + [c] + q)[|p| + 1..] == q
  {
    if p == "" {
    } else {
      IndexOfFirst(p[1..], c, q);
      assert (p + [c] + q)[1..] == p[1..] + [c] + q;
    }
  }

  lemma IndexOfAbsent(s: string, c: char)
    ensures c !in s <==> IndexOf(s, c) == |s|
  {
    assert s[..|s|] == s;
  }

  function Split(s: string, sep: char): (parts: seq<string>)
    ensures parts != []
    decreases |s|
  {
    var i := IndexOf(s, sep);
    if i == |s| then [s] else [s[..i]] + Split(s[i + 1..], sep)
  }

  function Join(parts: seq<string>, sep: char): string {
    if parts == [] then ""
    else if |parts| == 1 then parts[0]
    else parts[0] + [sep] + Join(parts[1..], sep)
  }

  /** Splitting takes a joined string apart again. */
  lemma {:induction false} SplitJoin(parts: seq<string>, sep: char)
    requires parts != [] && forall i :: 0 <= i < |parts| ==> sep !in parts[i]
    ensures Split(Join(parts, sep), sep) == parts
    decreases |parts|
  {
    if |parts| == 1 {
      IndexOfAbsent(parts[0], sep);
    } else {
      IndexOfFirst(parts[0], sep, Join(parts[1..], sep));
      SplitJoin(parts[1..], sep);
      assert parts == [parts[0]] + parts[1..];
    }
  }

  /** Joining is injective on lists of separator-free parts. */
  lemma JoinInjective(a: seq<string>, b: seq<string>, sep: char)
    requires a != [] && forall i :: 0 <= i < |a| ==> sep !in a[i]
    requires b != [] && forall i :: 0 <= i < |b| ==> sep !in b[i]
    requires Join(a, sep) == Join(b, sep)
    ensures a == b
  {
    SplitJoin(a, sep);
    SplitJoin(b, sep);
  }

  lemma {:induction false} JoinConcat(a: seq<string>, b: seq<string>, sep: char)
    requires a != [] && b != []
    ensures Join(a + b, sep) == Join(a, sep) + [sep] + Join(b, sep)
    decreases |a|
  {
    assert (a + b)[0] == a[0] && (a + b)[1..] == a[1..] + b;
    if |a| == 1 {
      assert a[1..] + b == b;
    } else {
      JoinConcat(a[1..], b, sep);
      assert a[0] + [sep] + (Join(a[1..], sep) + [sep] + Join(b, sep))
          == (a[0] + [sep] + Join(a[1..], sep)) + [sep] + Join(b, sep);
    }
  }

  lemma {:induction false} JoinSplit(s: string, sep: char)
    ensures Join(Split(s, sep), sep) == s
    ensures forall i :: 0 <= i < |Split(s, sep)| ==> sep !in Split(s, sep)[i]
    decreases |s|
  {
    var i := IndexOf(s, sep);
    if i == |s| {
      IndexOfAbsent(s, sep);
    } else {
      JoinSplit(s[i + 1..], sep);
      var rest := Split(s[i + 1..], sep);
      assert ([s[..i]] + rest)[1..] == rest;
      assert s == s[..i] + [sep] + s[i + 1..];
    }
  }

  /** A joined string, with a separator after it, starts another exactly when its parts do. */
  lemma JoinedPrefix(a: seq<string>, b: seq<string>, sep: char)
    requires a != [] && forall i :: 0 <= i < |a| ==> sep !in a[i]
    requires b != [] && forall i :: 0 <= i < |b| ==> sep !in b[i]
    ensures Join(a, sep) + [sep] <= Join(b, sep) <==> a < b
  {
    var start, whole := Join(a, sep) + [sep], Join(b, sep);
    if start <= whole {
      var rest := whole[|start|..];
      JoinSplit(rest, sep);
      JoinConcat(a, Split(rest, sep), sep);
      assert whole == Join(a + Split(rest, sep), sep);
      JoinInjective(a + Split(rest, sep), b, sep);
    }
    if a < b {
      var rest := b[|a|..];
      assert b == a + rest;
      JoinConcat(a, rest, sep);
    }
  }

  // ---- The lexicographic order of key comparison ----

  predicate Less(a: string, b: string) {
    b != "" && (a == "" || a[0] < b[0] || (a[0] == b[0] && Less(a[1..], b[1..])))
  }

  lemma {:induction false} LessIrreflexive(a: string)
    ensures !Less(a, a)
  {
    if a == "" {
    } else {
      LessIrreflexive(a[1..]);
    }
  }

  lemma {:induction false} LessTransitive(a: string, b: string, c: string)
    requires Less(a, b) && Less(b, c)
    ensures Less(a, c)
  {
    if a != "" && a[0] == b[0] && b[0] == c[0] {
      LessTransitive(a[1..], b[1..], c[1..]);
    }
  }

  lemma {:induction false} LessTotal(a: string, b: string)
    ensures a == b || Less(a, b) || Less(b, a)
  {
    if a != "" && b != "" && a[0] == b[0] {
      LessTotal(a[1..], b[1..]);
      assert a == [a[0]] + a[1..] && b == [b[0]] + b[1..];
    }
  }
}
