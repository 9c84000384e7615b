// The bounded edit-distance recogniser behind the near-miss test, its
// meaning as scripts of single-character edits, and the Levenshtein
// recurrence that connects the two.
module EditDistance {

  // ---- Scripts of single-character edits ----

  datatype Edit = Insert(at: nat, c: char) | Delete(at: nat) | Substitute(at: nat, c: char)

  predicate Fits(e: Edit, s: string) {
    if e.Insert? then e.at <= |s| else e.at < |s|
  }

  function Apply(e: Edit, s: string): string
    requires Fits(e, s)
  {
    match e
    case Insert(i, c) => s[..i] + [c] + s[i..]
    case Delete(i) => s[..i] + s[i + 1..]
    case Substitute(i, c) => s[..i] + [c] + s[i + 1..]
  }

  predicate Turns(a: string, script: seq<Edit>, b: string)
    decreases |script|
  {
    if script == [] then a == b
    else Fits(script[0], a) && Turns(Apply(script[0], a), script[1..], b)
  }

  /** Some script of at most k edits turns a into b. */
  ghost predicate Reachable(a: string, b: string, k: nat) {
    exists script :: |script| <= k && Turns(a, script, b)
  }

  // ---- The code's recursion, which skips equal heads ----

  predicate WithinEdits(a: string, b: string, k: nat)
    decreases |a| + |b|
  {
    if a == b then true
    else if k == 0 then false
    else if a == "" || b == "" then (if |a| < |b| then |b| - |a| else |a| - |b|) <= k
    else if a[0] == b[0] then WithinEdits(a[1..], b[1..], k)
    else
      || WithinEdits(a[1..], b, k - 1)
      || WithinEdits(a, b[1..], k - 1)
      || WithinEdits(a[1..], b[1..], k - 1)
  }

  // ---- The Levenshtein recurrence, which skips nothing ----

  function Min(x: nat, y: nat): nat {
    if x <= y then x else y
  }

  function Distance(a: string, b: string): nat
    decreases |a| + |b|
  {
    if a == "" then |b|
    else if b == "" then |a|
    else
      var change := if a[0] == b[0] then 0 else 1;
      Min(Distance(a[1..], b[1..]) + change,
          1 + Min(Distance(a[1..], b), Distance(a, b[1..])))
  }

  lemma {:induction false} DistanceSymmetric(a: string, b: string)
    ensures Distance(a, b) == Distance(b, a)
    decreases |a| + |b|
  {
    if a != "" && b != "" {
      DistanceSymmetric(a[1..], b[1..]);
      DistanceSymmetric(a[1..], b);
      DistanceSymmetric(a, b[1..]);
    }
  }

  lemma {:induction false} DistanceZero(a: string, b: string)
    ensures Distance(a, b) == 0 <==> a == b
    decreases |a|
  {
    if a != "" && b != "" {
      DistanceZero(a[1..], b[1..]);
      assert a == [a[0]] + a[1..] && b == [b[0]] + b[1..];
    }
  }

  /** The edit e with its position moved past a new first character. */
  function Shift(e: Edit): Edit {
    match e
    case Insert(i, c) => Insert(i + 1, c)
    case Delete(i) => Delete(i + 1)
    case Substitute(i, c) => Substitute(i + 1, c)
  }

  function Unshift(e: Edit): (r: Edit)
    requires e.at > 0
    ensures Shift(r) == e
  {
    match e
    case Insert(i, c) => Insert(i - 1, c)
    case Delete(i) => Delete(i - 1)
    case Substitute(i, c) => Substitute(i - 1, c)
  }

  lemma CutPastHead(h: char, t: string, n: nat)
    requires n <= |t|
    ensures ([h] + t)[..n + 1] == [h] + t[..n] && ([h] + t)[n + 1..] == t[n..]
  {
  }

  lemma Reassociate(h: char, p: string, m: string, q: string)
    ensures [h] + p + m + q == [h] + (p + m + q)
  {
    assert [h] + p + m == [h] + (p + m);
    assert [h] + (p + m) + q == [h] + ((p + m) + q);
  }

  lemma ApplyPastHead(e: Edit, h: char, t: string)
    requires Fits(e, t)
    ensures Fits(Shift(e), [h] + t) && Apply(Shift(e), [h] + t) == [h] + Apply(e, t)
  {
    CutPastHead(h, t, e.at);
    match e
    case Insert(i, c) =>
      Reassociate(h, t[..i], [c], t[i..]);
    case Delete(i) =>
      CutPastHead(h, t, i + 1);
      Reassociate(h, t[..i], "", t[i + 1..]);
      assert t[..i] + "" == t[..i] && [h] + t[..i] + "" == [h] + t[..i];
    case Substitute(i, c) =>
      CutPastHead(h, t, i + 1);
      Reassociate(h, t[..i], [c], t[i + 1..]);
  }

  /** One edit of the first string moves the distance by at most one, downwards. */
  lemma {:induction false} OneEditCostsOne(e: Edit, a: string, b: string)
    requires Fits(e, a)
    ensures Distance(a, b) <= Distance(Apply(e, a), b) + 1
    decreases |a| + |b|
  {
    var a' := Apply(e, a);
    if b == "" {
    } else if e.at == 0 {
      EditAtHead(e, a, b);
    } else {
      var e', t := Unshift(e), a[1..];
      assert a == [a[0]] + t;
      ApplyPastHead(e', a[0], t);
      assert a'[1..] == Apply(e', t);
      OneEditCostsOne(e', t, b);
      OneEditCostsOne(e', t, b[1..]);
      OneEditCostsOne(e, a, b[1..]);
    }
  }

  lemma {:induction false} EditAtHead(e: Edit, a: string, b: string)
    requires Fits(e, a) && e.at == 0 && b != ""
    ensures Distance(a, b) <= Distance(Apply(e, a), b) + 1
    decreases |a| + |b|
  {
    var a' := Apply(e, a);
    match e
    case Delete(_) =>
      assert a' == a[1..];
    case Substitute(_, _) =>
      assert a'[1..] == a[1..];
      HeadCostsOne(a, b[1..]);
      if |b| > 1 { EditAtHead(e, a, b[1..]); }
    case Insert(_, c) =>
      assert a' == [c] + a && a'[1..] == a;
      TailCostsOne(a, b);
      if |b| > 1 { EditAtHead(e, a, b[1..]); }
  }

  lemma HeadCostsOne(a: string, b: string)
    requires a != ""
    ensures Distance(a, b) <= Distance(a[1..], b) + 1
  {
  }

  lemma TailCostsOne(a: string, b: string)
    requires b != ""
    ensures Distance(a, b) <= Distance(a, b[1..]) + 1
  {
  }

  /** Skipping an equal head loses nothing. */
  lemma EqualHeadsAreFree(a: string, b: string)
    requires a != "" && b != "" && a[0] == b[0]
    ensures Distance(a, b) == Distance(a[1..], b[1..])
  {
    var s, t := a[1..], b[1..];
    assert Apply(Insert(0, a[0]), s) == a;
    assert Apply(Insert(0, b[0]), t) == b;
    OneEditCostsOne(Insert(0, a[0]), s, t);
    OneEditCostsOne(Insert(0, b[0]), t, s);
    DistanceSymmetric(s, t);
    DistanceSymmetric(s, b);
  }

  lemma {:induction false} WithinEditsIsDistance(a: string, b: string, k: nat)
    ensures WithinEdits(a, b, k) <==> Distance(a, b) <= k
    decreases |a| + |b|
  {
    DistanceZero(a, b);
    if a != b && k > 0 && a != "" && b != "" {
      if a[0] == b[0] {
        EqualHeadsAreFree(a, b);
        WithinEditsIsDistance(a[1..], b[1..], k);
      } else {
        WithinEditsIsDistance(a[1..], b, k - 1);
        WithinEditsIsDistance(a, b[1..], k - 1);
        WithinEditsIsDistance(a[1..], b[1..], k - 1);
      }
    }
  }

  lemma {:induction false} ScriptsCostTheirLength(a: string, script: seq<Edit>, b: string)
    requires Turns(a, script, b)
    ensures Distance(a, b) <= |script|
    decreases |script|
  {
    if script == [] {
      DistanceZero(a, b);
    } else {
      ScriptsCostTheirLength(Apply(script[0], a), script[1..], b);
      OneEditCostsOne(script[0], a, b);
    }
  }

  lemma {:induction false} UnderCommonHead(c: char, a: string, script: seq<Edit>, b: string)
    returns (shifted: seq<Edit>)
    requires Turns(a, script, b)
    ensures |shifted| == |script| && Turns([c] + a, shifted, [c] + b)
    decreases |script|
  {
    if script == [] {
      shifted := [];
    } else {
      var rest := UnderCommonHead(c, Apply(script[0], a), script[1..], b);
      var e := Shift(script[0]);
      ApplyPastHead(script[0], c, a);
      shifted := [e] + rest;
      assert shifted[1..] == rest;
    }
  }

  lemma PrependEdit(e: Edit, a: string, a': string, script: seq<Edit>, b: string)
    requires Fits(e, a) && Apply(e, a) == a' && Turns(a', script, b)
    ensures Turns(a, [e] + script, b)
  {
    assert ([e] + script)[1..] == script;
  }

  lemma DeleteHead(a: string, script: seq<Edit>, b: string)
    requires a != "" && Turns(a[1..], script, b)
    ensures Turns(a, [Delete(0)] + script, b)
  {
    assert Apply(Delete(0), a) == a[1..];
    PrependEdit(Delete(0), a, a[1..], script, b);
  }

  lemma InsertHead(a: string, script: seq<Edit>, b: string) returns (longer: seq<Edit>)
    requires b != "" && Turns(a, script, b[1..])
    ensures |longer| == |script| + 1 && Turns(a, longer, b)
  {
    var under := UnderCommonHead(b[0], a, script, b[1..]);
    assert Apply(Insert(0, b[0]), a) == [b[0]] + a && b == [b[0]] + b[1..];
    PrependEdit(Insert(0, b[0]), a, [b[0]] + a, under, b);
    longer := [Insert(0, b[0])] + under;
  }

  lemma ChangeHead(x: char, s: string, script: seq<Edit>, y: char, t: string) returns (longer: seq<Edit>)
    requires Turns(s, script, t)
    ensures |longer| == |script| + (if x == y then 0 else 1)
    ensures Turns([x] + s, longer, [y] + t)
  {
    longer := UnderCommonHead(y, s, script, t);
    if x != y {
      assert Apply(Substitute(0, y), [x] + s) == [y] + s;
      PrependEdit(Substitute(0, y), [x] + s, [y] + s, longer, [y] + t);
      longer := [Substitute(0, y)] + longer;
    }
  }

  /** A script as short as the distance. */
  lemma {:induction false} ShortestScript(a: string, b: string) returns (script: seq<Edit>)
    ensures |script| == Distance(a, b) && Turns(a, script, b)
    decreases |a| + |b|
  {
    if a == "" && b == "" {
      script := [];
    } else if a == "" || (b != "" && Distance(a, b) == 1 + Distance(a, b[1..])) {
      script := ShortestScript(a, b[1..]);
      script := InsertHead(a, script, b);
    } else if b == "" || Distance(a, b) == 1 + Distance(a[1..], b) {
      script := ShortestScript(a[1..], b);
      DeleteHead(a, script, b);
      script := [Delete(0)] + script;
    } else {
      assert a == [a[0]] + a[1..] && b == [b[0]] + b[1..];
      script := ShortestScript(a[1..], b[1..]);
      script := ChangeHead(a[0], a[1..], script, b[0], b[1..]);
    }
  }

  /**
   * The recogniser decides edit distance: it answers yes exactly when some
   * script of at most k single-character edits turns a into b.
   */
  lemma WithinEditsIsReachable(a: string, b: string, k: nat)
    ensures WithinEdits(a, b, k) <==> Reachable(a, b, k)
  {
    WithinEditsIsDistance(a, b, k);
    if WithinEdits(a, b, k) {
      var script := ShortestScript(a, b);
    }
    if Reachable(a, b, k) {
      var script :| |script| <= k && Turns(a, script, b);
      ScriptsCostTheirLength(a, script, b);
    }
  }

  lemma WithinEditsSymmetric(a: string, b: string, k: nat)
    ensures WithinEdits(a, b, k) == WithinEdits(b, a, k)
  {
    WithinEditsIsDistance(a, b, k);
    WithinEditsIsDistance(b, a, k);
    DistanceSymmetric(a, b);
  }
}
