/** The text under which concurrent requests for one file of one stack are coalesced,
    and exactly which requests share one. */
module StackKey {
  import opened OwnerLookup
  import T = PathText

  const NUL := 0 as char

  /** NewLayerStackKey: the identifiers joined by a bar. */
  function Join(stack: Stack): string {
    if stack == [] then ""
    else if |stack| == 1 then stack[0]
    else stack[0] + "|" + Join(stack[1..])
  }

  function SingleflightKey(stack: Stack, relPath: string): string {
    Join(stack) + [NUL] + relPath
  }

  /** No identifier holds the separator. */
  predicate Without(sep: char, stack: Stack) {
    forall i :: 0 <= i < |stack| ==> sep !in stack[i]
  }

  /** Layer identifiers are digests: an algorithm, a colon and hexadecimal digits. */
  predicate ProperStack(stack: Stack) {
    stack != [] && Without('|', stack) && Without(NUL, stack)
  }

  /* ---- the join ---- */

  lemma {:induction false} JoinHasNoNul(stack: Stack)
    requires Without(NUL, stack)
    ensures NUL !in Join(stack)
  {
    if |stack| > 1 {
      JoinHasNoNul(stack[1..]);
    }
  }

  lemma JoinHasBar(stack: Stack)
    requires stack != [] && Without('|', stack)
    ensures '|' in Join(stack) <==> |stack| > 1
  {
    if |stack| > 1 {
      assert Join(stack)[|stack[0]|] == '|';
    }
  }

  lemma {:induction false} JoinInjective(s: Stack, t: Stack)
    requires s != [] && t != [] && Without('|', s) && Without('|', t) && Join(s) == Join(t)
    ensures s == t
  {
    JoinHasBar(s);
    JoinHasBar(t);
    if |s| > 1 {
      var s', t' := Join(s[1..]), Join(t[1..]);
      assert (s[0] + "|") + s' == (t[0] + "|") + t';
      T.StartsWith('|', s[0], s', t[0], t');
      T.StartsWith('|', t[0], t', s[0], s');
      JoinInjective(s[1..], t[1..]);
      assert s == [s[0]] + s[1..] && t == [t[0]] + t[1..];
    } else {
      assert s == [s[0]] && t == [t[0]];
    }
  }

  /* ---- identifiers cut at their bars ---- */

  /** The pieces of an identifier between its bars. */
  function Cut(l: Layer): (pieces: Stack)
    ensures pieces != []
  {
    if l == "" then [""]
    else if l[0] == '|' then [""] + Cut(l[1..])
    else
      var rest := Cut(l[1..]);
      [[l[0]] + rest[0]] + rest[1..]
  }

  /** A stack with every identifier cut. */
  function Split(stack: Stack): Stack {
    if stack == [] then [] else Cut(stack[0]) + Split(stack[1..])
  }

  lemma {:induction false} CutJoins(l: Layer)
    ensures Without('|', Cut(l)) && Join(Cut(l)) == l
  {
    if l != "" {
      CutJoins(l[1..]);
      var rest := Cut(l[1..]);
      if l[0] == '|' {
        assert ([""] + rest)[1..] == rest;
        assert "" + "|" + l[1..] == l;
      } else {
        var pieces := [[l[0]] + rest[0]] + rest[1..];
        assert pieces[1..] == rest[1..];
        if |rest| > 1 {
          assert ([l[0]] + rest[0]) + "|" + Join(rest[1..]) == [l[0]] + (rest[0] + "|" + Join(rest[1..]));
        }
      }
    }
  }

  lemma {:induction false} JoinAppend(a: Stack, b: Stack)
    requires a != [] && b != []
    ensures Join(a + b) == Join(a) + "|" + Join(b)
  {
    assert (a + b)[1..] == a[1..] + b;
    if |a| > 1 {
      JoinAppend(a[1..], b);
    } else {
      assert a[1..] + b == b;
    }
  }

  lemma {:induction false} SplitJoins(stack: Stack)
    requires stack != []
    ensures Split(stack) != [] && Without('|', Split(stack)) && Join(Split(stack)) == Join(stack)
  {
    CutJoins(stack[0]);
    if |stack| > 1 {
      SplitJoins(stack[1..]);
      JoinAppend(Cut(stack[0]), Split(stack[1..]));
    } else {
      assert Split(stack) == Cut(stack[0]) + [] == Cut(stack[0]);
    }
  }

  lemma {:induction false} SplitKeeps(stack: Stack)
    requires Without('|', stack)
    ensures Split(stack) == stack
  {
    if stack != [] {
      CutKeeps(stack[0]);
      SplitKeeps(stack[1..]);
    }
  }

  lemma {:induction false} CutKeeps(l: Layer)
    requires '|' !in l
    ensures Cut(l) == [l]
  {
    if l != "" {
      CutKeeps(l[1..]);
      assert [l[0]] + l[1..] == l;
    }
  }

  /** Joins agree exactly on stacks that are the same once cut at the bars. */
  lemma JoinIff(s: Stack, t: Stack)
    requires s != [] && t != []
    ensures Join(s) == Join(t) <==> Split(s) == Split(t)
  {
    SplitJoins(s);
    SplitJoins(t);
    if Join(s) == Join(t) {
      JoinInjective(Split(s), Split(t));
    }
  }

  /* ---- the key ---- */

  /** The separator can be found: from the left in identifiers without it, or from the
      right in paths without it, as all paths of a file system are. */
  predicate Separable(s: Stack, p: string, t: Stack, q: string) {
    (Without(NUL, s) && Without(NUL, t)) || (NUL !in p && NUL !in q)
  }

  lemma EndsWith(a: string, p: string, b: string, q: string)
    requires NUL !in p && NUL !in q && (a + [NUL]) + p == (b + [NUL]) + q
    ensures a == b && p == q
  {
    var x, y := (a + [NUL]) + p, (b + [NUL]) + q;
    assert x[|a|] == NUL && y[|b|] == NUL;
    assert forall i :: |a| < i < |x| ==> x[i] == p[i - |a| - 1];
    assert forall i :: |b| < i < |y| ==> y[i] == q[i - |b| - 1];
    assert |a| == |b|;
    assert a == x[..|a|] && b == y[..|a|] && p == x[|a| + 1..] && q == y[|a| + 1..];
  }

  /** Which requests are coalesced: those for one path whose stacks become the same
      when every identifier is cut at its bars. */
  lemma KeyIff(s: Stack, p: string, t: Stack, q: string)
    requires s != [] && t != [] && Separable(s, p, t, q)
    ensures SingleflightKey(s, p) == SingleflightKey(t, q) <==> Split(s) == Split(t) && p == q
  {
    JoinIff(s, t);
    if SingleflightKey(s, p) == SingleflightKey(t, q) {
      assert (Join(s) + [NUL]) + p == (Join(t) + [NUL]) + q;
      if NUL !in p && NUL !in q {
        EndsWith(Join(s), p, Join(t), q);
      } else {
        JoinHasNoNul(s);
        JoinHasNoNul(t);
        T.StartsWith(NUL, Join(s), p, Join(t), q);
        T.StartsWith(NUL, Join(t), q, Join(s), p);
      }
    }
  }

  /** So digests are never confused: the key determines stack and path. */
  lemma KeyInjective(s: Stack, p: string, t: Stack, q: string)
    requires ProperStack(s) && ProperStack(t)
    ensures SingleflightKey(s, p) == SingleflightKey(t, q) <==> s == t && p == q
  {
    KeyIff(s, p, t, q);
    SplitKeeps(s);
    SplitKeeps(t);
  }

  /** An identifier that holds the separator is confused with two. */
  lemma BarConfusesStacks()
    ensures SingleflightKey(["a|b"], "f") == SingleflightKey(["a", "b"], "f")
  {
    assert Join(["b"]) == "b";
    assert ["a", "b"][1..] == ["b"];
    assert Join(["a", "b"]) == "a" + "|" + "b";
  }

  /** With the other separator in an identifier and in a path, the two parts run into
      each other. */
  lemma NulConfusesParts()
    ensures SingleflightKey([['a', NUL, 'b']], "c") == SingleflightKey(["a"], ['b', NUL, 'c'])
  {
    assert ['a', NUL, 'b'] + [NUL] + "c" == "a" + [NUL] + ['b', NUL, 'c'];
  }
}
