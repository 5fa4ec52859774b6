/** Repetition in lists, as several modules need it. */
module Lists {

  ghost predicate Distinct<T>(s: seq<T>) {
    forall i, j :: 0 <= i < j < |s| ==> s[i] != s[j]
  }

  /** The same as Distinct, unfolded from the end. */
  ghost predicate NoRepeats<T>(s: seq<T>) {
    s == [] || (s[|s| - 1] !in s[..|s| - 1] && NoRepeats(s[..|s| - 1]))
  }

  lemma {:induction false} NoRepeatsIsDistinct<T>(s: seq<T>)
    ensures NoRepeats(s) <==> Distinct(s)
  {
    if s != [] {
      var n := |s| - 1;
      NoRepeatsIsDistinct(s[..n]);
      assert forall i :: 0 <= i < n ==> s[i] in s[..n];
    }
  }

  lemma NoRepeatsAppend<T>(s: seq<T>, x: T)
    requires NoRepeats(s) && x !in s
    ensures NoRepeats(s + [x])
  {
    assert (s + [x])[..|s|] == s;
  }

  lemma SomeMember<T>(s: seq<T>)
    ensures s == [] || exists x :: x in s
  {
    if s != [] {
      assert s[0] in s;
    }
  }

  lemma Regroup<T>(a: seq<T>, b: seq<T>, c: seq<T>)
    ensures a + b + c == a + (b + c)
  {
  }

  function Count<T(==)>(s: seq<T>, x: T): nat {
    if s == [] then 0 else Count(s[..|s| - 1], x) + if s[|s| - 1] == x then 1 else 0
  }

  lemma {:induction false} CountOfPrefix<T>(s: seq<T>, k: nat, x: T)
    requires k <= |s|
    ensures Count(s[..k], x) <= Count(s, x)
    ensures k < |s| && s[k] == x ==> Count(s[..k], x) < Count(s, x)
  {
    if k < |s| {
      var n := |s| - 1;
      CountOfPrefix(s[..n], k, x);
      assert s[..n][..k] == s[..k];
    } else {
      assert s[..k] == s;
    }
  }

  function ItemsOf<T(==)>(s: seq<T>): set<T> {
    set x | x in s
  }

  lemma {:induction false} NoRepeatsLength<T>(s: seq<T>)
    requires NoRepeats(s)
    ensures |ItemsOf(s)| == |s|
  {
    if s != [] {
      var n := |s| - 1;
      NoRepeatsLength(s[..n]);
      assert s == s[..n] + [s[n]];
      assert ItemsOf(s) == ItemsOf(s[..n]) + {s[n]};
    }
  }

  /** What a prefix holds does not change when the list grows. */
  lemma NextPrefix<T>(shorter: seq<T>, s: seq<T>, i: nat)
    requires shorter <= s && i < |shorter|
    ensures ItemsOf(s[..i + 1]) == ItemsOf(shorter[..i]) + {shorter[i]}
  {
    assert s[..i] == shorter[..i];
    assert s[..i + 1] == s[..i] + [shorter[i]];
  }

  /** More entries than available values: some value is repeated. */
  lemma {:induction false} Pigeonhole<T>(p: seq<T>, s: set<T>) returns (i: nat, j: nat)
    requires forall k :: 0 <= k < |p| ==> p[k] in s
    requires |p| > |s|
    ensures i < j < |p| && p[i] == p[j]
  {
    var n := |p| - 1;
    if k :| 0 <= k < n && p[k] == p[n] {
      i, j := k, n;
    } else {
      i, j := Pigeonhole(p[..n], s - {p[n]});
    }
  }

  lemma DistinctBound<T>(p: seq<T>, s: set<T>)
    requires Distinct(p)
    requires forall k :: 0 <= k < |p| ==> p[k] in s
    ensures |p| <= |s|
  {
    if |p| > |s| {
      var i, j := Pigeonhole(p, s);
    }
  }
}
