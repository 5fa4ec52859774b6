/** Cyclic rotation of a list and the test for it. */
module Rotation {
  import opened Digraph

  function Rotate(s: seq<Item>, k: nat): seq<Item>
    requires k <= |s|
  {
    s[k..] + s[..k]
  }

  ghost predicate IsRotation(a: seq<Item>, b: seq<Item>) {
    exists k: nat :: k < |a| && b == Rotate(a, k)
  }

  lemma RotateTwice(s: seq<Item>, j: nat, k: nat)
    requires j < |s| && k < |s|
    ensures Rotate(Rotate(s, j), k) == Rotate(s, if j + k < |s| then j + k else j + k - |s|)
  {
  }

  lemma RotationReflexive(a: seq<Item>)
    requires a != []
    ensures IsRotation(a, a)
  {
    assert a == Rotate(a, 0);
  }

  lemma RotationSymmetric(a: seq<Item>, b: seq<Item>)
    requires IsRotation(a, b)
    ensures IsRotation(b, a)
  {
    var k: nat :| k < |a| && b == Rotate(a, k);
    var back := if k == 0 then 0 else |a| - k;
    RotateTwice(a, k, back);
    assert a == Rotate(b, back);
  }

  lemma RotationTransitive(a: seq<Item>, b: seq<Item>, c: seq<Item>)
    requires IsRotation(a, b) && IsRotation(b, c)
    ensures IsRotation(a, c)
  {
    var j: nat :| j < |a| && b == Rotate(a, j);
    var k: nat :| k < |b| && c == Rotate(b, k);
    RotateTwice(a, j, k);
    assert c == Rotate(a, if j + k < |a| then j + k else j + k - |a|);
  }

  /** The test answers, except that two empty lists have no head item to look for. */
  datatype Answer = Value(rotated: bool) | IndexError

  method IsRotated(seq1: seq<Item>, seq2: seq<Item>) returns (r: Answer)
    ensures r.IndexError? <==> seq1 == [] && seq2 == []
    ensures r.Value? ==> (r.rotated <==> IsRotation(seq1, seq2))
  {
    if |seq1| != |seq2| {
      return Value(false);
    }
    if |seq2| == 0 {
      return IndexError;
    }
    var startIndexes: seq<nat> := [];
    var headItem := seq2[0];
    for index1 := 0 to |seq1|
      invariant forall k: nat {:trigger k in startIndexes} :: k in startIndexes <==> k < index1 && seq1[k] == headItem
    {
      if seq1[index1] == headItem {
        startIndexes := startIndexes + [index1];
      }
    }
    var doubleSeq1 := seq1 + seq1;
    for i := 0 to |startIndexes|
      invariant forall j :: 0 <= j < i ==> startIndexes[j] in startIndexes && Rotate(seq1, startIndexes[j]) != seq2
    {
      assert startIndexes[i] in startIndexes;
      assert doubleSeq1[startIndexes[i]..startIndexes[i] + |seq1|] == Rotate(seq1, startIndexes[i]);
      if doubleSeq1[startIndexes[i]..startIndexes[i] + |seq1|] == seq2 {
        return Value(true);
      }
    }
    forall k: nat | k < |seq1|
      ensures Rotate(seq1, k) != seq2
    {
      assert Rotate(seq1, k)[0] == seq1[k];
      assert k in startIndexes <==> seq1[k] == headItem;
    }
    return Value(false);
  }
}
