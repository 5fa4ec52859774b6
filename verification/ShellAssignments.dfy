/**
 * What an assignment in front of a command sets: KEY=value is read exactly when it is written, and the last assignment
 * to a variable decides (simulation/waf-tools/shellcmd.py:23, 133-152).
 */
module ShellAssignments {
  import opened Lists
  import opened ShellParser
  import opened Wrappers

  predicate IsKey(key: string) {
    key != "" && forall i :: 0 <= i < |key| ==> IsKeyChar(key[i])
  }

  predicate IsValue(value: string) {
    value != "" && forall i :: 0 <= i < |value| ==> !IsSpace(value[i])
  }

  /** The token is KEY=value, perhaps with a newline at its end. */
  predicate Writes(token: string, key: string, value: string) {
    IsKey(key) && IsValue(value) && token in {key + "=" + value, key + "=" + value + "\n"}
  }

  /** The key characters in front. */
  lemma {:induction false} KeyLengthIs(token: string)
    ensures var n := KeyLength(token);
            (forall i :: 0 <= i < n ==> IsKeyChar(token[i])) && (n < |token| ==> !IsKeyChar(token[n]))
  {
    if token != "" && IsKeyChar(token[0]) {
      KeyLengthIs(token[1..]);
      assert forall i :: 0 < i < |token| ==> token[i] == token[1..][i - 1];
    }
  }

  lemma AssignmentSplit(token: string, key: string, value: string)
    requires Assignment(token) == Some((key, value))
    ensures Writes(token, key, value)
  {
    var k := KeyLength(token);
    KeyLengthIs(token);
    var rest := token[k + 1..];
    assert value == if rest != "" && rest[|rest| - 1] == '\n' then rest[..|rest| - 1] else rest;
    SplitAt(token, k, value);
  }

  lemma SplitAt(token: string, k: nat, value: string)
    requires k < |token| && token[k] == '='
    requires value == token[k + 1..] || value + "\n" == token[k + 1..]
    ensures token in {token[..k] + "=" + value, token[..k] + "=" + value + "\n"}
  {
    assert token == token[..k] + "=" + token[k + 1..];
    Regroup(token[..k] + "=", value, "\n");
  }

  lemma AssignmentJoined(key: string, value: string, end: string)
    requires IsKey(key) && IsValue(value) && end in {"", "\n"}
    ensures Assignment(key + "=" + value + end) == Some((key, value))
  {
    var token := key + "=" + value + end;
    var k := |key|;
    assert forall i :: 0 <= i < k ==> token[i] == key[i];
    assert token[k] == '=';
    KeyLengthIs(token);
    assert KeyLength(token) == k;
    assert token[..k] == key && token[k + 1..] == value + end;
    assert end != "" ==> (value + end)[..|value + end| - 1] == value;
    assert value + "" == value;
    assert IsSpace('\n') && !IsSpace(value[|value| - 1]);
  }

  /** A token is taken for an assignment of this value to this key exactly if it writes it down. */
  lemma AssignmentReads(token: string, key: string, value: string)
    ensures Assignment(token) == Some((key, value)) <==> Writes(token, key, value)
  {
    if Assignment(token) == Some((key, value)) {
      AssignmentSplit(token, key, value);
    }
    if Writes(token, key, value) {
      AssignmentJoined(key, value, "");
      AssignmentJoined(key, value, "\n");
      assert key + "=" + value + "" == key + "=" + value;
    }
  }

  /** The last of the tokens that sets the key sets it to this value. */
  ghost predicate LastWritten(assigns: seq<string>, i: nat, key: string, value: string) {
    && i < |assigns| && Writes(assigns[i], key, value)
    && forall j, other {:trigger Writes(assigns[j], key, other)} ::
         i < j < |assigns| ==> !Writes(assigns[j], key, other)
  }

  ghost predicate IsSet(assigns: seq<string>, key: string, value: string) {
    exists i: nat :: LastWritten(assigns, i, key, value)
  }

  /** A variable has the value that the last assignment to it writes down; no other is set. */
  lemma {:induction false} EnvIsLastWritten(assigns: seq<string>, key: string, value: string)
    ensures key in EnvOf(assigns) && EnvOf(assigns)[key] == value <==> IsSet(assigns, key, value)
  {
    if assigns != [] {
      var n := |assigns| - 1;
      EnvIsLastWritten(assigns[..n], key, value);
      WrittenBefore(assigns, key, value);
      LastAssigned(assigns, key, value);
    }
  }

  lemma WrittenBefore(assigns: seq<string>, key: string, value: string)
    requires assigns != []
    ensures var n := |assigns| - 1;
            IsSet(assigns, key, value) <==>
              Writes(assigns[n], key, value)
              || (IsSet(assigns[..n], key, value) && forall other :: !Writes(assigns[n], key, other))
  {
    var n := |assigns| - 1;
    if Writes(assigns[n], key, value) {
      assert LastWritten(assigns, n, key, value);
    }
    forall i: nat | i < n
      ensures LastWritten(assigns, i, key, value) <==>
                LastWritten(assigns[..n], i, key, value) && forall other :: !Writes(assigns[n], key, other)
    {
      assert forall j :: 0 <= j < n ==> assigns[..n][j] == assigns[j];
    }
  }

  lemma LastAssigned(assigns: seq<string>, key: string, value: string)
    requires assigns != []
    ensures var n := |assigns| - 1;
            var before := EnvOf(assigns[..n]);
            key in EnvOf(assigns) && EnvOf(assigns)[key] == value <==>
              Writes(assigns[n], key, value)
              || (key in before && before[key] == value && forall other :: !Writes(assigns[n], key, other))
  {
    var n := |assigns| - 1;
    forall other
      ensures Assignment(assigns[n]) == Some((key, other)) <==> Writes(assigns[n], key, other)
    {
      AssignmentReads(assigns[n], key, other);
    }
  }
}
