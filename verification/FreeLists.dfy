/** Intrusive singly linked lists: the next pointer of a node is stored at its own address, 0 ends a list. */
module FreeLists {

  ghost predicate NoDup(s: seq<nat>)
  {
    forall i, j :: 0 <= i < j < |s| ==> s[i] != s[j]
  }

  ghost function NextOf(s: seq<nat>, i: nat): nat
  {
    if i < |s| then s[i] else 0
  }

  /** Following `next` from `head` visits exactly the nodes of `s`, each once, then 0. */
  ghost predicate Linked(next: map<nat, nat>, head: nat, s: seq<nat>)
  {
    && NoDup(s)
    && head == NextOf(s, 0)
    && (forall i :: 0 <= i < |s| ==> s[i] != 0 && s[i] in next)
    && (forall i {:trigger next[s[i]]} :: 0 <= i < |s| ==> next[s[i]] == NextOf(s, i + 1))
  }

  lemma LinkedFrame(next: map<nat, nat>, now: map<nat, nat>, head: nat, s: seq<nat>)
    requires Linked(next, head, s)
    requires forall a :: a in s ==> a in now && a in next && now[a] == next[a]
    ensures Linked(now, head, s)
  {
  }

  lemma Push(next: map<nat, nat>, head: nat, s: seq<nat>, a: nat)
    requires Linked(next, head, s) && a != 0 && a !in s
    ensures Linked(next[a := head], a, [a] + s)
  {
  }

  lemma Pop(next: map<nat, nat>, head: nat, s: seq<nat>)
    requires Linked(next, head, s) && s != []
    ensures Linked(next, next[head], s[1..])
  {
  }

  ghost function Without(s: seq<nat>, i: nat): seq<nat>
    requires i < |s|
  {
    s[..i] + s[i + 1..]
  }

  /** Redirecting the predecessor of node `i` past it unlinks the node. */
  lemma Unlink(next: map<nat, nat>, head: nat, s: seq<nat>, i: nat)
    requires Linked(next, head, s) && 0 < i < |s|
    ensures Linked(next[s[i - 1] := next[s[i]]], head, Without(s, i))
  {
    var now := next[s[i - 1] := next[s[i]]];
    var t := Without(s, i);
    forall k | 0 <= k < |t| ensures t[k] != 0 && t[k] in now && now[t[k]] == NextOf(t, k + 1)
    {
      if k < i {
        assert t[k] == s[k];
      } else {
        assert t[k] == s[k + 1];
      }
    }
  }

  lemma InWithout(s: seq<nat>, i: nat, a: nat)
    requires NoDup(s) && i < |s|
    ensures a in Without(s, i) <==> a in s && a != s[i]
    ensures NoDup(Without(s, i))
  {
    if a in s && a != s[i] {
      var k :| 0 <= k < |s| && s[k] == a;
      assert Without(s, i)[if k < i then k else k - 1] == a;
    }
  }

  /** Node `i` is replaced by a new node `a` in the same place. */
  lemma Substitute(next: map<nat, nat>, head: nat, s: seq<nat>, i: nat, a: nat)
    requires Linked(next, head, s) && i < |s| && a != 0 && a !in s
    ensures i > 0 ==> s[i - 1] in next
    ensures i == 0 ==> Linked(next[a := next[s[i]]], a, s[i := a])
    ensures i > 0 ==> Linked(next[a := next[s[i]]][s[i - 1] := a], head, s[i := a])
  {
    if i > 0 {
      var now, t := next[a := next[s[i]]][s[i - 1] := a], s[i := a];
      forall k | 0 <= k < |t| ensures t[k] in now && now[t[k]] == NextOf(t, k + 1)
      {
        assert k != i ==> t[k] == s[k] && next[s[k]] == NextOf(s, k + 1);
      }
    }
  }

  lemma InSubstitute(s: seq<nat>, i: nat, a: nat, b: nat)
    requires NoDup(s) && i < |s| && a !in s
    ensures b in s[i := a] <==> b == a || (b in s && b != s[i])
  {
    if b in s && b != s[i] {
      var k :| 0 <= k < |s| && s[k] == b;
      assert s[i := a][k] == b;
    }
    assert s[i := a][i] == a;
  }
}
