/** The doubly linked LRU ring of kernel/bio.c, as the arrays of next and prev links it is made
    of.  The list head is node `head`; order lists the buffers from most to least recent. */
module LruRing {
  /** The node at position k of the ring, where positions -1 and |order| are both the head. */
  function At(head: nat, order: seq<nat>, k: int): (r: nat)
  {
    if 0 <= k < |order| then order[k] else head
  }

  ghost predicate Fits(head: nat, order: seq<nat>) {
    && (forall i :: 0 <= i < |order| ==> order[i] < head)
    && (forall i, j :: 0 <= i < j < |order| ==> order[i] != order[j])
  }

  ghost predicate Ring(head: nat, nx: seq<nat>, pv: seq<nat>, order: seq<nat>) {
    && |nx| == |pv| == head + 1
    && Fits(head, order)
    && (forall k :: 0 <= k <= |order| ==> nx[At(head, order, k - 1)] == At(head, order, k))
    && (forall k :: 0 <= k <= |order| ==> pv[At(head, order, k)] == At(head, order, k - 1))
  }

  function Without(order: seq<nat>, j: nat): seq<nat>
    requires j < |order|
  {
    order[..j] + order[j + 1..]
  }

  lemma AtWithout(head: nat, order: seq<nat>, j: nat, k: int)
    requires j < |order| && -1 <= k <= |order| - 1
    ensures At(head, Without(order, j), k) == if k < j then At(head, order, k) else At(head, order, k + 1)
  {
  }

  lemma AtPush(head: nat, b: nat, order: seq<nat>, k: int)
    requires 0 <= k <= |order| + 1
    ensures At(head, [b] + order, k) == if k == 0 then b else At(head, order, k - 1)
  {
  }

  /** The two link writes that take position j out of the ring. */
  lemma Unlinked(head: nat, nx: seq<nat>, pv: seq<nat>, order: seq<nat>, j: nat)
    requires Ring(head, nx, pv, order) && j < |order|
    ensures pv[order[j]] == At(head, order, j - 1) && nx[order[j]] == At(head, order, j + 1)
    ensures Ring(head, nx[pv[order[j]] := nx[order[j]]], pv[nx[order[j]] := pv[order[j]]], Without(order, j))
  {
    var b := order[j];
    assert At(head, order, j) == b;
    assert nx[At(head, order, j + 1 - 1)] == At(head, order, j + 1);
    assert pv[At(head, order, j)] == At(head, order, j - 1);
    var nx', pv', o := nx[pv[b] := nx[b]], pv[nx[b] := pv[b]], Without(order, j);
    forall k | 0 <= k <= |o| ensures nx'[At(head, o, k - 1)] == At(head, o, k) {
      AtWithout(head, order, j, k - 1);
      AtWithout(head, order, j, k);
      UnlinkedNext(head, nx, pv, order, j, if k - 1 < j then k else k + 1);
    }
    forall k | 0 <= k <= |o| ensures pv'[At(head, o, k)] == At(head, o, k - 1) {
      AtWithout(head, order, j, k - 1);
      AtWithout(head, order, j, k);
      UnlinkedPrev(head, nx, pv, order, j, if k < j then k else k + 1);
    }
  }

  lemma UnlinkedNext(head: nat, nx: seq<nat>, pv: seq<nat>, order: seq<nat>, j: nat, k: nat)
    requires Ring(head, nx, pv, order) && j < |order| && k <= |order| && k != j + 1
    ensures nx[At(head, order, j - 1) := At(head, order, j + 1)][At(head, order, k - 1)]
         == if k == j then At(head, order, j + 1) else At(head, order, k)
  {
  }

  lemma UnlinkedPrev(head: nat, nx: seq<nat>, pv: seq<nat>, order: seq<nat>, j: nat, k: nat)
    requires Ring(head, nx, pv, order) && j < |order| && k <= |order| && k != j
    ensures pv[At(head, order, j + 1) := At(head, order, j - 1)][At(head, order, k)]
         == if k == j + 1 then At(head, order, j - 1) else At(head, order, k - 1)
  {
  }

  /** The four link writes that put b at the most recent end. */
  lemma Pushed(head: nat, nx: seq<nat>, pv: seq<nat>, order: seq<nat>, b: nat)
    requires Ring(head, nx, pv, order) && b < head && b !in order
    ensures nx[head] == At(head, order, 0)
    ensures Ring(head, nx[b := nx[head]][head := b], pv[b := head][nx[head] := b], [b] + order)
  {
    assert nx[At(head, order, 0 - 1)] == At(head, order, 0);
    var nx', pv', o := nx[b := nx[head]][head := b], pv[b := head][nx[head] := b], [b] + order;
    forall k | 0 <= k <= |o| ensures nx'[At(head, o, k - 1)] == At(head, o, k) {
      AtPush(head, b, order, k);
      if k > 0 {
        AtPush(head, b, order, k - 1);
        PushedNext(head, nx, pv, order, b, k - 1);
      }
    }
    forall k | 0 <= k <= |o| ensures pv'[At(head, o, k)] == At(head, o, k - 1) {
      AtPush(head, b, order, k);
      if k > 0 {
        AtPush(head, b, order, k - 1);
        PushedPrev(head, nx, pv, order, b, k - 1);
      }
    }
  }

  lemma PushedNext(head: nat, nx: seq<nat>, pv: seq<nat>, order: seq<nat>, b: nat, k: nat)
    requires Ring(head, nx, pv, order) && b < head && b !in order && k <= |order|
    ensures nx[b := At(head, order, 0)][head := b][if k == 0 then b else At(head, order, k - 1)] == At(head, order, k)
  {
  }

  lemma PushedPrev(head: nat, nx: seq<nat>, pv: seq<nat>, order: seq<nat>, b: nat, k: nat)
    requires Ring(head, nx, pv, order) && b < head && b !in order && k <= |order|
    ensures pv[b := head][At(head, order, 0) := b][At(head, order, k)] == if k == 0 then b else At(head, order, k - 1)
  {
  }
}
