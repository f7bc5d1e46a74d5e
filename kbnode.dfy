/**
 * The packet list (`KBNODE`) as a sequence: the root is element 0 and the
 * node after index i is index i + 1. add_kbnode, find_next_kbnode and
 * find_prev_kbnode (in kbnode.c, not part of this model) become index scans.
 */
module Kbnode {
  import opened Packets

  /** add_kbnode(root, node): walks to the last node of a non-NULL root and
      links the new node after it. */
  function AddKbnode(list: seq<Packet>, p: Packet): (r: seq<Packet>)
    requires list != []
    ensures |r| == |list| + 1 && r[..|list|] == list && r[|list|] == p
  {
    list + [p]
  }

  /** find_next_kbnode(node, t): the first node after index i of type t. */
  function FindNext(list: seq<Packet>, i: nat, t: PacketType): (r: Option<nat>)
    decreases |list| - i
    ensures r.Some? ==> i < r.value < |list| && list[r.value].Type() == t
    ensures r.Some? ==> forall j :: i < j < r.value ==> list[j].Type() != t
    ensures r.None? ==> forall j :: i < j < |list| ==> list[j].Type() != t
  {
    if i + 1 >= |list| then None
    else if list[i + 1].Type() == t then Some(i + 1)
    else FindNext(list, i + 1, t)
  }

  /** find_prev_kbnode(root, node, t): the last node of type t strictly
      before index k. */
  function FindPrev(list: seq<Packet>, k: nat, t: PacketType): (r: Option<nat>)
    requires k <= |list|
    ensures r.Some? ==> r.value < k && list[r.value].Type() == t
    ensures r.Some? ==> forall j :: r.value < j < k ==> list[j].Type() != t
    ensures r.None? ==> forall j :: 0 <= j < k ==> list[j].Type() != t
  {
    if k == 0 then None
    else if list[k - 1].Type() == t then Some(k - 1)
    else FindPrev(list, k - 1, t)
  }

  /** The indices `for (n = node; (n = find_next_kbnode(n, SIGNATURE)); )`
      visits, starting after index i. */
  function SigNodesAfter(list: seq<Packet>, i: nat): (r: seq<nat>)
    decreases |list| - i
    ensures forall m :: 0 <= m < |r| ==> i < r[m] < |list| && list[r[m]].Signature?
    ensures forall m, m' :: 0 <= m < m' < |r| ==> r[m] < r[m']
    ensures forall j :: i < j < |list| && list[j].Signature? ==> j in r
  {
    match FindNext(list, i, SignaturePkt)
    case None => []
    case Some(j) => [j] + SigNodesAfter(list, j)
  }
}
