/**
 * The grouping engine: how each packet type starts, extends, flushes or is
 * refused by the current list. Each add_* returns whether it took
 * ownership of the packet (C's 1 or 0).
 */
module Grouping {
  import opened Packets
  import opened Environment
  import opened Kbnode
  import opened Tree

  /** Everything the list operations leave alone besides list, trace, halt
      and the message digest that proc_tree may reopen. */
  predicate FlagsKept(st: State, r: State) {
    r.dek == st.dek && r.lastWasPubkeyEnc == st.lastWasPubkeyEnc && r.haveData == st.haveData
  }

  /** release_list: processes the open list, if any, and drops it. */
  function ReleaseList(env: Env, st: State): (r: State)
    requires st.halt.None?
    ensures r.list == [] && FlagsKept(st, r) && st.trace <= r.trace
    ensures st.list == [] ==> r == st
  {
    if st.list == [] then st
    else ProcTree(env, st).(list := [])
  }

  /** add_public_cert and add_secret_cert: flush, then start a new list. */
  function AddCert(env: Env, st: State, p: Packet): (r: (State, bool))
    requires st.halt.None?
    ensures r.1 && r.0.list == [p] && FlagsKept(st, r.0)
  {
    (ReleaseList(env, st).(list := [p]), true)
  }

  /** A certificate flushes any open list through proc_tree and leaves the
      list as exactly that one packet. */
  lemma CertificateStartsList(env: Env, st: State, p: Packet)
    requires st.halt.None?
    ensures var (r, owned) := AddCert(env, st, p);
            owned && r.list == [p] && FlagsKept(st, r) &&
            (st.list == [] ==> r == st.(list := [p])) &&
            (st.list != [] ==> r.trace == ProcTree(env, st).trace && r.halt == ProcTree(env, st).halt)
  {
  }

  /** add_user_id: refused with "orphaned user id" when no list is open,
      appended otherwise. */
  function AddUserId(st: State, p: Packet): (r: (State, bool))
    ensures FlagsKept(st, r.0) && r.0.md == st.md && r.0.halt == st.halt
    ensures r.1 <==> st.list != []
    ensures !r.1 ==> r.0.list == [] && r.0.trace == st.trace + [Error(OrphanedUserId)]
    ensures r.1 ==> r.0.list == st.list + [p] && r.0.trace == st.trace
  {
    if st.list == [] then (Emit(st, Error(OrphanedUserId)), false)
    else (st.(list := AddKbnode(st.list, p)), true)
  }

  /** add_signature: a SIGNATURE on an empty list becomes its sole node (a
      signature that precedes its data); any other packet is refused on an
      empty list; otherwise the packet is appended. The BUG() for a list
      node without a packet cannot arise in this model. */
  function AddSignature(st: State, p: Packet): (r: (State, bool))
    ensures FlagsKept(st, r.0) && r.0.md == st.md && r.0.halt == st.halt && r.0.trace == st.trace
    ensures r.1 <==> st.list != [] || p.Signature?
    ensures st.list == [] ==> r.0.list == (if p.Signature? then [p] else [])
    ensures st.list != [] ==> r.0.list == st.list + [p]
  {
    if p.Signature? && st.list == [] then (st.(list := [p]), true)
    else if st.list == [] then (st, false)
    else (st.(list := AddKbnode(st.list, p)), true)
  }

  /** add_onepass_sig as intended: a one-pass signature joins an open list
      whose root is a one-pass signature; any other open list is reported,
      flushed and replaced by a new list holding the packet. */
  function AddOnepassSig(env: Env, st: State, p: Packet): (r: (State, bool))
    requires st.halt.None?
    ensures r.1 && FlagsKept(st, r.0) && r.0.list != [] && r.0.list[|r.0.list| - 1] == p
  {
    if st.list == [] then (st.(list := [p]), true)
    else if !st.list[0].OnepassSig? then
      var released := ReleaseList(env, Emit(st, Error(AnotherPacketInTheWay)));
      (released.(list := [p]), true)
    else (st.(list := AddKbnode(st.list, p)), true)
  }

  /** The list after a one-pass signature is never empty: either it grew by
      the packet at the end of a one-pass group, or the packet is the new
      root. */
  lemma OnepassSigJoinsOrStarts(env: Env, st: State, p: Packet)
    requires st.halt.None?
    ensures var (r, owned) := AddOnepassSig(env, st, p);
            owned && FlagsKept(st, r) &&
            (st.list != [] && st.list[0].OnepassSig? ==> r.list == st.list + [p] && r.trace == st.trace) &&
            (st.list == [] ==> r.list == [p] && r.trace == st.trace) &&
            (st.list != [] && !st.list[0].OnepassSig? ==>
               r.list == [p] && st.trace + [Error(AnotherPacketInTheWay)] <= r.trace)
  {
  }

  /** add_onepass_sig as written: after release_list the list is NULL, and
      add_kbnode(c->list, ...) dereferences it. */
  function AddOnepassSigAsWritten(env: Env, st: State, p: Packet): (r: (State, bool))
    requires st.halt.None?
    ensures r.1
    ensures st.list == [] || st.list[0].OnepassSig? ==> r == AddOnepassSig(env, st, p)
    ensures st.list != [] && !st.list[0].OnepassSig? ==> r.0.list == [] && r.0.halt.Some?
  {
    if st.list == [] then (st.(list := [p]), true)
    else if !st.list[0].OnepassSig? then
      var released := ReleaseList(env, Emit(st, Error(AnotherPacketInTheWay)));
      // add_kbnode would need released.list != []
      if released.halt.Some? then (released, true)
      else (released.(halt := Some(Crashed(NullListDeref))), true)
    else (st.(list := AddKbnode(st.list, p)), true)
  }

  /** A public certificate followed by a one-pass signature: the as-written
      code is left with an empty list where add_kbnode needs a non-empty
      one and crashes, while the intended version starts a new list. */
  lemma OnepassAfterCertificate(env: Env, st: State, cert: Packet, p: Packet)
    requires cert.PublicCert? && st.list == [cert] && st.halt.None?
    ensures ReleaseList(env, Emit(st, Error(AnotherPacketInTheWay))).list == []
    ensures AddOnepassSigAsWritten(env, st, p).0.halt == Some(Crashed(NullListDeref))
    ensures AddOnepassSig(env, st, p).0.list == [p] && AddOnepassSig(env, st, p).0.halt.None?
  {
    var s := Emit(st, Error(AnotherPacketInTheWay));
    LoneCertificate(env, s);
  }

  /** A public certificate without user ids is listed as its header and the
      "no user id" error line. */
  lemma LoneCertificate(env: Env, st: State)
    requires |st.list| == 1 && st.list[0].PublicCert? && st.halt.None?
    ensures var r := ProcTree(env, st);
            r.halt.None? &&
            (!env.opt.listPackets ==>
               r.trace == st.trace + [Out(PubHeader(st.list[0].keyid, st.list[0].pubkeyAlgo)), Out(NoUserIdLine)])
  {
  }
}
