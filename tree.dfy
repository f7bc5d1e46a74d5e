/**
 * proc_tree: what happens to a complete list when it is flushed. A
 * certificate is listed, a one-pass signature group has every signature
 * checked in list order (after hashing a detached data file when no data
 * was seen), and a leading signature is checked on its own.
 */
module Tree {
  import opened Packets
  import opened Environment
  import opened Kbnode
  import opened Verify
  import opened Listing

  /** The md_enable loop: the algorithm of every signature after index i is
      enabled on md; nothing is written. */
  function EnableFrom(io: Oracles, md: Digest, list: seq<Packet>, i: nat): (r: Digest)
    decreases |list| - i
    ensures r.written == md.written
    ensures r.algos == md.algos + set j | i < j < |list| && list[j].Signature? :: io.digestAlgoFromSig(list[j].sig)
  {
    match FindNext(list, i, SignaturePkt)
    case None => md
    case Some(j) =>
      var r := EnableFrom(io, MdEnable(md, io.digestAlgoFromSig(list[j].sig)), list, j);
      assert (set m | i < m < |list| && list[m].Signature? :: io.digestAlgoFromSig(list[m].sig)) ==
             {io.digestAlgoFromSig(list[j].sig)} +
             (set m | j < m < |list| && list[m].Signature? :: io.digestAlgoFromSig(list[m].sig));
      r
  }

  /** The check_sig_and_print loop over the signatures after index i; it
      stops once the process has ended. */
  function CheckSigsFrom(env: Env, st: State, i: nat): (r: State)
    decreases |st.list| - i
    ensures Framed(st, r)
    ensures st.halt.Some? ==> r == st
  {
    if st.halt.Some? then st
    else
      match FindNext(st.list, i, SignaturePkt)
      case None => st
      case Some(j) => CheckSigsFrom(env, CheckSigAndPrint(env, st, j), j)
  }

  /** ask_for_detached_datafile: the bytes it hashed into md and its code. */
  function HashDetached(env: Env, st: State, md: Digest): (r: (State, Rc))
    ensures r.0.md.Some? && r.0.md.value.algos == md.algos
    ensures r.0.md.value.written == md.written + env.io.detachedDatafile.0
    ensures r.0.(md := st.md) == st
    ensures r.1 == env.io.detachedDatafile.1
  {
    (st.(md := Some(MdWrite(md, env.io.detachedDatafile.0))), env.io.detachedDatafile.1)
  }

  /** proc_tree(c, c->list) for a non-empty list whose first node is the root. */
  function ProcTree(env: Env, st: State): (r: State)
    requires st.list != [] && st.halt.None?
    ensures r.list == st.list && r.dek == st.dek
    ensures r.lastWasPubkeyEnc == st.lastWasPubkeyEnc && r.haveData == st.haveData
    ensures st.trace <= r.trace
    ensures env.opt.listPackets ==> r == st
    ensures st.list[0].Type() in {PublicCertPkt, SecretCertPkt} ==> r.md == st.md
  {
    if env.opt.listPackets then st
    else
      match st.list[0]
      case PublicCert(_, _, _, _) => ListNode(env, st, 0)
      case SecretCert(_, _, _) => ListNode(env, st, 0)
      case OnepassSig(_) => CheckOnepassGroup(env, st)
      case Signature(sig) => CheckLeadingSignature(env, st)
      case _ => Emit(st, Error(InvalidRootPacket))
  }

  /** The ONEPASS_SIG branch: hash the detached file unless data was seen,
      then check every signature after the root. */
  function CheckOnepassGroup(env: Env, st: State): (r: State)
    requires st.list != [] && st.list[0].OnepassSig? && st.halt.None?
    ensures r.list == st.list && r.dek == st.dek
    ensures r.lastWasPubkeyEnc == st.lastWasPubkeyEnc && r.haveData == st.haveData
    ensures st.trace <= r.trace
    ensures st.haveData ==> r.md == st.md
  {
    if !st.haveData then
      var (s, rc) := HashDetached(env, st, EnableFrom(env.io, MdOpen(0), st.list, 0));
      if rc != Ok then Emit(s, Error(CantHashDatafile(rc)))
      else CheckSigsFrom(env, s, 0)
    else CheckSigsFrom(env, st, 0)
  }

  /** The SIGNATURE branch: an old-style signature hashes the detached file
      with its own digest algorithm first; then the root is checked. */
  function CheckLeadingSignature(env: Env, st: State): (r: State)
    requires st.list != [] && st.list[0].Signature? && st.halt.None?
    ensures r.list == st.list && r.dek == st.dek
    ensures r.lastWasPubkeyEnc == st.lastWasPubkeyEnc && r.haveData == st.haveData
    ensures st.trace <= r.trace
  {
    var sig := st.list[0].sig;
    if !st.haveData && IsCertClass(sig.sigClass) then
      var (s, rc) := HashDetached(env, Emit(st, Info(OldStyleSignature)), MdOpen(env.io.digestAlgoFromSig(sig)));
      if rc != Ok then Emit(s, Error(CantHashDatafile(rc)))
      else CheckSigAndPrint(env, s, 0)
    else CheckSigAndPrint(env, st, 0)
  }

  // ---- Status reporting ----

  /** The write_status events of a trace, in order. */
  function Statuses(trace: seq<Event>): (r: seq<StatusCode>)
    ensures |r| <= |trace|
  {
    if trace == [] then []
    else Statuses(trace[..|trace| - 1]) + (if trace[|trace| - 1].Status? then [trace[|trace| - 1].status] else [])
  }

  lemma {:induction false} StatusesAppend(a: seq<Event>, b: seq<Event>)
    ensures Statuses(a + b) == Statuses(a) + Statuses(b)
    decreases |b|
  {
    if b == [] {
      assert a + b == a;
    } else {
      var b' := b[..|b| - 1];
      assert (a + b)[..|a + b| - 1] == a + b';
      StatusesAppend(a, b');
    }
  }

  /** A single event contributes its status code if it is a status, and
      nothing otherwise. */
  lemma StatusesOne(e: Event)
    ensures Statuses([e]) == (if e.Status? then [e.status] else [])
  {
    assert [e][..0] == [];
  }

  /** A code is among the statuses of a trace exactly when the trace holds
      that status event. */
  lemma {:induction false} StatusesMembers(t: seq<Event>, c: StatusCode)
    ensures c in Statuses(t) <==> Status(c) in t
    decreases |t|
  {
    if t != [] {
      var init := t[..|t| - 1];
      assert t == init + [t[|t| - 1]];
      StatusesMembers(init, c);
      assert Status(c) in t <==> Status(c) in init || t[|t| - 1] == Status(c);
    }
  }

  lemma {:induction false} NoStatuses(t: seq<Event>)
    requires forall e :: e in t ==> !e.Status?
    ensures Statuses(t) == []
    decreases |t|
  {
    if t != [] {
      assert t[|t| - 1] in t;
      assert forall e :: e in t[..|t| - 1] ==> e in t;
      NoStatuses(t[..|t| - 1]);
    }
  }

  /** The verdicts of the signatures at indices js, checked against md. */
  function Verdicts(io: Oracles, list: seq<Packet>, md: Option<Digest>, js: seq<nat>): seq<StatusCode>
    requires forall m :: 0 <= m < |js| ==> js[m] < |list| && list[js[m]].Signature?
  {
    if js == [] then []
    else
      (match DoCheckSig(io, list, js[0], md)
       case Checked(rc, _) => [Verdict(rc)]
       case Crash(_) => [])
      + Verdicts(io, list, md, js[1..])
  }

  /** Under a one-pass signature root nothing can crash once a message
      digest exists: data classes copy it, every other class is rejected. */
  lemma OnepassChecksDoNotCrash(io: Oracles, list: seq<Packet>, k: nat, d: Digest)
    requires k < |list| && list[k].Signature? && list[0].OnepassSig?
    ensures DoCheckSig(io, list, k, Some(d)).Checked?
  {
  }

  /** One check_sig_and_print adds exactly one status: the verdict. */
  lemma {:induction false} OneStatusPerCheck(env: Env, st: State, k: nat)
    requires k < |st.list| && st.list[k].Signature? && st.halt.None?
    requires DoCheckSig(env.io, st.list, k, st.md).Checked?
    ensures Statuses(CheckSigAndPrint(env, st, k).trace) ==
            Statuses(st.trace) + [Verdict(DoCheckSig(env.io, st.list, k, st.md).rc)]
  {
    var c := DoCheckSig(env.io, st.list, k, st.md);
    var rep := Report(st.list[k].sig, c.rc);
    NoStatuses(c.log);
    StatusesAppend(st.trace, c.log);
    StatusesAppend(st.trace + c.log, rep);
    ReportStatuses(st.list[k].sig, c.rc);
  }

  /** The report of a check holds one status, the verdict. */
  lemma ReportStatuses(sig: Sig, rc: Rc)
    ensures Statuses(Report(sig, rc)) == [Verdict(rc)]
  {
    var rep := Report(sig, rc);
    assert rep == [rep[0]] + [rep[1]];
    StatusesAppend([rep[0]], [rep[1]]);
    StatusesOne(rep[0]);
    StatusesOne(rep[1]);
  }

  /** Outside batch mode the loop checks every signature after index i, in
      list order, and reports one verdict for each. */
  lemma {:induction false} CheckSigsInOrder(env: Env, st: State, i: nat)
    requires st.list != [] && st.list[0].OnepassSig? && st.md.Some?
    requires st.halt.None? && !env.opt.batch
    ensures CheckSigsFrom(env, st, i).halt.None?
    ensures Statuses(CheckSigsFrom(env, st, i).trace) ==
            Statuses(st.trace) + Verdicts(env.io, st.list, st.md, SigNodesAfter(st.list, i))
    decreases |st.list| - i
  {
    var next := FindNext(st.list, i, SignaturePkt);
    if next.Some? {
      var j := next.value;
      OnepassChecksDoNotCrash(env.io, st.list, j, st.md.value);
      OneStatusPerCheck(env, st, j);
      var s := CheckSigAndPrint(env, st, j);
      CheckSigsStep(env, st, i, j);
      CheckSigsInOrder(env, s, j);
      VerdictsStep(env.io, st.list, st.md, i, j);
    }
  }

  lemma CheckSigsStep(env: Env, st: State, i: nat, j: nat)
    requires st.halt.None? && FindNext(st.list, i, SignaturePkt) == Some(j)
    requires DoCheckSig(env.io, st.list, j, st.md).Checked? && !env.opt.batch
    ensures CheckSigAndPrint(env, st, j).halt.None?
    ensures CheckSigsFrom(env, st, i) == CheckSigsFrom(env, CheckSigAndPrint(env, st, j), j)
  {
  }

  lemma VerdictsStep(io: Oracles, list: seq<Packet>, md: Option<Digest>, i: nat, j: nat)
    requires FindNext(list, i, SignaturePkt) == Some(j) && DoCheckSig(io, list, j, md).Checked?
    ensures Verdicts(io, list, md, SigNodesAfter(list, i)) ==
            [Verdict(DoCheckSig(io, list, j, md).rc)] + Verdicts(io, list, md, SigNodesAfter(list, j))
  {
    var js := SigNodesAfter(list, i);
    assert js == [j] + SigNodesAfter(list, j);
    assert js[1..] == SigNodesAfter(list, j);
  }

  /** A one-pass signature group with no data seen: a fresh digest enables
      the algorithm of every signature node after the root and receives the
      detached file. */
  lemma DetachedDigest(env: Env, st: State)
    requires st.list != [] && st.list[0].OnepassSig? && st.halt.None?
    requires !env.opt.listPackets && !st.haveData
    ensures var r := ProcTree(env, st);
            r.md.Some? &&
            r.md.value.algos == (set j | 0 < j < |st.list| && st.list[j].Signature? :: env.io.digestAlgoFromSig(st.list[j].sig)) &&
            r.md.value.written == env.io.detachedDatafile.0
  {
  }

  /** If the detached file cannot be hashed, nothing is checked: the only
      output is the error. */
  lemma DetachedFailureChecksNothing(env: Env, st: State)
    requires st.list != [] && st.halt.None? && !env.opt.listPackets && !st.haveData
    requires env.io.detachedDatafile.1 != Ok
    ensures st.list[0].OnepassSig? ==>
              ProcTree(env, st).trace == st.trace + [Error(CantHashDatafile(env.io.detachedDatafile.1))]
    ensures st.list[0].Signature? && IsCertClass(st.list[0].sig.sigClass) ==>
              ProcTree(env, st).trace ==
              st.trace + [Info(OldStyleSignature), Error(CantHashDatafile(env.io.detachedDatafile.1))]
    ensures st.list[0].OnepassSig? || (st.list[0].Signature? && IsCertClass(st.list[0].sig.sigClass)) ==>
              ProcTree(env, st).halt.None?
  {
  }

  /** A one-pass signature group is checked signature by signature in list
      order, one status per signature, against the digest of the data seen
      before or of the detached file. */
  lemma OnepassChecksInOrder(env: Env, st: State)
    requires st.list != [] && st.list[0].OnepassSig? && st.halt.None?
    requires !env.opt.listPackets && !env.opt.batch
    requires st.haveData ==> st.md.Some?
    requires !st.haveData ==> env.io.detachedDatafile.1 == Ok
    ensures var r := ProcTree(env, st);
            r.halt.None? && r.md.Some? &&
            Statuses(r.trace) == Statuses(st.trace) + Verdicts(env.io, st.list, r.md, SigNodesAfter(st.list, 0))
  {
    assert ProcTree(env, st) == CheckOnepassGroup(env, st);
    if st.haveData {
      CheckSigsInOrder(env, st, 0);
    } else {
      var (s, rc) := HashDetached(env, st, EnableFrom(env.io, MdOpen(0), st.list, 0));
      CheckSigsInOrder(env, s, 0);
    }
  }

  /** do_check_sig on a leading signature of class 0x10-0x13 never
      succeeds: the root is not a public certificate. */
  lemma CertClassUnderSignatureRoot(io: Oracles, list: seq<Packet>, md: Option<Digest>)
    requires list != [] && list[0].Signature? && IsCertClass(list[0].sig.sigClass)
    ensures DoCheckSig(io, list, 0, md).Checked? && DoCheckSig(io, list, 0, md).rc != Ok
  {
  }

  /** A leading signature that is not old-style (data was seen, or its
      class is outside 0x10-0x13) is checked straight away against the
      current digest, and reports exactly one status, its verdict. */
  lemma LeadingSignatureChecked(env: Env, st: State)
    requires st.list != [] && st.list[0].Signature? && st.halt.None? && !env.opt.listPackets
    requires st.haveData || !IsCertClass(st.list[0].sig.sigClass)
    ensures ProcTree(env, st) == CheckSigAndPrint(env, st, 0)
    ensures DoCheckSig(env.io, st.list, 0, st.md).Checked? ==>
              Statuses(ProcTree(env, st).trace) == Statuses(st.trace) + [Verdict(DoCheckSig(env.io, st.list, 0, st.md).rc)]
  {
    assert ProcTree(env, st) == CheckLeadingSignature(env, st);
    if DoCheckSig(env.io, st.list, 0, st.md).Checked? {
      OneStatusPerCheck(env, st, 0);
    }
  }

  /** The old-style branch never reports a good signature. */
  lemma OldStyleCheckNeverGood(env: Env, st: State)
    requires st.list != [] && st.list[0].Signature? && IsCertClass(st.list[0].sig.sigClass)
    requires st.halt.None? && !st.haveData
    ensures var r := CheckLeadingSignature(env, st);
            GoodSig !in Statuses(r.trace[|st.trace|..])
  {
    if env.io.detachedDatafile.1 == Ok {
      OldStyleHashedNeverGood(env, st);
    } else {
      OldStyleUnhashedNeverGood(env, st);
    }
  }

  /** The detached file was hashed: the one status is do_check_sig's
      rejection of the class. */
  lemma OldStyleHashedNeverGood(env: Env, st: State)
    requires st.list != [] && st.list[0].Signature? && IsCertClass(st.list[0].sig.sigClass)
    requires st.halt.None? && !st.haveData && env.io.detachedDatafile.1 == Ok
    ensures var r := CheckLeadingSignature(env, st);
            GoodSig !in Statuses(r.trace[|st.trace|..])
  {
    var r := CheckLeadingSignature(env, st);
    var info := [Info(OldStyleSignature)];
    var s := HashDetached(env, Emit(st, Info(OldStyleSignature)), MdOpen(env.io.digestAlgoFromSig(st.list[0].sig))).0;
    assert r == CheckSigAndPrint(env, s, 0);
    assert s.trace == st.trace + info;
    CertClassUnderSignatureRoot(env.io, s.list, s.md);
    var c := DoCheckSig(env.io, s.list, 0, s.md);
    var rep := Report(s.list[0].sig, c.rc);
    var added := r.trace[|st.trace|..];
    assert added == info + c.log + rep;
    StatusesAppend(info + c.log, rep);
    StatusesAppend(info, c.log);
    NoStatuses(c.log);
    NoStatusesInfo();
    ReportStatuses(s.list[0].sig, c.rc);
  }

  /** The detached file could not be hashed: no status at all. */
  lemma OldStyleUnhashedNeverGood(env: Env, st: State)
    requires st.list != [] && st.list[0].Signature? && IsCertClass(st.list[0].sig.sigClass)
    requires st.halt.None? && !st.haveData && env.io.detachedDatafile.1 != Ok
    ensures var r := CheckLeadingSignature(env, st);
            GoodSig !in Statuses(r.trace[|st.trace|..])
  {
    var r := CheckLeadingSignature(env, st);
    var added := [Info(OldStyleSignature), Error(CantHashDatafile(env.io.detachedDatafile.1))];
    assert r.trace == st.trace + added;
    assert r.trace[|st.trace|..] == added;
    NoStatuses(added);
  }

  /** An old-style signature (a leading signature of class 0x10-0x13 with no
      data) is never reported good: its root is not a public certificate, so
      do_check_sig rejects the class. */
  lemma OldStyleSignatureNeverGood(env: Env, st: State)
    requires st.list != [] && st.list[0].Signature? && IsCertClass(st.list[0].sig.sigClass)
    requires st.halt.None? && !st.haveData && !env.opt.listPackets
    ensures var r := ProcTree(env, st);
            st.trace <= r.trace && GoodSig !in Statuses(r.trace[|st.trace|..])
  {
    assert ProcTree(env, st) == CheckLeadingSignature(env, st);
    OldStyleCheckNeverGood(env, st);
  }

  lemma NoStatusesInfo()
    ensures Statuses([Info(OldStyleSignature)]) == []
  {
    assert [Info(OldStyleSignature)][..0] == [];
  }
}
