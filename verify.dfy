/**
 * Signature verification decisions: do_check_sig (digest algorithm, which
 * digest state to use and what to append to it), the status a check result
 * is reported with by check_sig_and_print, and the status character of a
 * listed signature.
 */
module Verify {
  import opened Packets
  import opened Environment
  import opened Kbnode

  /** `(sig_class & ~3) == 0x10`: the certification classes. */
  predicate IsCertClass(c: bv8) {
    c & !3 == 0x10
  }

  lemma CertClassRange(c: bv8)
    ensures IsCertClass(c) <==> 0x10 <= c <= 0x13
  {
  }

  /** The digest algorithm named by a signature: from `d.elg` for ElGamal,
      from `d.rsa` for RSA, none for any other public-key algorithm. */
  function DigestAlgoOf(sig: Sig): (r: Option<int>)
    ensures r.Some? <==> sig.pubkeyAlgo in {PubkeyAlgoElgamal, PubkeyAlgoRsa}
    ensures sig.pubkeyAlgo == PubkeyAlgoElgamal ==> r == Some(sig.elgDigestAlgo)
    ensures sig.pubkeyAlgo == PubkeyAlgoRsa ==> r == Some(sig.rsaDigestAlgo)
  {
    if sig.pubkeyAlgo == PubkeyAlgoElgamal then Some(sig.elgDigestAlgo)
    else if sig.pubkeyAlgo == PubkeyAlgoRsa then Some(sig.rsaDigestAlgo)
    else None
  }

  /** Which digest a signature is checked against. */
  datatype DigestChoice = Use(md: Digest) | Reject(log: seq<Event>) | Fault(fault: Fault)

  /** The class-dependent part of do_check_sig: a copy of the message digest
      for classes 0x00 and 0x01; for 0x10-0x13 a copy of the certificate's
      own digest followed by the nearest preceding user id. */
  function SelectDigest(list: seq<Packet>, k: nat, md: Option<Digest>): (r: DigestChoice)
    requires k < |list| && list[k].Signature?
    ensures r.Use? && list[k].sig.sigClass in {0x00, 0x01} ==> md == Some(r.md)
    ensures r.Use? && list[k].sig.sigClass !in {0x00, 0x01} ==>
              IsCertClass(list[k].sig.sigClass) && list[0].PublicCert? && list[0].keyDigest.Some? &&
              exists u :: 0 < u < k && list[u].UserId? && r.md == MdWrite(list[0].keyDigest.value, list[u].name)
    ensures !(list[k].sig.sigClass in {0x00, 0x01} || IsCertClass(list[k].sig.sigClass)) ==> r == Reject([])
    ensures r.Reject? ==> forall e :: e in r.log ==> e.Error?
  {
    var c := list[k].sig.sigClass;
    if c == 0x00 || c == 0x01 then
      if md.Some? then Use(md.value) else Fault(NullDigestCopy)
    else if IsCertClass(c) then
      if list[0].PublicCert? then
        match FindPrev(list, k, UserIdPkt)
        case Some(u) =>
          if list[0].keyDigest.Some? then Use(MdWrite(list[0].keyDigest.value, list[u].name))
          else Fault(MissingKeyDigest)
        case None => Reject([Error(InvalidParentForClass10)])
      else Reject([Error(InvalidRootForClass10)])
    else Reject([])
  }

  /** The result of do_check_sig: a return code and what it logged, or the
      process ended on a NULL digest or a BUG(). */
  datatype SigCheck = Checked(rc: Rc, log: seq<Event>) | Crash(fault: Fault)

  /** do_check_sig(c, node) for the signature at index k of the current list. */
  function DoCheckSig(io: Oracles, list: seq<Packet>, k: nat, md: Option<Digest>): (r: SigCheck)
    requires k < |list| && list[k].Signature?
    ensures DigestAlgoOf(list[k].sig).None? ==> r == Checked(Fail(PubkeyAlgo), [])
    ensures r.Crash? ==> SelectDigest(list, k, md).Fault?
    ensures r.Checked? && r.rc != Fail(SigClass) && r.rc != Fail(PubkeyAlgo) ==> r.log == []
    ensures r.Checked? ==> forall e :: e in r.log ==> e.Error?
  {
    var sig := list[k].sig;
    match DigestAlgoOf(sig)
    case None => Checked(Fail(PubkeyAlgo), [])
    case Some(algo) =>
      var rc := io.checkDigestAlgo(algo);
      if rc != Ok then Checked(rc, [])
      else
        match SelectDigest(list, k, md)
        case Fault(f) => Crash(f)
        case Reject(log) => Checked(Fail(SigClass), log)
        case Use(d) => Checked(io.signatureCheck(sig, d), [])
  }

  /** The digest and the check are reached only when the algorithm is
      supported and check_digest_algo accepted it: any other path gives the
      same result whatever signature_check would answer. */
  lemma SignatureCheckOnlyOnSuccess(io: Oracles, list: seq<Packet>, k: nat, md: Option<Digest>,
                                    check: (Sig, Digest) -> Rc)
    requires k < |list| && list[k].Signature?
    requires DigestAlgoOf(list[k].sig).None?
             || io.checkDigestAlgo(DigestAlgoOf(list[k].sig).value) != Ok
             || !SelectDigest(list, k, md).Use?
    ensures DoCheckSig(io.(signatureCheck := check), list, k, md) == DoCheckSig(io, list, k, md)
  {
  }

  /** Classes 0x00 and 0x01 are checked against an equal copy of the
      message digest. */
  lemma MessageDigestForDataClasses(io: Oracles, list: seq<Packet>, k: nat, d: Digest)
    requires k < |list| && list[k].Signature? && list[k].sig.sigClass in {0x00, 0x01}
    requires DigestAlgoOf(list[k].sig).Some? && io.checkDigestAlgo(DigestAlgoOf(list[k].sig).value) == Ok
    ensures DoCheckSig(io, list, k, Some(d)) == Checked(io.signatureCheck(list[k].sig, d), [])
    ensures DoCheckSig(io, list, k, None) == Crash(NullDigestCopy)
  {
  }

  /** Classes 0x10-0x13 under a public certificate are checked against the
      key's digest followed by the bytes of the nearest preceding user id;
      anywhere else they fail with G10ERR_SIG_CLASS. */
  lemma CertificationDigest(io: Oracles, list: seq<Packet>, k: nat, md: Option<Digest>)
    requires k < |list| && list[k].Signature? && IsCertClass(list[k].sig.sigClass)
    requires DigestAlgoOf(list[k].sig).Some? && io.checkDigestAlgo(DigestAlgoOf(list[k].sig).value) == Ok
    ensures !list[0].PublicCert? ==>
              DoCheckSig(io, list, k, md) == Checked(Fail(SigClass), [Error(InvalidRootForClass10)])
    ensures list[0].PublicCert? && (forall j :: 0 <= j < k ==> !list[j].UserId?) ==>
              DoCheckSig(io, list, k, md) == Checked(Fail(SigClass), [Error(InvalidParentForClass10)])
    ensures forall u :: list[0].PublicCert? && list[0].keyDigest.Some? &&
                        0 <= u < k && list[u].UserId? && (forall j :: u < j < k ==> !list[j].UserId?) ==>
              DoCheckSig(io, list, k, md) ==
              Checked(io.signatureCheck(list[k].sig, MdWrite(list[0].keyDigest.value, list[u].name)), [])
  {
    CertClassRange(list[k].sig.sigClass);
  }

  /** The status check_sig_and_print writes for a result. */
  function Verdict(rc: Rc): (s: StatusCode)
    ensures s == GoodSig <==> rc == Ok
    ensures s == BadSig <==> rc == Fail(BadSign)
  {
    if rc == Ok then GoodSig
    else if rc == Fail(BadSign) then BadSig
    else ErrSig
  }

  /** The status event and message check_sig_and_print writes for a result. */
  function Report(sig: Sig, rc: Rc): (r: seq<Event>)
    ensures |r| == 2 && r[0] == Status(Verdict(rc))
    ensures rc == Ok ==> r[1] == Info(GoodSignatureFrom(sig.keyid))
    ensures rc == Fail(BadSign) ==> r[1] == Error(BadSignatureFrom(sig.keyid))
    ensures rc != Ok && rc != Fail(BadSign) ==> r[1] == Error(CantCheckSignature(sig.keyid, rc))
  {
    match Verdict(rc)
    case GoodSig => [Status(GoodSig), Info(GoodSignatureFrom(sig.keyid))]
    case BadSig => [Status(BadSig), Error(BadSignatureFrom(sig.keyid))]
    case ErrSig => [Status(ErrSig), Error(CantCheckSignature(sig.keyid, rc))]
  }

  /** check_sig_and_print(c, node) for the signature at index k: checks it,
      reports the verdict and, in batch mode, exits with status 1 on a bad
      signature. Only the trace and the halt state change. */
  function CheckSigAndPrint(env: Env, st: State, k: nat): (r: State)
    requires k < |st.list| && st.list[k].Signature? && st.halt.None?
    ensures Framed(st, r)
    ensures DoCheckSig(env.io, st.list, k, st.md).Checked? ==>
              var rc := DoCheckSig(env.io, st.list, k, st.md).rc;
              var log := DoCheckSig(env.io, st.list, k, st.md).log;
              r.trace == st.trace + log + Report(st.list[k].sig, rc) &&
              (r.halt == Some(Exited(1)) <==> env.opt.batch && rc == Fail(BadSign)) &&
              (r.halt.Some? ==> r.halt == Some(Exited(1)))
    ensures DoCheckSig(env.io, st.list, k, st.md).Crash? ==> r.trace == st.trace && r.halt.Some? && r.halt.value.Crashed?
  {
    var sig := st.list[k].sig;
    match DoCheckSig(env.io, st.list, k, st.md)
    case Crash(f) => st.(halt := Some(Crashed(f)))
    case Checked(rc, log) =>
      var reported := EmitAll(EmitAll(st, log), Report(sig, rc));
      if rc == Fail(BadSign) && env.opt.batch then reported.(halt := Some(Exited(1)))
      else reported
  }

  /** The status character list_node prints for a signature. */
  function SigStatusChar(checkSigs: bool, rc: Rc): (ch: char)
    ensures ch == ' ' <==> !checkSigs
    ensures checkSigs ==> (ch == '!' <==> rc == Ok)
    ensures checkSigs ==> (ch == '-' <==> rc == Fail(BadSign))
    ensures checkSigs ==> (ch == '?' <==> rc == Fail(NoPubkey))
    ensures ch in {' ', '!', '-', '?', '%'}
  {
    if !checkSigs then ' '
    else if rc == Ok then '!'
    else if rc == Fail(BadSign) then '-'
    else if rc == Fail(NoPubkey) then '?'
    else '%'
  }
}
