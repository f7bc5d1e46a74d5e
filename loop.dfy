/**
 * proc_packets: the loop over parse results that burns stray DEKs, skips
 * or stops on parse errors, dispatches each packet, tracks have_data and
 * decides who owns the packet; and the final flush.
 */
module Loop {
  import opened Packets
  import opened Environment
  import opened Kbnode
  import opened Verify
  import opened Tree
  import opened Grouping
  import opened Handlers

  /** What happens to the packet after dispatch: a handler consumed it
      (newpkt -1), a list kept it and a fresh packet is allocated (1), or
      it is freed (0). */
  datatype Ownership = Handled | Kept | Freed

  function Owned(r: (State, bool)): (State, Ownership) {
    (r.0, if r.1 then Kept else Freed)
  }

  /** The two switches of proc_packets. */
  function Dispatch(env: Env, st: State, p: Packet): (r: (State, Ownership))
    requires st.halt.None?
    ensures st.trace <= r.0.trace
  {
    if env.opt.listPackets then
      match p
      case PubkeyEnc(enc) => (ProcPubkeyEnc(env, st, enc), Handled)
      case Encrypted(ed) => (ProcEncrypted(env, st, ed), Handled)
      case Compressed(zd) => (ProcCompressed(env, st, zd), Handled)
      case _ => (st, Freed)
    else
      match p
      case PublicCert(_, _, _, _) => Owned(AddCert(env, st, p))
      case SecretCert(_, _, _) => Owned(AddCert(env, st, p))
      case UserId(_) => Owned(AddUserId(st, p))
      case Signature(_) => Owned(AddSignature(st, p))
      case PubkeyEnc(enc) => (ProcPubkeyEnc(env, st, enc), Handled)
      case Encrypted(ed) => (ProcEncrypted(env, st, ed), Handled)
      case Plaintext(pt) => (ProcPlaintext(env, st, pt), Handled)
      case Compressed(zd) => (ProcCompressed(env, st, zd), Handled)
      case OnepassSig(_) => Owned(AddOnepassSigAsWritten(env, st, p))
      case OtherPacket(_) => (st, Freed)
  }

  /** The cleanup at the top of the loop: a DEK is burned unless the packet
      just parsed is encrypted data. */
  function Burn(st: State, tag: PacketType): (r: State)
    ensures r.list == st.list && r.lastWasPubkeyEnc == st.lastWasPubkeyEnc && r.haveData == st.haveData
    ensures r.md == st.md && r.halt == st.halt
    ensures st.dek.Some? && tag != EncryptedPkt ==> r.dek.None? && r.trace == st.trace + [Error(DekNotFollowedByData)]
    ensures st.dek.None? || tag == EncryptedPkt ==> r == st
  {
    if st.dek.Some? && tag != EncryptedPkt then Emit(st, Error(DekNotFollowedByData)).(dek := None)
    else st
  }

  /** One iteration of the loop; the flag says whether the loop ends
      (G10ERR_INVALID_PACKET). */
  function Step(env: Env, st: State, item: ParseResult): (r: (State, bool))
    requires st.halt.None?
    ensures st.trace <= r.0.trace
  {
    var s := Burn(st, item.Tag());
    match item
    case Failed(_, err) => (s, err == InvalidPacket)
    case Parsed(p) =>
      var s2 := Dispatch(env, s, p).0;
      (if p.Signature? then s2 else s2.(haveData := p.Plaintext?), false)
  }

  /** The loop: it ends at the end of the input, on an invalid packet, or
      when the process has ended. */
  function Run(env: Env, st: State, items: seq<ParseResult>): (r: State)
    decreases |items|
    ensures st.trace <= r.trace
    ensures st.halt.Some? ==> r == st
  {
    if items == [] || st.halt.Some? then st
    else
      var (s, stop) := Step(env, st, items[0]);
      if stop then s else Run(env, s, items[1..])
  }

  /** proc_packets: the loop from a zeroed context, then the final
      release_list and the freeing of the DEK and the digest. */
  function ProcPackets(env: Env, items: seq<ParseResult>): (r: State)
    ensures r.halt.None? ==> r.list == [] && r.dek.None? && r.md.None?
  {
    var s := Run(env, Initial, items);
    if s.halt.Some? then s else ReleaseList(env, s).(dek := None, md := None)
  }

  // ---- Properties of one iteration ----

  /** A DEK never outlives the packet after the one that produced it: after
      a step a DEK is pending only if the packet was a public-key packet, or
      if the step was a parse failure of encrypted data that kept the DEK. */
  lemma DekLifetime(env: Env, st: State, item: ParseResult)
    requires st.halt.None?
    ensures var r := Step(env, st, item).0;
            r.dek.Some? ==>
              (item.Parsed? && item.pkt.PubkeyEnc?) ||
              (item.Failed? && item.tag == EncryptedPkt && r.dek == st.dek)
    ensures st.dek.Some? && item.Tag() != EncryptedPkt ==>
              st.trace + [Error(DekNotFollowedByData)] <= Step(env, st, item).0.trace
  {
    var s := Burn(st, item.Tag());
    if item.Parsed? {
      var p := item.pkt;
      var r := Dispatch(env, s, p).0;
      assert r.dek.Some? ==> p.PubkeyEnc?;
      if st.dek.Some? && item.Tag() != EncryptedPkt {
        assert st.trace + [Error(DekNotFollowedByData)] == s.trace;
      }
    }
  }

  /** A second public-key packet: the first DEK is burned with an error and
      the new session key, if any, replaces it. */
  lemma SessionKeyReplaced(env: Env, st: State, enc: PubkeyEncData)
    requires st.halt.None? && st.dek.Some?
    requires enc.pubkeyAlgo in {PubkeyAlgoElgamal, PubkeyAlgoRsa}
    ensures var r := Step(env, st, Parsed(PubkeyEnc(enc))).0;
            st.trace + [Error(DekNotFollowedByData)] <= r.trace &&
            r.lastWasPubkeyEnc &&
            r.dek == (if env.io.getSessionKey(enc).0 == Ok then Some(env.io.getSessionKey(enc).1) else None)
  {
  }

  /** A public-key packet for an algorithm other than RSA or ElGamal fails
      with G10ERR_PUBKEY_ALGO and, in the loop, leaves no DEK pending: a
      pending one was burned when the packet arrived. */
  lemma UnsupportedKeyLeavesNoDek(env: Env, st: State, enc: PubkeyEncData)
    requires st.halt.None? && enc.pubkeyAlgo !in {PubkeyAlgoElgamal, PubkeyAlgoRsa}
    ensures var r := Step(env, st, Parsed(PubkeyEnc(enc))).0;
            r.dek.None? && r.lastWasPubkeyEnc &&
            r.trace == Burn(st, PubkeyEncPkt).trace + [Error(PubkeyEncFailed(Fail(PubkeyAlgo)))]
  {
  }

  /** A parse error changes nothing but the DEK burn; only
      G10ERR_INVALID_PACKET ends the loop. */
  lemma ParseErrorOnlyBurns(env: Env, st: State, tag: PacketType, err: Error)
    requires st.halt.None?
    ensures Step(env, st, Failed(tag, err)) == (Burn(st, tag), err == InvalidPacket)
    ensures st.dek.None? ==> Step(env, st, Failed(tag, err)).0 == st
  {
  }

  /** have_data tracks the last parsed packet that is not a signature. */
  lemma HaveDataTracksData(env: Env, st: State, p: Packet)
    requires st.halt.None?
    ensures var r := Step(env, st, Parsed(p)).0;
            (!p.Signature? ==> (r.haveData <==> p.Plaintext?)) &&
            (p.Signature? ==> r.haveData == st.haveData)
  {
  }

  /** Who owns the packet: in normal mode the four handler types are
      consumed, a user id with no open list and unknown packets are freed,
      and every other packet is kept by a list; when only listing packets,
      the three stream types are consumed and everything else is freed. */
  lemma OwnershipByType(env: Env, st: State, p: Packet)
    requires st.halt.None?
    ensures var own := Dispatch(env, st, p).1;
            (!env.opt.listPackets ==>
               (own == Handled <==> p.Type() in {PubkeyEncPkt, EncryptedPkt, PlaintextPkt, CompressedPkt}) &&
               (own == Freed <==> p.OtherPacket? || (p.UserId? && st.list == []))) &&
            (env.opt.listPackets ==>
               (own == Handled <==> p.Type() in {PubkeyEncPkt, EncryptedPkt, CompressedPkt}) &&
               (own == Freed <==> p.Type() !in {PubkeyEncPkt, EncryptedPkt, CompressedPkt}))
  {
  }

  /** User ids and signatures extend an open list at its end and leave the
      earlier nodes in place. */
  lemma AppendOnly(env: Env, st: State, p: Packet)
    requires st.halt.None? && !env.opt.listPackets && st.list != []
    requires p.UserId? || p.Signature?
    ensures var r := Step(env, st, Parsed(p)).0;
            r.list == st.list + [p] && r.halt.None?
    ensures !Step(env, st, Parsed(p)).1
  {
  }

  lemma RunUnfold(env: Env, st: State, items: seq<ParseResult>)
    requires items != [] && st.halt.None? && !Step(env, st, items[0]).1
    ensures Run(env, st, items) == Run(env, Step(env, st, items[0]).0, items[1..])
  {
  }

  /** Parse results that are all packets. */
  function AsParsed(ps: seq<Packet>): (items: seq<ParseResult>)
    ensures |items| == |ps|
    ensures forall m :: 0 <= m < |ps| ==> items[m] == Parsed(ps[m])
  {
    if ps == [] then [] else [Parsed(ps[0])] + AsParsed(ps[1..])
  }

  /** The state after a user id or a signature joins an open list. */
  function Joined(st: State, p: Packet): State {
    Burn(st, p.Type()).(list := st.list + [p], haveData := if p.Signature? then st.haveData else false)
  }

  lemma GroupStep(env: Env, st: State, ps: seq<Packet>)
    requires st.halt.None? && !env.opt.listPackets && st.list != []
    requires ps != [] && (ps[0].UserId? || ps[0].Signature?)
    ensures Run(env, st, AsParsed(ps)) == Run(env, Joined(st, ps[0]), AsParsed(ps[1..]))
  {
    var items := AsParsed(ps);
    assert items[0] == Parsed(ps[0]) && items[1..] == AsParsed(ps[1..]);
    AppendOnly(env, st, ps[0]);
    assert Step(env, st, Parsed(ps[0])) == (Joined(st, ps[0]), false);
    RunUnfold(env, st, items);
  }

  /** A run of user ids and signatures after an open list grows it by
      exactly those packets, in arrival order. */
  lemma {:induction false} GroupGrowsInOrder(env: Env, st: State, ps: seq<Packet>)
    requires st.halt.None? && !env.opt.listPackets && st.list != []
    requires forall m :: 0 <= m < |ps| ==> ps[m].UserId? || ps[m].Signature?
    ensures Run(env, st, AsParsed(ps)).list == st.list + ps
    ensures Run(env, st, AsParsed(ps)).halt.None?
    decreases |ps|
  {
    if ps != [] {
      var s := Joined(st, ps[0]);
      GroupStep(env, st, ps);
      var rest := ps[1..];
      assert forall m :: 0 <= m < |rest| ==> rest[m] == ps[m + 1];
      GroupGrowsInOrder(env, s, rest);
      assert [ps[0]] + rest == ps;
      SeqAssoc(st.list, [ps[0]], rest);
    }
  }

  /** A public certificate on a stream with no open list, followed by its
      user ids and signatures, leaves one list holding 1 + n nodes in
      arrival order. */
  lemma CertificateGroup(env: Env, st: State, cert: Packet, ps: seq<Packet>)
    requires st.halt.None? && !env.opt.listPackets && st.list == [] && cert.PublicCert?
    requires forall m :: 0 <= m < |ps| ==> ps[m].UserId? || ps[m].Signature?
    ensures var r := Run(env, st, AsParsed([cert] + ps));
            r.list == [cert] + ps && |r.list| == 1 + |ps| && r.halt.None?
  {
    var s := Step(env, st, Parsed(cert)).0;
    assert s.list == [cert] && s.halt.None?;
    var items := AsParsed([cert] + ps);
    assert items[0] == Parsed(cert) && items[1..] == AsParsed(ps) by {
      assert ([cert] + ps)[0] == cert && ([cert] + ps)[1..] == ps;
    }
    RunUnfold(env, st, items);
    GroupGrowsInOrder(env, s, ps);
  }

  // ---- The loop invariant that the signature checks rely on ----

  /** Whenever have_data is set outside list-packets mode, a message digest
      exists: it was set by a plaintext packet, which opened one. */
  predicate DataHasDigest(env: Env, st: State) {
    !env.opt.listPackets && st.haveData ==> st.md.Some?
  }

  lemma StepKeepsDataHasDigest(env: Env, st: State, item: ParseResult)
    requires st.halt.None? && DataHasDigest(env, st)
    ensures DataHasDigest(env, Step(env, st, item).0)
  {
    if item.Parsed? && !env.opt.listPackets {
      var p := item.pkt;
      var s := Burn(st, item.Tag());
      var r := Dispatch(env, s, p).0;
      if p.Signature? {
        assert r.md == s.md && r.haveData == s.haveData;
      }
    }
  }

  lemma {:induction false} RunKeepsDataHasDigest(env: Env, st: State, items: seq<ParseResult>)
    requires DataHasDigest(env, st)
    ensures DataHasDigest(env, Run(env, st, items))
    decreases |items|
  {
    if items != [] && st.halt.None? {
      StepKeepsDataHasDigest(env, st, items[0]);
      var (s, stop) := Step(env, st, items[0]);
      if !stop {
        RunKeepsDataHasDigest(env, s, items[1..]);
      }
    }
  }

  // ---- Scenarios ----

  /** A public-key packet for an unsupported algorithm, then encrypted
      data: the first fails with G10ERR_PUBKEY_ALGO and leaves no DEK, so
      the second fails with G10ERR_NO_SECKEY and decrypt_data is never
      consulted. */
  lemma UnsupportedKeyThenData(env: Env, st: State, enc: PubkeyEncData, ed: EncryptedData)
    requires st.halt.None? && st.dek.None?
    requires enc.pubkeyAlgo !in {PubkeyAlgoElgamal, PubkeyAlgoRsa}
    ensures var r := Run(env, st, [Parsed(PubkeyEnc(enc)), Parsed(Encrypted(ed))]);
            r.trace == st.trace + [Error(PubkeyEncFailed(Fail(PubkeyAlgo))), Error(EncryptionFailed(Fail(NoSeckey)))] &&
            r.dek.None? && !r.lastWasPubkeyEnc && !r.haveData
  {
    var items := [Parsed(PubkeyEnc(enc)), Parsed(Encrypted(ed))];
    var s := Step(env, st, items[0]).0;
    assert s == ProcPubkeyEnc(env, st, enc).(haveData := false);
    assert s.trace == st.trace + [Error(PubkeyEncFailed(Fail(PubkeyAlgo)))];
    assert s.dek.None? && s.lastWasPubkeyEnc && s.halt.None?;
    RunUnfold(env, st, items);
    assert items[1..] == [Parsed(Encrypted(ed))];
    var s2 := Step(env, s, items[1]).0;
    assert s2 == ProcEncrypted(env, s, ed).(haveData := false);
    RunUnfold(env, s, items[1..]);
    assert items[1..][1..] == [];
  }

  /** The three packets of a one-pass signed message leave one group: the
      one-pass signature and the signature, with the plaintext's digest as
      the message digest and have_data set. */
  lemma OnepassMessageGrouped(env: Env, k: nat, pt: PlaintextData, sig: Sig)
    requires !env.opt.listPackets
    ensures var r := Run(env, Initial, [Parsed(OnepassSig(k)), Parsed(Plaintext(pt)), Parsed(Signature(sig))]);
            r.list == [OnepassSig(k), Signature(sig)] && r.haveData && r.halt.None? &&
            r.md == Some(PlaintextDigest(env.io.handlePlaintext(pt).0)) &&
            forall e :: e in r.trace ==> !e.Status?
  {
    var items := [Parsed(OnepassSig(k)), Parsed(Plaintext(pt)), Parsed(Signature(sig))];
    var s1 := Initial.(list := [OnepassSig(k)]);
    assert Step(env, Initial, items[0]) == (s1, false);
    RunUnfold(env, Initial, items);
    var s2 := ProcPlaintext(env, s1, pt).(haveData := true);
    assert Step(env, s1, items[1]) == (s2, false);
    assert items[1..][0] == items[1];
    RunUnfold(env, s1, items[1..]);
    var s3 := s2.(list := [OnepassSig(k), Signature(sig)]);
    assert s2.list == [OnepassSig(k)] && s2.dek.None? && s2.halt.None?;
    assert Burn(s2, SignaturePkt) == s2;
    assert AddSignature(s2, Signature(sig)).0 == s3;
    assert Step(env, s2, items[2]) == (s3, false);
    assert items[1..][1..][0] == items[2];
    RunUnfold(env, s2, items[1..][1..]);
    assert items[1..][1..][1..] == [];
  }

  /** A one-pass signed message: the one-pass signature packet, the
      literal data, then the signature of class 0x00. At the end of the
      stream the signature is checked against the digest of exactly the
      bytes the plaintext handler hashed, and its verdict is the only
      status written. */
  lemma OnepassSignedMessage(env: Env, k: nat, pt: PlaintextData, sig: Sig)
    requires !env.opt.listPackets && !env.opt.batch
    requires sig.sigClass == 0x00 && DigestAlgoOf(sig).Some? && env.io.checkDigestAlgo(DigestAlgoOf(sig).value) == Ok
    ensures var r := ProcPackets(env, [Parsed(OnepassSig(k)), Parsed(Plaintext(pt)), Parsed(Signature(sig))]);
            r.halt.None? &&
            Statuses(r.trace) == [Verdict(env.io.signatureCheck(sig, PlaintextDigest(env.io.handlePlaintext(pt).0)))]
  {
    var items := [Parsed(OnepassSig(k)), Parsed(Plaintext(pt)), Parsed(Signature(sig))];
    OnepassMessageGrouped(env, k, pt, sig);
    var s3 := Run(env, Initial, items);
    var d := PlaintextDigest(env.io.handlePlaintext(pt).0);
    assert ProcTree(env, s3) == CheckOnepassGroup(env, s3) == CheckSigsFrom(env, s3, 0);
    CheckSigsInOrder(env, s3, 0);
    assert SigNodesAfter(s3.list, 1) == [];
    assert SigNodesAfter(s3.list, 0) == [1];
    MessageDigestForDataClasses(env.io, s3.list, 1, d);
    NoStatuses(s3.trace);
  }

  /** A public certificate, then a one-pass signature: the signature finds
      a group whose root is not a one-pass signature, so the certificate is
      listed and released, and appending to the released (NULL) list ends
      the process. */
  lemma CertificateThenOnepass(env: Env, cert: Packet, k: nat)
    requires !env.opt.listPackets && cert.PublicCert?
    ensures var r := ProcPackets(env, [Parsed(cert), Parsed(OnepassSig(k))]);
            r.halt == Some(Crashed(NullListDeref)) && r.list == [] &&
            r.trace == [Error(AnotherPacketInTheWay), Out(PubHeader(cert.keyid, cert.pubkeyAlgo)), Out(NoUserIdLine)]
  {
    var items := [Parsed(cert), Parsed(OnepassSig(k))];
    var s1 := Initial.(list := [cert]);
    assert Step(env, Initial, items[0]) == (s1, false);
    RunUnfold(env, Initial, items);
    var flushed := Emit(s1, Error(AnotherPacketInTheWay));
    LoneCertificate(env, flushed);
    OnepassAfterCertificate(env, s1, cert, OnepassSig(k));
    var s2 := Step(env, s1, items[1]).0;
    assert s2 == AddOnepassSigAsWritten(env, s1, OnepassSig(k)).0;
    assert items[1..][1..] == [];
  }

  /** A signature of class 0x00, then the literal data it signs: the
      signature is the root of its own group, the data sets have_data and
      the digest, and at the end of the stream the signature is checked
      against the digest of exactly the bytes the plaintext handler hashed;
      its verdict is the only status written. */
  lemma SignatureThenData(env: Env, sig: Sig, pt: PlaintextData)
    requires !env.opt.listPackets
    requires sig.sigClass == 0x00 && DigestAlgoOf(sig).Some? && env.io.checkDigestAlgo(DigestAlgoOf(sig).value) == Ok
    ensures var r := ProcPackets(env, [Parsed(Signature(sig)), Parsed(Plaintext(pt))]);
            Statuses(r.trace) == [Verdict(env.io.signatureCheck(sig, PlaintextDigest(env.io.handlePlaintext(pt).0)))]
  {
    var items := [Parsed(Signature(sig)), Parsed(Plaintext(pt))];
    var d := PlaintextDigest(env.io.handlePlaintext(pt).0);
    var s1 := Initial.(list := [Signature(sig)]);
    assert Step(env, Initial, items[0]) == (s1, false);
    RunUnfold(env, Initial, items);
    var s2 := ProcPlaintext(env, s1, pt).(haveData := true);
    assert Step(env, s1, items[1]) == (s2, false);
    assert items[1..][0] == items[1];
    RunUnfold(env, s1, items[1..]);
    assert items[1..][1..] == [];
    assert Run(env, Initial, items) == s2;
    assert s2.list == [Signature(sig)] && s2.haveData && s2.md == Some(d) && s2.halt.None?;
    MessageDigestForDataClasses(env.io, s2.list, 0, d);
    LeadingSignatureChecked(env, s2);
    NoStatuses(s2.trace);
    var t := ProcTree(env, s2);
    assert ReleaseList(env, s2) == t.(list := []);
  }
}
