/**
 * The packet processor as the C code runs it: the context `CTX` as an
 * object whose fields the handlers update in place, and proc_packets as a
 * loop over the parse results. Every method is proved to leave the object
 * in the state that the corresponding function of the value-level model
 * computes from the state before.
 */
module Mainproc {
  import opened Packets
  import opened Environment
  import opened Kbnode
  import opened Verify
  import opened Listing
  import Tree
  import Grouping
  import Handlers
  import Loop

  class Context {
    const env: Env
    var list: seq<Packet>
    var dek: Option<Dek>
    var lastWasPubkeyEnc: bool
    var haveData: bool
    var md: Option<Digest>
    var trace: seq<Event>
    var halt: Option<Halt>

    /** The context as a value. */
    function Snapshot(): State
      reads this
    {
      State(list, dek, lastWasPubkeyEnc, haveData, md, trace, halt)
    }

    /** m_alloc_clear: everything empty, NULL or zero. */
    constructor(env: Env)
      ensures this.env == env && Snapshot() == Initial
    {
      this.env := env;
      list := [];
      dek := None;
      lastWasPubkeyEnc := false;
      haveData := false;
      md := None;
      trace := [];
      halt := None;
    }

    method Log(e: Event)
      modifies this
      ensures Snapshot() == Emit(old(Snapshot()), e)
    {
      trace := trace + [e];
    }

    // ---- Handlers ----

    method ProcPubkeyEnc(enc: PubkeyEncData)
      modifies this
      ensures Snapshot() == Handlers.ProcPubkeyEnc(env, old(Snapshot()), enc)
    {
      lastWasPubkeyEnc := true;
      var result;
      if enc.pubkeyAlgo == PubkeyAlgoElgamal || enc.pubkeyAlgo == PubkeyAlgoRsa {
        var key;
        result, key := env.io.getSessionKey(enc).0, env.io.getSessionKey(enc).1;
        if result != Ok {
          dek := None;
        } else {
          dek := Some(key);
        }
      } else {
        result := Fail(PubkeyAlgo);
      }
      if result == Cancelled {
      } else if result == Ok {
        if env.opt.verbose > 1 {
          Log(Info(GoodDek));
        }
      } else {
        Log(Error(PubkeyEncFailed(result)));
      }
    }

    method ProcEncrypted(ed: EncryptedData)
      modifies this
      ensures Snapshot() == Handlers.ProcEncrypted(env, old(Snapshot()), ed)
    {
      var result := Ok;
      if dek.None? && !lastWasPubkeyEnc {
        var key;
        result, key := env.io.makeDekFromPassphrase(env.opt.defCipherAlgo).0,
                       env.io.makeDekFromPassphrase(env.opt.defCipherAlgo).1;
        dek := Some(Dek(env.opt.defCipherAlgo, key));
      } else if dek.None? {
        result := Fail(NoSeckey);
      }
      if result == Ok {
        result := env.io.decryptData(ed, dek.value);
      }
      dek := None;
      if result == Cancelled {
      } else if result == Ok {
        if env.opt.verbose > 1 {
          Log(Info(EncryptionOkay));
        }
      } else {
        Log(Error(EncryptionFailed(result)));
      }
      lastWasPubkeyEnc := false;
    }

    method ProcPlaintext(pt: PlaintextData)
      modifies this
      ensures Snapshot() == Handlers.ProcPlaintext(env, old(Snapshot()), pt)
    {
      if env.opt.verbose > 0 {
        Log(Info(OriginalFileName(pt.name)));
      }
      var d := MdOpen(DigestAlgoRmd160);
      d := MdEnable(d, DigestAlgoMd5);
      var bytes, rc := env.io.handlePlaintext(pt).0, env.io.handlePlaintext(pt).1;
      md := Some(MdWrite(d, bytes));
      if rc != Ok {
        Log(Error(HandlePlaintextFailed(rc)));
      }
      lastWasPubkeyEnc := false;
    }

    method ProcCompressed(zd: CompressedData)
      modifies this
      ensures Snapshot() == Handlers.ProcCompressed(env, old(Snapshot()), zd)
    {
      var rc := env.io.handleCompressed(zd);
      if rc != Ok {
        Log(Error(UncompressingFailed(rc)));
      }
      lastWasPubkeyEnc := false;
    }

    // ---- Checking and listing ----

    /** check_sig_and_print(c, node) for the signature at index k. */
    method CheckSigAndPrint(k: nat)
      requires k < |list| && list[k].Signature? && halt.None?
      modifies this
      ensures Snapshot() == Verify.CheckSigAndPrint(env, old(Snapshot()), k)
    {
      var sig := list[k].sig;
      match DoCheckSig(env.io, list, k, md)
      case Crash(f) =>
        halt := Some(Crashed(f));
      case Checked(rc, log) =>
        trace := trace + log;
        if rc == Ok {
          Log(Status(GoodSig));
          Log(Info(GoodSignatureFrom(sig.keyid)));
        } else if rc == Fail(BadSign) {
          Log(Status(BadSig));
          Log(Error(BadSignatureFrom(sig.keyid)));
          if env.opt.batch {
            halt := Some(Exited(1));
          }
        } else {
          Log(Status(ErrSig));
          Log(Error(CantCheckSignature(sig.keyid, rc)));
        }
    }

    /** The SIGNATURE branch of list_node. */
    method ListSig(k: nat)
      requires k < |list| && list[k].Signature? && halt.None?
      modifies this
      ensures Snapshot() == Listing.ListSig(env, old(Snapshot()), k)
    {
      var keyid := list[k].sig.keyid;
      if !env.opt.listSigs {
        return;
      }
      var rc2 := Ok;
      if env.opt.checkSigs {
        match DoCheckSig(env.io, list, k, md)
        case Crash(f) =>
          halt := Some(Crashed(f));
          return;
        case Checked(rc, log) =>
          trace := trace + log;
          rc2 := rc;
      }
      Log(Out(SigLineFor(env.opt.checkSigs, rc2, keyid)));
    }

    /** print_fingerprint on a copy of the key's fingerprint, as
        fingerprint_from_pkc and fingerprint_from_skc return it. */
    method Fingerprint(fpr: seq<byte>)
      modifies this
      ensures Snapshot() == Emit(old(Snapshot()), Out(FingerprintLine(FingerprintText(fpr))))
    {
      var bytes := new byte[|fpr|](i requires 0 <= i < |fpr| => fpr[i]);
      assert bytes[..] == fpr;
      var text := PrintFingerprint(bytes);
      Log(Out(FingerprintLine(text)));
    }

    /** The inner loop of the PUBLIC_CERT branch: the signatures from index
        n up to the next user id. */
    method ListUidSigs(n: nat)
      modifies this
      ensures Snapshot() == Listing.ListUidSigs(env, old(Snapshot()), n)
    {
      ghost var start := Snapshot();
      var m := n;
      while m < |list| && halt.None? && !list[m].UserId?
        invariant list == start.list
        invariant Listing.ListUidSigs(env, Snapshot(), m) == Listing.ListUidSigs(env, start, n)
        decreases |list| - m
      {
        if list[m].Signature? {
          ListSig(m);
        }
        m := m + 1;
      }
    }

    /** The PUBLIC_CERT branch of list_node. */
    method ListPublicCert(k: nat)
      requires k < |list| && list[k].PublicCert? && halt.None?
      modifies this
      ensures Snapshot() == Listing.ListPublicCert(env, old(Snapshot()), k)
    {
      var cert := list[k];
      Log(Out(PubHeader(cert.keyid, cert.pubkeyAlgo)));
      ghost var start := Snapshot();
      var any := false;
      var node := k + 1;
      while node < |list| && halt.None?
        invariant k < node <= |list|
        invariant list == start.list
        invariant ListCertNodes(env, Snapshot(), node, any, cert.fingerprint) ==
                  ListCertNodes(env, start, k + 1, false, cert.fingerprint)
        decreases |list| - node
      {
        if list[node].UserId? {
          Log(Out(UserIdLine(any, list[node].name)));
          if env.opt.fingerprint && !any {
            Fingerprint(cert.fingerprint);
          }
          ListUidSigs(node + 1);
          any := true;
        }
        node := node + 1;
      }
      if halt.None? && !any {
        Log(Out(NoUserIdLine));
      }
    }

    /** The SECRET_CERT branch of list_node. */
    method ListSecretCert(k: nat)
      requires k < |list| && list[k].SecretCert? && halt.None?
      modifies this
      ensures Snapshot() == Listing.ListSecretCert(env, old(Snapshot()), k)
    {
      var cert := list[k];
      Log(Out(SecHeader(cert.keyid, cert.pubkeyAlgo)));
      ghost var start := Snapshot();
      var any := false;
      var node := k;
      var next := FindNext(list, node, UserIdPkt);
      while next.Some?
        invariant list == start.list && halt == start.halt
        invariant next == FindNext(list, node, UserIdPkt)
        invariant ListSecretUids(env, Snapshot(), node, any, cert.fingerprint) ==
                  ListSecretUids(env, start, k, false, cert.fingerprint)
        decreases |list| - node
      {
        node := next.value;
        Log(Out(UserIdLine(false, list[node].name)));
        if env.opt.fingerprint && !any {
          Fingerprint(cert.fingerprint);
        }
        any := true;
        next := FindNext(list, node, UserIdPkt);
      }
      if !any {
        Log(Out(NoUserIdLine));
      }
    }

    /** list_node(c, node) for the node at index k. */
    method ListNode(k: nat)
      requires k < |list| && halt.None?
      modifies this
      ensures Snapshot() == Listing.ListNode(env, old(Snapshot()), k)
    {
      match list[k]
      case PublicCert(_, _, _, _) => ListPublicCert(k);
      case SecretCert(_, _, _) => ListSecretCert(k);
      case Signature(_) => ListSig(k);
      case _ => Log(Error(InvalidNode(list[k].Type())));
    }

    // ---- proc_tree ----

    /** The check_sig_and_print loop over the signatures after the root. */
    method CheckSigs()
      requires list != []
      modifies this
      ensures Snapshot() == Tree.CheckSigsFrom(env, old(Snapshot()), 0)
    {
      ghost var start := Snapshot();
      var node := 0;
      var next := FindNext(list, node, SignaturePkt);
      while next.Some? && halt.None?
        invariant list == start.list
        invariant next == FindNext(list, node, SignaturePkt)
        invariant Tree.CheckSigsFrom(env, Snapshot(), node) == Tree.CheckSigsFrom(env, start, 0)
        decreases |list| - node
      {
        node := next.value;
        CheckSigAndPrint(node);
        next := FindNext(list, node, SignaturePkt);
      }
    }

    /** ask_for_detached_datafile: the file's bytes go into a digest that
        becomes the message digest. */
    method HashDetached(d: Digest) returns (rc: Rc)
      modifies this
      ensures (Snapshot(), rc) == Tree.HashDetached(env, old(Snapshot()), d)
    {
      var bytes;
      bytes, rc := env.io.detachedDatafile.0, env.io.detachedDatafile.1;
      md := Some(MdWrite(d, bytes));
    }

    /** The ONEPASS_SIG branch of proc_tree. */
    method CheckOnepassGroup()
      requires list != [] && list[0].OnepassSig? && halt.None?
      modifies this
      ensures Snapshot() == Tree.CheckOnepassGroup(env, old(Snapshot()))
    {
      if !haveData {
        var d := MdOpen(0);
        var node := 0;
        var next := FindNext(list, node, SignaturePkt);
        while next.Some?
          invariant next == FindNext(list, node, SignaturePkt)
          invariant Tree.EnableFrom(env.io, d, list, node) == Tree.EnableFrom(env.io, MdOpen(0), list, 0)
          decreases |list| - node
        {
          node := next.value;
          d := MdEnable(d, env.io.digestAlgoFromSig(list[node].sig));
          next := FindNext(list, node, SignaturePkt);
        }
        var rc := HashDetached(d);
        if rc != Ok {
          Log(Error(CantHashDatafile(rc)));
          return;
        }
      }
      CheckSigs();
    }

    /** The SIGNATURE branch of proc_tree. */
    method CheckLeadingSignature()
      requires list != [] && list[0].Signature? && halt.None?
      modifies this
      ensures Snapshot() == Tree.CheckLeadingSignature(env, old(Snapshot()))
    {
      var sig := list[0].sig;
      if !haveData && IsCertClass(sig.sigClass) {
        Log(Info(OldStyleSignature));
        var rc := HashDetached(MdOpen(env.io.digestAlgoFromSig(sig)));
        if rc != Ok {
          Log(Error(CantHashDatafile(rc)));
          return;
        }
      }
      CheckSigAndPrint(0);
    }

    /** proc_tree(c, c->list). */
    method ProcTree()
      requires list != [] && halt.None?
      modifies this
      ensures Snapshot() == Tree.ProcTree(env, old(Snapshot()))
    {
      if env.opt.listPackets {
        return;
      }
      match list[0]
      case PublicCert(_, _, _, _) => ListNode(0);
      case SecretCert(_, _, _) => ListNode(0);
      case OnepassSig(_) => CheckOnepassGroup();
      case Signature(_) => CheckLeadingSignature();
      case _ => Log(Error(InvalidRootPacket));
    }

    // ---- The grouping engine ----

    method ReleaseList()
      requires halt.None?
      modifies this
      ensures Snapshot() == Grouping.ReleaseList(env, old(Snapshot()))
    {
      if list == [] {
        return;
      }
      ProcTree();
      list := [];
    }

    method AddPublicCert(p: Packet) returns (owned: bool)
      requires p.PublicCert? && halt.None?
      modifies this
      ensures (Snapshot(), owned) == Grouping.AddCert(env, old(Snapshot()), p)
    {
      ReleaseList();
      list := [p];
      owned := true;
    }

    method AddSecretCert(p: Packet) returns (owned: bool)
      requires p.SecretCert? && halt.None?
      modifies this
      ensures (Snapshot(), owned) == Grouping.AddCert(env, old(Snapshot()), p)
    {
      ReleaseList();
      list := [p];
      owned := true;
    }

    method AddUserId(p: Packet) returns (owned: bool)
      modifies this
      ensures (Snapshot(), owned) == Grouping.AddUserId(old(Snapshot()), p)
    {
      if list == [] {
        Log(Error(OrphanedUserId));
        return false;
      }
      list := AddKbnode(list, p);
      owned := true;
    }

    method AddSignature(p: Packet) returns (owned: bool)
      modifies this
      ensures (Snapshot(), owned) == Grouping.AddSignature(old(Snapshot()), p)
    {
      if p.Signature? && list == [] {
        list := [p];
        return true;
      } else if list == [] {
        return false;
      }
      list := AddKbnode(list, p);
      owned := true;
    }

    /** add_onepass_sig: after a flush the list is NULL, and appending the
        packet to it ends the process. */
    method AddOnepassSig(p: Packet) returns (owned: bool)
      requires halt.None?
      modifies this
      ensures (Snapshot(), owned) == Grouping.AddOnepassSigAsWritten(env, old(Snapshot()), p)
    {
      if list != [] {
        if !list[0].OnepassSig? {
          Log(Error(AnotherPacketInTheWay));
          ReleaseList();
          if halt.None? {
            halt := Some(Crashed(NullListDeref));
          }
        } else {
          list := AddKbnode(list, p);
        }
      } else {
        list := [p];
      }
      owned := true;
    }

    // ---- proc_packets ----

    /** The two switches of proc_packets. */
    method Dispatch(p: Packet) returns (own: Loop.Ownership)
      requires halt.None?
      modifies this
      ensures (Snapshot(), own) == Loop.Dispatch(env, old(Snapshot()), p)
    {
      var newpkt: bool;
      if env.opt.listPackets {
        match p
        case PubkeyEnc(enc) => ProcPubkeyEnc(enc); return Loop.Handled;
        case Encrypted(ed) => ProcEncrypted(ed); return Loop.Handled;
        case Compressed(zd) => ProcCompressed(zd); return Loop.Handled;
        case _ => newpkt := false;
      } else {
        match p
        case PublicCert(_, _, _, _) => newpkt := AddPublicCert(p);
        case SecretCert(_, _, _) => newpkt := AddSecretCert(p);
        case UserId(_) => newpkt := AddUserId(p);
        case Signature(_) => newpkt := AddSignature(p);
        case PubkeyEnc(enc) => ProcPubkeyEnc(enc); return Loop.Handled;
        case Encrypted(ed) => ProcEncrypted(ed); return Loop.Handled;
        case Plaintext(pt) => ProcPlaintext(pt); return Loop.Handled;
        case Compressed(zd) => ProcCompressed(zd); return Loop.Handled;
        case OnepassSig(_) => newpkt := AddOnepassSig(p);
        case OtherPacket(_) => newpkt := false;
      }
      own := if newpkt then Loop.Kept else Loop.Freed;
    }
  }

  /** proc_packets: processes the parse results in order and returns 0,
      what was written, and how the process ended, if it did. */
  method ProcPackets(env: Env, items: seq<ParseResult>) returns (rc: int, output: seq<Event>, halt: Option<Halt>)
    ensures rc == 0
    ensures output == Loop.ProcPackets(env, items).trace && halt == Loop.ProcPackets(env, items).halt
  {
    var c := new Context(env);
    var i := 0;
    var stop := false;
    while i < |items| && !stop && c.halt.None?
      invariant 0 <= i <= |items| && c.env == env
      invariant !stop ==> Loop.Run(env, c.Snapshot(), items[i..]) == Loop.Run(env, Initial, items)
      invariant stop ==> c.Snapshot() == Loop.Run(env, Initial, items)
      decreases |items| - i
    {
      ghost var before := c.Snapshot();
      var item := items[i];
      if c.dek.Some? && item.Tag() != EncryptedPkt {
        c.Log(Error(DekNotFollowedByData));
        c.dek := None;
      }
      match item {
        case Failed(_, err) =>
          if err == InvalidPacket {
            stop := true;
          }
        case Parsed(p) =>
          var own := c.Dispatch(p);
          if !p.Signature? {
            c.haveData := p.Plaintext?;
          }
      }
      assert (c.Snapshot(), stop) == Loop.Step(env, before, item);
      assert items[i..][1..] == items[i + 1..];
      i := i + 1;
    }
    if c.halt.None? {
      c.ReleaseList();
      c.dek := None;
      c.md := None;
    }
    return 0, c.trace, c.halt;
  }
}
