/**
 * The session-key and payload handlers: proc_pubkey_enc, proc_encrypted,
 * proc_plaintext and proc_compressed, and the DEK they pass along.
 */
module Handlers {
  import opened Packets
  import opened Environment

  /** The result proc_pubkey_enc computes and the DEK it leaves. */
  function SessionKey(io: Oracles, enc: PubkeyEncData, dek: Option<Dek>): (r: (Rc, Option<Dek>))
    ensures enc.pubkeyAlgo !in {PubkeyAlgoElgamal, PubkeyAlgoRsa} ==> r == (Fail(PubkeyAlgo), dek)
    ensures enc.pubkeyAlgo in {PubkeyAlgoElgamal, PubkeyAlgoRsa} ==>
              r.0 == io.getSessionKey(enc).0 &&
              (r.1.Some? <==> r.0 == Ok) &&
              (r.1.Some? ==> r.1.value == io.getSessionKey(enc).1)
  {
    if enc.pubkeyAlgo == PubkeyAlgoElgamal || enc.pubkeyAlgo == PubkeyAlgoRsa then
      var (rc, key) := io.getSessionKey(enc);
      (rc, if rc == Ok then Some(key) else None)
    else (Fail(PubkeyAlgo), dek)
  }

  /** proc_pubkey_enc: always sets last_was_pubkey_enc; a supported key
      replaces any pending DEK by the session key, or by none on failure. */
  function ProcPubkeyEnc(env: Env, st: State, enc: PubkeyEncData): (r: State)
    ensures r.lastWasPubkeyEnc
    ensures r.list == st.list && r.haveData == st.haveData && r.md == st.md && r.halt == st.halt
    ensures r.dek == SessionKey(env.io, enc, st.dek).1
  {
    var (rc, dek) := SessionKey(env.io, enc, st.dek);
    var s := st.(lastWasPubkeyEnc := true, dek := dek);
    if rc == Cancelled then s
    else if rc == Ok then (if env.opt.verbose > 1 then Emit(s, Info(GoodDek)) else s)
    else Emit(s, Error(PubkeyEncFailed(rc)))
  }

  /** What proc_pubkey_enc reports: nothing for -1, "Good DEK" at verbosity
      above 1, the error otherwise; a failed session key leaves no DEK, an
      unsupported algorithm fails with G10ERR_PUBKEY_ALGO. */
  lemma PubkeyEncOutcome(env: Env, st: State, enc: PubkeyEncData)
    ensures var r := ProcPubkeyEnc(env, st, enc);
            var rc := SessionKey(env.io, enc, st.dek).0;
            (rc == Cancelled ==> r.trace == st.trace) &&
            (rc == Ok ==> r.trace == st.trace + (if env.opt.verbose > 1 then [Info(GoodDek)] else [])) &&
            (rc != Ok && rc != Cancelled ==> r.trace == st.trace + [Error(PubkeyEncFailed(rc))]) &&
            (enc.pubkeyAlgo in {PubkeyAlgoElgamal, PubkeyAlgoRsa} && rc != Ok ==> r.dek.None?) &&
            (enc.pubkeyAlgo !in {PubkeyAlgoElgamal, PubkeyAlgoRsa} ==>
               r.trace == st.trace + [Error(PubkeyEncFailed(Fail(PubkeyAlgo)))] && r.dek == st.dek)
  {
  }

  /** The three-way choice of proc_encrypted: a conventional DEK from a
      passphrase when there is no DEK and no public-key packet came before,
      G10ERR_NO_SECKEY when the public-key packet gave no DEK, the pending
      DEK otherwise. */
  function DecryptResult(env: Env, dek: Option<Dek>, lastWasPubkeyEnc: bool, ed: EncryptedData): (rc: Rc)
    ensures dek.None? && lastWasPubkeyEnc ==> rc == Fail(NoSeckey)
    ensures dek.Some? ==> rc == env.io.decryptData(ed, dek.value)
    ensures dek.None? && !lastWasPubkeyEnc ==>
              var (prc, key) := env.io.makeDekFromPassphrase(env.opt.defCipherAlgo);
              rc == (if prc == Ok then env.io.decryptData(ed, Dek(env.opt.defCipherAlgo, key)) else prc)
  {
    if dek.None? && !lastWasPubkeyEnc then
      var (prc, key) := env.io.makeDekFromPassphrase(env.opt.defCipherAlgo);
      if prc == Ok then env.io.decryptData(ed, Dek(env.opt.defCipherAlgo, key)) else prc
    else if dek.None? then Fail(NoSeckey)
    else env.io.decryptData(ed, dek.value)
  }

  /** proc_encrypted: decrypts, reports, and leaves neither a DEK nor the
      public-key flag behind, whatever the result. */
  function ProcEncrypted(env: Env, st: State, ed: EncryptedData): (r: State)
    ensures r.dek.None? && !r.lastWasPubkeyEnc
    ensures r.list == st.list && r.haveData == st.haveData && r.md == st.md && r.halt == st.halt
    ensures var rc := DecryptResult(env, st.dek, st.lastWasPubkeyEnc, ed);
            r.trace == st.trace + (if rc == Cancelled then []
                                   else if rc == Ok then (if env.opt.verbose > 1 then [Info(EncryptionOkay)] else [])
                                   else [Error(EncryptionFailed(rc))])
  {
    var rc := DecryptResult(env, st.dek, st.lastWasPubkeyEnc, ed);
    var s := st.(dek := None, lastWasPubkeyEnc := false);
    if rc == Cancelled then s
    else if rc == Ok then (if env.opt.verbose > 1 then Emit(s, Info(EncryptionOkay)) else s)
    else Emit(s, Error(EncryptionFailed(rc)))
  }

  /** Without a DEK after a public-key packet, decrypt_data is never
      consulted: the result is the same whatever it would answer. */
  lemma NoSeckeyWithoutDecrypting(env: Env, st: State, ed: EncryptedData,
                                  decrypt: (EncryptedData, Dek) -> Rc)
    requires st.dek.None? && st.lastWasPubkeyEnc
    ensures var env' := env.(io := env.io.(decryptData := decrypt));
            ProcEncrypted(env', st, ed) == ProcEncrypted(env, st, ed)
    ensures ProcEncrypted(env, st, ed).trace == st.trace + [Error(EncryptionFailed(Fail(NoSeckey)))]
  {
  }

  /** With no DEK and no public-key packet before, the DEK comes from a
      passphrase for the default cipher algorithm, and a refused passphrase
      means decrypt_data is never consulted. */
  lemma ConventionalDecryption(env: Env, st: State, ed: EncryptedData,
                               decrypt: (EncryptedData, Dek) -> Rc)
    requires st.dek.None? && !st.lastWasPubkeyEnc
    ensures var (prc, key) := env.io.makeDekFromPassphrase(env.opt.defCipherAlgo);
            prc == Ok ==> DecryptResult(env, st.dek, false, ed) == env.io.decryptData(ed, Dek(env.opt.defCipherAlgo, key))
    ensures var env' := env.(io := env.io.(decryptData := decrypt));
            env.io.makeDekFromPassphrase(env.opt.defCipherAlgo).0 != Ok ==>
              ProcEncrypted(env', st, ed) == ProcEncrypted(env, st, ed)
  {
  }

  /** The digest proc_plaintext opens: RMD160 with MD5 enabled, receiving
      the bytes handle_plaintext hashed. */
  function PlaintextDigest(bytes: seq<byte>): (d: Digest)
    ensures d.algos == {DigestAlgoRmd160, DigestAlgoMd5} && d.written == bytes
  {
    MdWrite(MdEnable(MdOpen(DigestAlgoRmd160), DigestAlgoMd5), bytes)
  }

  /** proc_plaintext: reports the file name when verbose, replaces the
      message digest, and reports a failure of handle_plaintext. */
  function ProcPlaintext(env: Env, st: State, pt: PlaintextData): (r: State)
    ensures r.md == Some(PlaintextDigest(env.io.handlePlaintext(pt).0)) && !r.lastWasPubkeyEnc
    ensures r.list == st.list && r.dek == st.dek && r.haveData == st.haveData && r.halt == st.halt
    ensures var rc := env.io.handlePlaintext(pt).1;
            r.trace == st.trace + (if env.opt.verbose > 0 then [Info(OriginalFileName(pt.name))] else [])
                                + (if rc != Ok then [Error(HandlePlaintextFailed(rc))] else [])
  {
    var s := if env.opt.verbose > 0 then Emit(st, Info(OriginalFileName(pt.name))) else st;
    var (bytes, rc) := env.io.handlePlaintext(pt);
    var s2 := s.(md := Some(PlaintextDigest(bytes)));
    var s3 := if rc != Ok then Emit(s2, Error(HandlePlaintextFailed(rc))) else s2;
    s3.(lastWasPubkeyEnc := false)
  }

  /** proc_compressed: reports a failure of handle_compressed. */
  function ProcCompressed(env: Env, st: State, zd: CompressedData): (r: State)
    ensures !r.lastWasPubkeyEnc
    ensures r.list == st.list && r.dek == st.dek && r.haveData == st.haveData && r.md == st.md && r.halt == st.halt
    ensures var rc := env.io.handleCompressed(zd);
            r.trace == st.trace + (if rc != Ok then [Error(UncompressingFailed(rc))] else [])
  {
    var rc := env.io.handleCompressed(zd);
    var s := if rc != Ok then Emit(st, Error(UncompressingFailed(rc))) else st;
    s.(lastWasPubkeyEnc := false)
  }
}
