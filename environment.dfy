/**
 * The configuration, the external collaborators and the observable output
 * of the packet processor, and the processing context as a value.
 */
module Environment {
  import opened Packets

  /** The fields of the global `opt` that mainproc.c reads. */
  datatype Options = Options(
    verbose: nat,
    listPackets: bool,
    fingerprint: bool,
    listSigs: bool,
    checkSigs: bool,
    batch: bool,
    defCipherAlgo: int)

  /** Collaborators whose code is not part of this model, as total functions
      of their inputs. A handler that streams data into the message digest
      answers with the bytes it hashed and its return code. */
  datatype Oracles = Oracles(
    getSessionKey: PubkeyEncData -> (Rc, Dek),
    makeDekFromPassphrase: int -> (Rc, seq<byte>),
    decryptData: (EncryptedData, Dek) -> Rc,
    handlePlaintext: PlaintextData -> (seq<byte>, Rc),
    handleCompressed: CompressedData -> Rc,
    checkDigestAlgo: int -> Rc,
    signatureCheck: (Sig, Digest) -> Rc,
    digestAlgoFromSig: Sig -> int,
    detachedDatafile: (seq<byte>, Rc))

  datatype Env = Env(opt: Options, io: Oracles)

  /** Messages written with log_info. */
  datatype InfoMsg =
    | GoodDek
    | EncryptionOkay
    | OriginalFileName(name: seq<byte>)
    | GoodSignatureFrom(keyid: nat)
    | OldStyleSignature

  /** Messages written with log_error. */
  datatype ErrorMsg =
    | AnotherPacketInTheWay
    | OrphanedUserId
    | DekNotFollowedByData
    | PubkeyEncFailed(rc: Rc)
    | EncryptionFailed(rc: Rc)
    | HandlePlaintextFailed(rc: Rc)
    | UncompressingFailed(rc: Rc)
    | InvalidParentForClass10
    | InvalidRootForClass10
    | BadSignatureFrom(keyid: nat)
    | CantCheckSignature(keyid: nat, rc: Rc)
    | CantHashDatafile(rc: Rc)
    | InvalidRootPacket
    | InvalidNode(ptype: PacketType)

  /** What write_status reports. */
  datatype StatusCode = GoodSig | BadSig | ErrSig

  /** What a listed signature line shows after its key id and date. */
  datatype SigDetail = ErrText(rc: Rc) | NoDetail | SignerName(keyid: nat)

  /** The lines list_node prints on standard output. */
  datatype ListLine =
    | PubHeader(keyid: nat, pubkeyAlgo: int)
    | SecHeader(keyid: nat, pubkeyAlgo: int)
    | UserIdLine(indented: bool, name: seq<byte>)
    | FingerprintLine(text: string)
    | NoUserIdLine
    | SigLine(status: char, keyid: nat, detail: SigDetail)

  datatype Event =
    | Info(info: InfoMsg)
    | Error(error: ErrorMsg)
    | Status(status: StatusCode)
    | Out(line: ListLine)

  /** How the process ended early: g10_exit, or a NULL dereference / BUG(). */
  datatype Fault = NullListDeref | NullDigestCopy | MissingKeyDigest
  datatype Halt = Exited(code: int) | Crashed(fault: Fault)

  /** The processing context `CTX` as a value: the current list, the pending
      DEK, the two flags, the message digest `mfx.md`, everything written so
      far and whether the process has ended. */
  datatype State = State(
    list: seq<Packet>,
    dek: Option<Dek>,
    lastWasPubkeyEnc: bool,
    haveData: bool,
    md: Option<Digest>,
    trace: seq<Event>,
    halt: Option<Halt>)

  /** The zero-filled context m_alloc_clear returns. */
  const Initial: State := State([], None, false, false, None, [], None)

  /** What checking and listing leave alone: everything but the halt state
      and the trace, which only grows at its end. */
  predicate Framed(st: State, r: State) {
    && r.list == st.list && r.dek == st.dek && r.md == st.md
    && r.lastWasPubkeyEnc == st.lastWasPubkeyEnc && r.haveData == st.haveData
    && st.trace <= r.trace
  }

  function Emit(st: State, e: Event): State {
    st.(trace := st.trace + [e])
  }

  function EmitAll(st: State, es: seq<Event>): State {
    st.(trace := st.trace + es)
  }
}
