/**
 * Packets, error codes and the abstract message digest that the packet
 * processor of g10/mainproc.c works with.
 */
module Packets {

  type byte = x: int | 0 <= x < 256

  datatype Option<+T> = None | Some(value: T)

  /** The positive G10ERR_* codes that mainproc.c distinguishes; every other
      code is carried as Other. */
  datatype Error =
    | PubkeyAlgo        // G10ERR_PUBKEY_ALGO
    | NoSeckey          // G10ERR_NO_SECKEY
    | SigClass          // G10ERR_SIG_CLASS
    | BadSign           // G10ERR_BAD_SIGN
    | NoPubkey          // G10ERR_NO_PUBKEY
    | InvalidPacket     // G10ERR_INVALID_PACKET
    | Other(code: nat)

  /** A C return code: 0, -1 (cancelled, or end of input for the parser) or an error. */
  datatype Rc = Ok | Cancelled | Fail(err: Error)

  /** Public-key and digest algorithm numbers (RFC 4880, sections 9.1 and 9.4). */
  const PubkeyAlgoRsa: int := 1
  const PubkeyAlgoElgamal: int := 16
  const DigestAlgoMd5: int := 1
  const DigestAlgoRmd160: int := 3

  /** A running digest: the algorithms enabled and the bytes written so far.
      md_copy yields an equal value, md_write appends. */
  datatype Digest = Digest(algos: set<int>, written: seq<byte>)

  /** md_open(algo, 0): algorithm 0 opens a handle with nothing enabled. */
  function MdOpen(algo: int): Digest {
    Digest(if algo == 0 then {} else {algo}, [])
  }

  function MdEnable(md: Digest, algo: int): Digest {
    md.(algos := md.algos + {algo})
  }

  function MdWrite(md: Digest, bytes: seq<byte>): Digest {
    md.(written := md.written + bytes)
  }

  /** A decrypted session key (DEK). */
  datatype Dek = Dek(algo: int, key: seq<byte>)

  /** A signature packet; `d.elg.digest_algo` and `d.rsa.digest_algo` share a
      C union and are both kept, so that reading the wrong one is visible. */
  datatype Sig = Sig(keyid: nat, sigClass: bv8, pubkeyAlgo: int,
                     elgDigestAlgo: int, rsaDigestAlgo: int)

  datatype PubkeyEncData = PubkeyEncData(keyid: nat, pubkeyAlgo: int, material: seq<byte>)
  datatype EncryptedData = EncryptedData(body: seq<byte>)
  datatype PlaintextData = PlaintextData(name: seq<byte>, body: seq<byte>)
  datatype CompressedData = CompressedData(algo: int, body: seq<byte>)

  /** The packet types of packet.h that mainproc.c dispatches on. */
  datatype PacketType =
    | PubkeyEncPkt | SignaturePkt | OnepassSigPkt | SecretCertPkt | PublicCertPkt
    | CompressedPkt | EncryptedPkt | PlaintextPkt | UserIdPkt | OtherPkt(tag: nat)

  /** A parsed packet. A public certificate carries the digest state
      accumulated while it was parsed (its `mfx.md`, possibly absent) and the
      fingerprint that fingerprint_from_pkc computes from it. */
  datatype Packet =
    | PublicCert(keyid: nat, pubkeyAlgo: int, fingerprint: seq<byte>, keyDigest: Option<Digest>)
    | SecretCert(keyid: nat, pubkeyAlgo: int, fingerprint: seq<byte>)
    | UserId(name: seq<byte>)
    | Signature(sig: Sig)
    | OnepassSig(keyid: nat)
    | PubkeyEnc(enc: PubkeyEncData)
    | Encrypted(encrypted: EncryptedData)
    | Plaintext(pt: PlaintextData)
    | Compressed(zd: CompressedData)
    | OtherPacket(tag: nat)
  {
    function Type(): PacketType {
      match this
      case PublicCert(_, _, _, _) => PublicCertPkt
      case SecretCert(_, _, _) => SecretCertPkt
      case UserId(_) => UserIdPkt
      case Signature(_) => SignaturePkt
      case OnepassSig(_) => OnepassSigPkt
      case PubkeyEnc(_) => PubkeyEncPkt
      case Encrypted(_) => EncryptedPkt
      case Plaintext(_) => PlaintextPkt
      case Compressed(_) => CompressedPkt
      case OtherPacket(t) => OtherPkt(t)
    }
  }

  /** One result of parse_packet: a packet, or an error code together with
      the packet type the parser had recorded. End of input (-1) is the end
      of the sequence of results. */
  datatype ParseResult = Parsed(pkt: Packet) | Failed(tag: PacketType, err: Error)
  {
    function Tag(): PacketType {
      match this
      case Parsed(p) => p.Type()
      case Failed(t, _) => t
    }
  }

  /** Concatenation regroups; stated once so that proofs about long traces
      need not rediscover it. */
  lemma SeqAssoc<T>(a: seq<T>, b: seq<T>, c: seq<T>)
    ensures (a + b) + c == a + (b + c)
  {
  }

  /** What follows a prefix a in a sequence that starts with a + b. */
  lemma SuffixAfter<T>(a: seq<T>, b: seq<T>, t: seq<T>)
    requires a + b <= t
    ensures t[|a|..] == b + t[|a + b|..]
  {
    assert t == (a + b) + t[|a + b|..];
  }
}
