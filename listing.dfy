/**
 * Listing output: print_fingerprint's hex grouping and list_node's choice of
 * which user ids and signatures of a certificate group are printed, and how.
 */
module Listing {
  import opened Packets
  import opened Environment
  import opened Kbnode
  import opened Verify

  const FingerprintPrefix: string := "     Key fingerprint ="

  /** One upper-case hex digit. */
  function HexDigit(d: int): char
    requires 0 <= d < 16
  {
    if d < 10 then ('0' as int + d) as char else ('A' as int + d - 10) as char
  }

  /** `%02X` of one byte. */
  function Hex2(b: byte): string {
    [HexDigit(b / 16), HexDigit(b % 16)]
  }

  /** The 20-byte layout from pair i on: " %02X%02X" per pair, with one more
      space before the pair that starts at byte 10. */
  function PairGroups(fpr: seq<byte>, i: nat): string
    requires |fpr| % 2 == 0 && i % 2 == 0 && i <= |fpr|
    decreases |fpr| - i
  {
    if i >= |fpr| then "" else PairGroup(fpr, i) + PairGroups(fpr, i + 2)
  }

  function PairGroup(fpr: seq<byte>, i: nat): string
    requires i + 1 < |fpr|
  {
    (if i == 10 then " " else "") + " " + Hex2(fpr[i]) + Hex2(fpr[i + 1])
  }

  /** Any other length, from byte i on: " %02X" per byte, with one more space
      before every byte whose index is a non-zero multiple of 8. */
  function ByteGroups(fpr: seq<byte>, i: nat): string
    requires i <= |fpr|
    decreases |fpr| - i
  {
    if i >= |fpr| then "" else ByteGroup(fpr, i) + ByteGroups(fpr, i + 1)
  }

  function ByteGroup(fpr: seq<byte>, i: nat): string
    requires i < |fpr|
  {
    (if i != 0 && i % 8 == 0 then " " else "") + " " + Hex2(fpr[i])
  }

  /** The whole line print_fingerprint writes. */
  function FingerprintText(fpr: seq<byte>): string {
    FingerprintPrefix + (if |fpr| == 20 then PairGroups(fpr, 0) else ByteGroups(fpr, 0)) + "\n"
  }

  /** print_fingerprint: steps through the fingerprint two bytes at a time
      for a 20-byte fingerprint, one byte at a time otherwise. */
  method PrintFingerprint(fpr: array<byte>) returns (text: string)
    ensures text == FingerprintText(fpr[..])
  {
    var groups;
    if fpr.Length == 20 {
      groups := PrintPairs(fpr);
    } else {
      groups := PrintBytes(fpr);
    }
    text := FingerprintPrefix + groups + "\n";
  }

  /** The 20-byte loop of print_fingerprint. */
  method PrintPairs(fpr: array<byte>) returns (groups: string)
    requires fpr.Length == 20
    ensures groups == PairGroups(fpr[..], 0)
  {
    ghost var bytes := fpr[..];
    groups := "";
    var i := 0;
    while i < fpr.Length
      invariant 0 <= i <= fpr.Length && i % 2 == 0
      invariant groups + PairGroups(bytes, i) == PairGroups(bytes, 0)
    {
      var group := if i == 10 then "  " else " ";
      group := group + Hex2(fpr[i]) + Hex2(fpr[i + 1]);
      PairStep(bytes, i, groups);
      groups := groups + group;
      i := i + 2;
    }
  }

  /** The loop of print_fingerprint for any other length. */
  method PrintBytes(fpr: array<byte>) returns (groups: string)
    ensures groups == ByteGroups(fpr[..], 0)
  {
    ghost var bytes := fpr[..];
    groups := "";
    var i := 0;
    while i < fpr.Length
      invariant 0 <= i <= fpr.Length
      invariant groups + ByteGroups(bytes, i) == ByteGroups(bytes, 0)
    {
      var group := if i != 0 && i % 8 == 0 then "  " else " ";
      group := group + Hex2(fpr[i]);
      ByteStep(bytes, i, groups);
      groups := groups + group;
      i := i + 1;
    }
  }

  /** One turn of the 20-byte loop appends the pair group at i. */
  lemma PairStep(bytes: seq<byte>, i: nat, groups: string)
    requires |bytes| % 2 == 0 && i % 2 == 0 && i < |bytes|
    ensures PairGroup(bytes, i) == (if i == 10 then "  " else " ") + Hex2(bytes[i]) + Hex2(bytes[i + 1])
    ensures groups + PairGroups(bytes, i) == (groups + PairGroup(bytes, i)) + PairGroups(bytes, i + 2)
  {
  }

  /** One turn of the other loop appends the byte group at i. */
  lemma ByteStep(bytes: seq<byte>, i: nat, groups: string)
    requires i < |bytes|
    ensures ByteGroup(bytes, i) == (if i != 0 && i % 8 == 0 then "  " else " ") + Hex2(bytes[i])
    ensures groups + ByteGroups(bytes, i) == (groups + ByteGroup(bytes, i)) + ByteGroups(bytes, i + 1)
  {
  }

  // ---- An independent reading of the printed fingerprint ----

  /** The hex digits of a byte string, two per byte, without separators. */
  function HexOf(s: seq<byte>): string {
    if s == [] then "" else Hex2(s[0]) + HexOf(s[1..])
  }

  function DigitValue(c: char): int {
    if '0' <= c <= '9' then c as int - '0' as int
    else if 'A' <= c <= 'F' then c as int - 'A' as int + 10
    else 0
  }

  /** Reads pairs of hex digits back into bytes. */
  function ParseHex(t: string): seq<int> {
    if |t| < 2 then [] else [16 * DigitValue(t[0]) + DigitValue(t[1])] + ParseHex(t[2..])
  }

  function Unspaced(s: string): string {
    if s == [] then "" else (if s[0] == ' ' then "" else [s[0]]) + Unspaced(s[1..])
  }

  lemma {:induction false} UnspacedAppend(a: string, b: string)
    ensures Unspaced(a + b) == Unspaced(a) + Unspaced(b)
  {
    if a == [] {
      assert a + b == b;
    } else {
      assert (a + b)[0] == a[0];
      assert (a + b)[1..] == a[1..] + b;
      UnspacedAppend(a[1..], b);
    }
  }

  lemma Hex2Digits(b: byte)
    ensures Unspaced(Hex2(b)) == Hex2(b)
    ensures 16 * DigitValue(Hex2(b)[0]) + DigitValue(Hex2(b)[1]) == b
  {
    var h := Hex2(b);
    var t := h[1..];
    assert t == [h[1]] && t[1..] == [];
    assert h[0] != ' ' && h[1] != ' ';
    assert Unspaced(t) == [h[1]] + Unspaced(t[1..]);
    assert Unspaced(h) == [h[0]] + Unspaced(t);
  }

  lemma Separators(sp: string)
    requires sp in {"", " "}
    ensures Unspaced(sp + " ") == ""
  {
    if sp == "" {
      assert (sp + " ")[1..] == [];
    } else {
      assert (sp + " ")[1..] == " ";
      assert " "[1..] == [];
    }
  }

  lemma {:induction false} HexOfAppend(s: seq<byte>, i: nat)
    requires i < |s|
    ensures HexOf(s[i..]) == Hex2(s[i]) + HexOf(s[i + 1..])
  {
    assert s[i..][1..] == s[i + 1..];
  }

  lemma PairGroupDigits(fpr: seq<byte>, i: nat)
    requires i + 1 < |fpr|
    ensures Unspaced(PairGroup(fpr, i)) == Hex2(fpr[i]) + Hex2(fpr[i + 1])
  {
    var sp := if i == 10 then " " else "";
    var digits := Hex2(fpr[i]) + Hex2(fpr[i + 1]);
    assert PairGroup(fpr, i) == (sp + " ") + digits;
    UnspacedAppend(sp + " ", digits);
    Separators(sp);
    UnspacedAppend(Hex2(fpr[i]), Hex2(fpr[i + 1]));
    Hex2Digits(fpr[i]);
    Hex2Digits(fpr[i + 1]);
  }

  lemma ByteGroupDigits(fpr: seq<byte>, i: nat)
    requires i < |fpr|
    ensures Unspaced(ByteGroup(fpr, i)) == Hex2(fpr[i])
  {
    var sp := if i != 0 && i % 8 == 0 then " " else "";
    assert ByteGroup(fpr, i) == (sp + " ") + Hex2(fpr[i]);
    UnspacedAppend(sp + " ", Hex2(fpr[i]));
    Separators(sp);
    Hex2Digits(fpr[i]);
  }

  lemma {:induction false} PairGroupsDigits(fpr: seq<byte>, i: nat)
    requires |fpr| % 2 == 0 && i % 2 == 0 && i <= |fpr|
    ensures Unspaced(PairGroups(fpr, i)) == HexOf(fpr[i..])
    decreases |fpr| - i
  {
    if i < |fpr| {
      PairGroupsDigits(fpr, i + 2);
      UnspacedAppend(PairGroup(fpr, i), PairGroups(fpr, i + 2));
      PairGroupDigits(fpr, i);
      HexOfAppend(fpr, i);
      HexOfAppend(fpr, i + 1);
    } else {
      assert fpr[i..] == [];
    }
  }

  lemma {:induction false} ByteGroupsDigits(fpr: seq<byte>, i: nat)
    requires i <= |fpr|
    ensures Unspaced(ByteGroups(fpr, i)) == HexOf(fpr[i..])
    decreases |fpr| - i
  {
    if i < |fpr| {
      ByteGroupsDigits(fpr, i + 1);
      UnspacedAppend(ByteGroup(fpr, i), ByteGroups(fpr, i + 1));
      ByteGroupDigits(fpr, i);
      HexOfAppend(fpr, i);
    } else {
      assert fpr[i..] == [];
    }
  }

  lemma {:induction false} ParseHexOf(s: seq<byte>)
    ensures ParseHex(HexOf(s)) == s
  {
    if s != [] {
      Hex2Digits(s[0]);
      assert (Hex2(s[0]) + HexOf(s[1..]))[2..] == HexOf(s[1..]);
      ParseHexOf(s[1..]);
    }
  }

  /** Reading the printed line back: dropping the prefix, the newline and
      every space leaves two hex digits per fingerprint byte, in order, which
      parse back to the fingerprint. */
  lemma FingerprintRoundTrip(fpr: seq<byte>)
    ensures var t := FingerprintText(fpr);
            |FingerprintPrefix| < |t| && t[..|FingerprintPrefix|] == FingerprintPrefix && t[|t| - 1] == '\n' &&
            Unspaced(t[|FingerprintPrefix|..|t| - 1]) == HexOf(fpr) &&
            ParseHex(Unspaced(t[|FingerprintPrefix|..|t| - 1])) == fpr
  {
    var body := if |fpr| == 20 then PairGroups(fpr, 0) else ByteGroups(fpr, 0);
    var t := FingerprintText(fpr);
    assert t == FingerprintPrefix + body + "\n";
    assert t[|FingerprintPrefix|..|t| - 1] == body;
    if |fpr| == 20 { PairGroupsDigits(fpr, 0); } else { ByteGroupsDigits(fpr, 0); }
    assert fpr[0..] == fpr;
    ParseHexOf(fpr);
  }

  /** The number of extra separators ByteGroups puts from byte i on. */
  function ExtraSpaces(i: nat, n: nat): nat
    decreases n - i
  {
    if i >= n then 0 else (if i != 0 && i % 8 == 0 then 1 else 0) + ExtraSpaces(i + 1, n)
  }

  lemma {:induction false} ExtraSpacesClosed(n: nat)
    requires n >= 1
    ensures ExtraSpaces(0, n) == (n - 1) / 8
  {
    if n > 1 {
      ExtraSpacesClosed(n - 1);
      ExtraSpacesSplit(0, n - 1, n);
    }
  }

  lemma {:induction false} ExtraSpacesSplit(i: nat, m: nat, n: nat)
    requires i <= m && m + 1 == n
    ensures ExtraSpaces(i, n) == ExtraSpaces(i, m) + (if m != 0 && m % 8 == 0 then 1 else 0)
    decreases m - i
  {
    if i < m {
      ExtraSpacesSplit(i + 1, m, n);
    }
  }

  lemma {:induction false} ByteGroupsLength(fpr: seq<byte>, i: nat)
    requires i <= |fpr|
    ensures |ByteGroups(fpr, i)| == 3 * (|fpr| - i) + ExtraSpaces(i, |fpr|)
    decreases |fpr| - i
  {
    if i < |fpr| {
      ByteGroupsLength(fpr, i + 1);
    }
  }

  lemma {:induction false} PairGroupsLength(fpr: seq<byte>, i: nat)
    requires |fpr| == 20 && i % 2 == 0 && i <= 20
    ensures |PairGroups(fpr, i)| == 5 * (20 - i) / 2 + (if i <= 10 then 1 else 0)
    decreases 20 - i
  {
    if i < 20 {
      PairGroupsLength(fpr, i + 2);
    }
  }

  /** The line is 74 characters for a 20-byte fingerprint (ten groups of
      five and one extra space); for n other bytes it is 23 + 3n characters
      plus one extra space for each of bytes 8, 16, ... */
  lemma FingerprintLength(fpr: seq<byte>)
    ensures |fpr| == 20 ==> |FingerprintText(fpr)| == 74
    ensures |fpr| != 20 ==>
              |FingerprintText(fpr)| == 23 + 3 * |fpr| + (if |fpr| == 0 then 0 else (|fpr| - 1) / 8)
  {
    if |fpr| == 20 {
      PairGroupsLength(fpr, 0);
    } else {
      ByteGroupsLength(fpr, 0);
      if |fpr| > 0 { ExtraSpacesClosed(|fpr|); }
    }
  }

  // ---- list_node ----

  /** The line printed for a signature, given whether it was checked and
      the check's result: a status character, then the error text on '%',
      nothing on '?' and the signer's user id otherwise. */
  function SigLineFor(checkSigs: bool, rc: Rc, keyid: nat): (l: ListLine)
    ensures l.SigLine? && l.status == SigStatusChar(checkSigs, rc) && l.keyid == keyid
    ensures l.detail.ErrText? <==> checkSigs && rc !in {Ok, Fail(BadSign), Fail(NoPubkey)}
    ensures l.detail.NoDetail? <==> checkSigs && rc == Fail(NoPubkey)
    ensures l.detail.ErrText? ==> l.detail.rc == rc
    ensures l.detail.SignerName? ==> l.detail.keyid == keyid
  {
    var ch := SigStatusChar(checkSigs, rc);
    SigLine(ch, keyid, if ch == '%' then ErrText(rc) else if ch == '?' then NoDetail else SignerName(keyid))
  }

  /** list_node for the signature at index k: nothing unless signatures are
      listed; checked only when checking is on. */
  function ListSig(env: Env, st: State, k: nat): (r: State)
    requires k < |st.list| && st.list[k].Signature? && st.halt.None?
    ensures Framed(st, r)
    ensures !env.opt.listSigs ==> r == st
    ensures env.opt.listSigs && !env.opt.checkSigs ==>
              r.trace == st.trace + [Out(SigLineFor(false, Ok, st.list[k].sig.keyid))] && r.halt.None?
    ensures env.opt.listSigs && env.opt.checkSigs && DoCheckSig(env.io, st.list, k, st.md).Checked? ==>
              var c := DoCheckSig(env.io, st.list, k, st.md);
              r.trace == st.trace + c.log + [Out(SigLineFor(true, c.rc, st.list[k].sig.keyid))] && r.halt.None?
    ensures env.opt.listSigs && env.opt.checkSigs && DoCheckSig(env.io, st.list, k, st.md).Crash? ==>
              r.trace == st.trace && r.halt == Some(Crashed(DoCheckSig(env.io, st.list, k, st.md).fault))
  {
    var keyid := st.list[k].sig.keyid;
    if !env.opt.listSigs then st
    else if env.opt.checkSigs then
      match DoCheckSig(env.io, st.list, k, st.md)
      case Crash(f) => st.(halt := Some(Crashed(f)))
      case Checked(rc, log) => Emit(EmitAll(st, log), Out(SigLineFor(true, rc, keyid)))
    else Emit(st, Out(SigLineFor(false, Ok, keyid)))
  }

  /** The inner loop under one user id: the signatures from index n up to
      the next user id. */
  function ListUidSigs(env: Env, st: State, n: nat): (r: State)
    decreases |st.list| - n
    ensures Framed(st, r)
    ensures st.halt.Some? ==> r == st
  {
    if n >= |st.list| || st.halt.Some? then st
    else if st.list[n].UserId? then st
    else if st.list[n].Signature? then ListUidSigs(env, ListSig(env, st, n), n + 1)
    else ListUidSigs(env, st, n + 1)
  }

  /** The outer loop over a public certificate's nodes from index node on;
      `any` says whether a user id was already printed. */
  function ListCertNodes(env: Env, st: State, node: nat, any: bool, fpr: seq<byte>): (r: (State, bool))
    decreases |st.list| - node
    ensures Framed(st, r.0)
    ensures st.halt.Some? ==> r == (st, any)
    ensures any ==> r.1
  {
    if node >= |st.list| || st.halt.Some? then (st, any)
    else if st.list[node].UserId? then
      var printed := Emit(st, Out(UserIdLine(any, st.list[node].name)));
      var withFpr := if env.opt.fingerprint && !any then Emit(printed, Out(FingerprintLine(FingerprintText(fpr)))) else printed;
      ListCertNodes(env, ListUidSigs(env, withFpr, node + 1), node + 1, true, fpr)
    else ListCertNodes(env, st, node + 1, any, fpr)
  }

  /** The loop over a secret certificate's user ids after index i. */
  function ListSecretUids(env: Env, st: State, i: nat, any: bool, fpr: seq<byte>): (r: (State, bool))
    decreases |st.list| - i
    ensures Framed(st, r.0) && r.0.halt == st.halt
    ensures any ==> r.1
  {
    match FindNext(st.list, i, UserIdPkt)
    case None => (st, any)
    case Some(j) =>
      var printed := Emit(st, Out(UserIdLine(false, st.list[j].name)));
      var withFpr := if env.opt.fingerprint && !any then Emit(printed, Out(FingerprintLine(FingerprintText(fpr)))) else printed;
      ListSecretUids(env, withFpr, j, true, fpr)
  }

  /** The PUBLIC_CERT branch of list_node: the header, every user id with
      the signatures under it, and an error line if there was no user id. */
  function ListPublicCert(env: Env, st: State, k: nat): (r: State)
    requires k < |st.list| && st.list[k].PublicCert? && st.halt.None?
    ensures Framed(st, r)
  {
    var cert := st.list[k];
    var (s, any) := ListCertNodes(env, Emit(st, Out(PubHeader(cert.keyid, cert.pubkeyAlgo))), k + 1, false, cert.fingerprint);
    if s.halt.Some? || any then s else Emit(s, Out(NoUserIdLine))
  }

  /** The SECRET_CERT branch of list_node: the header, every user id, and
      an error line if there was none. */
  function ListSecretCert(env: Env, st: State, k: nat): (r: State)
    requires k < |st.list| && st.list[k].SecretCert? && st.halt.None?
    ensures Framed(st, r) && r.halt.None?
  {
    var cert := st.list[k];
    var (s, any) := ListSecretUids(env, Emit(st, Out(SecHeader(cert.keyid, cert.pubkeyAlgo))), k, false, cert.fingerprint);
    if any then s else Emit(s, Out(NoUserIdLine))
  }

  /** list_node(c, node) for the node at index k of the current list. */
  function ListNode(env: Env, st: State, k: nat): (r: State)
    requires k < |st.list| && st.halt.None?
    ensures Framed(st, r)
    ensures st.list[k].PublicCert? ==> r == ListPublicCert(env, st, k)
    ensures st.list[k].SecretCert? ==> r == ListSecretCert(env, st, k)
    ensures st.list[k].Signature? ==> r == ListSig(env, st, k)
    ensures st.list[k].Type() !in {PublicCertPkt, SecretCertPkt, SignaturePkt} ==>
              r == Emit(st, Error(InvalidNode(st.list[k].Type())))
  {
    match st.list[k]
    case PublicCert(_, _, _, _) => ListPublicCert(env, st, k)
    case SecretCert(_, _, _) => ListSecretCert(env, st, k)
    case Signature(_) => ListSig(env, st, k)
    case _ => Emit(st, Error(InvalidNode(st.list[k].Type())))
  }

  // ---- What a listing contains ----

  /** How the process ended, given the fault that ended it, if any. */
  function Halted(fault: Option<Fault>): Option<Halt> {
    if fault.Some? then Some(Crashed(fault.value)) else None
  }

  /** What list_node writes for the signatures from index n up to the next
      user id, in list order, and the fault that ended the process, if one
      did: for each signature the check's log (when checking is on) and
      its line. Nothing when signatures are not listed. */
  function SigListing(env: Env, list: seq<Packet>, md: Option<Digest>, n: nat): (r: (seq<Event>, Option<Fault>))
    decreases |list| - n
    ensures !env.opt.listSigs ==> r == ([], None)
  {
    if n >= |list| || list[n].UserId? then ([], None)
    else if !list[n].Signature? || !env.opt.listSigs then SigListing(env, list, md, n + 1)
    else
      var keyid := list[n].sig.keyid;
      var check := if env.opt.checkSigs then DoCheckSig(env.io, list, n, md) else Checked(Ok, []);
      match check
      case Crash(f) => ([], Some(f))
      case Checked(rc, log) =>
        var rest := SigListing(env, list, md, n + 1);
        (log + [Out(SigLineFor(env.opt.checkSigs, rc, keyid))] + rest.0, rest.1)
  }

  /** Listing signatures writes only check errors and signature lines. */
  lemma {:induction false} SigListingKinds(env: Env, list: seq<Packet>, md: Option<Digest>, n: nat)
    ensures forall e :: e in SigListing(env, list, md, n).0 ==> e.Error? || (e.Out? && e.line.SigLine?)
    decreases |list| - n
  {
    if n < |list| && !list[n].UserId? {
      SigListingKinds(env, list, md, n + 1);
      if list[n].Signature? && env.opt.listSigs && env.opt.checkSigs {
        var c := DoCheckSig(env.io, list, n, md);
        assert c.Checked? ==> forall e :: e in c.log ==> e.Error?;
      }
    }
  }

  /** The signature nodes from index n up to the next user id, in list
      order: the nodes the inner loop of list_node passes to itself. */
  function SigsBeforeUserId(list: seq<Packet>, n: nat): (js: seq<nat>)
    decreases |list| - n
    ensures forall m :: 0 <= m < |js| ==> n <= js[m] < |list| && list[js[m]].Signature?
  {
    if n >= |list| || list[n].UserId? then []
    else if list[n].Signature? then [n] + SigsBeforeUserId(list, n + 1)
    else SigsBeforeUserId(list, n + 1)
  }

  /** The signature lines of a trace, in order. */
  function SigLines(t: seq<Event>): seq<ListLine> {
    if t == [] then []
    else (if t[0].Out? && t[0].line.SigLine? then [t[0].line] else []) + SigLines(t[1..])
  }

  lemma {:induction false} SigLinesAppend(a: seq<Event>, b: seq<Event>)
    ensures SigLines(a + b) == SigLines(a) + SigLines(b)
    decreases |a|
  {
    if a == [] {
      assert a + b == b;
    } else {
      assert (a + b)[0] == a[0] && (a + b)[1..] == a[1..] + b;
      SigLinesAppend(a[1..], b);
    }
  }

  lemma {:induction false} NoSigLines(t: seq<Event>)
    requires forall e :: e in t ==> e.Error?
    ensures SigLines(t) == []
    decreases |t|
  {
    if t != [] {
      assert t[0] in t;
      assert forall e :: e in t[1..] ==> e in t;
      NoSigLines(t[1..]);
    }
  }

  /** ls are the lines list_node prints for the signatures at indices js,
      in that order: the key id of each and the verdict of its check, or
      the blank status when checking is off. */
  predicate ListedAs(env: Env, list: seq<Packet>, md: Option<Digest>, js: seq<nat>, ls: seq<ListLine>)
    requires forall m :: 0 <= m < |js| ==> js[m] < |list| && list[js[m]].Signature?
  {
    |ls| == |js| &&
    forall m :: 0 <= m < |js| ==>
      (env.opt.checkSigs ==> DoCheckSig(env.io, list, js[m], md).Checked?) &&
      ls[m] == SigLineFor(env.opt.checkSigs,
                          if env.opt.checkSigs then DoCheckSig(env.io, list, js[m], md).rc else Ok,
                          list[js[m]].sig.keyid)
  }

  /** Which signatures are listed: when no check crashed, the listing holds
      one signature line per signature node before the next user id, in
      list order, each carrying that signature's key id and the verdict of
      its check (or the blank status when checking is off). */
  lemma {:induction false} SignaturesListedInOrder(env: Env, list: seq<Packet>, md: Option<Digest>, n: nat)
    requires env.opt.listSigs && SigListing(env, list, md, n).1.None?
    ensures ListedAs(env, list, md, SigsBeforeUserId(list, n), SigLines(SigListing(env, list, md, n).0))
    decreases |list| - n
  {
    if n >= |list| || list[n].UserId? {
    } else if !list[n].Signature? {
      SignaturesListedInOrder(env, list, md, n + 1);
    } else {
      SignaturesListedInOrder(env, list, md, n + 1);
      SignaturesListedStep(env, list, md, n);
    }
  }

  lemma SignaturesListedStep(env: Env, list: seq<Packet>, md: Option<Digest>, n: nat)
    requires n < |list| && list[n].Signature? && env.opt.listSigs && SigListing(env, list, md, n).1.None?
    requires ListedAs(env, list, md, SigsBeforeUserId(list, n + 1), SigLines(SigListing(env, list, md, n + 1).0))
    ensures ListedAs(env, list, md, SigsBeforeUserId(list, n), SigLines(SigListing(env, list, md, n).0))
  {
    var check := if env.opt.checkSigs then DoCheckSig(env.io, list, n, md) else Checked(Ok, []);
    var line := SigLineFor(env.opt.checkSigs, check.rc, list[n].sig.keyid);
    var rest := SigListing(env, list, md, n + 1);
    assert SigListing(env, list, md, n).0 == check.log + [Out(line)] + rest.0;
    SigLinesAppend(check.log + [Out(line)], rest.0);
    SigLinesAppend(check.log, [Out(line)]);
    NoSigLines(check.log);
    assert SigLines([Out(line)]) == [line];
    ListedAsCons(env, list, md, n, SigsBeforeUserId(list, n + 1), line, SigLines(rest.0));
  }

  lemma ListedAsCons(env: Env, list: seq<Packet>, md: Option<Digest>, j: nat, js: seq<nat>, l: ListLine, ls: seq<ListLine>)
    requires j < |list| && list[j].Signature?
    requires forall m :: 0 <= m < |js| ==> js[m] < |list| && list[js[m]].Signature?
    requires ListedAs(env, list, md, js, ls)
    requires env.opt.checkSigs ==> DoCheckSig(env.io, list, j, md).Checked?
    requires l == SigLineFor(env.opt.checkSigs, if env.opt.checkSigs then DoCheckSig(env.io, list, j, md).rc else Ok, list[j].sig.keyid)
    ensures ListedAs(env, list, md, [j] + js, [l] + ls)
  {
    var js', ls' := [j] + js, [l] + ls;
    assert forall m :: 1 <= m < |js'| ==> js'[m] == js[m - 1] && ls'[m] == ls[m - 1];
  }

  /** Under a user id, list_node writes exactly SigListing: the signatures
      up to the next user id are listed in list order, each checked when
      checking is on, and a crash in a check ends the listing. */
  lemma {:induction false} UidSignaturesListed(env: Env, st: State, n: nat)
    requires st.halt.None?
    ensures ListUidSigs(env, st, n) ==
            st.(trace := st.trace + SigListing(env, st.list, st.md, n).0,
                halt := Halted(SigListing(env, st.list, st.md, n).1))
    decreases |st.list| - n
  {
    if n < |st.list| && !st.list[n].UserId? {
      var s := if st.list[n].Signature? && env.opt.listSigs then ListSig(env, st, n) else st;
      if s.halt.None? {
        UidSignaturesListed(env, s, n + 1);
      }
      UidSignaturesStep(env, st, n);
    } else {
      assert st.trace + [] == st.trace;
    }
  }

  lemma UidSignaturesStep(env: Env, st: State, n: nat)
    requires n < |st.list| && !st.list[n].UserId? && st.halt.None?
    requires var s := if st.list[n].Signature? && env.opt.listSigs then ListSig(env, st, n) else st;
             s.halt.None? ==>
               ListUidSigs(env, s, n + 1) ==
               s.(trace := s.trace + SigListing(env, s.list, s.md, n + 1).0,
                  halt := Halted(SigListing(env, s.list, s.md, n + 1).1))
    ensures ListUidSigs(env, st, n) ==
            st.(trace := st.trace + SigListing(env, st.list, st.md, n).0,
                halt := Halted(SigListing(env, st.list, st.md, n).1))
  {
    if st.list[n].Signature? && env.opt.listSigs {
      var s := ListSig(env, st, n);
      assert ListUidSigs(env, st, n) == ListUidSigs(env, s, n + 1);
      SigListed(env, st, n);
      if s.halt.None? {
        SeqAssoc(st.trace, s.trace[|st.trace|..], SigListing(env, st.list, st.md, n + 1).0);
      }
    } else {
      if st.list[n].Signature? {
        assert ListSig(env, st, n) == st;
      }
      assert ListUidSigs(env, st, n) == ListUidSigs(env, st, n + 1);
    }
  }


  /** One listed signature: what ListSig writes is the head of SigListing,
      or the crash that ends it. */
  lemma SigListed(env: Env, st: State, n: nat)
    requires n < |st.list| && st.list[n].Signature? && env.opt.listSigs && st.halt.None?
    ensures var s := ListSig(env, st, n);
            var rest := SigListing(env, st.list, st.md, n + 1);
            (s.halt.None? ==>
               st.trace <= s.trace &&
               SigListing(env, st.list, st.md, n) == (s.trace[|st.trace|..] + rest.0, rest.1)) &&
            (s.halt.Some? ==>
               s == st.(halt := s.halt) && SigListing(env, st.list, st.md, n) == ([], Some(s.halt.value.fault)) &&
               s.halt.value.Crashed?)
  {
    var s := ListSig(env, st, n);
    if s.halt.None? {
      var keyid := st.list[n].sig.keyid;
      var check := if env.opt.checkSigs then DoCheckSig(env.io, st.list, n, st.md) else Checked(Ok, []);
      assert s.trace[|st.trace|..] == check.log + [Out(SigLineFor(env.opt.checkSigs, check.rc, keyid))];
    }
  }


  /** The names of the user ids at index node or later, in list order. */
  function UserIdsFrom(list: seq<Packet>, node: nat): (names: seq<seq<byte>>)
    decreases |list| - node
  {
    if node >= |list| then []
    else if list[node].UserId? then [list[node].name] + UserIdsFrom(list, node + 1)
    else UserIdsFrom(list, node + 1)
  }

  /** There are no user ids to print exactly when no node from node on is
      a user id. */
  lemma {:induction false} UserIdsNone(list: seq<Packet>, node: nat)
    ensures UserIdsFrom(list, node) == [] <==> forall j :: node <= j < |list| ==> !list[j].UserId?
    decreases |list| - node
  {
    if node < |list| {
      UserIdsNone(list, node + 1);
    }
  }

  /** When a user id follows node, FindNext finds the first of them. */
  lemma {:induction false} FirstUserId(list: seq<Packet>, node: nat)
    requires UserIdsFrom(list, node + 1) != []
    ensures FindNext(list, node, UserIdPkt).Some?
    ensures list[FindNext(list, node, UserIdPkt).value].name == UserIdsFrom(list, node + 1)[0]
    decreases |list| - node
  {
    if !list[node + 1].UserId? {
      FirstUserId(list, node + 1);
    }
  }

  lemma {:induction false} UserIdsSkip(list: seq<Packet>, a: nat, b: nat)
    requires a <= b <= |list| && forall j :: a <= j < b ==> !list[j].UserId?
    ensures UserIdsFrom(list, a) == UserIdsFrom(list, b)
    decreases b - a
  {
    if a < b {
      UserIdsSkip(list, a + 1, b);
    }
  }

  /** The user-id lines of a public certificate: every one after the
      first printed is indented. */
  function IndentedUserIds(names: seq<seq<byte>>, any: bool): (lines: seq<ListLine>)
    ensures |lines| == |names|
  {
    if names == [] then [] else [UserIdLine(any, names[0])] + IndentedUserIds(names[1..], true)
  }

  lemma IndentedCons(name: seq<byte>, names: seq<seq<byte>>, any: bool)
    ensures IndentedUserIds([name] + names, any) == [UserIdLine(any, name)] + IndentedUserIds(names, true)
  {
    assert ([name] + names)[1..] == names;
  }

  /** Line m of a public certificate's user ids names its m-th user id and
      is indented unless it is the first printed. */
  lemma {:induction false} IndentedAt(names: seq<seq<byte>>, any: bool, m: nat)
    requires m < |names|
    ensures IndentedUserIds(names, any)[m] == UserIdLine(any || m > 0, names[m])
  {
    if m > 0 {
      IndentedAt(names[1..], true, m - 1);
    }
  }

  /** The user-id lines of a secret certificate: none is indented. */
  function PlainUserIds(names: seq<seq<byte>>): (lines: seq<ListLine>)
    ensures |lines| == |names|
  {
    if names == [] then [] else [UserIdLine(false, names[0])] + PlainUserIds(names[1..])
  }

  lemma PlainCons(name: seq<byte>, names: seq<seq<byte>>)
    ensures PlainUserIds([name] + names) == [UserIdLine(false, name)] + PlainUserIds(names)
  {
    assert ([name] + names)[1..] == names;
  }

  /** Line m of a secret certificate's user ids names its m-th user id,
      unindented. */
  lemma {:induction false} PlainAt(names: seq<seq<byte>>, m: nat)
    requires m < |names|
    ensures PlainUserIds(names)[m] == UserIdLine(false, names[m])
  {
    if m > 0 {
      PlainAt(names[1..], m - 1);
    }
  }

  /** The two kinds of listing line whose order the properties below
      follow. */
  datatype LineKind = UserIdLines | FingerprintLines

  predicate Kept(kind: LineKind, l: ListLine) {
    match kind
    case UserIdLines => l.UserIdLine?
    case FingerprintLines => l.FingerprintLine?
  }

  /** The listing lines of the given kind in a trace, in order. */
  function Lines(t: seq<Event>, kind: LineKind): (r: seq<ListLine>)
    ensures |r| <= |t|
  {
    if t == [] then []
    else Lines(t[..|t| - 1], kind) + (if t[|t| - 1].Out? && Kept(kind, t[|t| - 1].line) then [t[|t| - 1].line] else [])
  }

  lemma {:induction false} LinesAppend(a: seq<Event>, b: seq<Event>, kind: LineKind)
    ensures Lines(a + b, kind) == Lines(a, kind) + Lines(b, kind)
    decreases |b|
  {
    if b == [] {
      assert a + b == a;
    } else {
      var b' := b[..|b| - 1];
      assert (a + b)[..|a + b| - 1] == a + b';
      LinesAppend(a, b', kind);
    }
  }

  lemma LinesOne(e: Event, kind: LineKind)
    ensures Lines([e], kind) == (if e.Out? && Kept(kind, e.line) then [e.line] else [])
  {
    assert [e][..0] == [];
  }

  lemma {:induction false} LinesNone(t: seq<Event>, kind: LineKind)
    requires forall e :: e in t ==> !(e.Out? && Kept(kind, e.line))
    ensures Lines(t, kind) == []
    decreases |t|
  {
    if t != [] {
      assert t[|t| - 1] in t;
      assert forall e :: e in t[..|t| - 1] ==> e in t;
      LinesNone(t[..|t| - 1], kind);
    }
  }

  /** The kinds of event a certificate's user-id loop writes. */
  predicate CertOutput(e: Event) {
    e.Error? || (e.Out? && (e.line.SigLine? || e.line.UserIdLine? || e.line.FingerprintLine?))
  }

  /** Signature output holds no user-id or fingerprint line. */
  lemma SigsHaveNoLines(sigs: seq<Event>, kind: LineKind)
    requires forall e :: e in sigs ==> e.Error? || (e.Out? && e.line.SigLine?)
    ensures Lines(sigs, kind) == []
  {
    LinesNone(sigs, kind);
  }

  /** The optional fingerprint line of a block. */
  lemma FingerprintPart(fline: seq<Event>, kind: LineKind)
    requires fline == [] || (|fline| == 1 && fline[0].Out? && fline[0].line.FingerprintLine?)
    ensures Lines(fline, kind) == (if fline == [] || kind == UserIdLines then [] else [fline[0].line])
  {
    if fline == [] {
      LinesNone(fline, kind);
    } else {
      assert fline == [fline[0]];
      LinesOne(fline[0], kind);
    }
  }

  /** The lines of one user-id block: the user id, the optional fingerprint
      line, then signature output. */
  lemma BlockLinesOf(line: ListLine, fline: seq<Event>, sigs: seq<Event>, kind: LineKind)
    requires line.UserIdLine?
    requires fline == [] || (|fline| == 1 && fline[0].Out? && fline[0].line.FingerprintLine?)
    requires forall e :: e in sigs ==> e.Error? || (e.Out? && e.line.SigLine?)
    ensures Lines([Out(line)] + fline + sigs, kind) ==
            (if kind == UserIdLines then [line] else if fline == [] then [] else [fline[0].line])
  {
    LinesAppend([Out(line)] + fline, sigs, kind);
    LinesAppend([Out(line)], fline, kind);
    LinesOne(Out(line), kind);
    FingerprintPart(fline, kind);
    SigsHaveNoLines(sigs, kind);
  }

  /** The user-id and fingerprint lines of one printed user id followed by
      an optional fingerprint line and then signature output. */
  lemma BlockLines(t: seq<Event>, line: ListLine, fline: seq<Event>, sigs: seq<Event>)
    requires line.UserIdLine?
    requires fline == [] || (|fline| == 1 && fline[0].Out? && fline[0].line.FingerprintLine?)
    requires forall e :: e in sigs ==> e.Error? || (e.Out? && e.line.SigLine?)
    ensures Lines(t + ([Out(line)] + fline + sigs), UserIdLines) == Lines(t, UserIdLines) + [line]
    ensures Lines(t + ([Out(line)] + fline + sigs), FingerprintLines) ==
            Lines(t, FingerprintLines) + (if fline == [] then [] else [fline[0].line])
  {
    var block := [Out(line)] + fline + sigs;
    LinesAppend(t, block, UserIdLines);
    BlockLinesOf(line, fline, sigs, UserIdLines);
    LinesAppend(t, block, FingerprintLines);
    BlockLinesOf(line, fline, sigs, FingerprintLines);
  }


  /** The lines of a trace that ends in one more line of another kind. */
  lemma OtherLine(t: seq<Event>, e: Event)
    requires e.Out? && !e.line.UserIdLine? && !e.line.FingerprintLine?
    ensures Lines(t + [e], UserIdLines) == Lines(t, UserIdLines)
    ensures Lines(t + [e], FingerprintLines) == Lines(t, FingerprintLines)
  {
    LinesAppend(t, [e], UserIdLines);
    LinesOne(e, UserIdLines);
    LinesAppend(t, [e], FingerprintLines);
    LinesOne(e, FingerprintLines);
  }

  /** One round of the user-id loop of a public certificate: the user id
      is printed, then the fingerprint if it is the first, then the
      signatures under it. */
  lemma CertNodesStep(env: Env, st: State, node: nat, any: bool, fpr: seq<byte>)
    requires node < |st.list| && st.list[node].UserId? && st.halt.None?
    ensures var fline := if env.opt.fingerprint && !any then [Out(FingerprintLine(FingerprintText(fpr)))] else [];
            var sigs := SigListing(env, st.list, st.md, node + 1);
            var next := st.(trace := st.trace + ([Out(UserIdLine(any, st.list[node].name))] + fline + sigs.0), halt := Halted(sigs.1));
            ListCertNodes(env, st, node, any, fpr) == ListCertNodes(env, next, node + 1, true, fpr) &&
            UserIdsFrom(st.list, node) == [st.list[node].name] + UserIdsFrom(st.list, node + 1)
  {
    var line := Out(UserIdLine(any, st.list[node].name));
    var fline := if env.opt.fingerprint && !any then [Out(FingerprintLine(FingerprintText(fpr)))] else [];
    var sigs := SigListing(env, st.list, st.md, node + 1);
    var withFpr := st.(trace := st.trace + ([line] + fline));
    if env.opt.fingerprint && !any {
      assert Emit(Emit(st, line), fline[0]) == withFpr;
    } else {
      assert Emit(st, line) == withFpr;
    }
    assert ListCertNodes(env, st, node, any, fpr) == ListCertNodes(env, ListUidSigs(env, withFpr, node + 1), node + 1, true, fpr);
    UidSignaturesListed(env, withFpr, node + 1);
    SeqAssoc(st.trace, [line] + fline, sigs.0);
  }

  /** The user-id loop of a public certificate finds a user id exactly when
      one follows (or one was found before). */
  lemma {:induction false} CertNodesFound(env: Env, st: State, node: nat, any: bool, fpr: seq<byte>)
    requires st.halt.None?
    ensures ListCertNodes(env, st, node, any, fpr).1 <==> any || UserIdsFrom(st.list, node) != []
    decreases |st.list| - node
  {
    if node < |st.list| && !st.list[node].UserId? {
      CertNodesFound(env, st, node + 1, any, fpr);
    }
  }

  /** Events a certificate's user-id loop may write, at every index. */
  predicate CertOutputs(t: seq<Event>) {
    forall m :: 0 <= m < |t| ==> CertOutput(t[m])
  }

  lemma CertOutputsAppend(a: seq<Event>, b: seq<Event>)
    requires CertOutputs(a) && CertOutputs(b)
    ensures CertOutputs(a + b)
  {
    assert forall m :: 0 <= m < |a + b| ==> (a + b)[m] == if m < |a| then a[m] else b[m - |a|];
  }

  /** The user-id loop of a public certificate writes only user-id,
      fingerprint and signature lines and check errors. */
  lemma {:induction false} CertNodesOutput(env: Env, st: State, node: nat, any: bool, fpr: seq<byte>)
    ensures CertOutputs(ListCertNodes(env, st, node, any, fpr).0.trace[|st.trace|..])
    decreases |st.list| - node
  {
    if node >= |st.list| || st.halt.Some? {
      assert ListCertNodes(env, st, node, any, fpr).0.trace[|st.trace|..] == [];
    } else if st.list[node].UserId? {
      var fline := if env.opt.fingerprint && !any then [Out(FingerprintLine(FingerprintText(fpr)))] else [];
      var sigs := SigListing(env, st.list, st.md, node + 1);
      var block := [Out(UserIdLine(any, st.list[node].name))] + fline + sigs.0;
      var next := st.(trace := st.trace + block, halt := Halted(sigs.1));
      CertNodesOutput(env, next, node + 1, true, fpr);
      CertNodesOutputStep(env, st, node, any, fpr);
    } else {
      CertNodesOutput(env, st, node + 1, any, fpr);
    }
  }

  lemma CertNodesOutputStep(env: Env, st: State, node: nat, any: bool, fpr: seq<byte>)
    requires node < |st.list| && st.list[node].UserId? && st.halt.None?
    requires var fline := if env.opt.fingerprint && !any then [Out(FingerprintLine(FingerprintText(fpr)))] else [];
             var sigs := SigListing(env, st.list, st.md, node + 1);
             var next := st.(trace := st.trace + ([Out(UserIdLine(any, st.list[node].name))] + fline + sigs.0), halt := Halted(sigs.1));
             CertOutputs(ListCertNodes(env, next, node + 1, true, fpr).0.trace[|next.trace|..])
    ensures CertOutputs(ListCertNodes(env, st, node, any, fpr).0.trace[|st.trace|..])
  {
    var fline := if env.opt.fingerprint && !any then [Out(FingerprintLine(FingerprintText(fpr)))] else [];
    var sigs := SigListing(env, st.list, st.md, node + 1);
    var block := [Out(UserIdLine(any, st.list[node].name))] + fline + sigs.0;
    var next := st.(trace := st.trace + block, halt := Halted(sigs.1));
    var r := ListCertNodes(env, next, node + 1, true, fpr).0;
    CertNodesStep(env, st, node, any, fpr);
    SigListingKinds(env, st.list, st.md, node + 1);
    assert CertOutputs(block);
    SuffixAfter(st.trace, block, r.trace);
    CertOutputsAppend(block, r.trace[|next.trace|..]);
  }



  /** Unless a check crashed, the user-id loop of a public certificate
      prints the user ids in list order, each after the first indented. */
  lemma {:induction false} CertNodesUserIds(env: Env, st: State, node: nat, any: bool, fpr: seq<byte>)
    requires ListCertNodes(env, st, node, any, fpr).0.halt.None?
    ensures Lines(ListCertNodes(env, st, node, any, fpr).0.trace, UserIdLines) ==
            Lines(st.trace, UserIdLines) + IndentedUserIds(UserIdsFrom(st.list, node), any)
    decreases |st.list| - node
  {
    if node >= |st.list| {
    } else if st.list[node].UserId? {
      var fline := if env.opt.fingerprint && !any then [Out(FingerprintLine(FingerprintText(fpr)))] else [];
      var sigs := SigListing(env, st.list, st.md, node + 1);
      var next := st.(trace := st.trace + ([Out(UserIdLine(any, st.list[node].name))] + fline + sigs.0), halt := Halted(sigs.1));
      CertNodesStep(env, st, node, any, fpr);
      CertNodesUserIds(env, next, node + 1, true, fpr);
      CertNodesUserIdsStep(env, st, node, any, fpr);
    } else {
      CertNodesUserIds(env, st, node + 1, any, fpr);
    }
  }

  lemma CertNodesUserIdsStep(env: Env, st: State, node: nat, any: bool, fpr: seq<byte>)
    requires node < |st.list| && st.list[node].UserId? && st.halt.None?
    requires var fline := if env.opt.fingerprint && !any then [Out(FingerprintLine(FingerprintText(fpr)))] else [];
             var sigs := SigListing(env, st.list, st.md, node + 1);
             var next := st.(trace := st.trace + ([Out(UserIdLine(any, st.list[node].name))] + fline + sigs.0), halt := Halted(sigs.1));
             Lines(ListCertNodes(env, next, node + 1, true, fpr).0.trace, UserIdLines) ==
             Lines(next.trace, UserIdLines) + IndentedUserIds(UserIdsFrom(st.list, node + 1), true)
    ensures Lines(ListCertNodes(env, st, node, any, fpr).0.trace, UserIdLines) ==
            Lines(st.trace, UserIdLines) + IndentedUserIds(UserIdsFrom(st.list, node), any)
  {
    var name := st.list[node].name;
    var fline := if env.opt.fingerprint && !any then [Out(FingerprintLine(FingerprintText(fpr)))] else [];
    var sigs := SigListing(env, st.list, st.md, node + 1);
    var next := st.(trace := st.trace + ([Out(UserIdLine(any, name))] + fline + sigs.0), halt := Halted(sigs.1));
    var rest := UserIdsFrom(st.list, node + 1);
    CertNodesStep(env, st, node, any, fpr);
    calc {
      Lines(ListCertNodes(env, st, node, any, fpr).0.trace, UserIdLines);
      Lines(ListCertNodes(env, next, node + 1, true, fpr).0.trace, UserIdLines);
      Lines(next.trace, UserIdLines) + IndentedUserIds(rest, true);
      { SigListingKinds(env, st.list, st.md, node + 1);
        BlockLines(st.trace, UserIdLine(any, name), fline, sigs.0); }
      (Lines(st.trace, UserIdLines) + [UserIdLine(any, name)]) + IndentedUserIds(rest, true);
      { SeqAssoc(Lines(st.trace, UserIdLines), [UserIdLine(any, name)], IndentedUserIds(rest, true)); }
      Lines(st.trace, UserIdLines) + ([UserIdLine(any, name)] + IndentedUserIds(rest, true));
      { IndentedCons(name, rest, any); }
      Lines(st.trace, UserIdLines) + IndentedUserIds(UserIdsFrom(st.list, node), any);
    }
  }


  /** Unless a check crashed, the user-id loop of a public certificate
      prints the fingerprint once, after the first user id, when
      fingerprints are on and no user id was printed yet. */
  lemma {:induction false} CertNodesFingerprints(env: Env, st: State, node: nat, any: bool, fpr: seq<byte>)
    requires ListCertNodes(env, st, node, any, fpr).0.halt.None?
    ensures Lines(ListCertNodes(env, st, node, any, fpr).0.trace, FingerprintLines) ==
            Lines(st.trace, FingerprintLines) +
              (if env.opt.fingerprint && !any && UserIdsFrom(st.list, node) != [] then [FingerprintLine(FingerprintText(fpr))] else [])
    decreases |st.list| - node
  {
    if node >= |st.list| {
    } else if st.list[node].UserId? {
      var fline := if env.opt.fingerprint && !any then [Out(FingerprintLine(FingerprintText(fpr)))] else [];
      var sigs := SigListing(env, st.list, st.md, node + 1);
      var next := st.(trace := st.trace + ([Out(UserIdLine(any, st.list[node].name))] + fline + sigs.0), halt := Halted(sigs.1));
      CertNodesStep(env, st, node, any, fpr);
      CertNodesFingerprints(env, next, node + 1, true, fpr);
      CertNodesFingerprintsStep(env, st, node, any, fpr);
    } else {
      CertNodesFingerprints(env, st, node + 1, any, fpr);
    }
  }

  lemma CertNodesFingerprintsStep(env: Env, st: State, node: nat, any: bool, fpr: seq<byte>)
    requires node < |st.list| && st.list[node].UserId? && st.halt.None?
    requires var fline := if env.opt.fingerprint && !any then [Out(FingerprintLine(FingerprintText(fpr)))] else [];
             var sigs := SigListing(env, st.list, st.md, node + 1);
             var next := st.(trace := st.trace + ([Out(UserIdLine(any, st.list[node].name))] + fline + sigs.0), halt := Halted(sigs.1));
             Lines(ListCertNodes(env, st, node, any, fpr).0.trace, FingerprintLines) ==
             Lines(ListCertNodes(env, next, node + 1, true, fpr).0.trace, FingerprintLines) == Lines(next.trace, FingerprintLines)
    requires UserIdsFrom(st.list, node) != []
    ensures Lines(ListCertNodes(env, st, node, any, fpr).0.trace, FingerprintLines) ==
            Lines(st.trace, FingerprintLines) +
              (if env.opt.fingerprint && !any then [FingerprintLine(FingerprintText(fpr))] else [])
  {
    var fline := if env.opt.fingerprint && !any then [Out(FingerprintLine(FingerprintText(fpr)))] else [];
    var sigs := SigListing(env, st.list, st.md, node + 1);
    SigListingKinds(env, st.list, st.md, node + 1);
    BlockLines(st.trace, UserIdLine(any, st.list[node].name), fline, sigs.0);
  }

  /** Nodes after which no user id follows print nothing: signatures that
      come before the first user id of a certificate are not listed. */
  lemma {:induction false} NothingWithoutUserId(env: Env, st: State, node: nat, any: bool, fpr: seq<byte>)
    requires forall j :: node <= j < |st.list| ==> !st.list[j].UserId?
    ensures ListCertNodes(env, st, node, any, fpr) == (st, any)
    decreases |st.list| - node
  {
    if node < |st.list| && st.halt.None? {
      NothingWithoutUserId(env, st, node + 1, any, fpr);
    }
  }

  /** list_node on a public certificate: the header comes first, and "no
      user id" is printed exactly when no user id follows the
      certificate. */
  lemma PublicCertHeader(env: Env, st: State, k: nat)
    requires k < |st.list| && st.list[k].PublicCert? && st.halt.None?
    ensures var r := ListPublicCert(env, st, k);
            var hdr := Out(PubHeader(st.list[k].keyid, st.list[k].pubkeyAlgo));
            |st.trace| < |r.trace| && r.trace[|st.trace|] == hdr &&
            (UserIdsFrom(st.list, k + 1) == [] ==> r.trace == st.trace + [hdr, Out(NoUserIdLine)] && r.halt.None?) &&
            (UserIdsFrom(st.list, k + 1) != [] ==> Out(NoUserIdLine) !in r.trace[|st.trace| + 1..])
  {
    var cert := st.list[k];
    var s0 := Emit(st, Out(PubHeader(cert.keyid, cert.pubkeyAlgo)));
    var res := ListCertNodes(env, s0, k + 1, false, cert.fingerprint);
    var r := ListPublicCert(env, st, k);
    assert s0.trace <= res.0.trace;
    CertNodesFound(env, s0, k + 1, false, cert.fingerprint);
    UserIdsNone(st.list, k + 1);
    if UserIdsFrom(st.list, k + 1) == [] {
      NothingWithoutUserId(env, s0, k + 1, false, cert.fingerprint);
    } else {
      CertNodesOutput(env, s0, k + 1, false, cert.fingerprint);
      assert r == res.0;
      var tail := r.trace[|st.trace| + 1..];
      assert tail == res.0.trace[|s0.trace|..];
      assert forall m :: 0 <= m < |tail| ==> tail[m] != Out(NoUserIdLine);
    }
  }

  /** With fingerprints on and no user id printed yet, the user-id loop of
      a public certificate starts with the first user id and the
      fingerprint. */
  lemma {:induction false} CertNodesFirst(env: Env, st: State, node: nat, fpr: seq<byte>)
    requires env.opt.fingerprint && st.halt.None? && UserIdsFrom(st.list, node) != []
    ensures st.trace + [Out(UserIdLine(false, UserIdsFrom(st.list, node)[0])), Out(FingerprintLine(FingerprintText(fpr)))]
            <= ListCertNodes(env, st, node, false, fpr).0.trace
    decreases |st.list| - node
  {
    if st.list[node].UserId? {
      CertNodesStep(env, st, node, false, fpr);
      var sigs := SigListing(env, st.list, st.md, node + 1);
      var first := [Out(UserIdLine(false, st.list[node].name)), Out(FingerprintLine(FingerprintText(fpr)))];
      var next := st.(trace := st.trace + ([first[0]] + [first[1]] + sigs.0), halt := Halted(sigs.1));
      assert next.trace <= ListCertNodes(env, next, node + 1, true, fpr).0.trace;
      assert st.trace + first <= next.trace;
    } else {
      CertNodesFirst(env, st, node + 1, fpr);
    }
  }

  /** With fingerprints on, the first user id of a public certificate is
      printed right after the header and followed by the fingerprint. */
  lemma PublicCertFingerprint(env: Env, st: State, k: nat)
    requires k < |st.list| && st.list[k].PublicCert? && st.halt.None?
    requires env.opt.fingerprint && UserIdsFrom(st.list, k + 1) != []
    ensures var r := ListPublicCert(env, st, k);
            var cert := st.list[k];
            |st.trace| + 3 <= |r.trace| &&
            r.trace[|st.trace|..|st.trace| + 3] ==
            [Out(PubHeader(cert.keyid, cert.pubkeyAlgo)), Out(UserIdLine(false, UserIdsFrom(st.list, k + 1)[0])),
             Out(FingerprintLine(FingerprintText(cert.fingerprint)))]
  {
    var cert := st.list[k];
    var hdr := Out(PubHeader(cert.keyid, cert.pubkeyAlgo));
    var s0 := Emit(st, hdr);
    CertNodesFirst(env, s0, k + 1, cert.fingerprint);
    CertNodesFound(env, s0, k + 1, false, cert.fingerprint);
    assert ListPublicCert(env, st, k) == ListCertNodes(env, s0, k + 1, false, cert.fingerprint).0;
  }


  /** Unless a check crashed, list_node on a public certificate prints its
      user ids in list order, each after the first indented, and exactly
      one fingerprint line when fingerprints are on and there is a user
      id. */
  lemma PublicCertLines(env: Env, st: State, k: nat)
    requires k < |st.list| && st.list[k].PublicCert? && st.halt.None?
    requires ListPublicCert(env, st, k).halt.None?
    ensures var r := ListPublicCert(env, st, k);
            var ns := UserIdsFrom(st.list, k + 1);
            Lines(r.trace, UserIdLines) == Lines(st.trace, UserIdLines) + IndentedUserIds(ns, false) &&
            Lines(r.trace, FingerprintLines) == Lines(st.trace, FingerprintLines) +
              (if env.opt.fingerprint && ns != [] then [FingerprintLine(FingerprintText(st.list[k].fingerprint))] else [])
  {
    var cert := st.list[k];
    var hdr := Out(PubHeader(cert.keyid, cert.pubkeyAlgo));
    var s0 := Emit(st, hdr);
    var res := ListCertNodes(env, s0, k + 1, false, cert.fingerprint);
    assert res.0.halt.None?;
    CertNodesUserIds(env, s0, k + 1, false, cert.fingerprint);
    CertNodesFingerprints(env, s0, k + 1, false, cert.fingerprint);
    OtherLine(st.trace, hdr);
    if !res.1 {
      OtherLine(res.0.trace, Out(NoUserIdLine));
    }
  }

  /** The user-id loop of a secret certificate after index i finds a user
      id exactly when one follows (or one was found before). */
  lemma {:induction false} SecretUidsFound(env: Env, st: State, i: nat, any: bool, fpr: seq<byte>)
    ensures ListSecretUids(env, st, i, any, fpr).1 <==> any || UserIdsFrom(st.list, i + 1) != []
    decreases |st.list| - i
  {
    if FindNext(st.list, i, UserIdPkt).Some? {
      var j := FindNext(st.list, i, UserIdPkt).value;
      var fline := if env.opt.fingerprint && !any then [Out(FingerprintLine(FingerprintText(fpr)))] else [];
      var next := st.(trace := st.trace + ([Out(UserIdLine(false, st.list[j].name))] + fline + []));
      SecretUidsStep(env, st, i, any, fpr);
      SecretUidsFound(env, next, j, true, fpr);
    } else {
      assert forall k :: i + 1 <= k < |st.list| ==> !st.list[k].UserId?;
      UserIdsNone(st.list, i + 1);
    }
  }


  /** Events that are user-id or fingerprint lines. */
  predicate UidOrFingerprint(t: seq<Event>) {
    forall m :: 0 <= m < |t| ==> t[m].Out? && (t[m].line.UserIdLine? || t[m].line.FingerprintLine?)
  }

  /** The user-id loop of a secret certificate prints only user-id and
      fingerprint lines. */
  lemma {:induction false} SecretUidsOutput(env: Env, st: State, i: nat, any: bool, fpr: seq<byte>)
    ensures UidOrFingerprint(ListSecretUids(env, st, i, any, fpr).0.trace[|st.trace|..])
    decreases |st.list| - i
  {
    var r := ListSecretUids(env, st, i, any, fpr).0;
    if FindNext(st.list, i, UserIdPkt).Some? {
      var j := FindNext(st.list, i, UserIdPkt).value;
      var fline := if env.opt.fingerprint && !any then [Out(FingerprintLine(FingerprintText(fpr)))] else [];
      var block := [Out(UserIdLine(false, st.list[j].name))] + fline + [];
      var next := st.(trace := st.trace + block);
      SecretUidsStep(env, st, i, any, fpr);
      SecretUidsOutput(env, next, j, true, fpr);
      SuffixAfter(st.trace, block, r.trace);
      UidOrFingerprintAppend(block, r.trace[|next.trace|..]);
    } else {
      assert r.trace[|st.trace|..] == [];
    }
  }

  lemma UidOrFingerprintAppend(a: seq<Event>, b: seq<Event>)
    requires UidOrFingerprint(a) && UidOrFingerprint(b)
    ensures UidOrFingerprint(a + b)
  {
    assert forall m :: 0 <= m < |a + b| ==> (a + b)[m] == if m < |a| then a[m] else b[m - |a|];
  }


  /** One round of the user-id loop of a secret certificate: the next user
      id is printed, with the fingerprint if it is the first. */
  lemma SecretUidsStep(env: Env, st: State, i: nat, any: bool, fpr: seq<byte>)
    requires FindNext(st.list, i, UserIdPkt).Some?
    ensures var j := FindNext(st.list, i, UserIdPkt).value;
            var fline := if env.opt.fingerprint && !any then [Out(FingerprintLine(FingerprintText(fpr)))] else [];
            var next := st.(trace := st.trace + ([Out(UserIdLine(false, st.list[j].name))] + fline + []));
            ListSecretUids(env, st, i, any, fpr) == ListSecretUids(env, next, j, true, fpr) &&
            UserIdsFrom(st.list, i + 1) == [st.list[j].name] + UserIdsFrom(st.list, j + 1)
  {
    var j := FindNext(st.list, i, UserIdPkt).value;
    var line := Out(UserIdLine(false, st.list[j].name));
    var fline := if env.opt.fingerprint && !any then [Out(FingerprintLine(FingerprintText(fpr)))] else [];
    var next := st.(trace := st.trace + ([line] + fline + []));
    if env.opt.fingerprint && !any {
      assert Emit(Emit(st, line), fline[0]) == next;
    } else {
      assert Emit(st, line) == next;
    }
    assert forall k :: i + 1 <= k < j ==> !st.list[k].UserId?;
    UserIdsSkip(st.list, i + 1, j);
  }


  /** The user-id loop of a secret certificate after index i prints every
      user id after i unindented, in list order. */
  lemma {:induction false} SecretUidsLines(env: Env, st: State, i: nat, any: bool, fpr: seq<byte>)
    ensures Lines(ListSecretUids(env, st, i, any, fpr).0.trace, UserIdLines) ==
            Lines(st.trace, UserIdLines) + PlainUserIds(UserIdsFrom(st.list, i + 1))
    decreases |st.list| - i
  {
    if FindNext(st.list, i, UserIdPkt).Some? {
      var j := FindNext(st.list, i, UserIdPkt).value;
      var fline := if env.opt.fingerprint && !any then [Out(FingerprintLine(FingerprintText(fpr)))] else [];
      var next := st.(trace := st.trace + ([Out(UserIdLine(false, st.list[j].name))] + fline + []));
      SecretUidsLines(env, next, j, true, fpr);
      SecretUidsLinesStep(env, st, i, any, fpr);
    } else {
      assert forall k :: i + 1 <= k < |st.list| ==> !st.list[k].UserId?;
      UserIdsNone(st.list, i + 1);
    }
  }

  lemma SecretUidsLinesStep(env: Env, st: State, i: nat, any: bool, fpr: seq<byte>)
    requires FindNext(st.list, i, UserIdPkt).Some?
    requires var j := FindNext(st.list, i, UserIdPkt).value;
             var fline := if env.opt.fingerprint && !any then [Out(FingerprintLine(FingerprintText(fpr)))] else [];
             var next := st.(trace := st.trace + ([Out(UserIdLine(false, st.list[j].name))] + fline + []));
             Lines(ListSecretUids(env, next, j, true, fpr).0.trace, UserIdLines) ==
             Lines(next.trace, UserIdLines) + PlainUserIds(UserIdsFrom(st.list, j + 1))
    ensures Lines(ListSecretUids(env, st, i, any, fpr).0.trace, UserIdLines) ==
            Lines(st.trace, UserIdLines) + PlainUserIds(UserIdsFrom(st.list, i + 1))
  {
    var j := FindNext(st.list, i, UserIdPkt).value;
    var name := st.list[j].name;
    var fline := if env.opt.fingerprint && !any then [Out(FingerprintLine(FingerprintText(fpr)))] else [];
    var next := st.(trace := st.trace + ([Out(UserIdLine(false, name))] + fline + []));
    var rest := UserIdsFrom(st.list, j + 1);
    SecretUidsStep(env, st, i, any, fpr);
    calc {
      Lines(ListSecretUids(env, st, i, any, fpr).0.trace, UserIdLines);
      Lines(ListSecretUids(env, next, j, true, fpr).0.trace, UserIdLines);
      Lines(next.trace, UserIdLines) + PlainUserIds(rest);
      { BlockLines(st.trace, UserIdLine(false, name), fline, []); }
      (Lines(st.trace, UserIdLines) + [UserIdLine(false, name)]) + PlainUserIds(rest);
      { SeqAssoc(Lines(st.trace, UserIdLines), [UserIdLine(false, name)], PlainUserIds(rest)); }
      Lines(st.trace, UserIdLines) + ([UserIdLine(false, name)] + PlainUserIds(rest));
      { PlainCons(name, rest); }
      Lines(st.trace, UserIdLines) + PlainUserIds(UserIdsFrom(st.list, i + 1));
    }
  }


  /** The user-id loop of a secret certificate prints the fingerprint once,
      after the first user id, when fingerprints are on and none was
      printed yet. */
  lemma {:induction false} SecretUidsFingerprints(env: Env, st: State, i: nat, any: bool, fpr: seq<byte>)
    ensures Lines(ListSecretUids(env, st, i, any, fpr).0.trace, FingerprintLines) ==
            Lines(st.trace, FingerprintLines) +
              (if env.opt.fingerprint && !any && UserIdsFrom(st.list, i + 1) != [] then [FingerprintLine(FingerprintText(fpr))] else [])
    decreases |st.list| - i
  {
    if FindNext(st.list, i, UserIdPkt).Some? {
      var j := FindNext(st.list, i, UserIdPkt).value;
      var fline := if env.opt.fingerprint && !any then [Out(FingerprintLine(FingerprintText(fpr)))] else [];
      var next := st.(trace := st.trace + ([Out(UserIdLine(false, st.list[j].name))] + fline + []));
      SecretUidsFingerprints(env, next, j, true, fpr);
      SecretUidsFingerprintsStep(env, st, i, any, fpr);
    } else {
      assert forall k :: i + 1 <= k < |st.list| ==> !st.list[k].UserId?;
      UserIdsNone(st.list, i + 1);
    }
  }

  lemma SecretUidsFingerprintsStep(env: Env, st: State, i: nat, any: bool, fpr: seq<byte>)
    requires FindNext(st.list, i, UserIdPkt).Some?
    requires var j := FindNext(st.list, i, UserIdPkt).value;
             var fline := if env.opt.fingerprint && !any then [Out(FingerprintLine(FingerprintText(fpr)))] else [];
             var next := st.(trace := st.trace + ([Out(UserIdLine(false, st.list[j].name))] + fline + []));
             Lines(ListSecretUids(env, next, j, true, fpr).0.trace, FingerprintLines) == Lines(next.trace, FingerprintLines)
    ensures Lines(ListSecretUids(env, st, i, any, fpr).0.trace, FingerprintLines) ==
            Lines(st.trace, FingerprintLines) +
              (if env.opt.fingerprint && !any && UserIdsFrom(st.list, i + 1) != [] then [FingerprintLine(FingerprintText(fpr))] else [])
  {
    var j := FindNext(st.list, i, UserIdPkt).value;
    var name := st.list[j].name;
    var fline := if env.opt.fingerprint && !any then [Out(FingerprintLine(FingerprintText(fpr)))] else [];
    SecretUidsStep(env, st, i, any, fpr);
    assert UserIdsFrom(st.list, i + 1) != [];
    BlockLines(st.trace, UserIdLine(false, name), fline, []);
  }

  /** list_node on a secret certificate: the header comes first, and "no
      user id" is printed exactly when no user id follows the
      certificate. */
  lemma SecretCertHeader(env: Env, st: State, k: nat)
    requires k < |st.list| && st.list[k].SecretCert? && st.halt.None?
    ensures var r := ListSecretCert(env, st, k);
            var hdr := Out(SecHeader(st.list[k].keyid, st.list[k].pubkeyAlgo));
            |st.trace| < |r.trace| && r.trace[|st.trace|] == hdr &&
            (UserIdsFrom(st.list, k + 1) == [] ==> r.trace == st.trace + [hdr, Out(NoUserIdLine)]) &&
            (UserIdsFrom(st.list, k + 1) != [] ==> Out(NoUserIdLine) !in r.trace[|st.trace| + 1..])
  {
    var cert := st.list[k];
    var hdr := Out(SecHeader(cert.keyid, cert.pubkeyAlgo));
    var s0 := Emit(st, hdr);
    var res := ListSecretUids(env, s0, k, false, cert.fingerprint);
    SecretUidsFound(env, s0, k, false, cert.fingerprint);
    assert s0.trace <= res.0.trace;
    if UserIdsFrom(st.list, k + 1) == [] {
      assert FindNext(st.list, k, UserIdPkt).None?;
    } else {
      SecretUidsOutput(env, s0, k, false, cert.fingerprint);
      assert ListSecretCert(env, st, k) == res.0;
      assert res.0.trace[|st.trace| + 1..] == res.0.trace[|s0.trace|..];
    }
  }

  /** With fingerprints on, the first user id of a secret certificate is
      printed right after the header and followed by the fingerprint. */
  lemma SecretCertFingerprint(env: Env, st: State, k: nat)
    requires k < |st.list| && st.list[k].SecretCert? && st.halt.None?
    requires env.opt.fingerprint && UserIdsFrom(st.list, k + 1) != []
    ensures var r := ListSecretCert(env, st, k);
            var cert := st.list[k];
            |st.trace| + 3 <= |r.trace| &&
            r.trace[|st.trace|..|st.trace| + 3] ==
            [Out(SecHeader(cert.keyid, cert.pubkeyAlgo)), Out(UserIdLine(false, UserIdsFrom(st.list, k + 1)[0])),
             Out(FingerprintLine(FingerprintText(cert.fingerprint)))]
  {
    var cert := st.list[k];
    var hdr := Out(SecHeader(cert.keyid, cert.pubkeyAlgo));
    var s0 := Emit(st, hdr);
    var res := ListSecretUids(env, s0, k, false, cert.fingerprint);
    FirstUserId(st.list, k);
    SecretUidsStep(env, s0, k, false, cert.fingerprint);
    var u := FindNext(st.list, k, UserIdPkt).value;
    var next := s0.(trace := s0.trace + ([Out(UserIdLine(false, st.list[u].name))] + [Out(FingerprintLine(FingerprintText(cert.fingerprint)))] + []));
    assert res == ListSecretUids(env, next, u, true, cert.fingerprint);
    assert next.trace <= res.0.trace;
    assert ListSecretCert(env, st, k) == res.0;
  }


  /** list_node on a secret certificate prints its user ids unindented in
      list order, and exactly one fingerprint line when fingerprints are on
      and there is a user id. */
  lemma SecretCertLines(env: Env, st: State, k: nat)
    requires k < |st.list| && st.list[k].SecretCert? && st.halt.None?
    ensures var r := ListSecretCert(env, st, k);
            var ns := UserIdsFrom(st.list, k + 1);
            Lines(r.trace, UserIdLines) == Lines(st.trace, UserIdLines) + PlainUserIds(ns) &&
            Lines(r.trace, FingerprintLines) == Lines(st.trace, FingerprintLines) +
              (if env.opt.fingerprint && ns != [] then [FingerprintLine(FingerprintText(st.list[k].fingerprint))] else [])
  {
    var cert := st.list[k];
    var hdr := Out(SecHeader(cert.keyid, cert.pubkeyAlgo));
    var s0 := Emit(st, hdr);
    var res := ListSecretUids(env, s0, k, false, cert.fingerprint);
    SecretUidsLines(env, s0, k, false, cert.fingerprint);
    SecretUidsFingerprints(env, s0, k, false, cert.fingerprint);
    OtherLine(st.trace, hdr);
    if !res.1 {
      OtherLine(res.0.trace, Out(NoUserIdLine));
    }
  }
}
