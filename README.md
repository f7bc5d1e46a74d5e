# Packet-stream processing of g10/mainproc.c

This project models `g10/mainproc.c`, the packet processor of an early
GnuPG (G10). `proc_packets` reads OpenPGP packets one at a time. It groups
certificates, user ids and signatures into a list (`KBNODE`). It hands
session-key, encrypted, literal and compressed packets to their handlers.
It keeps at most one pending session key (DEK) and the running message
digest (`mfx.md`). When a list is flushed, `proc_tree` either lists a
certificate or checks the signatures of a one-pass or leading-signature
group.

The model has two layers.

* **A value layer.**
  - The processing context `CTX` is the datatype `Environment.State`. It
    holds the list, the DEK, `last_was_pubkey_enc`, `have_data`, the
    digest, everything written so far (log lines, status lines, listing
    lines) as a trace of `Event`s, and whether the process has ended.
  - Every C function becomes a function on `State`: modules `Grouping`,
    `Handlers`, `Verify`, `Listing`, `Tree` and `Loop`.
  - The properties are lemmas about those functions.
* **An imperative layer.**
  - `Mainproc.Context` is a class whose fields are the fields of `CTX`.
  - Each of its methods updates those fields in place. Each method's
    postcondition ties the new state (`Snapshot()`) to the value-layer
    function applied to the old state.
  - The loops of the C code are `while` loops with invariants:
    - the `md_enable` loop;
    - the `check_sig_and_print` loop;
    - the `list_node` loops;
    - the `print_fingerprint` loops over an `array`;
    - the main `parse_packet` loop.
  - `Mainproc.ProcPackets` runs the main loop on a fresh context.

Collaborators whose code is not part of this model are parameters
(`Environment.Oracles`), given as total functions of their inputs:
`get_session_key`, `make_dek_from_passphrase`, `decrypt_data`,
`handle_plaintext`, `handle_compressed`, `check_digest_algo`,
`signature_check`, `digest_algo_from_sig` and `ask_for_detached_datafile`.
The options of the global `opt` are the datatype `Environment.Options`.
`parse_packet` is replaced by the sequence of its results (`ParseResult`),
and end of input is the end of that sequence. The public-key and digest
algorithm numbers (RSA 1, ElGamal 16, MD5 1, RMD160 3) are those of
RFC 4880, sections 9.1 and 9.4.

Four behaviours of `g10/mainproc.c` that are easy to misread are modelled
as the lines say:

* **One-pass signature after another root.** When the open list's root is
  not a one-pass signature, `add_onepass_sig` logs "another packet is in
  the way" and calls `release_list` (lines 77-81). That function ends with
  `c->list = NULL` (line 68), and line 82 then passes the NULL list to
  `add_kbnode`. The packet loop (`Loop.Dispatch`) uses this code as
  written, so such a stream ends in a crash (`Loop.CertificateThenOnepass`;
  see Findings).
* **Order of checks in do_check_sig.** The public-key algorithm and then
  `check_digest_algo` are tested at lines 268-275, before the signature
  class is looked at from line 277 on. An unsupported algorithm is
  therefore reported even for a class that would be rejected.
* **Return value of proc_packets.** `proc_packets` returns 0 at line 519 on
  every path, also after `G10ERR_INVALID_PACKET` ended the loop.
* **Old-style signatures never verify.** For a leading signature of class
  0x10-0x13 with no data seen, `proc_tree` hashes a detached file and then
  calls `check_sig_and_print` on the signature root (lines 605-619).
  `do_check_sig` accepts that class only under a public-certificate root,
  so it takes the "invalid root packet" path (lines 301-303) and returns
  `G10ERR_SIG_CLASS`: such a signature is never reported good
  (`Tree.CertClassUnderSignatureRoot`, `Tree.OldStyleSignatureNeverGood`).

For an unsupported algorithm, `proc_pubkey_enc` leaves any pending DEK
untouched (lines 166-167, `Handlers.SessionKey`). In the loop that DEK was
already burned when the packet arrived (lines 466-469), so none is pending
afterwards (`Loop.UnsupportedKeyLeavesNoDek`).

## Model

| member | source | states |
|---|---|---|
| Kbnode.AddKbnode | g10/mainproc.c:115 | appending to a non-empty list keeps every earlier node and puts the new one last |
| Kbnode.FindNext | g10/mainproc.c:406 | the result is the first node of the requested type strictly after the start; none means no such node follows |
| Kbnode.FindPrev | g10/mainproc.c:287 | the result is the last node of the requested type strictly before the signature; none means no such node precedes it |
| Kbnode.SigNodesAfter | g10/mainproc.c:599-600 | the signature loop visits exactly the signature nodes after the start, each once, in increasing list order |
| Grouping.ReleaseList | g10/mainproc.c:61-69 | afterwards no list is open; the DEK and the flags are unchanged; output only grows; with no list open nothing changes |
| Grouping.AddCert | g10/mainproc.c:91-105 | a certificate is always kept and becomes the only node of the new list; the DEK and the flags are unchanged |
| Grouping.CertificateStartsList | g10/mainproc.c:91-105 | with no list open only the list changes; otherwise the old list's output and halt state are exactly those of proc_tree on it |
| Grouping.AddUserId | g10/mainproc.c:108-117 | kept exactly when a list is open and then appended with no output; otherwise freed with "orphaned user id" and nothing else changes |
| Grouping.AddSignature | g10/mainproc.c:120-145 | a signature on an empty list becomes its root; any other packet on an empty list is refused; on an open list the packet is appended; no output |
| Grouping.AddOnepassSig | g10/mainproc.c:72-88 | corrected version, not used by the loop: always kept, and the packet is the last node of a non-empty list |
| Grouping.OnepassSigJoinsOrStarts | g10/mainproc.c:77-85 | joins an open one-pass list with no output; starts a list when none is open; logs "another packet is in the way" and starts a new list after flushing any other root |
| Grouping.AddOnepassSigAsWritten | g10/mainproc.c:77-82 | the code as written: the same as the corrected version except on the flush path, where the list is empty afterwards and the process ends |
| Grouping.OnepassAfterCertificate | g10/mainproc.c:77-82 | after a public certificate, release_list leaves the list empty; the code as written then crashes dereferencing NULL, while the corrected version starts a list holding the one-pass signature |
| Grouping.LoneCertificate | g10/mainproc.c:368-397 | a public certificate without user ids is listed as its header and then the "no user id" line |
| Handlers.SessionKey | g10/mainproc.c:157-167 | RSA and ElGamal use get_session_key, and a DEK is left exactly when it succeeded; any other algorithm gives G10ERR_PUBKEY_ALGO and keeps the pending DEK |
| Handlers.ProcPubkeyEnc | g10/mainproc.c:148-178 | always sets last_was_pubkey_enc; the DEK becomes the session-key result; list, digest and have_data are unchanged |
| Handlers.PubkeyEncOutcome | g10/mainproc.c:169-176 | nothing is logged for -1; "Good DEK" appears only at verbosity above 1; every other code is logged as an error; a failure of a supported key leaves no DEK |
| Handlers.DecryptResult | g10/mainproc.c:188-197 | the three cases: a passphrase DEK for the default cipher when there is no DEK and no public-key packet before; G10ERR_NO_SECKEY when there is none after a public-key packet; the pending DEK otherwise |
| Handlers.ProcEncrypted | g10/mainproc.c:182-210 | whatever the result, no DEK is left and last_was_pubkey_enc is cleared; nothing is logged for -1, "encryption okay" appears at verbosity above 1, errors are logged |
| Handlers.NoSeckeyWithoutDecrypting | g10/mainproc.c:194-197 | after a public-key packet that left no DEK, decrypt_data is never consulted and the result is "encryption failed: no secret key" |
| Handlers.ConventionalDecryption | g10/mainproc.c:188-197 | with no DEK and no public-key packet before, the passphrase DEK for the default cipher algorithm is used; a refused passphrase means decrypt_data is never consulted |
| Handlers.PlaintextDigest | g10/mainproc.c:227-229 | the new digest has exactly RMD160 and MD5 enabled and holds exactly the bytes handle_plaintext hashed |
| Handlers.ProcPlaintext | g10/mainproc.c:213-234 | replaces the message digest with that digest and clears last_was_pubkey_enc; logs the file name when verbose and any handler failure |
| Handlers.ProcCompressed | g10/mainproc.c:237-249 | logs a handle_compressed failure and clears last_was_pubkey_enc; nothing else changes |
| Verify.CertClassRange | g10/mainproc.c:285 | `(c & ~3) == 0x10` holds exactly for classes 0x10 to 0x13 |
| Verify.DigestAlgoOf | g10/mainproc.c:268-273 | ElGamal reads `d.elg`'s digest algorithm, RSA reads `d.rsa`'s, and no other public-key algorithm names one |
| Verify.SelectDigest | g10/mainproc.c:277-307 | classes 0x00 and 0x01 copy the message digest; for 0x10 to 0x13 the digest is the certificate's digest plus a preceding user id under a public-certificate root; every other class is rejected |
| Verify.DoCheckSig | g10/mainproc.c:258-312 | an unsupported public-key algorithm gives G10ERR_PUBKEY_ALGO before anything else; a crash can only come from the digest choice; only class errors log anything |
| Verify.SignatureCheckOnlyOnSuccess | g10/mainproc.c:268-308 | signature_check is reached only if the algorithm is supported, check_digest_algo accepted it and a digest was chosen |
| Verify.MessageDigestForDataClasses | g10/mainproc.c:277-284 | classes 0x00 and 0x01 are checked against the message digest itself; with no digest md_copy(NULL) crashes |
| Verify.CertificationDigest | g10/mainproc.c:285-305 | class 0x10 to 0x13 fails with G10ERR_SIG_CLASS under a non-certificate root or with no user id before it; otherwise it is checked against the key digest followed by the nearest preceding user id |
| Verify.Verdict | g10/mainproc.c:541-559 | GOODSIG exactly for 0, BADSIG exactly for G10ERR_BAD_SIGN, ERRSIG for every other code |
| Verify.Report | g10/mainproc.c:541-559 | two events: the verdict status, then "good signature from" the key id for 0, "BAD signature from" it for G10ERR_BAD_SIGN, and "can't check signature" with the key id and the code otherwise |
| Verify.CheckSigAndPrint | g10/mainproc.c:534-561 | only output and the halt state change; output gains the check's log and its report; the process exits with status 1 exactly in batch mode on a bad signature |
| Verify.SigStatusChar | g10/mainproc.c:421-435 | blank exactly when signatures are not checked; otherwise '!' exactly for 0, '-' for a bad signature, '?' for no public key, and '%' for anything else |
| Listing.PrintFingerprint | g10/mainproc.c:329-354 | the printed line is the fingerprint text: pairs for 20 bytes, single bytes otherwise |
| Listing.PrintPairs | g10/mainproc.c:338-344 | the loop over pairs produces the 20-byte group layout |
| Listing.PrintBytes | g10/mainproc.c:345-351 | the loop over bytes produces the layout for any other length |
| Listing.FingerprintRoundTrip | g10/mainproc.c:337-352 | the line starts with the prefix and ends in a newline; with spaces removed it is two upper-case hex digits per byte, in order, and they parse back to the fingerprint |
| Listing.FingerprintLength | g10/mainproc.c:337-352 | the line is 74 characters for 20 bytes; for n other bytes it is 23 + 3n characters plus one per non-zero multiple of 8 below n |
| Listing.SigLineFor | g10/mainproc.c:436-447 | the line shows the status character and the key id; the detail is the error text of exactly that code on '%', nothing on '?', and the signer of that key id otherwise |
| Listing.ListSig | g10/mainproc.c:416-448 | nothing when signatures are not listed; otherwise the trace gains the check's log (when checking) followed by exactly the SigLineFor line of its verdict; a crashing check adds nothing and ends the process |
| Listing.ListUidSigs | g10/mainproc.c:386-391 | only output and the halt state change; nothing runs once the process has ended |
| Listing.ListCertNodes | g10/mainproc.c:376-394 | only output and the halt state change; once a user id has been printed it stays printed |
| Listing.ListSecretUids | g10/mainproc.c:406-412 | only output changes; never ends the process; once a user id has been printed it stays printed |
| Listing.ListPublicCert | g10/mainproc.c:368-397 | only output and the halt state change |
| Listing.ListSecretCert | g10/mainproc.c:398-415 | only output changes and the process never ends |
| Listing.ListNode | g10/mainproc.c:361-451 | a public certificate, secret certificate or signature gets its own listing; any other packet gives only the "invalid node" error |
| Listing.SigListingKinds | g10/mainproc.c:386-391 | listing the signatures under a user id writes only check errors and signature lines |
| Listing.UidSignaturesListed | g10/mainproc.c:386-391 | the inner loop writes exactly what SigListing lists for the nodes up to the next user id, and ends the process exactly when a check crashed |
| Listing.SignaturesListedInOrder | g10/mainproc.c:386-391 | with no crash, one signature line per signature node before the next user id, in list order, each with that signature's key id and the verdict of its check when checking is on (the blank status otherwise) |
| Listing.UserIdsNone | g10/mainproc.c:376-377 | no user id is collected exactly when no user-id node follows |
| Listing.IndentedAt | g10/mainproc.c:380-383 | the m-th user-id line of a public certificate shows the m-th name, indented for every name after the first |
| Listing.PlainAt | g10/mainproc.c:406-408 | every user-id line of a secret certificate shows its name without indentation |
| Listing.CertNodesFound | g10/mainproc.c:376-394 | the loop reports a printed user id exactly when one was printed before or a user id follows |
| Listing.CertNodesOutput | g10/mainproc.c:376-394 | the loop writes only user-id, fingerprint and signature lines and check errors |
| Listing.CertNodesUserIds | g10/mainproc.c:376-394 | unless a check crashed, the user-id lines are the names of the user-id nodes, in list order, each after the first indented |
| Listing.CertNodesFingerprints | g10/mainproc.c:384-385 | unless a check crashed, the fingerprint line is printed once exactly when fingerprints are on, no user id was printed before and a user id follows |
| Listing.CertNodesFirst | g10/mainproc.c:382-385 | with fingerprints on, the first user-id line is followed directly by the fingerprint line |
| Listing.PublicCertHeader | g10/mainproc.c:368-397 | the "pub" header comes first; with no user id the output is the header and "no user id" only; otherwise "no user id" is not printed |
| Listing.PublicCertFingerprint | g10/mainproc.c:371-385 | with fingerprints on and a user id present, the output starts with the header, the first user id and the certificate's fingerprint |
| Listing.PublicCertLines | g10/mainproc.c:368-397 | unless a check crashed, the user-id lines are all user ids in order, indented after the first, and the certificate's fingerprint line appears once exactly when fingerprints are on and a user id exists |
| Listing.SecretUidsFound | g10/mainproc.c:406-412 | the loop reports a printed user id exactly when one was printed before or a user id follows |
| Listing.SecretUidsOutput | g10/mainproc.c:406-412 | the loop writes only user-id and fingerprint lines |
| Listing.SecretUidsLines | g10/mainproc.c:406-412 | the user-id lines are the names of the user-id nodes, in list order, none indented |
| Listing.SecretUidsFingerprints | g10/mainproc.c:409-410 | the fingerprint line is printed once exactly when fingerprints are on, no user id was printed before and a user id follows |
| Listing.SecretCertHeader | g10/mainproc.c:398-415 | the "sec" header comes first; "no user id" follows exactly when no user id does |
| Listing.SecretCertFingerprint | g10/mainproc.c:401-410 | with fingerprints on and a user id present, the output starts with the header, the first user id and the certificate's fingerprint |
| Listing.SecretCertLines | g10/mainproc.c:398-415 | the user-id lines are all user ids in order, and the fingerprint line appears once exactly when fingerprints are on and a user id exists |
| Listing.NothingWithoutUserId | g10/mainproc.c:376-394 | nodes with no user id at or after them print nothing, so signatures before a certificate's first user id are not listed |
| Tree.EnableFrom | g10/mainproc.c:586-589 | the digest gains exactly the algorithms of the signatures after the root, and nothing is written to it |
| Tree.CheckSigsFrom | g10/mainproc.c:599-600 | only output and the halt state change, and nothing runs once the process has ended |
| Tree.HashDetached | g10/mainproc.c:591-592 | the digest keeps its algorithms and its bytes become the earlier bytes followed by the detached file's; every other field is unchanged; the collaborator's code is returned |
| Tree.ProcTree | g10/mainproc.c:567-624 | list, DEK and flags are unchanged and output only grows; in list-packets mode nothing happens; certificates leave the digest alone |
| Tree.CheckOnepassGroup | g10/mainproc.c:580-601 | list, DEK and flags are unchanged; once data was seen the digest is not replaced |
| Tree.CheckLeadingSignature | g10/mainproc.c:602-620 | list, DEK and flags are unchanged and output only grows |
| Tree.Statuses | g10/mainproc.c:542-556 | extracting the status lines never gives more entries than the trace |
| Tree.StatusesAppend | g10/mainproc.c:542-556 | the statuses of a concatenation are those of each part, in order |
| Tree.StatusesOne | g10/mainproc.c:542-556 | a single event contributes its status code if it is a status line and nothing otherwise |
| Tree.StatusesMembers | g10/mainproc.c:542-556 | a code is among the statuses exactly when the trace holds that status line |
| Tree.ReportStatuses | g10/mainproc.c:541-559 | a report contributes exactly one status, its verdict |
| Tree.OnepassChecksDoNotCrash | g10/mainproc.c:277-307 | under a one-pass root with a digest present, no check can crash |
| Tree.OneStatusPerCheck | g10/mainproc.c:534-561 | each check_sig_and_print adds exactly one status, its verdict |
| Tree.CheckSigsInOrder | g10/mainproc.c:599-600 | outside batch mode every signature after the root is checked, in list order, with one verdict each, and the process does not end |
| Tree.DetachedDigest | g10/mainproc.c:582-592 | with no data seen, the digest has exactly the algorithms of the group's signatures enabled and holds exactly the detached file |
| Tree.DetachedFailureChecksNothing | g10/mainproc.c:593-596 | if the detached file cannot be hashed, the only output is the error, after "old style signature" for a leading signature, and nothing is checked |
| Tree.OnepassChecksInOrder | g10/mainproc.c:580-601 | one verdict per signature after the one-pass root, in order, against the data digest or the detached-file digest |
| Tree.CertClassUnderSignatureRoot | g10/mainproc.c:285-304 | a leading signature of class 0x10 to 0x13 is never accepted, because its root is not a public certificate |
| Tree.LeadingSignatureChecked | g10/mainproc.c:602-620 | a leading signature after data, or of a class outside 0x10-0x13, is checked at once against the current digest, with exactly one status, its verdict |
| Tree.OldStyleCheckNeverGood | g10/mainproc.c:602-620 | the old-style branch never writes GOODSIG |
| Tree.OldStyleHashedNeverGood | g10/mainproc.c:602-620 | after hashing the detached file, its one status is the rejection of the certificate class |
| Tree.OldStyleUnhashedNeverGood | g10/mainproc.c:612-615 | when the detached file cannot be hashed, no status is written |
| Tree.OldStyleSignatureNeverGood | g10/mainproc.c:602-620 | an old-style signature never produces GOODSIG |
| Loop.Dispatch | g10/mainproc.c:477-499 | dispatching a packet only adds to the output; a one-pass signature goes through add_onepass_sig as written |
| Loop.Burn | g10/mainproc.c:465-469 | a pending DEK is burned, with the "not followed by data" error, exactly when the packet is not encrypted data; nothing else changes |
| Loop.Step | g10/mainproc.c:464-510 | one iteration only adds to the output |
| Loop.Run | g10/mainproc.c:464-511 | the loop only adds to the output and does nothing once the process has ended |
| Loop.ProcPackets | g10/mainproc.c:454-520 | unless the process ended, no list, DEK or digest is left at the end |
| Loop.DekLifetime | g10/mainproc.c:466-469 | after one iteration a DEK is pending only after a public-key packet, or after a parse failure of encrypted data; a stray DEK is burned with an error |
| Loop.SessionKeyReplaced | g10/mainproc.c:157-165 | a second public-key packet burns the first DEK with an error, and the new session key, or none, replaces it |
| Loop.UnsupportedKeyLeavesNoDek | g10/mainproc.c:166-167 | a public-key packet with an unsupported algorithm leaves no DEK pending and logs G10ERR_PUBKEY_ALGO |
| Loop.ParseErrorOnlyBurns | g10/mainproc.c:471-476 | a parse error only burns the DEK; only G10ERR_INVALID_PACKET ends the loop |
| Loop.HaveDataTracksData | g10/mainproc.c:500-501 | have_data is set exactly by literal data; signatures leave it unchanged |
| Loop.OwnershipByType | g10/mainproc.c:477-510 | which packets the handlers consume, which a list keeps and which are freed, in both modes |
| Loop.AppendOnly | g10/mainproc.c:490-491 | user ids and signatures extend an open list at its end, and the loop continues |
| Loop.AsParsed | g10/mainproc.c:464 | one parse result per packet, the m-th holding the m-th packet |
| Loop.GroupStep | g10/mainproc.c:490-491 | a user id or signature arriving on an open list is appended to it, after burning any pending DEK, and the loop continues |
| Loop.GroupGrowsInOrder | g10/mainproc.c:490-491 | a run of user ids and signatures grows the open list by exactly those packets, in arrival order |
| Loop.CertificateGroup | g10/mainproc.c:488-491 | a certificate with n user ids and signatures after it forms one list of 1 + n nodes, in arrival order |
| Loop.StepKeepsDataHasDigest | g10/mainproc.c:494-501 | the invariant "have_data implies a message digest exists" survives one iteration |
| Loop.RunKeepsDataHasDigest | g10/mainproc.c:464-511 | the same invariant survives the whole loop |
| Loop.UnsupportedKeyThenData | g10/mainproc.c:157-197 | an unsupported public-key packet followed by encrypted data ends in "no secret key", not in the passphrase path |
| Loop.OnepassMessageGrouped | g10/mainproc.c:488-501 | one-pass signature, literal data and signature form one group, with the literal data's digest and have_data set |
| Loop.OnepassSignedMessage | g10/mainproc.c:454-520 | a one-pass signed message of class 0x00 is verified at the end of the stream against exactly the hashed literal bytes, with that verdict as the only status |
| Loop.CertificateThenOnepass | g10/mainproc.c:77-82 | a public certificate followed by a one-pass signature logs "another packet is in the way", lists the certificate, and then crashes on the NULL list |
| Loop.SignatureThenData | g10/mainproc.c:602-620 | a class-0x00 signature followed by literal data is checked at the end of the stream against the literal data's digest, with that verdict as the only status |
| Mainproc.Context.constructor | g10/mainproc.c:457 | the context starts zeroed |
| Mainproc.Context.ProcPubkeyEnc | g10/mainproc.c:148-178 | the in-place update equals `Handlers.ProcPubkeyEnc` |
| Mainproc.Context.ProcEncrypted | g10/mainproc.c:182-210 | the in-place update equals `Handlers.ProcEncrypted` |
| Mainproc.Context.ProcPlaintext | g10/mainproc.c:213-234 | the in-place update equals `Handlers.ProcPlaintext` |
| Mainproc.Context.ProcCompressed | g10/mainproc.c:237-249 | the in-place update equals `Handlers.ProcCompressed` |
| Mainproc.Context.CheckSigAndPrint | g10/mainproc.c:534-561 | the in-place update equals `Verify.CheckSigAndPrint` |
| Mainproc.Context.ListSig | g10/mainproc.c:416-448 | the in-place update equals `Listing.ListSig` |
| Mainproc.Context.Fingerprint | g10/mainproc.c:329-354 | writes exactly the fingerprint line, printed from an array |
| Mainproc.Context.ListUidSigs | g10/mainproc.c:386-391 | the loop equals `Listing.ListUidSigs` |
| Mainproc.Context.ListPublicCert | g10/mainproc.c:368-397 | the nested loops equal `Listing.ListPublicCert` |
| Mainproc.Context.ListSecretCert | g10/mainproc.c:398-415 | the loop equals `Listing.ListSecretCert` |
| Mainproc.Context.ListNode | g10/mainproc.c:361-451 | the in-place update equals `Listing.ListNode` |
| Mainproc.Context.CheckSigs | g10/mainproc.c:599-600 | the loop equals `Tree.CheckSigsFrom` |
| Mainproc.Context.HashDetached | g10/mainproc.c:591-592 | the in-place update equals `Tree.HashDetached` |
| Mainproc.Context.CheckOnepassGroup | g10/mainproc.c:580-601 | the md_enable loop and the checks equal `Tree.CheckOnepassGroup` |
| Mainproc.Context.CheckLeadingSignature | g10/mainproc.c:602-620 | the in-place update equals `Tree.CheckLeadingSignature` |
| Mainproc.Context.ProcTree | g10/mainproc.c:567-624 | the in-place update equals `Tree.ProcTree` |
| Mainproc.Context.ReleaseList | g10/mainproc.c:61-69 | the in-place update equals `Grouping.ReleaseList` |
| Mainproc.Context.AddPublicCert | g10/mainproc.c:91-97 | the in-place update and the ownership flag equal `Grouping.AddCert` |
| Mainproc.Context.AddSecretCert | g10/mainproc.c:99-105 | the in-place update and the ownership flag equal `Grouping.AddCert` |
| Mainproc.Context.AddUserId | g10/mainproc.c:108-117 | the in-place update and the ownership flag equal `Grouping.AddUserId` |
| Mainproc.Context.AddSignature | g10/mainproc.c:120-145 | the in-place update and the ownership flag equal `Grouping.AddSignature` |
| Mainproc.Context.AddOnepassSig | g10/mainproc.c:72-88 | the in-place update and the ownership flag equal `Grouping.AddOnepassSigAsWritten`, including the crash after a flush |
| Mainproc.Context.Dispatch | g10/mainproc.c:477-499 | the in-place update and the ownership equal `Loop.Dispatch`, which follows add_onepass_sig as written |
| Mainproc.ProcPackets | g10/mainproc.c:454-520 | returns 0, and its output and halt state are those of `Loop.ProcPackets` |

## Left out

- Cryptography and parsing:
  - the session-key, decryption, hashing and signature primitives are
    parameters (`Oracles`) rather than code;
  - `parse_packet` is the sequence of its results;
  - digest algorithms are sets of numbers, and the bytes written are kept
    as a sequence.
- `handle_plaintext` and `handle_compressed` can, in the C program,
  re-enter packet processing on nested data. Here each is one answer.
- Memory management is not modelled, because values have no allocation:
  - `free_packet`, `m_free`, `release_kbnode`, `md_close`;
  - the copy made by `md_copy`;
  - the handover of packet storage. Only its decision (consumed, kept or
    freed) is modelled, as `Loop.Ownership`.
- Secure erasure of the DEK is not modelled.
- `md_copy(NULL)` is modelled as a crash (`Crashed(NullDigestCopy)`), and
  `add_kbnode` on a NULL list as a crash (`Crashed(NullListDeref)`). Both
  are assumptions: `md.c` and `g10/kbnode.c` are not part of this model.
- Printed text is symbolic: log messages, status lines and listing lines
  are `Event` values rather than formatted bytes. Only the fingerprint
  line is modelled character by character.
- Key sizes (`nbits_from_pkc`, `nbits_from_skc`) and dates
  (`datestr_from_pkc`, `datestr_from_skc`, `datestr_from_sig`) are left
  out of the listing lines. Key ids and fingerprints (`keyid_from_*`,
  `fingerprint_from_pkc`/`fingerprint_from_skc`) are packet fields. The
  header carries the public-key algorithm number rather than
  `pubkey_letter`'s letter. The signer's name from `get_user_id` is the
  symbolic `SignerName(keyid)`. `print_string`'s escaping is left out.
- `iobuf_get_fname` and the input stream are left out. The answer of
  `ask_for_detached_datafile` is fixed for the whole run.
- `add_kbnode`, `find_next_kbnode` and `find_prev_kbnode` are index
  operations on a sequence. `g10/kbnode.c` is not part of this model.
- The `BUG()` in `add_signature` for a list node without a packet cannot
  arise: a list node always holds a packet here.
- The `assert` at the top of `do_check_sig` is not modelled as a crash.
  Every caller passes a signature node, and that is a precondition here.
- The canonical text mode of class 0x01 is not modelled, because the code
  does not implement it either: both classes copy the same digest.
- Numeric G10ERR codes are symbolic, except the six the code tells apart.
- `Verify.CheckSigAndPrint`: `g10_exit(1)` ends the model's run, but the
  cleanup it performs outside this file is not modelled.
- Listing order: `list_node` writes "sig" before calling `do_check_sig`,
  so the check's log messages come after that prefix. The model emits
  the whole signature line after the check's log.

## Findings

| source | as written | input that shows it | evidently intended | confidence | as-written member | corrected member |
|---|---|---|---|---|---|---|
| g10/mainproc.c:77-82 | when the open list's root is not a one-pass signature, `release_list` sets `c->list` to NULL and `add_kbnode(c->list, ...)` then dereferences NULL | a PUBLIC_CERT packet followed by a ONEPASS_SIG packet (Grouping.OnepassAfterCertificate; for the whole loop, Loop.CertificateThenOnepass) | after flushing, start a new list whose root is the one-pass signature | not executed | Grouping.AddOnepassSigAsWritten | Grouping.AddOnepassSig |

The packet loop and `Mainproc.Context` follow `add_onepass_sig` as
written. `Grouping.AddOnepassSig` is the corrected definition, with its
intended behaviour proved in `Grouping.OnepassSigJoinsOrStarts`.
