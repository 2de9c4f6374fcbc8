# Regalia KMS: a Dafny model of its protocols and validators

This project models the parts of Regalia KMS whose correctness depends on every run or every input, and proves what those parts
promise. Each component is one module in a file of its own name.

- **Anchor-policy rotation** (`AnchorPolicy`, `RotationTpm`, `RotationSafety`, `AnchorGuarantees`, `StandingSessions`,
  `IncrementReuse`): the TPM Names and policy digests by hash arithmetic, and a TPM as a machine over its commands, with any number of
  policy sessions, an owner who defines and undefines indices at will, and the rotation counter R.
- **Audit trail** (`AuditTrail`, `AuditOpened`, `AuditReading`, `AuditShip`): the writer's rotation and prune steps, and the shipper that
  opens the trail meanwhile, read by read.
- **Unlock client** (`UnlockWire`, `WireFormats`, `UnlockSession`, `UnlockGuarantees`, `UnlockCadence`, `UnlockAgent`, `UnlockLiveness`, `BootRecord`): the
  byte formats, the one session of a boot against arbitrary peers, the password agent's loop, its pace against the peers' rate limit, and the
  record a boot leaves.
- **Disk, TPM and files before root** (`LuksHeader`, `PathTokens`, `PcrReading`, `BootPublish`): the LUKS2 double header, the path
  tokens in it, PCR values beside a quote, and the all-or-nothing publication of four files.
- **Fencing authority** (`FencingAuthority`): concurrent invocations that may fail or die between any two steps.
- **Custody manifest** (`CustodyManifest`, `CustodyObject`, `FidoContinuity`, `FidoExample`): the validator, check by check, what it accepts said by the
  fields alone, the FIDO retirement planner built on it, and a credential on three keys.
- **OpenPGP integers** (`OpenPgpMpi`).
- `Octets`, `Results`, `Collections` and `Arithmetic` hold what these share.

`dafny verify dfyconfig.toml` checks the whole project.

## How to read the model

- A hash is an arbitrary function from byte strings to 32 bytes. Nothing is assumed of it. A statement that needs two digests to differ says
  so under `ClashFree`, for the finite set of inputs that were really hashed; where it fails, the clash is among those.
- Signatures, OAEP, HKDF and the parsing of TPM structures are functions given as parameters. Replies, failures, crashes, schedules, jitter
  and the clock are arbitrary values or functions.
- Code that works by steps is a class or a method with its loops, proved against a specification. Protocols with crashes or several processes
  are step functions whose runs are sequences of steps.

## What turned out not to hold, and exactly when it does

- *Revocation* (`deploy/baremetal/anchorpolicy.py:18-19`). PolicyNV is checked when it runs, so a session that had run it before R passed G
  can still finish. `StandingSessions.ReachesIffStanding`: after R passed G a session reaches a class through P(K, G) if and only if it stood
  at that policy already.
- *Single-use increments* (`deploy/baremetal/anchorpolicy.py:20-22`). For the same reason. `IncrementReuse.IncrementsIffStanding`: after R passed n
  a session can increment R through the approval for n if and only if it stood at that policy, or at the class through it, already; also when
  the owner undefined R and defines it again.
  `StandingSessions.RepeatedUse` is a run in which one does.
- *One session per boot* (`cmd/regalia-unlock/main.go:193-200`). The code quotes even if the record cannot be written.
  `BootRecord.AnotherSessionIffUnrecorded` says when a second session can follow.
- *One active site* (`internal/fencing/issue.go:52-58`). A grant is compared with the last one only.
  `FencingAuthority.SafeIffKeepsApart`: knowing the last lease, a signed grant leaves no overlap, now or after the next handover, in
  every history of such grants if and only if, when it renews that lease, it does not end before it, nor begin before it unless that lease has epoch 1.
  `FencingAuthority.DisorderlyRenewalsOverlap` has both failures.
- *A validator that never breaks* (`tools/custody_manifest.py:326-331`). `CustodyManifest.BindingBreaksIff` and
  `CustodyManifest.ObjectBreaksIff`: it breaks on a list or an object as a YubiKey's PIN policy, and on nothing else;
  `CustodyManifest.ListedPinBreaks` is such a binding.
- *The newest LUKS2 copy* (`cmd/regalia-unlock/disk.go:117`). `LuksHeader.NewestIff`: the copy read is the newest of all valid ones if and
  only if no other is newer than the primary and the copy right after it, or, without a valid primary, none is newer than the lowest valid
  copy. `LuksHeader.OlderCopyIsRead` is a device where one is.
- *An MPI's bit count* is 16 bits wide in the code: `OpenPgpMpi.CountIsExactIff`, and `OpenPgpMpi.LongCountIsWrong` for a value of 65536
  bits.
- *Unusable path tokens are not fatal* (`cmd/regalia-unlock/disk.go:137-138`). Reading stops after sixteen of them. `PathTokens.TakenIff`: a
  token is taken if and only if it is usable and fewer than sixteen unusable ones come before it. `PathTokens.SixteenHideOne` has one that is not.
- *A failed pass closes what it opened* (`cmd/regalia-audit-ship/main.go:123-147`). `AuditShip.PassLeavesIff`: a pass leaves descriptors open
  if and only if, in the first attempt during which nothing moves, the state, the marker and the current file can be read, then a read fails
  or the handover is pending, and the state can be read again. `AuditShip.QuietPassLeavesIff` says it of the directory and the failing reads
  alone, beside a writer that only appends, and `AuditShip.FailedPassLeavesOneOpen` is such a pass.

## Model

| member | source | states |
|---|---|---|
| AnchorPolicy.RefInjective | deploy/baremetal/anchorpolicy.py:54-56 | No two classes share a policyRef |
| AnchorPolicy.RefsAreNames | deploy/baremetal/anchorpolicy.py:54-56 | A class's policyRef is its name, byte for byte, and what K_A signs for it is the policy and then that name |
| AnchorPolicy.KaNameTells | deploy/baremetal/anchorpolicy.py:63-70 | K_A's Name tells its point, short of a clash |
| AnchorPolicy.KaAreaReads | deploy/baremetal/anchorpolicy.py:63-70 | A point is taken if and only if it is 65 bytes from 0x04 on; the public area of K_A, byte for byte, ends in its two coordinates after their lengths |
| AnchorPolicy.NvAreaInjective | deploy/baremetal/anchorpolicy.py:73-76 | The public area an NV Name is taken over tells index, attributes, policy and size |
| AnchorPolicy.NvAreaReads | deploy/baremetal/anchorpolicy.py:73-76 | That area as TPMS_NV_PUBLIC has it: read field by field it is the index, SHA-256, the attributes, the policy after its length, and the size |
| AnchorPolicy.NamesRead | deploy/baremetal/anchorpolicy.py:102-104 | R's two Names are the identifier of SHA-256 and the hash of its area, with the attributes 0x22040018 once written and 0x02040018 before |
| AnchorPolicy.TailDecides | deploy/baremetal/anchorpolicy.py:79-93 | A session's digest depends only on the commands from the last one that resets it on |
| AnchorPolicy.DigestsRead | deploy/baremetal/anchorpolicy.py:79-93 | Each command's step hashes the bytes the TPM library gives it: the old digest, the command's own code, and its arguments in their order |
| AnchorPolicy.PoliciesAreSequences | deploy/baremetal/anchorpolicy.py:79-126 | Each policy the design computes is the digest of the command sequence it stands for |
| AnchorPolicy.DigestsSeparate | deploy/baremetal/anchorpolicy.py:79-93 | Two command sequences have one digest if and only if they agree from their last reset on, unless hashed inputs clash; byte-level separation of the commands whose inputs have one length is part of it |
| AnchorPolicy.NeverZero | deploy/baremetal/anchorpolicy.py:79-93 | No command leads back to the digest a session starts from |
| AnchorPolicy.ApprovalNamesOneClass | deploy/baremetal/anchorpolicy.py:129-132 | A signed approval is for one policy and one class: the message tells both |
| AnchorPolicy.ClassPoliciesDiffer | deploy/baremetal/anchorpolicy.py:96-99 | No two classes have the same authPolicy |
| RotationSafety.OnlyRHasItsName | deploy/baremetal/anchorpolicy.py:102-104 | Only R itself, as designed and written, has the Name that approvals are computed with, whatever else the owner defines |
| RotationSafety.RunKeeps | deploy/baremetal/anchorpolicy.py:15-31 | Every run of the TPM keeps the invariant of R, the sessions and the increments, and moves only forward |
| RotationSafety.AtClassPolicy | deploy/baremetal/anchorpolicy.py:13-17 | A session at a class's authPolicy ran K_A's authorization last, of a policy approved for that class |
| RotationSafety.ScriptOf | deploy/baremetal/anchorpolicy.py:112-126 | A session whose digest is an approved policy ran exactly that policy's commands since its last reset |
| AnchorGuarantees.RotationNeverDecreases | deploy/baremetal/anchorpolicy.py:20-28 | Between any two moments of any run at which R is written its value has not decreased, across undefine and redefine |
| AnchorGuarantees.RevocationIsPermanent | deploy/baremetal/anchorpolicy.py:18-19 | Once R has been above G no session satisfies PolicyNV(R <= G) again |
| AnchorGuarantees.RevokedPolicyReachesNoClass | deploy/baremetal/anchorpolicy.py:15-19 | A session opened after R passed G reaches a class only through a policy whose generation R has not passed |
| AnchorGuarantees.OnlyStandingSessionsRemain | deploy/baremetal/anchorpolicy.py:15-19 | A session at P(K, G) after R passed G was at it before |
| AnchorGuarantees.StandingSessionReachesClass | deploy/baremetal/anchorpolicy.py:15-17 | K_A's authorization is accepted for a session at an approved policy, at any value of R |
| AnchorGuarantees.IncrementsAreApproved | deploy/baremetal/anchorpolicy.py:119-126 | Every increment of R went through the first-increment approval while R was unwritten, or through one for an n that R had reached; values strictly increase |
| IncrementReuse.IncrementsIffStanding | deploy/baremetal/anchorpolicy.py:20-22 | After R passed n a session can increment it through the approval for n if and only if it stood at that policy, or at the class through it, already; R may be undefined and defined again meanwhile, if a counter can still count up from where it stands |
| IncrementReuse.ReplayStoodAtFirstUse | deploy/baremetal/anchorpolicy.py:124-126 | If one approval increments R twice, the session of the second use already stood so right after the first |
| StandingSessions.ReachesIffStanding | deploy/baremetal/anchorpolicy.py:15-19 | After R passed G a session can reach the class through P(K, G) if and only if it stood at that policy already |
| StandingSessions.StandingSessionIncrements | deploy/baremetal/anchorpolicy.py:124-126 | A session standing at the rotation policy increments R at whatever value R then has |
| StandingSessions.RepeatedUse | deploy/baremetal/anchorpolicy.py:20-22 | A run in which one approval advances R twice and a revoked policy reaches a class |
| AuditTrail.EveryRunIsValid | deploy/baremetal/trails.py:286-322 | From an empty directory on, wherever rotation, prune and append stop and go on, the files are the trail from the marker on, in order |
| AuditTrail.RunKeepsValid | deploy/baremetal/trails.py:286-322 | The same from any such directory, and the trail only grows |
| AuditTrail.AppendAdds | deploy/baremetal/trails.py:211-238 | An append puts its line at the end of the trail and of the current file, a new one if there was none |
| AuditTrail.RotationArchives | deploy/baremetal/trails.py:286-322 | A rotation that nothing disturbs makes the full file the archive of its last line's number, and a new file with the line the current one |
| AuditTrail.PruneDrops | deploy/baremetal/trails.py:577-653 | A prune that nothing disturbs moves the marker up to an archive and takes its name away, and nothing else |
| AuditTrail.DoMovesUp | deploy/baremetal/trails.py:577-653 | Every writer step that changes the listing moves it strictly up in one order |
| AuditTrail.RunMovesUp | deploy/baremetal/trails.py:286-322 | So the files and the marker that make up the trail, seen once, are never seen again after one of them moved |
| AuditTrail.SameListingNoMove | cmd/regalia-audit-ship/main.go:223-225 | They are the same before and after exactly if nothing moved between |
| AuditTrail.SameSnapshot | cmd/regalia-audit-ship/main.go:231-259 | Equal states, staging names included, mean that no file of the trail moved; different ones that something did |
| AuditOpened.OpensWhole | cmd/regalia-audit-ship/main.go:261-312 | Descriptors that match the directory hold exactly the lines after the marker: none missing, repeated or out of order |
| AuditOpened.NothingIsLost | cmd/regalia-audit-ship/main.go:207-210 | Whatever rotates or is pruned later, the open descriptors still give every line there was, in order |
| AuditOpened.OpenedIsSafe | cmd/regalia-audit-ship/main.go:211-229 | What a success returns is safe in that sense |
| AuditReading.OnceSettled | cmd/regalia-audit-ship/main.go:261-312 | While nothing moves, opening stops at the first failing read, with open exactly what the reads before it opened, or holds what is listed |
| AuditReading.FaultIffFailing | cmd/regalia-audit-ship/main.go:261-312 | And it reports a failure if and only if a read failed |
| AuditShip.World.OpenArchive | cmd/regalia-audit-ship/main.go:297-308 | An archive is opened by name, and closed again when it is the current file under its archive name or cannot be read |
| AuditShip.World.OpenCurrent | cmd/regalia-audit-ship/main.go:262-283 | If nothing moves, a failure if and only if a read fails, with what was open by then, else the marker and the current file |
| AuditShip.World.OpenArchives | cmd/regalia-audit-ship/main.go:284-309 | If nothing moves, a failure if and only if a read fails, with what was open by then, else exactly the listed archives that count |
| AuditShip.World.OpenOnce | cmd/regalia-audit-ship/main.go:261-312 | It holds exactly what it reports open; if nothing moves, a failure if and only if a read fails, with open what the reads before it opened, else what is listed |
| AuditShip.SegmentsOk | cmd/regalia-audit-ship/main.go:207-229 | A success is the whole trail after the marker; only a success and a failed read of an unmoved directory leave something open; without a failed read it fails only if something moved in each attempt |
| AuditShip.World.OpenSegments | cmd/regalia-audit-ship/main.go:211-229 | The loop of five attempts comes to that |
| AuditShip.PassLeaves | cmd/regalia-audit-ship/main.go:123-147 | What a pass leaves open, file by file, whatever the writer does and whichever reads fail |
| AuditShip.PassLeavesIff | cmd/regalia-audit-ship/main.go:123-147 | It leaves something open if and only if the first attempt in which nothing moved opened the current file, then a read failed or the handover is pending, and no state was unreadable |
| AuditShip.QuietPassLeaves | cmd/regalia-audit-ship/main.go:123-147 | Beside a writer that only appends, what stays open is told by the directory and the failing reads |
| AuditShip.QuietPassLeavesIff | cmd/regalia-audit-ship/main.go:123-147 | And so is whether anything does |
| AuditShip.FailedPassLeavesOneOpen | cmd/regalia-audit-ship/main.go:273-283 | A trail of one line whose pass leaves its file open: its status cannot be read, or the handover is pending |
| AuditShip.World.Pass | cmd/regalia-audit-ship/main.go:123-147 | The pass as it runs leaves open exactly that |
| UnlockWire.LowerHex | cmd/regalia-unlock/wire.go:189-196 | Accepts exactly lowercase hex of whole bytes, and gives the bytes whose hex it is |
| UnlockWire.HexInjective | cmd/regalia-unlock/wire.go:189-196 | No two byte strings have one hex |
| UnlockWire.DecimalInjective | cmd/regalia-unlock/wire.go:177-182 | No two numbers have one decimal form |
| UnlockWire.Transcript | cmd/regalia-unlock/wire.go:44-55 | The buffer is every field after its length, cut to 32 bits |
| UnlockWire.FramesInjective | cmd/regalia-unlock/wire.go:42-55 | Field lists of any number, with lengths below 2^32, have one encoding only if they are one list |
| UnlockWire.TranscriptInjective | cmd/regalia-unlock/wire.go:42-55 | The transcript tells node, epoch, session, key and nonce |
| UnlockWire.Validate | cmd/regalia-unlock/wire.go:155-173 | No fault exactly for a response whose every field has its grammar |
| UnlockWire.CanonicalInjective | cmd/regalia-unlock/wire.go:177-182 | Two responses without a quotation mark have one canonical form only if they are one response |
| UnlockWire.ValidIsQuoteFree | cmd/regalia-unlock/wire.go:153-173 | A validated response holds no quotation mark |
| UnlockWire.DomainsSeparate | cmd/regalia-unlock/wire.go:44-55 | No transcript is the bytes of a signed response |
| UnlockWire.QuoteNamesOneUse | cmd/regalia-unlock/wire.go:184-187 | The digest a quote is over tells which use of the key it is and every field of it, short of a clash |
| UnlockWire.InfoTells | cmd/regalia-unlock/wire.go:58-64 | The derivation's info tells the path epoch, and the two names joined by a slash, and no more |
| UnlockWire.InfoInjective | cmd/regalia-unlock/wire.go:58-64 | It tells both names when the target holds no slash |
| UnlockWire.InfoOfSlashedNames | cmd/regalia-unlock/wire.go:58-64 | Names with slashes that share one info |
| UnlockWire.HalvesInjective | cmd/regalia-unlock/wire.go:57-72 | Different halves, nodes, peers or path epochs never give the derivation the same inputs |
| UnlockWire.Wipe | cmd/regalia-unlock/wire.go:74-78 | Every byte is zero |
| UnlockWire.Base64Injective | cmd/regalia-unlock/wire.go:69-71 | No two derived keys have one passphrase |
| UnlockWire.Credential | cmd/regalia-unlock/wire.go:58-72 | A passphrase only from two 32-byte halves, the local one first: the base64 of what is derived from both; the joined halves and the derived bytes are zero afterwards |
| WireFormats.FramesReadBack | cmd/regalia-unlock/wire.go:42-55 | A reader that takes a 32-bit length and then that many bytes reads any framed list of fields back |
| WireFormats.TranscriptReadsBack | cmd/regalia-unlock/wire.go:42-55 | So read, a transcript is its domain, node, epoch, session, key and nonce, in this order |
| WireFormats.SignedReads | cmd/regalia-unlock/wire.go:177-187 | The bytes a response's quote is over: the domain and a line end, then the JSON object with its members in their order |
| WireFormats.ValidIff | cmd/regalia-unlock/wire.go:153-173 | What is asked of a response, character by character |
| WireFormats.HexReads | cmd/regalia-unlock/wire.go:189-196 | Every byte is two of the digits 0-9 and a-f, the high half first |
| WireFormats.DecimalReads | cmd/regalia-unlock/wire.go:177-182 | A decimal form is digits whose value by place is the number, with no zero in front |
| WireFormats.InfoReads | cmd/regalia-unlock/wire.go:58-64 | The derivation's info, spelled out: label, target, peer and path epoch between slashes |
| WireFormats.SymbolReads | cmd/regalia-unlock/wire.go:69-71 | The sixty-four symbols of base64, as section 4 of RFC 4648 has them |
| WireFormats.FourReads | cmd/regalia-unlock/wire.go:69-71 | Three bytes are the four symbols of their 24 bits, six at a time from the highest |
| WireFormats.Base64Vectors | cmd/regalia-unlock/wire.go:69-71 | Ends of one and of two bytes are padded as in section 10 of RFC 4648 |
| UnlockSession.QualifiedNameBinds | cmd/regalia-unlock/attest.go:72-78 | A qualified name tells both keys, short of a clash |
| UnlockSession.QualifiedNameReads | cmd/regalia-unlock/attest.go:72-78 | The AK under the EK, and that under the endorsement hierarchy 0x4000000B, each by the identifier of SHA-256 and the hash of both Names |
| UnlockSession.VerifyPeerSignature | cmd/regalia-unlock/attest.go:118-148 | Accepts exactly a quote over this digest by the pinned AK under the pinned EK, whose ECDSA signature verifies |
| UnlockSession.SpentStaysSpent | cmd/regalia-unlock/client.go:51-54 | A session that accepted a response accepts no other and does not change |
| UnlockSession.Session.constructor | cmd/regalia-unlock/client.go:33-47 | A new session holds what was drawn and has accepted nothing |
| UnlockSession.Session.Greet | cmd/regalia-unlock/client.go:57-74 | Version 2, then version 1 only for a peer that answers INVALID_REQUEST; exactly those hellos are sent |
| UnlockSession.Session.Evidence | cmd/regalia-unlock/client.go:84-100 | The quote is over this exchange's transcript, and values go with version 2 only |
| UnlockSession.Session.Present | cmd/regalia-unlock/client.go:57-100 | A quote is taken only under a well-formed hello of the pinned peer |
| UnlockSession.Session.Ask | cmd/regalia-unlock/client.go:51-116 | The result and the new state are those of the exchange's outcome; what is sent is exactly its hellos, then one unlock if there was a quote, and nothing once a response was accepted |
| UnlockSession.AtMostTwoHellos | cmd/regalia-unlock/client.go:57-74 | So one ask sends two hellos if the peer does not speak version 2, else one, and none once spent |
| UnlockSession.Session.Open | cmd/regalia-unlock/client.go:120-147 | A secret comes out exactly of a genuine answer to what was asked that decrypts to 32 bytes; only that spends the session |
| UnlockGuarantees.SpentByAcceptance | cmd/regalia-unlock/client.go:49-54 | After any exchanges the session is spent if and only if one of them was accepted |
| UnlockGuarantees.AcceptsAtMostOnce | cmd/regalia-unlock/client.go:21-22 | Over any stream of replies from any peers at most one response is accepted |
| UnlockGuarantees.NotesDecideNothing | cmd/regalia-unlock/client.go:29-30 | The diagnostic flags never change an outcome |
| UnlockGuarantees.FailuresLeaveItUsable | cmd/regalia-unlock/client.go:49-50 | After any exchanges that were not accepted the next one comes to what it would have at the start |
| UnlockGuarantees.AcceptedIsGenuine | cmd/regalia-unlock/client.go:118-147 | An accepted response has this peer, path epoch, node, session, transcript and epoch, field by field |
| UnlockGuarantees.AcceptedIsSigned | cmd/regalia-unlock/attest.go:118-148 | Whatever digests the pinned AK ever signed, the quote of an accepted response hashes to one of them, attests the digest of this response, and has the qualified name of the pinned keys |
| UnlockGuarantees.AcceptedIsDecrypted | cmd/regalia-unlock/client.go:120-147 | The secret an accepted response gives is what its ciphertext decrypts to under this session's key and the label with this transcript's digest |
| UnlockGuarantees.QuotedUnderAGoodHello | cmd/regalia-unlock/client.go:57-100 | A quote is taken only after a hello in the version asked, of the pinned peer, with an epoch in range and a 32-byte nonce; it is over the transcript of these |
| UnlockGuarantees.RequestReads | cmd/regalia-unlock/client.go:84-116 | What is then sent, field by field, in version 2 with the PCR values and else in version 1 |
| UnlockGuarantees.AcceptedIsTheReply | cmd/regalia-unlock/client.go:101-116 | What is accepted is the response and signature the peer replies to that request, without an error |
| UnlockGuarantees.HellosRead | cmd/regalia-unlock/client.go:57-74 | The first hello is in version 2; one in version 1 follows if and only if the reply to it is INVALID_REQUEST |
| UnlockGuarantees.NotesRead | cmd/regalia-unlock/client.go:68-96 | The flags say that a hello in version 1 was sent, and that a quote in version 2 had no values |
| UnlockGuarantees.QuoteServesOneExchange | cmd/regalia-unlock/client.go:118-147 | One peer quote is accepted for one exchange only, over all boots, nodes and pins, short of a clash |
| UnlockGuarantees.HonestHelloIsGood | deploy/baremetal/unlock.py:424-438 | The client accepts an honest peer's hello in either version |
| UnlockGuarantees.HonestResponseFits | deploy/baremetal/unlock.py:460-483 | The response an honest peer builds from the request on the wire is over the transcript the client expects, and opens |
| UnlockGuarantees.HonestIsOpened | deploy/baremetal/unlock.py:460-483 | The answer of an honest peer that admits this very request is opened to exactly the secret it holds |
| UnlockGuarantees.HonestIsOpenedAfterAnyFailures | cmd/regalia-unlock/client.go:49-50 | And so it is after any number of exchanges that failed |
| UnlockGuarantees.HonestPeerExists | deploy/baremetal/unlock.py:424-483 | For every pin, node, path and contribution there are a peer and keys that meet all that these results ask, and its answer is opened |
| UnlockCadence.Backoff | cmd/regalia-unlock/backoff.go:17-29 | 2 s doubled up to 60 s, times a factor from 0.8 to 1.2; a jitter out of range counts as one half |
| UnlockCadence.PausesAre | cmd/regalia-unlock/backoff.go:17-29 | The pauses are 2, 4, 8, 16, 32 and then always 60 s |
| UnlockCadence.JitterReads | cmd/regalia-unlock/backoff.go:17-29 | With the jitter a pause is 0.8 to 1.2 times its length, in proportion, cut to whole nanoseconds |
| UnlockCadence.Pause | cmd/regalia-unlock/agent.go:54-64 | Waits the whole time unless a look saw the volume open, looks every second, and stops at the first look that saw it |
| UnlockCadence.SevenTakeOverAMinute | cmd/regalia-unlock/backoff.go:5-10 | Seven attempts in a row span at least 97.6 s whatever the jitter |
| UnlockCadence.MinuteHoldsAtMostSix | cmd/regalia-unlock/backoff.go:5-10 | Any minute holds at most six attempts |
| UnlockCadence.FirstMinuteReachesSix | cmd/regalia-unlock/backoff.go:9-10 | Six is reached |
| UnlockCadence.NoHelloIsRefused | deploy/baremetal/sync.py:192-218 | A bucket of 10, refilled every 6 s, refuses none of one client's hellos at two per attempt |
| UnlockCadence.TenAndNoMore | deploy/baremetal/sync.py:192-218 | The limit does limit: a full bucket lets ten hellos through at one moment, and the next exactly from 6 s later on |
| UnlockAgent.AskPeer | cmd/regalia-unlock/agent.go:153-173 | One peer asked by one path: no help exactly when its exchange is not accepted; no key exactly when it is and the local half is not 32 bytes or the derivation fails; else the key derived from both halves |
| UnlockAgent.Attempt | cmd/regalia-unlock/agent.go:145-179 | Peers in order, each once, until the first that helps, and the hellos each was sent; nothing to ask exactly when no peer has a path; no key only if that first one's half makes none |
| UnlockAgent.Unlocker.Spent | cmd/regalia-unlock/main.go:226-234 | The local half is zero and the session's key is gone |
| UnlockAgent.Unlocker.Seek | cmd/regalia-unlock/agent.go:96-112 | An attempt, then either the key, with its peer and keyslot and the half wiped, or a pause, or the reason there is no key |
| UnlockAgent.Unlocker.Agent | cmd/regalia-unlock/agent.go:81-138 | It stands down exactly for an earlier client; key at most once, from the last attempt and the first peer to help in it; every attempt with the unwiped half and the volume closed; requests answered once each, with that key, while the volume is closed, five at most, and every one that is there and can be reached until then; each ending comes only of its own reason; attempts spaced by the backoff |
| UnlockLiveness.EachPathOnce | cmd/regalia-unlock/agent.go:153 | Any n attempts in a row try each of a peer's n paths exactly once |
| UnlockLiveness.HoldsAKeyInTime | cmd/regalia-unlock/agent.go:86-113 | If a peer helps by one of its n paths from attempt k on, the local half is 32 bytes, the derivation works and no client had begun before, there is a key by attempt k + n - 1, unless the volume was open or the attempts ran out before that |
| UnlockLiveness.RequestIsAnswered | cmd/regalia-unlock/agent.go:114-137 | And while the volume stays closed any request that is there and can be reached from then on is given the key, unless five others were |
| UnlockLiveness.HonestPeerHelps | cmd/regalia-unlock/agent.go:145-179 | An honest, reachable peer that admits the requests made by that path is such a helper |
| UnlockLiveness.AgentKeepsThePace | cmd/regalia-unlock/agent.go:100-105 | In any agent's run any minute holds at most six attempts, and no peer's limit refuses a hello that the run sent it |
| BootRecord.RunKeepsInv | cmd/regalia-unlock/main.go:201-274 | Over any starts, failures and stops the record only grows and quotes with a record are of the recorded session |
| BootRecord.FirstClientRecords | cmd/regalia-unlock/main.go:201-274 | A client that finds no record writes key and session, then quotes that session, and nothing else changes |
| BootRecord.UnwrittenIsUndone | cmd/regalia-unlock/main.go:259-274 | One whose session cannot be written takes back what it wrote, and quotes all the same |
| BootRecord.LaterClientStandsDown | cmd/regalia-unlock/main.go:201-212 | One that finds a record does nothing |
| BootRecord.RecordIsWhole | cmd/regalia-unlock/main.go:259-274 | boot-session is never there without the key of that same session |
| BootRecord.OneSessionQuoted | cmd/regalia-unlock/agent.go:190-198 | While the record can be written, one session at most is quoted in a boot |
| BootRecord.SecondSessionFollowsUnrecorded | cmd/regalia-unlock/main.go:199-212 | A second session is quoted only after quotes of one that had no record |
| BootRecord.AnotherSessionIffUnrecorded | cmd/regalia-unlock/main.go:199-212 | Another session can still be quoted if and only if there is no record, or it is of another client that still runs |
| BootRecord.UnwritableRecordAllowsTwo | cmd/regalia-unlock/main.go:199-212 | A run with an unwritable record that quotes two sessions |
| LuksHeader.ReadHeader | cmd/regalia-unlock/disk.go:81-115 | Reads the copy at an offset if magic, version, size, place and checksum are right, in bounds for every device |
| LuksHeader.SizesAre | cmd/regalia-unlock/disk.go:90-91 | The sizes a header may have: 16 KiB doubled, up to 4 MiB |
| LuksHeader.MagicsRead | cmd/regalia-unlock/disk.go:88-125 | The two magics are "LUKS" and "SKUL" with BA BE after them, and the checksum's name is "sha256" |
| LuksHeader.Metadata | cmd/regalia-unlock/disk.go:118-135 | Gives the JSON of the chosen copy, or none |
| LuksHeader.FirstSecondaryIsFirst | cmd/regalia-unlock/disk.go:124-126 | The search for a second copy finds the one at the lowest place |
| LuksHeader.ChosenIsNewest | cmd/regalia-unlock/disk.go:128-134 | With a valid primary the choice has the highest sequence of the two copies |
| LuksHeader.FailsIffNoCopy | cmd/regalia-unlock/disk.go:128-130 | Fails if and only if no copy is valid anywhere it looks |
| LuksHeader.ReadsBack | cmd/regalia-unlock/disk.go:63-66 | A header written by the specification, anywhere on a device and with any bytes after the JSON's end, reads back its sequence, size and JSON |
| LuksHeader.CopyIsWritten | cmd/regalia-unlock/disk.go:81-115 | And conversely: what is accepted at an offset is a header so written, with the hash of all the rest as its checksum |
| LuksHeader.CopyIff | cmd/regalia-unlock/disk.go:81-115 | So a copy is read at an offset if and only if such a header stands there |
| LuksHeader.OneChecksumOneCopy | cmd/regalia-unlock/disk.go:105-110 | Two devices on which copies of one size are accepted under one checksum agree in every covered byte, unless the two hashed inputs clash |
| LuksHeader.NewerCopyIsRead | cmd/regalia-unlock/disk.go:117-135 | Of two copies written in step the newer one's JSON is read |
| LuksHeader.LowestSecondaryIsRead | cmd/regalia-unlock/disk.go:124-126 | With no primary the lower of two second copies is read, though the other is newer |
| LuksHeader.OlderCopyIsRead | cmd/regalia-unlock/disk.go:124-126 | A device on which that happens |
| LuksHeader.NewestIff | cmd/regalia-unlock/disk.go:117-135 | The copy read is the newest of all valid ones if and only if no other is newer than the primary and the copy right after it, or, without a primary, none above the lowest valid copy is newer |
| PathTokens.TakenAreUsable | cmd/regalia-unlock/disk.go:40-61 | Every token taken passes every check for this node |
| PathTokens.UsableIff | cmd/regalia-unlock/disk.go:40-61 | The checks: version 1, this node as target and another as peer, one keyslot from 0 to 31, an epoch from 1 to 2^63 - 1, and a sealed credential |
| PathTokens.TakenIff | cmd/regalia-unlock/disk.go:156-178 | A token is taken if and only if it is usable and fewer than sixteen unusable ones come before it |
| PathTokens.BadCounts | cmd/regalia-unlock/disk.go:156-178 | Those counted are exactly the entries that do not decode and the path tokens that fail a check |
| PathTokens.SixteenHideAny | cmd/regalia-unlock/disk.go:160-162 | A usable token after sixteen unusable ones is never taken |
| PathTokens.SixteenHideOne | cmd/regalia-unlock/disk.go:160-162 | One that is taken alone and not after them |
| PathTokens.Gather | cmd/regalia-unlock/disk.go:155-180 | The loop gathers exactly the tokens taken, by peer, and counts the reported ones up to sixteen |
| PathTokens.Read | cmd/regalia-unlock/disk.go:139-185 | Each peer has exactly the tokens taken for it, newest path first |
| PathTokens.FirstAttemptIsNewest | cmd/regalia-unlock/agent.go:140-153 | The first attempt asks each peer by its newest path |
| PcrReading.SelectedAscends | cmd/regalia-unlock/tpm.go:124-132 | The PCRs of a selection come lowest first, each once |
| PcrReading.SelectedIff | cmd/regalia-unlock/tpm.go:124-132 | PCR p is selected by bit p % 8, from the least significant, of byte p / 8 |
| PcrReading.Given | cmd/regalia-unlock/tpm.go:125-132 | The loop over bytes and bits gives exactly the selection's PCRs |
| PcrReading.Take | cmd/regalia-unlock/tpm.go:121-142 | An answer is taken exactly if it is of PCRs asked for, one SHA-256 digest each, and of nothing else |
| PcrReading.ToRead | cmd/regalia-unlock/tpm.go:103-109 | Refuses exactly a PCR outside 0-23 |
| PcrReading.PcrValues | cmd/regalia-unlock/tpm.go:101-148 | Exactly the PCRs asked for, each with the digest returned for it, within four reads; an error exactly if one is outside 0-23, an answer does not fit, or four do not give all; none from a conforming TPM however it splits its answers |
| PcrReading.PcrDigest | cmd/regalia-unlock/tpm.go:151-164 | The hash of the values in index order |
| PcrReading.JoinedInOrder | cmd/regalia-unlock/tpm.go:151-164 | In what is hashed each value stands after those of all lower PCRs |
| PcrReading.TpmQuote | cmd/regalia-unlock/tpm.go:171-190 | Values go with a quote only if read beside it and hashing to its own digest; without them only if in each of three quotes what was read beside it did not; an error exactly if the TPM does not quote or read before that; PCRs that hold still match at once |
| PcrReading.WholeReaderConforms | cmd/regalia-unlock/tpm.go:98-100 | A TPM that answers every selection of its 24 PCRs whole is a conforming one |
| PcrReading.SteadyTpmExists | cmd/regalia-unlock/tpm.go:166-170 | For any values held and any PCRs there is a TPM whose PCRs hold still |
| BootPublish.Directory.Stage | cmd/regalia-unlock/render.go:268-275 | All four temporaries, exactly if no write fails; else none, and nothing changed |
| BootPublish.Directory.Place | cmd/regalia-unlock/render.go:276-283 | All four renamed, or, from the first rename that fails, those placed removed again |
| BootPublish.Directory.Publish | cmd/regalia-unlock/render.go:256-284 | Succeeds exactly if none of the four writes and four renames fails; success leaves exactly the four new files; failure nothing new and no temporary; other files are untouched |
| BootPublish.FailureIsNeverMixed | cmd/regalia-unlock/render.go:250-255 | After a failure each of the four names is as before or gone |
| FencingAuthority.RunKeepsInv | cmd/regalia-fence/main.go:93-145 | Interleaved, failing and dying invocations keep one lock holder, a chained record and journalled leases |
| FencingAuthority.JournalTellsTheTruth | cmd/regalia-fence/main.go:117-145 | In every run a grant the journal calls granted is in the record |
| FencingAuthority.SignedIff | internal/fencing/issue.go:59-88 | A grant is signed if and only if it has a site, a digest and an epoch above the last, lasts ten minutes at most, and, for another site, does not begin before the last one ends |
| FencingAuthority.InvocationDoes | cmd/regalia-fence/main.go:93-145 | An invocation alone in which every step succeeds ends unlocked: with the grant recorded, journalled as granted and leased, or, if it is refused, with that one refusal journalled and nothing else |
| FencingAuthority.LeasesAreOrdered | cmd/regalia-fence/main.go:93-145 | Leases ever written have strictly increasing epochs, none above the record's, each granted in the journal before it was written |
| FencingAuthority.HandoverWaits | internal/fencing/issue.go:45-58 | If each grant keeps apart from the one before, a lease for another site never begins before the earlier one ends |
| FencingAuthority.OneSiteAtATime | internal/fencing/issue.go:52-58 | In every run in which each recorded grant does, no two written leases of two sites overlap |
| FencingAuthority.HandoverSafeIff | internal/fencing/issue.go:75-88 | Handovers: the check at signing rules out overlap with every earlier lease if and only if the recorded expiry is the latest; it stays so if and only if no grant ends earlier |
| FencingAuthority.ApartIsSafe | internal/fencing/issue.go:45-58 | After a grant that keeps apart no two leases of two sites overlap, nor after any handover signed next |
| FencingAuthority.SafeIffKeepsApart | internal/fencing/issue.go:45-88 | For grants to any site: that holds in every history of such grants that leads to the last lease if and only if a renewal does not end before that lease, nor begin before it unless that lease has epoch 1 |
| FencingAuthority.DisorderlyRenewalsOverlap | internal/fencing/issue.go:57-58 | Renewals the code signs after which two sites hold leases at once |
| CustodyManifest.BeforePolicies | tools/custody_manifest.py:217-265 | These checks of a binding never break, and a binding that passes them has the fields later checks read |
| CustodyManifest.EachBinding | tools/custody_manifest.py:310 | All bindings pass exactly when each does |
| CustodyManifest.EachSupported | tools/custody_manifest.py:311-350 | All are supported exactly when each is, and this never breaks |
| CustodyManifest.ValidateBindings | tools/custody_manifest.py:307-350 | The loops give the first refusal in their order |
| CustodyManifest.ValidObjectGuarantees | tools/custody_manifest.py:279-461 | An object that validates has devices all different and able to do its operations, two at least in production unless excepted, continuity as its custody demands, a fresh verification if it claims one, and an unexpired exception exactly under that custody |
| CustodyObject.EnrolledIff | tools/custody_manifest.py:217-275 | A binding passes if and only if it is what a device's enrollment has to be, said by its fields |
| CustodyObject.ValidIff | tools/custody_manifest.py:279-461 | An object passes if and only if it is a custody object: its kinds, IDs, devices, operations, enrollments, recovery, rotation, migration, verification and exception, said by its fields |
| CustodyManifest.BindingBreaksIff | tools/custody_manifest.py:267-275 | The check breaks exactly on a YubiKey binding that would pass were its PIN policy, a list or an object, "once" |
| CustodyManifest.ListedPinBreaks | tools/custody_manifest.py:267-275 | A binding with a list as PIN policy that breaks the check, and would pass with "once" |
| CustodyManifest.ObjectBreaksIff | tools/custody_manifest.py:279-461 | An object breaks the validator exactly when one of its bindings does before any is refused |
| CustodyManifest.ValidateManifest | tools/custody_manifest.py:464-481 | Passes exactly when it is clean of secrets, its fields are right, every object passes and IDs are distinct |
| CustodyObject.ManifestIff | tools/custody_manifest.py:464-481 | A manifest passes if and only if it is one: free of secrets, with its four fields, and some custody objects of different IDs |
| CustodyManifest.ValidateObjects | tools/custody_manifest.py:475-480 | The loop with its seen set decides that every object passes and no two share an ID |
| FidoContinuity.ValidAfterRemovalIff | tools/custody_manifest.py:279-461 | A valid FIDO object stays valid under removal of any bindings if and only if the rest cover two sites |
| FidoContinuity.ObjectById | tools/fido_continuity.py:94-103 | The first object with the ID, or the refusal when there is none |
| FidoContinuity.FirstIsOnly | tools/custody_manifest.py:475-480 | In a manifest that validates it is the only one |
| FidoContinuity.PlanFor | tools/fido_continuity.py:133-197 | Approves if and only if custody is FIDO, the object validates, the device is bound, and the commissioned rest covers two sites |
| FidoContinuity.PlanRetirement | tools/fido_continuity.py:124-197 | The same for the object found by ID, and the survivors are what is returned |
| FidoContinuity.OneOfTwoNeverRetires | tools/fido_continuity.py:41-48 | Retiring one of two enrollments always fails |
| FidoContinuity.ApprovedLeavesValid | tools/fido_continuity.py:165-177 | What an approved retirement leaves validates again |
| FidoExample.CredentialPasses | tools/custody_manifest.py:279-461 | A credential enrolled on three keys at three sites passes, whatever the states of the keys |
| FidoExample.RetiresIff | tools/fido_continuity.py:133-197 | One of these keys may be retired if and only if both others are qualified, active or on standby |
| OpenPgpMpi.Strip | adapters/gpgsign/eddsa.go:113-115 | The same bytes without their leading zeros |
| OpenPgpMpi.CountBits | adapters/gpgsign/eddsa.go:118-122 | The bits of the value in 16-bit arithmetic |
| OpenPgpMpi.NewMpi | adapters/gpgsign/eddsa.go:112-125 | The same integer without leading zero bytes, and its bit length modulo 2^16 |
| OpenPgpMpi.EncodedLength | adapters/gpgsign/eddsa.go:132 | The length of the encoding, modulo 2^16 |
| OpenPgpMpi.DecodesBack | adapters/gpgsign/eddsa.go:129-131 | The encoding of an integer below 2^16 bits reads back, by section 3.2 of RFC 9580, as that integer and leaves what follows |
| OpenPgpMpi.CountIsExactIff | adapters/gpgsign/eddsa.go:118-122 | The count is exact if and only if the integer has fewer than 2^16 bits, as any of up to 8191 bytes does |
| OpenPgpMpi.LongCountIsWrong | adapters/gpgsign/eddsa.go:118-122 | A value of 65536 bits is counted as having none |
| OpenPgpMpi.PadsBack | adapters/gpgsign/eddsa.go:95-101 | Padding on the left recovers the 32 bytes of R or S |

## Left out

- Anchor policy: parsing of K_A's point, TPM2_Clear, session expiry, and PolicyNV comparisons the design does not use (they are let through). PolicyRestart is not a command of its own: a session is flushed and another started.
- Audit trail: torn and legacy lines. Line n of the trail is record n, creating its file and writing the first line are one step, and one reading of the directory's state is taken as one moment.
- AuditShip.World.Pass: does not model that the Go runtime closes a file it collects, because when it does is not determined.
- Unlock exchange: JSON encoding and decoding, and TCP. A reply is what it decodes to, or a failure.
- UnlockAgent.Unlocker.Agent: does not model diagnostics, the signal handler or the zeroing of the key at exit; that attempts are spaced assumes that no look sees the volume open and a later one closed.
- UnlockCadence.Backoff: does not model float64 rounding, because the factor is a real number.
- UnlockCadence.NoHelloIsRefused: assumes a hello reaches the peer before the client's attempt ends.
- BootRecord: clients of one boot run one after another, as the unit starts them; a client given no directory keeps no record.
- PathTokens: what an entry decodes to, the order of the token IDs and the form of a sealed credential are given.
- The boot configuration's loading, and the ask-password protocol's files.
- LuksHeader.ReadHeader: states the power-of-two test on the size as such, not as the code's bit operation.
- BootPublish.Directory.Publish: assumes that removing a file succeeds; the four names and their temporaries are symbols.
- FencingAuthority: the signature and JSON of a lease, file permissions, and the journal's hash chain. A human clears the lock only when nobody holds it.
- CustodyManifest: dates, white space, the secret patterns and the capability table are parameters; messages are reduced to the rule and the field.
- The key management daemon, the SOPS adapter, the collector and the end-to-end drivers.
