# Nullspace, proved

This project models the stateful core of the Nullspace messenger in Dafny 4.11 and proves what its parts promise
each other. `dafny verify dfyconfig.toml` checks all of it.

- `Certificates` — verification of device certificate chains, an in-place worklist fixpoint, against its meaning as a
  least fixed point.
- `DirectoryHistory`, `DirectoryLog`, `DirectoryServer`, `DirectoryMirror`, `DirectoryClient`, `DirectoryEndToEnd` —
  the directory's transparency log: owner-signed, hash-linked histories, the staging area with inserts and commits as
  atomic steps and as interleaved halves, header chains, mirrors that replay, clients that synchronise and check.
- `Attachments` — the fragment forest of an uploaded file, and the concurrent download that rebuilds the file.
- `MailboxPages`, `LongPoller`, `MailboxDelivery`, `MailboxAcl` — the server's pages, the worker that multiplexes
  cursors into one poll, readers, worker and server together, and the delegation rule on mailbox rights.
- `Roster` — the replicated group roster replayed from its management log.
- `HeaderEncryption`, `MediumKeys` — messages sealed to many keys behind colliding hints, and the two-key rotation
  window that decides which direct messages stay readable.
- `FragmentStore` — fragment expiry on the server and the janitor.

Where the source changes state step by step, a class or a method with a loop does the same steps and is proved equal
to a function of its inputs or of the old state; the theorems are about that function, over all inputs and all runs.

Conventions. Hashes are free constructors, so different values have different hashes and none is the zero hash.
Signatures, encryption and key agreement are functions passed in, with the laws used of them written out
(`Scheme.Correct`, `Aead.Correct`, `Lawful`, `Separating`); history verification assumes nothing of signatures. The sparse Merkle
tree is a map whose root is a constructor and whose proofs show one tree. Tables are sequences and maps, changed in
transactions. Times and lengths are natural numbers, with 64-bit saturation and the signed cast written out where the
source relies on them.

Where the code and its documentation disagree the model follows the code:

- docs/protocol/devices.md says expired certificates are ignored. The code consumes them, but only when a trusted
  key signs them (`Certificates.ExpiredAncestor`).
- `InviteAccepted` clears the sender's admin flag even for a current admin (`Roster.AdminIff`).

Five promises fail for some inputs or schedules; each has the exact condition under which it holds and, where the
failure needs a schedule, a concrete one:

- A commit verifies everything that was accepted only if accepted inserts were fresh
  (`DirectoryServer.FreshRunKeepsGood`, `DirectoryServer.StaleInsertDropsChunk`, `DirectoryServer.RaceIsReachable`,
  `DirectoryServer.RaceLosesUpdate`).
- Gap-free delivery needs the readers of a mailbox to share a token (`MailboxDelivery.RespondInOrderIff`,
  `MailboxDelivery.SaneThroughoutIff`, `MailboxDelivery.TwoTokensLeaveGap`).
- It also needs entries not to arrive late. The server takes an entry's time before the transaction that stores it holds
  the write lock, so an entry can be stored after one with a later time (`MailboxDelivery.AppendSaneIff`,
  `MailboxDelivery.OneTokenRunIff`, `MailboxDelivery.LateArrivalLeavesGap`).
- A message to the published key is lost once two keys were stored past it, which two failed publishes in a row are
  enough for (`MediumKeys.DirectMessageReadIff`, `MediumKeys.TwoFailedPublishesLoseMessages`).
- A fresh upload of an expiring fragment can lose its file to a janitor that runs between its two writes
  (`FragmentStore.SplitUploadKeepsFileIff`, `FragmentStore.SplitUploadLosesFile`).

## Model

| member | source | states |
|---|---|---|
| `Certificates.TakeRoots` | libraries/nullspace-structs/src/certificate.rs:133-155 | The root pass, which removes while it scans: it fails exactly when some certificate for the root key does not verify under its own key, takes all and only root certificates out, finds a live root exactly when there is one, and starts the signer set from the live roots that may issue. Expiry does not excuse a root from self-verifying. |
| `Certificates.ConsumeKeepsConsistent` | libraries/nullspace-structs/src/certificate.rs:163-176 | Removing one certificate that a trusted key signs keeps everything consumed vouched for and the signer set inside the least one and closed over what was consumed; an expired certificate is consumed and adds no signer. |
| `Certificates.Pass` | libraries/nullspace-structs/src/certificate.rs:159-178 | One scan, growing the signers mid-scan, either shrinks the worklist or ends with nothing left that any trusted key signs, so the fixpoint loop terminates and stops only when stuck. |
| `Certificates.Verify` | libraries/nullspace-structs/src/certificate.rs:125-189 | Soundness and completeness with the error: the result is decided by the set of certificates alone, as the first that fails of: roots self-verify, a live root exists, every other certificate is signed by a key at the end of a path of live issuing certificates from the root, the leaf is live. |
| `Certificates.ClosedSetHoldsTrusted` | libraries/nullspace-structs/src/certificate.rs:157-178 | Leastness: any signer set that holds the live issuing roots and is closed under live issuing holds every key an issuer path reaches. |
| `Certificates.StuckMeansUnvouched` | libraries/nullspace-structs/src/certificate.rs:157-182 | When no trusted key signs anything left, some remaining certificate is really unvouched: rejecting it as unverifiable is never premature. |
| `Certificates.VerdictIgnoresOrder` | libraries/nullspace-structs/src/certificate.rs:126-188 | Any permutation of the ancestors gives the same verdict, error included. |
| `Certificates.AcceptedEarlier` | libraries/nullspace-structs/src/certificate.rs:139-168 | A chain accepted at one time is accepted at every earlier time. |
| `Certificates.IssuedIsTrusted` | libraries/nullspace-structs/src/certificate.rs:168-171 | A live issuing certificate signed by a trusted key makes its own key trusted. |
| `Certificates.LargerSetTrustsMore` | libraries/nullspace-structs/src/certificate.rs:157-178 | Adding certificates never removes a trusted signer or unvouches a certificate. |
| `Certificates.AcceptedLeafIsTrusted` | libraries/nullspace-structs/src/certificate.rs:125-189 | The issuing leaf of an accepted chain is itself a trusted signer. |
| `Certificates.ExtendAccepted` | libraries/nullspace-client/src/internal.rs:302-310 | Appending a certificate signed by the issuing leaf of an accepted chain gives an accepted chain if and only if the certificate is live and, should it be for a root key, signs itself. |
| `Certificates.ExtendAllAccepted` | libraries/nullspace-client/src/internal.rs:287-318 | Hence any number of issuances, each by the device added before, keeps the chain accepted. |
| `Certificates.IssuedCertificateAccepted` | libraries/nullspace-structs/src/certificate.rs:44-58 | Device linking end to end, from the issuer's secret: the new chain for a non-root key is accepted exactly while the issued certificate is live. |
| `Certificates.SelfSignedRootAccepted` | libraries/nullspace-structs/src/certificate.rs:31-41 | A lone self-signed certificate is accepted exactly when its key has the trusted hash and it is live, with or without the right to issue. |
| `Certificates.AcceptedHasPath` | libraries/nullspace-structs/src/certificate.rs:125-189 | An accepted chain yields an explicit path from a self-signed root to the leaf, every certificate on it live and every one before the leaf issuing and signing the next. |
| `Certificates.ExpiredAncestor` | libraries/nullspace-structs/src/certificate.rs:163-177 | Adding an expired certificate keeps a chain accepted if and only if that certificate is itself vouched for; docs/protocol/devices.md says expired certificates are ignored, the code does not. |
| `DirectoryHistory.VerifyHistory` | libraries/nullspace-structs/src/directory.rs:173-228 | The loop with its early returns accepts exactly the histories every prefix of which passes the one-step check on the owners and hash so far, and fails with that check's error. |
| `DirectoryHistory.FoldError` | libraries/nullspace-structs/src/directory.rs:177-226 | A failing prefix fails every extension with the same error. |
| `DirectoryHistory.FoldOwners` | libraries/nullspace-structs/src/directory.rs:213-225 | After a verified history the accumulated owners are exactly the keys added and not removed since, without duplicates, and the link is the hash of the last update. |
| `DirectoryHistory.VerifiedIff` | libraries/nullspace-structs/src/directory.rs:173-228 | Independent meaning of verification: a history verifies if and only if each update links to its predecessor and is signed by a current owner or, while there is none, adds the very owner that signs it. |
| `DirectoryHistory.FirstErrorDecides` | libraries/nullspace-structs/src/directory.rs:177-211 | A history that does not verify fails at its first bad update, and the error says what is wrong with that one: its link; or no owner and none added; or the signature. |
| `DirectoryHistory.VerifiedPrefix` | libraries/nullspace-structs/src/directory.rs:173-228 | Verification is prefix closed. |
| `DirectoryHistory.VerifiedHasNoRepeat` | libraries/nullspace-structs/src/directory.rs:178-189 | No update occurs twice in a verified history. |
| `DirectoryHistory.SameLastHash` | libraries/nullspace-structs/src/directory.rs:178-189 | A verified history and a prefix of it with the same last hash are the same history. |
| `DirectoryHistory.Remove` | libraries/nullspace-structs/src/directory.rs:219-221 | Removing an owner keeps all others, drops every occurrence, and keeps the list duplicate free. |
| `DirectoryHistory.BuildListing` | libraries/nullspace-dirclient/src/lib.rs:379-403 | The client's listing fails exactly when verification does and with its error; otherwise its owners are the very list verification ends with, and its content is that of the last content update. |
| `DirectoryHistory.ClientUpdateAccepted` | libraries/nullspace-dirclient/src/lib.rs:410-429 | An update signed against the history just read extends it if and only if the signing key is a current owner or, in an ownerless history, the key being added. |
| `DirectoryLog.TreeIsCommitted` | binaries/nullspace-directory/src/server.rs:208-226 | The tree after any number of chunks maps each key to the concatenation of its updates in those chunks. |
| `DirectoryLog.CommittedVerified` | binaries/nullspace-directory/src/server.rs:192-206 | In a valid log every key's history verifies. |
| `DirectoryLog.CommittedGrows` | binaries/nullspace-directory/src/server.rs:208-226 | A key's history at an earlier height is a prefix of its history at a later one. |
| `DirectoryLog.StateAtHeight` | binaries/nullspace-directory/src/server.rs:179-245 | At every height of a valid log: the header's root is the root of the tree there, its prev is the hash of the header before, and each history is the concatenation of committed updates, verifies, and only grows. |
| `DirectoryLog.LoadsCommitted` | binaries/nullspace-directory/src/server.rs:266-281 | Reading a key through the node store under the last root gives its committed history. |
| `DirectoryLog.CurrentHistory` | binaries/nullspace-directory/src/server.rs:194-199 | The history loaded before the first chunk is empty, afterwards the committed one. |
| `DirectoryLog.CheckUpdates` | binaries/nullspace-directory/src/server.rs:192-206 | The loop over the keys of a chunk, in any order, succeeds exactly when every key's committed history followed by its new updates verifies. |
| `DirectoryLog.WriteTree` | binaries/nullspace-directory/src/server.rs:208-227 | Rebuilding the tree key by key, in any order, yields the tree with every key's updates appended, and the node store still knows all earlier roots. |
| `DirectoryLog.ValidPrefix` | binaries/nullspace-directory/src/db.rs:59-84 | Every prefix of a valid log is a valid log. |
| `DirectoryLog.ValidAppend` | binaries/nullspace-directory/src/db.rs:59-84 | Appending a chunk gives a valid log if and only if the chunk links, carries the right root and extends every history; tree and histories grow by exactly its updates. |
| `DirectoryServer.Server.LoadForInsert` | binaries/nullspace-directory/src/server.rs:160-164 | The first half of an insert returns the committed history, or nothing before the first chunk. |
| `DirectoryServer.Server.StageUpdate` | binaries/nullspace-directory/src/server.rs:165-175 | The second half stages the update exactly when loaded history, staged updates and update together verify, and otherwise changes nothing. |
| `DirectoryServer.Server.InsertUpdate` | binaries/nullspace-directory/src/server.rs:131-177 | An uninterrupted insert: retry before the first chunk, accepted exactly when committed, staged and new updates verify in that order, staged exactly when accepted. |
| `DirectoryServer.Server.TakeStaging` | binaries/nullspace-directory/src/server.rs:180-183 | Taking the staging area empties it and returns all of it. |
| `DirectoryServer.Server.PublishTaken` | binaries/nullspace-directory/src/server.rs:184-237 | What was taken becomes one linked chunk if every key verifies and is lost entirely if not; the log stays valid either way. |
| `DirectoryServer.Server.CommitChunk` | binaries/nullspace-directory/src/server.rs:179-245 | A commit empties the staging area, appends at most one chunk and keeps the log valid. |
| `DirectoryServer.RunKeepsSound` | binaries/nullspace-directory/src/server.rs:131-245 | In every run of inserts and commits split into their halves and interleaved at will, the log stays valid and is only appended to. |
| `DirectoryServer.ReachableState` | binaries/nullspace-directory/src/server.rs:131-245 | Hence at every height of every reachable log: header chain from the zero hash, roots that match, concatenated, verified and growing histories. |
| `DirectoryServer.TailFixesHistory` | binaries/nullspace-directory/src/server.rs:164-173 | Updates that verify after a loaded history verify after a longer committed one if and only if the two are the same. |
| `DirectoryServer.AcceptedIsCommittableIff` | binaries/nullspace-directory/src/server.rs:160-175 | The exact condition under interleaving: an accepted insert leaves everything committable if and only if no chunk with its key was committed or taken since it loaded its history. |
| `DirectoryServer.PublishSucceeds` | binaries/nullspace-directory/src/server.rs:192-237 | When everything on its way is committable, a commit succeeds and each key's committed, taken and staged updates together stay the same sequence. |
| `DirectoryServer.FreshStepIff` | binaries/nullspace-directory/src/server.rs:131-245 | One step of an interleaved run keeps everything committable and accounted for if and only if it accepts no stale insert. |
| `DirectoryServer.FreshRunKeepsGood` | binaries/nullspace-directory/src/server.rs:131-245 | Over whole interleaved runs: at every point no commit can fail, and committed, taken and staged updates are, key by key and in order, exactly the accepted ones, if and only if every accepted insert is fresh when it reaches the staging lock. |
| `DirectoryServer.AtomicIsHalves` | binaries/nullspace-directory/src/server.rs:131-245 | An atomic insert or commit is its two halves with nothing in between. |
| `DirectoryServer.AtomicCommit` | binaries/nullspace-directory/src/server.rs:179-245 | With atomic steps a commit always succeeds, empties the staging area and leaves exactly the accepted updates committed, in acceptance order. |
| `DirectoryServer.ChunkIsDated` | binaries/nullspace-directory/src/server.rs:229-237 | The chunk a successful commit appends carries the time of the commit and exactly what was taken; the rest of the log stays. |
| `DirectoryServer.AtomicInsertIff` | binaries/nullspace-directory/src/server.rs:160-175 | An atomic insert, by meaning: the update is accepted, and then stands last for its key, if and only if there is a chunk already and it links to the last update accepted for the key and is signed by a current owner or founds the history. |
| `DirectoryServer.AtomicRunAtRest` | binaries/nullspace-directory/src/server.rs:131-245 | That holds after every run of atomic inserts and commits. |
| `DirectoryServer.StaleInsertDropsChunk` | binaries/nullspace-directory/src/server.rs:180-205 | An insert accepted on a stale history makes a commit lose everything staged, other keys included: the next one or, if the insert lands between the halves of a commit, which still publishes, the one after it. |
| `DirectoryServer.CommitFails` | binaries/nullspace-directory/src/server.rs:192-206 | One key whose staged updates do not extend its history is enough to lose the whole chunk. |
| `DirectoryServer.RaceIsReachable` | binaries/nullspace-directory/src/server.rs:160-174 | For any key and any update that founds a history: a run reaches the state before such a stale insert. Two inserts begin, one finishes, a commit follows. |
| `DirectoryServer.RaceAcceptsStale` | binaries/nullspace-directory/src/server.rs:160-174 | In that state the other insert, if it too founds a history, is accepted although it is not fresh. |
| `DirectoryServer.RaceLosesUpdate` | binaries/nullspace-directory/src/server.rs:160-205 | From that reachable state, in which all was in order, the stale insert is reported as accepted and the next commit loses its update, for any signatures and any two self-signed founding updates. |
| `DirectoryServer.StoresNoEmptyHistory` | binaries/nullspace-directory/src/server.rs:165-237 | In every interleaved run no key is ever stored with an empty history, which a client would read as absence. |
| `DirectoryMirror.Mirror.ApplyChunk` | binaries/nullspace-directory/src/mirror.rs:125-196 | A chunk is stored exactly when it is for the next height, links, verifies for every key and matches the recomputed root; otherwise the log is unchanged. |
| `DirectoryMirror.Mirror.SyncOnce` | binaries/nullspace-directory/src/mirror.rs:66-113 | A round stores chunks until the first bad one; the anchor is adopted only when the local head is at its height with its hash, and a mirror ahead of it is left alone. |
| `DirectoryMirror.ReplayKeepsValid` | binaries/nullspace-directory/src/mirror.rs:96-106 | Whatever it is fed, a mirror stores only linked headers and verified histories and never rewrites any. |
| `DirectoryMirror.ReplayFollows` | binaries/nullspace-directory/src/mirror.rs:96-106 | Fed by a valid directory log it agrees with, a mirror rejects no chunk and ends equal to that log at the anchor's height. |
| `DirectoryMirror.ReplayStaysBehind` | binaries/nullspace-directory/src/mirror.rs:96-106 | Over a line on which any answer may be missing, a mirror's log stays a prefix of a valid directory's: it may fall behind, never apart. |
| `DirectoryMirror.ReplayStopsIff` | binaries/nullspace-directory/src/mirror.rs:96-106 | A replay succeeds if and only if it gets past the anchor's height; otherwise it stopped at a chunk that is missing or does not follow. |
| `DirectoryMirror.HeadHashFixesLog` | binaries/nullspace-directory/src/mirror.rs:108-110 | Two valid logs with the same head hash have the same height and the same headers. |
| `DirectoryMirror.HeadHashFixesTrees` | binaries/nullspace-directory/src/mirror.rs:163-182 | Hence the same tree at every height. |
| `DirectoryMirror.MatchedAnchorMeansSameHistory` | binaries/nullspace-directory/src/mirror.rs:108-110 | A mirror whose head matches a directory's anchor serves that directory's history for every key at every height. |
| `DirectoryClient.HeaderStore.StageBatch` | libraries/nullspace-dirclient/src/header_sync.rs:81-96 | A batch is staged exactly when each header links to the one before it, with its true hashes. |
| `DirectoryClient.HeaderStore.SyncHeaders` | libraries/nullspace-dirclient/src/header_sync.rs:46-125 | The batch loop refines the pure synchronisation: batches of at most 1000, each stored before the next is fetched, and stored rows always a hash chain, also when it fails. |
| `DirectoryClient.LinksFromIff` | libraries/nullspace-dirclient/src/header_sync.rs:83-96 | A batch links to what is stored if and only if both together are a chain from the zero hash. |
| `DirectoryClient.SyncKeepsChain` | libraries/nullspace-dirclient/src/header_sync.rs:66-125 | After every synchronisation, failed ones included, stored headers are a chain that extends the earlier one; after success the head hash is the anchor's. |
| `DirectoryClient.ChainHashFixesChain` | libraries/nullspace-dirclient/src/header_sync.rs:116-124 | A head hash names one chain. |
| `DirectoryClient.SameAnchorSameHeaders` | libraries/nullspace-dirclient/src/header_sync.rs:116-124 | Any two clients that synchronised against the same anchor hold identical headers, whatever their transports answered. |
| `DirectoryClient.SyncSucceedsIff` | libraries/nullspace-dirclient/src/header_sync.rs:46-125 | Synchronisation against a chain's anchor succeeds if and only if what is stored is a prefix of that chain and the missing batches are delivered; a client ahead of the anchor, or holding a foreign header from a failed attempt, can never succeed. |
| `DirectoryClient.BatchesAre` | libraries/nullspace-dirclient/src/header_sync.rs:66-67 | Every batch but the last asks for 1000 headers, the last for what is left up to the anchor's height. |
| `DirectoryClient.AcceptedResponseIsDirectorys` | libraries/nullspace-dirclient/src/lib.rs:351-377 | A response accepted after a successful synchronisation carries the directory's own history for that key at that height, and it verifies. |
| `DirectoryClient.HonestResponseAccepted` | libraries/nullspace-dirclient/src/lib.rs:366-375 | The directory's own answer is accepted if and only if the key is not stored with an empty history, which would be read as absence. |
| `DirectoryClient.TrueResponseAccepted` | libraries/nullspace-dirclient/src/lib.rs:351-377 | The same for every height: a true response is accepted if and only if its height is at most the anchor's and the key is not stored there with an empty history. |
| `DirectoryClient.HeadersDelivered` | libraries/nullspace-dirclient/src/header_sync.rs:46-125 | A client whose headers are a prefix of the directory's synchronises to exactly the directory's once the missing ones are delivered. |
| `DirectoryEndToEnd.DirectoryAnswersAccepted` | libraries/nullspace-dirclient/src/lib.rs:351-377 | At the head of every interleaved run the directory's own answer for any key is accepted by a synchronised client. |
| `DirectoryEndToEnd.ClientCanRead` | libraries/nullspace-dirclient/src/lib.rs:262-294 | Liveness to go with the next row: after any run of atomic inserts and commits, a client behind the directory to whom the missing headers are delivered does synchronise, accepts the directory's answer and reads the accepted updates from it. |
| `DirectoryEndToEnd.ClientReadsAcceptedUpdates` | libraries/nullspace-dirclient/src/lib.rs:262-294 | From inserts to reads: after any run of atomic inserts and commits a synchronised client that accepts a response at the head reads exactly the accepted updates in acceptance order. |
| `DirectoryEndToEnd.MirrorFollowsRun` | binaries/nullspace-directory/src/mirror.rs:66-113 | A new mirror fed by any interleaved run of a directory ends equal to it up to the height it replays. |
| `Attachments.Groups` | libraries/nullspace-client/src/attachments.rs:157-164 | A level is cut into the fewest groups of at most 512, none empty. |
| `Attachments.BuildLevel` | libraries/nullspace-client/src/attachments.rs:156-165 | The loop over the groups of a level builds exactly its nodes and the children standing for them. |
| `Attachments.BuildLevels` | libraries/nullspace-client/src/attachments.rs:154-166 | The level loop terminates with a root of at most 512 children and all nodes built on the way, lowest first. |
| `Attachments.UpKeepsMeaning` | libraries/nullspace-client/src/attachments.rs:157-164 | Replacing a level by its nodes keeps the bytes it stands for and the sum of its declared sizes, and every node has 1 to 512 children with true sizes. |
| `Attachments.TopKeepsMeaning` | libraries/nullspace-client/src/attachments.rs:154-166 | So does the whole level loop. |
| `Attachments.UploadLeaves` | libraries/nullspace-client/src/attachments.rs:103-146 | In whatever order the chunk uploads finish, each result names its chunk's index, hash and length, indices are distinct, and every leaf is stored. |
| `Attachments.SortRestoresFileOrder` | libraries/nullspace-client/src/attachments.rs:148-152 | Sorting by index puts the leaf level into file order, whatever the completion order was. |
| `Attachments.UploadNodes` | libraries/nullspace-client/src/attachments.rs:168-173 | All nodes are stored and nothing stored before is lost. |
| `Attachments.UploadFile` | libraries/nullspace-client/src/attachments.rs:97-180 | The whole upload, for every file up to 2^64-1 bytes and every completion order, gives one root determined by key, nonces and file, with every fragment below it stored. |
| `Attachments.LeavesHoldFile` | libraries/nullspace-client/src/attachments.rs:97-142 | The leaf level stands for the file: true chunk sizes, and contents that concatenate to its bytes. |
| `Attachments.LeavesAre` | libraries/nullspace-client/src/attachments.rs:97-142 | Every chunk but the last holds 131072 bytes and the last what is left; each leaf is sealed under its own nonce and opens under it. |
| `Attachments.UploadedMeansFile` | libraries/nullspace-client/src/attachments.rs:97-180 | The uploaded forest stands for exactly the file's bytes and its declared sizes add up to the file's length. |
| `Attachments.AllSoundHaveContents` | libraries/nullspace-structs/src/fragment.rs:54-64 | Children whose sizes are true at every level decrypt to content as long as their declared total. |
| `Attachments.Download.DownloadFragment` | libraries/nullspace-client/src/attachments.rs:412-456 | The recursive download with its running offset performs, on the file and on the byte counter, exactly the writes of its trace and stops at the first missing, forged or undecryptable fragment. |
| `Attachments.SoundTraceTiles` | libraries/nullspace-client/src/attachments.rs:430-453 | A sound child downloads without error and its writes lay its content out from its offset on with no gap and no overlap. |
| `Attachments.TraceSucceedsIff` | libraries/nullspace-client/src/attachments.rs:412-456 | For any store: a download succeeds if and only if every fragment it reaches is served, has the hash asked for and, if a leaf, opens under the key. |
| `Attachments.RunTasks` | libraries/nullspace-client/src/attachments.rs:360-391 | Concurrent child downloads, any task with a write left going next: some interleaving of all their writes was performed, the file is its result, and success is the final size check. |
| `Attachments.InterleavingPermutes` | libraries/nullspace-client/src/attachments.rs:360-387 | Every interleaving performs the same writes and the same number of bytes. |
| `Attachments.FittingWrites` | libraries/nullspace-client/src/attachments.rs:444-445 | Framing: writes that fit one target set every position they reach to the target's byte and touch nothing else. |
| `Attachments.AnyOrderRebuilds` | libraries/nullspace-client/src/attachments.rs:360-391 | Writes that fit a target and reach every position of it rebuild it in whatever order they come. |
| `Attachments.FlattenedTasks` | libraries/nullspace-client/src/attachments.rs:399-410 | The precomputed child offsets are those a sequential download would reach, so the tasks together are one sequential download. |
| `Attachments.SoundDownload` | libraries/nullspace-client/src/attachments.rs:355-391 | Any interleaving of the downloads of sound children rebuilds their content and passes the size check. |
| `Attachments.RoundTrip` | libraries/nullspace-client/src/attachments.rs:97-397 | Upload then download is the identity: for every file, every completion order of the upload, every interleaving of the download and a store that may have grown meanwhile, all tasks succeed, the bytes are the file's and the size check passes. |
| `Attachments.DownloadAttachment` | libraries/nullspace-client/src/attachments.rs:339-397 | The whole download gives a file if and only if there are no children, or every child downloads and the bytes written are the declared total; the file is then that of some interleaving of all writes. Any store is allowed; from one whose fragments have their own hashes, sound children of at most 2^64-1 bytes give exactly their content. |
| `Attachments.DownloadIsIntact` | libraries/nullspace-client/src/attachments.rs:360-456 | Integrity: whatever a server answers, forged or missing fragments included, a download of an uploaded file in which every child succeeds gives exactly the file, in any interleaving. |
| `Attachments.DownloadElsewhere` | libraries/nullspace-client/src/attachments.rs:97-456 | A file uploaded to one store and downloaded from whatever another holds gives the file or nothing. |
| `Attachments.UploadThenDownload` | libraries/nullspace-client/src/attachments.rs:97-397 | Upload and download run one after the other return the file itself. |
| `MailboxPages.EarlierPageIsPrefix` | binaries/nullspace-server/src/mailbox.rs:83-119 | A page of up to 100 entries cut at an earlier state of a mailbox that has since grown at the end is still the start of what is newer than its cursor. |
| `MailboxPages.PageIs` | binaries/nullspace-server/src/mailbox.rs:83-90 | A page is the start of what is newer than its cursor: all of it up to 100 entries, and 100 of it beyond. |
| `MailboxPages.PageFindsNext` | libraries/nullspace-client/src/long_poll.rs:226-232 | An entry found past a cursor in a page taken from a smaller cursor, if the page is still the start of what is newer, is the next entry of the mailbox past that cursor. |
| `MailboxPages.PageArriveIff` | binaries/nullspace-server/src/mailbox.rs:81-90 | A page stays the start of what is newer if and only if the arriving entry does not belong between its cursor and its last entry. |
| `MailboxPages.CursorContinues` | libraries/nullspace-client/src/convo/dm_recv.rs:52-60 | Feeding back the time of the k-th entry received continues exactly after it. |
| `MailboxPages.AnswerIsNextIff` | libraries/nullspace-client/src/long_poll.rs:222-232 | Responses are looked up by mailbox alone. An entry found in a page taken from some cursor, if the page is still the start of what is newer, is a request's next one if and only if the mailbox holds nothing between the request's cursor and that one. |
| `LongPoller.BuildArgs` | libraries/nullspace-client/src/long_poll.rs:153-182 | The poll built from the pending list covers it: every request is listed under its mailbox and token, every listed index is a pending request of that key, and every cursor is at most that of each request it covers and equal to one of them. |
| `LongPoller.CoveringIsLeast` | libraries/nullspace-client/src/long_poll.rs:161-172 | The cursor of each argument is the least among the requests it covers, and there is an argument exactly for the keys with requests. |
| `LongPoller.Worker.NewRequest` | libraries/nullspace-client/src/long_poll.rs:111-114 | A request that arrives during a poll cancels it and joins the pending list last; no poll stays in flight whose indices could be out of date. |
| `LongPoller.Worker.StartPoll` | libraries/nullspace-client/src/long_poll.rs:88-110 | A poll is started only for a non-empty pending list and covers it. |
| `LongPoller.Worker.FindEntry` | libraries/nullspace-client/src/long_poll.rs:226-232 | The scan finds the first entry past a request's own cursor, or none. |
| `LongPoller.Worker.AnswerEach` | libraries/nullspace-client/src/long_poll.rs:208-240 | For any response and any indices, matching or not: each request its poll lists gets the first entry past its cursor if there is one, and all others stay pending in order. |
| `LongPoller.UnlistedStaysPending` | libraries/nullspace-client/src/long_poll.rs:213-221 | A request its poll does not list gets nothing, whatever the response holds, and stays pending in its place. |
| `LongPoller.Worker.HandleResponse` | libraries/nullspace-client/src/long_poll.rs:123-242 | The response is handled with its own poll's indices; while the poll covers the pending list, which every worker operation keeps, each request with an entry past its cursor is answered once and the others stay pending. |
| `LongPoller.Worker.HandleError` | libraries/nullspace-client/src/long_poll.rs:200-206 | A server error goes to every pending request, in order, and none stays. |
| `LongPoller.ListedAreAnswered` | libraries/nullspace-client/src/long_poll.rs:211-225 | While the poll covers the pending list the lookups of key and index never miss, so handling depends on mailbox and cursor alone. |
| `LongPoller.AnswersAre` | libraries/nullspace-client/src/long_poll.rs:211-240 | Answered and still pending split the old pending list: every request lands in one of them according to whether the response has an entry for it. |
| `LongPoller.AnswersKeepOrder` | libraries/nullspace-client/src/long_poll.rs:211-240 | Answers come in the order of their requests, each decided on its own. |
| `LongPoller.PendingKeepsOrder` | libraries/nullspace-client/src/long_poll.rs:211-240 | So is what stays pending. |
| `LongPoller.NonEmptyResponseShrinks` | libraries/nullspace-client/src/long_poll.rs:211-240 | A non-empty page for any argument of the poll answers at least one request, so the pending list strictly shrinks. |
| `MailboxDelivery.ConsumeKeepsOrder` | libraries/nullspace-client/src/convo/group_recv.rs:131-138 | Consuming an answer hands the reader the next entry it has not had and moves its cursor there; an answer that lost a race is simply asked for again. |
| `MailboxDelivery.AppendStores` | binaries/nullspace-server/src/mailbox.rs:43-59 | An append with a new time adds exactly its entry to exactly its mailbox; one with the time of another entry adds nothing; readers, requests, poll and reply stay as they are. |
| `MailboxDelivery.BoxOverRun` | binaries/nullspace-server/src/mailbox.rs:43-59 | Over every run, orderly or not, a mailbox holds exactly what it held at first and what was appended to it and not refused. |
| `MailboxDelivery.RoundDelivers` | libraries/nullspace-client/src/long_poll.rs:84-242 | Progress: an idle reader with an entry past its cursor, nobody waiting at an earlier cursor under its token, has after one round of asking, polling, serving, responding and consuming exactly one entry more, the next one past its cursor, whoever else is waiting. |
| `MailboxDelivery.ReaderDrains` | libraries/nullspace-client/src/long_poll.rs:84-242 | Hence a reader that goes round after round receives everything past its cursor, in order, one entry a round. |
| `MailboxDelivery.SentIsReceived` | libraries/nullspace-client/src/long_poll.rs:84-242 | From sender to receiver: an entry later than all others in its mailbox is received by every reader behind it, after as many rounds as there are entries past its cursor. |
| `MailboxDelivery.FailReleasesAll` | libraries/nullspace-client/src/long_poll.rs:200-206 | An error leaves no request pending, no reader waiting and no poll in flight; what readers have received and hold stays. |
| `MailboxDelivery.DroppedPollRestarts` | libraries/nullspace-client/src/long_poll.rs:125-140 | A poll that times out or loses its connection is started anew over the same requests, and nothing else changes. |
| `MailboxDelivery.AppendSaneIff` | binaries/nullspace-server/src/mailbox.rs:43-59 | The exact condition for one append, whatever its time: everything is kept if and only if the entry is refused for having the time of another or belongs neither between a reader's start and what that reader has taken or holds nor into the page of the reply in flight. |
| `MailboxDelivery.RespondInOrderIff` | libraries/nullspace-client/src/long_poll.rs:208-240 | The exact condition for one response, whatever the tokens: every reader stays in order if and only if no waiting request is answered whose mailbox holds an entry between its own cursor and the poll's. |
| `MailboxDelivery.StepSaneIff` | libraries/nullspace-client/src/long_poll.rs:84-242 | One step of the system, whatever the tokens and the times - an append, a request, a dropped request, a consumption, a poll started, served, answered, timed out or failed - keeps readers in order, requests matching their readers, waiting readers pending, the poll in flight matching the pending list, the reply in flight a true page, and every request pending or settled, if and only if it is neither a response that skips somebody nor an append that disturbs a reader or the reply. |
| `MailboxDelivery.RespondShrinks` | libraries/nullspace-client/src/long_poll.rs:208-240 | Every reply the worker handles answers somebody, so its pending list strictly shrinks. |
| `MailboxDelivery.SaneThroughoutIff` | libraries/nullspace-client/src/long_poll.rs:84-242 | Over whole runs with any tokens and any times: all of that holds at every step if and only if no response skips anybody and no append disturbs anybody. |
| `MailboxDelivery.OneTokenSkipsNobody` | libraries/nullspace-client/src/long_poll.rs:161-172 | When the readers of a mailbox share a token, its one argument starts at or before each of their cursors, so no response skips anybody. |
| `MailboxDelivery.StepKeepsGood` | libraries/nullspace-client/src/long_poll.rs:84-242 | With one token per mailbox a step keeps everything, among it that the poll in flight still matches the pending list and its cursors are at most those of the requests they cover, if and only if it is no append that disturbs anybody. |
| `MailboxDelivery.OneTokenRunIff` | libraries/nullspace-client/src/long_poll.rs:84-242 | Over whole runs with one token per mailbox everything is kept at every step if and only if no late arrival disturbs a reader or a reply. |
| `MailboxDelivery.RunKeepsGood` | libraries/nullspace-client/src/long_poll.rs:84-242 | Entries that arrive with increasing times never do, so every such run keeps everything. |
| `MailboxDelivery.ReadersReceiveInOrder` | libraries/nullspace-client/src/long_poll.rs:84-242 | From any start, with one token per mailbox and entries arriving with increasing times, every reader has at all times received a prefix of the entries beyond its start cursor: in order, without gap or repeat; the poll in flight matches the pending requests, and every request is pending or settled, never both. |
| `MailboxDelivery.TwoTokensLeaveGap` | libraries/nullspace-client/src/long_poll.rs:222-232 | From every initial state in which two readers of a mailbox have different tokens and the one is past an entry the other has not had: a six-step run hands the slower reader a later entry first and leaves its cursor past the one it has not had. |
| `MailboxDelivery.LateArrivalLeavesGap` | binaries/nullspace-server/src/mailbox.rs:43-59 | Even with one reader and one token, from every initial state in which the reader has a first entry: an earlier entry that arrives while the reply is in flight is behind no reader at that moment, and yet this six-step run hands the reader the later entry and leaves the late one behind its cursor. |
| `MailboxDelivery.OvertakenExists` | binaries/nullspace-server/src/mailbox.rs:43-59 | Such a state: an entry of time 7, a reader from the beginning, and an entry of time 5 to come. |
| `MailboxDelivery.RivalsExist` | libraries/nullspace-client/src/long_poll.rs:222-232 | Such a state: entries of times 3 and 7, and readers that start at 0 and at 5. |
| `MailboxAcl.MailboxRows.AclEdit` | binaries/nullspace-server/src/mailbox.rs:136-179 | Self-removal first, then the no-op, then the delegation rule: a row is written exactly when the caller may edit, or adds an absent row whose rights are within its own. |
| `MailboxAcl.MailboxRows.UpdateDmMailbox` | binaries/nullspace-server/src/mailbox.rs:181-214 | The direct mailbox exists afterwards with the send-only anonymous row and, if a token is given, the send-and-receive device row; nothing else changes. |
| `MailboxAcl.MayIff` | binaries/nullspace-server/src/mailbox.rs:250-264 | What a token may do is what its own row says if it has one, else what the anonymous row says, else nothing. |
| `MailboxAcl.UpdateGivesRights` | binaries/nullspace-server/src/mailbox.rs:181-214 | By rights, on any mailbox: afterwards tokens without a row may send and neither receive nor edit, the device's token may send and receive and not edit, and the rows of all others stay. |
| `MailboxAcl.RegisterGivesRights` | binaries/nullspace-server/src/mailbox.rs:216-248 | A known token that registers has every right afterwards, an unknown one changes nothing, and all other rows stay. |
| `MailboxAcl.EditWritesIff` | binaries/nullspace-server/src/mailbox.rs:136-179 | By rights: after an edit its target has the row asked for if and only if it had it before, or the mailbox exists and the caller may edit or gives a target without a row no right but its own; a caller giving itself no rights removes its row, and all other rows stay. |
| `MailboxAcl.GroupExistsIff` | binaries/nullspace-server/src/mailbox.rs:216-248 | A group's mailbox exists, over all runs, if and only if some token the server knows has registered the group. |
| `MailboxAcl.GroupChainsStartAtRegistration` | binaries/nullspace-server/src/mailbox.rs:216-248 | Every chain of grants behind a right on a group's mailbox starts at a registration of the group by a known token. |
| `MailboxAcl.RegisteredTokenMayEdit` | binaries/nullspace-server/src/mailbox.rs:216-248 | Registering an existing group again adds its token as a holder of every right, with which it may set the row of any other. |
| `MailboxAcl.StrangersChangeNoRights` | binaries/nullspace-server/src/mailbox.rs:136-179 | Short of registering, a token without a row, where there is no anonymous one, changes nobody's rights by any edit. |
| `MailboxAcl.DirectHasNoEditor` | binaries/nullspace-server/src/mailbox.rs:136-214 | In every run on a direct mailbox no row ever carries the right to edit the ACL. |
| `MailboxAcl.RowChanges` | binaries/nullspace-server/src/mailbox.rs:136-214 | A present row changes only when update_dm_mailbox rewrites it and disappears only when its own token removes it. |
| `MailboxAcl.RightsTraceBack` | binaries/nullspace-server/src/mailbox.rs:136-264 | Every right on every row, of direct and group mailboxes alike, traces back through a chain of grants, each by a row that held the right itself or the right to edit at the time, to a row the server wrote itself. |
| `MailboxAcl.DirectChainsKeepRight` | binaries/nullspace-server/src/mailbox.rs:136-214 | On a direct mailbox every link of such a chain rests on the granted right itself, and the chain starts at an update_dm_mailbox that wrote this very right. |
| `MailboxAcl.EditTakesIff` | binaries/nullspace-server/src/mailbox.rs:136-179 | Rights in effect, with the anonymous row standing in for a missing one: an edit by one token takes from another a right it had if and only if the edit goes through, the row it sets governs the other, and it lacks the right. |
| `MailboxAcl.DirectRowProtects` | binaries/nullspace-server/src/mailbox.rs:136-179 | On a direct mailbox a token that has a row loses no right to the edits of others. |
| `MailboxAcl.EmptyRowTakesAll` | binaries/nullspace-server/src/mailbox.rs:162-170 | A token that has no row loses what the anonymous row allows it when any other token gives it an empty one, which the delegation rule lets anyone do. |
| `MailboxAcl.FreshMailboxLetsAllSend` | binaries/nullspace-server/src/mailbox.rs:181-214 | On a direct mailbox just created the anonymous row is the only one, and every token may send and neither receive nor edit. |
| `Roster.GroupRoster.UpsertMember` | libraries/nullspace-client/src/convo/roster.rs:283-314 | A member row is set, and the result says whether it differs. |
| `Roster.GroupRoster.RemoveMember` | libraries/nullspace-client/src/convo/roster.rs:316-327 | A member row is deleted, and the result says whether there was one. |
| `Roster.GroupRoster.Load` | libraries/nullspace-client/src/convo/roster.rs:212-238 | Loading initializes a roster of version 0 with the initial admin and leaves any other alone. |
| `Roster.GroupRoster.ApplyManageMessage` | libraries/nullspace-client/src/convo/roster.rs:54-210 | A message has exactly its effect; changed holds exactly when the member rows differ, and only then is the version bumped. |
| `Roster.ReplayIsFold` | libraries/nullspace-client/src/convo/roster.rs:29-40 | For every placement of loads and session breaks the roster is the pure fold of the processed messages. |
| `Roster.FoldVersion` | libraries/nullspace-client/src/convo/roster.rs:206-209 | The version is 1 plus the number of messages that changed the roster. |
| `Roster.NoBannedAdmin` | libraries/nullspace-client/src/convo/roster.rs:140-154 | In every reachable roster no banned member is an admin. |
| `Roster.AdminIff` | libraries/nullspace-client/src/convo/roster.rs:54-210 | A member is an admin if and only if the last effective admin-affecting event for it is the initialization or an active admin's AddAdmin, with no later effective Ban, RemoveAdmin, own Leave or own InviteAccepted, which always clears the flag. |
| `Roster.StatusIff` | libraries/nullspace-client/src/convo/roster.rs:54-210 | After any log a user is banned, pending, accepted or no member exactly as the last message that sets its status says: a ban or unban by an active admin, an active member's invitation of a stranger, or its own acceptance or leave while not banned. |
| `Roster.BannedIff` | libraries/nullspace-client/src/convo/roster.rs:126-175 | A user is banned if and only if an active admin has banned it and none has unbanned it since. |
| `Roster.AdminHasPath` | libraries/nullspace-client/src/convo/roster.rs:54-210 | Every admin has a finite chain of grants from the initial admin, each made while its sender was an active admin. |
| `Roster.NoAdminForever` | libraries/nullspace-client/src/convo/roster.rs:54-210 | Once no admin is left none ever appears, and the set of banned members is frozen. |
| `HeaderEncryption.EncryptBytes` | libraries/nullspace-structs/src/e2ee.rs:142-174 | Encryption succeeds if and only if there are recipients and each one's key is usable; an unusable key is reported as such and an empty list as no recipients. There is one header per recipient, in order, with its hint and the message key sealed to it, and the body is sealed under all headers. |
| `HeaderEncryption.EncryptsIff` | libraries/nullspace-structs/src/e2ee.rs:142-174 | The same of the function the other theorems are about. |
| `HeaderEncryption.DecryptBytes` | libraries/nullspace-structs/src/e2ee.rs:177-205 | The scan skips foreign hints and keys of the wrong length and returns the first header's result that opens the body. |
| `HeaderEncryption.Scan` | libraries/nullspace-structs/src/e2ee.rs:190-204 | Nothing is returned exactly when no header opens the body, and what is returned some header gives. |
| `HeaderEncryption.DecryptsIff` | libraries/nullspace-structs/src/e2ee.rs:142-205 | Anyone trying to decrypt reads the plaintext or nothing, never anything else, and reads it if and only if some header with their hint unseals to the message key. |
| `HeaderEncryption.RecipientReads` | libraries/nullspace-structs/src/e2ee.rs:142-205 | A message to any list of usable keys is made, and every listed recipient reads the plaintext, however many other two-byte hints collide with theirs. |
| `HeaderEncryption.OnlyRecipientsRead` | libraries/nullspace-structs/src/e2ee.rs:142-205 | When different keys share different secrets, exactly the listed recipients read it. |
| `HeaderEncryption.TamperedReadsNothing` | libraries/nullspace-structs/src/e2ee.rs:162-165 | A body under any other sender key or headers opens for nobody. |
| `MediumKeys.Device.constructor` | libraries/nullspace-client/src/internal.rs:681-719 | A new device holds one key as both current and previous, and it is the published one. |
| `MediumKeys.Device.StoreLocally` | libraries/nullspace-client/src/medium_keys.rs:46-54 | The local store alone: the current key becomes the previous one. |
| `MediumKeys.Device.RotateOnce` | libraries/nullspace-client/src/medium_keys.rs:28-60 | A rotation that fails before the store changes nothing; one whose publish the server does not apply has replaced the keys but not the published one; one whose reply is lost reports failure with all three replaced; success means the current key is the published one. |
| `MediumKeys.Device.Receive` | libraries/nullspace-client/src/convo/dm_recv.rs:98-118 | A message is tried with the current key, then with the previous one. |
| `MediumKeys.RunFollowsHistory` | libraries/nullspace-client/src/medium_keys.rs:28-60 | After every run of rotation attempts, failed ones included, the stored keys are the last two ever stored and the published one is the last whose publish succeeded. |
| `MediumKeys.StoredKeyHeldIff` | libraries/nullspace-client/src/medium_keys.rs:46-54 | A stored key is held until exactly the second key stored after it, published or not. |
| `MediumKeys.PublishedHeldIff` | libraries/nullspace-client/src/medium_keys.rs:46-58 | A key the server handed out at some time is still held later if and only if the publishes that had failed by then and the keys stored since are together at most one. |
| `MediumKeys.HeldThroughout` | libraries/nullspace-client/src/medium_keys.rs:46-58 | While publishes succeed the published key is current or previous at all times, also between the store and the publish. |
| `MediumKeys.ReceivedIff` | libraries/nullspace-client/src/convo/dm_recv.rs:98-118 | A received message gives its plaintext or an error, and the plaintext if and only if the current or the previous key is a recipient. |
| `MediumKeys.DirectMessageReadIff` | libraries/nullspace-client/src/convo/dm_recv.rs:98-118 | End to end: a message encrypted to the key handed out is read, after any further rotation attempts, if and only if failed publishes before and keys stored after are together at most one. |
| `MediumKeys.TwoFailedPublishesLoseMessages` | libraries/nullspace-client/src/convo/dm_recv.rs:98-118 | After two rotations in a row whose publishes failed, every message to the key the server still hands out is lost. |
| `FragmentStore.ExpiryExactIff` | binaries/nullspace-server/src/fragment.rs:97-103 | A ttl of 0 stands for never, and nothing else does. Otherwise the stored expiry is now plus ttl if and only if that sum fits 63 bits, which every 32-bit ttl does while now is at most 2^63-1-(2^32-1)*10^9; beyond, the cast wraps. |
| `FragmentStore.FragmentDb.Upload` | binaries/nullspace-server/src/fragment.rs:68-133 | An authorized upload stores the fragment and leaves its row with the later of the old and new expiry, never being the latest; an unauthorized one changes nothing. |
| `FragmentStore.FragmentDb.Load` | binaries/nullspace-server/src/fragment.rs:92-95 | A fragment is found exactly while it has a row. |
| `FragmentStore.FragmentDb.SelectExpired` | binaries/nullspace-server/src/fragment.rs:152-161 | 500 different expired rows, or all of them if there are fewer. |
| `FragmentStore.FragmentDb.JanitorOnce` | binaries/nullspace-server/src/fragment.rs:147-197 | The batch loop terminates with exactly the expired rows and their files gone. |
| `FragmentStore.StoredIff` | binaries/nullspace-server/src/fragment.rs:68-197 | After every run of uploads and janitors a fragment is stored if and only if no janitor has run at or past the expiry of some upload since that upload, and its row carries the latest expiry among those uploads. |
| `FragmentStore.StoredUntilIff` | binaries/nullspace-server/src/fragment.rs:68-197 | The same by the clock, over runs of uploads given by their time and ttl: a fragment is stored if and only if some upload of it had ttl 0, or a ttl such that no janitor since has run at or past its time plus ttl. |
| `FragmentStore.TtlZeroIsKept` | binaries/nullspace-server/src/fragment.rs:97-103 | What was once uploaded with ttl 0 is stored after every later run and its row never expires, whatever the times. |
| `FragmentStore.UploadsCommute` | binaries/nullspace-server/src/fragment.rs:112-124 | The order of two uploads does not matter. |
| `FragmentStore.SplitUploadKeepsFileIff` | binaries/nullspace-server/src/fragment.rs:83-87 | An upload writes the file before the row. Whatever janitors come in between, the row is there in the end, and the file is if and only if the row the upload found had expired at none of them. |
| `FragmentStore.SplitUploadLosesFile` | binaries/nullspace-server/src/fragment.rs:83-87 | A fragment due at time 5 and uploaded again for ever, with a janitor at 5 in between: a row that never expires, and no file. |

## Left out

- Cryptographic primitives, the Merkle tree's nodes, SQLite, and the binary encodings: replaced by the abstractions above; a failing encoding or database call is not modelled.
- The proof-of-work gate of an insert, the signature on an anchor and the client's anchor cache: an insert begins after the gate, and an anchor is taken as the one the directory signed.
- Several commits at once: one chunker takes and publishes, so a run holds at most one taken batch.
- A commit that fails in the database after its tree was written; the next commit starts from the same header.
- `DirectoryMirror.Mirror.SyncOnce`: the upstream is a function from heights to chunks, so it cannot change its answer within a round.
- `Attachments.RunTasks`: tasks interleave at whole writes through their own file handles; the limit on concurrent tasks, progress events and the temporary file's rename are not modelled.
- `Attachments.Download.DownloadFragment`: the summed sizes of a hostile attachment may overflow 64 bits in the source; only running offsets saturate here.
- `MailboxDelivery.ReadersReceiveInOrder`: entries do not expire and no poll is refused for its rights; a reader that restarts from its persisted cursor is a new reader, and a request reaches the worker when it is made, without waiting in a channel.
- Poll timeouts and their adaptation, retry delays, task management of group receivers, and wake-ups: timing only.
- `MailboxAcl.RightsTraceBack`: one mailbox at a time; a group has two, which its registration treats alike.
- Roster messages' signatures and the decryption of group messages, and roster rows with an unknown status text.
- `HeaderEncryption.TamperedReadsNothing`: the body is unchanged; forging a new body is up to the cipher.
- `MediumKeys.PublishedHeldIff`: the sender's cache of published keys is a key handed out earlier; the server's check of the signature on a new key is part of whether the publish succeeds.
- `FragmentStore.FragmentDb.JanitorOnce`: removing a file always succeeds, and the creation time and size columns are not kept.
- `FragmentStore.SplitUploadKeepsFileIff`: only janitors come between the two writes, not other uploads of the same fragment.
- User interface, command line, transports, connection pools, tray, audio and the C interface: plumbing without these properties.
- Message rendering, read cursors, file name helpers, random rekey intervals: would only add easy members.
