# Norn's kernels, modelled and proved

Norn keeps a person's notes, a derived database beside them, and a few
machine-local files. This project models the parts of it whose correctness is
not visible from reading one function, and proves what each promises.

**The machine-local files.** `FileSystem` keeps names, inodes, a volatile and a
durable layer. `MutateProtocol` is `mutate` as a transition system: any number
of calls in any number of processes, interleaved at every system call, a foreign
actor that replaces the lock file, processes that die, power that goes.
`MutateRuns` states what holds over every run: mutual exclusion, no lost update,
whole-or-nothing across a power cut, what each outcome means, what a sweep may
take. `MutateDurability` says exactly when what stands outlives a cut, and
`MutateCounterexamples` builds runs, from an empty directory, that show what is not
promised. `MutateSpares` is what every run leaves alone. `StoredFile` is one process's program in its own order, every call able to
fail. `Document` and `Registry` are the payload, and `RegistryRuns` puts the two
together: what the registry holds after any run of concurrent changes.

**The database.** `Database` and `Verdicts` are a database as far as opening one
is concerned, and the judgment over it. `Ceremony` opens, creates, reuses and
rebuilds, with refusals and crashes at every step. `Lifetimes` is what a
consumer holding an epoch and a generation may conclude later. `Seal` is the
read connection no statement can write through or end the snapshot of.
`Profiling` is the span recorder shared by threads.

**Streams and digests.** `Fips180` transcribes SHA-256 from sections 4.1.2, 5.1.1,
5.2.1 and 6.2.2 of FIPS 180-4, and `FipsConstants` shows where its constants come
from (sections 4.2.2 and 5.3.3); `Digest` is the streaming implementation.
`TreeDigest` is the corpus digest and its pre-image. `Utf8` is the grammar of
section 4 of RFC 3629, and `Scalars` shows that it admits what section 3 encodes;
`StreamHash` is the check and the hash taken chunk by chunk.

**Planning and deciding.** `Paths`, `Numerals`, `LinkNames` and `Symlinks` plan links that keep
every walk finite. `GitRules` is how git ignores files, after gitignore(5);
`Gitignore` is the cheap test whose yes can be believed, `GitignoreLines` says in
full which lines it counts and for what, and `GitignoreLimits` which of its
questions it needs. `Dates` and `Rng` are calendar
arithmetic and the generator.

Some results are about what the code does *not* guarantee, or guarantees under a
condition, and are stated as such:

- A `mutate` that changes nothing reports success without a sync. What stands
  outlives every power cut exactly when the last rename has been followed by a sync
  of the directory, or by a cut (`MutateDurability.UnchangedSurvivesIff`), and its
  author is told which (`MutateDurability.AuthorsAreTold`).
  `MutateCounterexamples.SuccessCanBeLost` is a whole run in which a call succeeds
  and a cut then leaves no file.
- Mutual exclusion rests on the lock name being left alone once a call is past
  its recheck: `MutateCounterexamples.TwoCanGetIn` starts from nothing and ends with
  two inside. The recheck follows links
  (`crates/norn-config/src/file.rs:389-395`), and the model does too.
- The ignore rule's documentation says a file opening with a byte-order mark is
  not read (`crates/norn-fs/src/gitignore.rs:47`). The code takes such a file for
  what its lines after the first say (`GitignoreLimits.MarkedCoverage`), and can
  answer yes (`GitignoreLimits.MarkedCanCover`); the yes is still sound.
- The rule asks every directory down to the home for a `.gitignore`. One there can
  take the home back exactly when no directory down to it is excluded already
  (`GitignoreLimits.GuardIsNeededIff`), so only `.norn` and `.norn/tmp` need asking
  (`Gitignore.YesIsBelievable`). It is not always needed: the root lines `*` and
  `.norn/tmp` cover the contents, and no nested file takes anything back
  (`GitignoreLimits.NoGuardIsNeeded`).
- A client that makes an object while recording is rebuilt at every open. When a
  creation settles is an if-and-only-if (`Verdicts.SettlesIff`), and
  `Ceremony.OpenOverAndOver` opens one as often as asked.
- A read snapshot is one snapshot exactly when the driver abandons the transaction
  at none of the caller's statements (`Seal.SnapshotHoldsIff`). After an abandonment
  nothing is written still, but reads can differ (`Seal.LostReadsDiffer`).
- A dangling link's sibling is said to be nothing the generator also writes, because
  it has three digits and a document four
  (`crates/norn-fixtures/src/symlinks.rs:210-213`). From the thousandth on it has
  four; it is then a document's name exactly where that document's word is `removed`
  (`LinkNames.RemovedIsADocumentIff`).

Two conventions. A system or driver call that may fail takes its fate from a
function or an argument no proof constrains, so a theorem is about every pattern of
failures unless it names the ones it excludes. A class keeps its history in a ghost field where a claim is about
every moment of a run.

## Model

| member | source | states |
|---|---|---|
| MutateProtocol.Preserves | crates/norn-config/src/file.rs:193-214 | every step of every call, of the foreign actor and of the power keeps the invariant: one holder past its recheck, the file whole in every state a cut can leave, each replacement the edit of the one before |
| MutateRuns.MutualExclusion | crates/norn-config/src/file.rs:421-479 | at every moment of every run at most one call is past the lock's recheck |
| MutateRuns.NoLostUpdate | crates/norn-config/src/file.rs:193-214 | what a reader finds is what the calls' edits give run one at a time in the order their renames landed |
| MutateRuns.OnlyPublishCommits | crates/norn-config/src/file.rs:515-571 | the rename is the only step that replaces the file, and what it installs is the edit of the bytes standing at the name at that moment |
| MutateRuns.EachCallOnce | crates/norn-config/src/file.rs:193-214 | no call's edit is applied twice |
| MutateRuns.CutLeavesItWhole | crates/norn-config/src/file.rs:515-580 | a power cut at any moment leaves the whole file after some number of the replacements, and every replacement a call was told is in place is among them |
| MutateRuns.OutcomesMeanWhatTheySay | crates/norn-config/src/file.rs:515-571 | a failure or a refusal replaced nothing; unconfirmed means the new bytes are visible and an older directory state may still come back; replaced means this call's edit is in the history |
| MutateDurability.StandingOutlivesIff | crates/norn-config/src/file.rs:515-571 | in every reachable state, what readers find outlives every power cut if and only if no rename has landed since the directory was last synced or cut back, which is what the run's steps say |
| MutateDurability.UnchangedSurvivesIff | crates/norn-config/src/file.rs:207-213 | so with the bytes an unchanged mutation reports: they are sure to outlive a cut if and only if the last rename has been synced |
| MutateDurability.AuthorsAreTold | crates/norn-config/src/file.rs:560-571 | told that its replacement is in place, the last author's directory is synced; while it is not, that author is syncing, was told so, or died unanswered |
| MutateDurability.SyncIsTheAuthors | crates/norn-config/src/file.rs:560-571 | only the call whose rename was the last syncs the directory |
| MutateDurability.UnsyncedCanBeLost | crates/norn-config/src/file.rs:515-571 | while it is not synced some cut takes the last replacement, and that one alone, and readers then find other bytes |
| MutateCounterexamples.SuccessCanBeLost | crates/norn-config/src/file.rs:193-214 | for every file and content, a run from an empty directory: one call replaces and cannot sync, the next finds nothing to change and succeeds, and a cut leaves no file |
| MutateCounterexamples.RestraintIsNeeded | crates/norn-config/src/file.rs:421-479 | in any run with one call past its recheck and another beginning, one new file at the lock name lets the other in by three steps |
| MutateCounterexamples.TwoCanGetIn | crates/norn-config/src/file.rs:421-479 | such a run from nothing, and its end with both past their recheck |
| MutateCounterexamples.RunKnowsNumbers | crates/norn-config/src/file.rs:389-395 | no lock or handle in any run has a number that a new file would get |
| MutateRuns.SweepTakesOnlyLeftovers | crates/norn-config/src/file.rs:491-511 | a sweep never removes the lock, the file, or the temporary of a call that still owns one |
| FileSystem.SweptNamesStartSo | crates/norn-config/src/file.rs:505-511 | the names a sweep takes are exactly those that start with a dot, the file's name and `.tmp-` |
| FileSystem.OthersAreElsewhere | crates/norn-config/src/file.rs:623-641 | every other guarded file, unless it is named for this one and a temporary, is at a name no mutation of this one has to do with, and so are its lock and each of its temporaries |
| FileSystem.LocksAreApart | crates/norn-config/src/file.rs:639-641 | different files have different locks |
| FileSystem.TempNamesAreApart | crates/norn-config/src/file.rs:531-536 | two temporaries of a file share a name exactly when one process gave one serial twice |
| MutateSpares.RunSparesOthers | crates/norn-config/src/file.rs:491-571 | over every run, deaths and cuts included, every other guarded file, its lock and its temporaries lead where they led, and what was on the disk is not written into |
| StoredFile.SparedOthers | crates/norn-config/src/file.rs:193-214 | what `SweepTemporaries` and `Mutate` spare includes every other guarded file, its bytes, its lock and its temporaries |
| MutateRuns.GivesUpAtSixtyFour | crates/norn-config/src/file.rs:442-475 | a call gives up on its sixty-fourth lost recheck and no sooner |
| MutateRuns.SweptNamesAreFree | crates/norn-config/src/file.rs:531-558 | after the sweep no regular file stands at any temporary name, so exclusive creation meets no residue |
| MutateRuns.NoThreadWaitsOnItself | crates/norn-config/src/file.rs:587-613 | a call that waits for the lock waits for another thread's, because nesting is refused |
| FileSystem.TempNamesStandApart | crates/norn-config/src/file.rs:635-641 | the sweep takes every temporary of the file and neither its lock nor the file |
| StoredFile.Writer.WriteAtomically | crates/norn-config/src/file.rs:515-571 | at every moment a cut leaves an old reading or all of the new bytes; done leaves only the new, not-written only the old, unconfirmed has the new ones visible; a link or a taken name is refused with nothing changed, and what it created it removes unless the removal fails; where nothing stands in the way it is done exactly when each of its six calls is |
| StoredFile.Writer.Fill | crates/norn-config/src/file.rs:575-580 | on success the temporary holds the bytes, synced; nothing else on the disk changed at any moment |
| StoredFile.Writer.Land | crates/norn-config/src/file.rs:550-558 | fills and renames: on success the new bytes are at the name, on failure every reading is as it was, and it fails only where a call does |
| StoredFile.Writer.SyncParent | crates/norn-config/src/file.rs:566-571 | past the rename: only the new bytes can come back, exactly when both calls work, or it is unconfirmed with them visible |
| StoredFile.Writer.SweepTemporaries | crates/norn-config/src/file.rs:491-511 | on success, which is when no call fails, exactly the leftovers are gone, on failure nothing but leftovers; no name elsewhere moves and no file is written into |
| StoredFile.Writer.LockWhere | crates/norn-config/src/file.rs:421-479 | the lock settled for is on the file its name leads to; giving up means the name was replaced at every one of the 64 attempts; undisturbed, it is taken |
| StoredFile.Writer.TryLock | crates/norn-config/src/file.rs:442-475 | one attempt holds a lock its name leads to, or the name was disturbed, or the machine refused |
| StoredFile.Writer.Leave | crates/norn-config/src/file.rs:604-613 | leaving removes the innermost mutation of the file from the thread's list and no other |
| StoredFile.Writer.Mutate | crates/norn-config/src/file.rs:193-214 | each answer explained by the bytes found and the bytes standing, with what a cut can leave during and after; nested exactly when the thread is already in one; with nothing failing and nothing foreign at its names, the answer is the edit's; it succeeds only where no call failed, and edits only under the lock |
| StoredFile.CutShowsOne | crates/norn-config/src/file.rs:515-571 | a cut leaves one of the readings the disk's states show |
| Document.Read | crates/norn-config/src/document.rs:76-123 | a file is read exactly when it is absent, or UTF-8 TOML of version 1; one of a later version is `VersionAhead` with that version, exactly then; everything else is broken |
| Document.WithOptional | crates/norn-config/src/document.rs:251-260 | the key reads back as the optional value given, absent for none, and no other key moves |
| Registry.RoundTrip | crates/norn-config/src/registry.rs:166-252 | whatever reads a rendered registry back finds exactly its entries |
| Registry.RenderedLoads | crates/norn-config/src/registry.rs:166-252 | a rendered registry can be read back |
| Registry.LoadsAsOne | crates/norn-config/src/registry.rs:166-213 | a document is one registry at most |
| Registry.TopLevelKeysSurvive | crates/norn-config/src/document.rs:144-164 | every top-level key but the two this build owns is there, or not, as it was read |
| Registry.UntouchedRewrite | crates/norn-config/src/registry.rs:222-252 | load then render gives back the very tree, save for an empty section where there was none |
| Registry.RenderingSettles | crates/norn-config/src/registry.rs:222-252 | rendering twice is rendering once |
| Registry.ChangesKeep | crates/norn-config/src/registry.rs:138-164 | over any sequence of changes kept tables belong to entries, every entry is under its own name, and the entries are those the changes alone give |
| Registry.TablesLastUntilEnded | crates/norn-config/src/registry.rs:138-164 | an entry's own table is kept exactly until its name is inserted over or removed, and never comes back |
| Registry.RewriteRetains | crates/norn-config/src/registry.rs:138-252 | from file to file through any changes: the entries, the foreign top-level keys, and each foreign key of an entry exactly while that entry goes on |
| Registry.EntriesKeepOn | crates/norn-config/src/registry.rs:17-29 | retention inside an entry composes from file to file, over any number of rewrites |
| Registry.InsertingForgets | crates/norn-config/src/registry.rs:138-164 | amending keeps a foreign key; inserting, or removing and amending, does not |
| Registry.LoadableIff | crates/norn-config/src/registry.rs:166-213 | the documents that are registries are those with no section, or one of entries each legible in every field |
| Registry.FaultsAre | crates/norn-config/src/registry.rs:172-190 | an entry has a fault exactly when it is not legible: an illegal name or path told with what it is, anything else corruption |
| Registry.Load | crates/norn-config/src/registry.rs:166-213 | all of a registrable document and of no other, or the fault of one of its parts; a file that is not there is an empty registry |
| Registry.Registry.Insert | crates/norn-config/src/registry.rs:138-141 | the new contents and the entry displaced |
| Registry.Registry.Amend | crates/norn-config/src/registry.rs:150-152 | the new contents, the own table kept |
| Registry.Registry.Remove | crates/norn-config/src/registry.rs:161-164 | the new contents, the own table gone with the entry |
| Registry.Registry.Render | crates/norn-config/src/registry.rs:222-252 | the text is of the rendered tree, which is also what is held afterwards |
| RegistryRuns.EveryChangeLands | crates/norn-config/src/registry.rs:256-303 | over every run of concurrent registry changes, deaths and power cuts the file loads, its entries are what the standing calls' changes give one at a time, no foreign top-level key is lost, and inside an entry one is lost exactly where a change ended that entry |
| RegistryRuns.OneChangeLands | crates/norn-config/src/registry.rs:298-303 | one replacement carries out one caller's changes, whole, on the registry found, foreign keys inside entries included |
| GitRules.ExclusionStopsTheWalk | crates/norn-fs/src/gitignore.rs:7-16 | one excluded directory on the way down ignores everything beneath it, whatever deeper files say |
| Gitignore.YesIsBelievable | crates/norn-fs/src/gitignore.rs:112-133 | where a root file covers the fallback and neither `.norn` nor `.norn/tmp` has a `.gitignore`, or the self-ignore stands, every conforming git ignores every file in the home, whatever else the vault and the machine hold |
| Gitignore.FallbackIgnored | crates/norn-fs/src/gitignore.rs:112-133 | exactly when the answer is a refusal and when it is yes, the 64 KiB and the bytes of the self-ignore included, and that a yes for a home under the fallback is true of git |
| Gitignore.CoversFallback | crates/norn-fs/src/gitignore.rs:194-226 | the line loop computes the coverage defined over all lines at once, any negation answering nothing |
| Gitignore.Spelling | crates/norn-fs/src/gitignore.rs:70-88 | a text is recognised exactly when it is an anchor followed by a listed spelling |
| GitignoreLines.RecognisedIff | crates/norn-fs/src/gitignore.rs:70-88 | the recognised texts are three anchors before `.norn` with eight endings, and the six that exclude the directory are told from the rest |
| GitignoreLines.ToldIs | crates/norn-fs/src/gitignore.rs:203-207 | what is read of a line is what one carriage return and then all trailing spaces leave |
| GitignoreLines.CoverageIff | crates/norn-fs/src/gitignore.rs:194-226 | the verdict over a whole file, each way: nothing where it is not UTF-8 or git reads a negation, the directory where a line names it, the contents where one names what is below |
| Gitignore.CoveringLineMatches | crates/norn-fs/src/gitignore.rs:194-226 | each of the 24 recognised lines is, to git, a pattern without negation that matches the way to every file in the fallback |
| Gitignore.MarkOnlyTouchesTheFirst | crates/norn-fs/src/gitignore.rs:194-226 | from a covering line on, git reads every line of a file as the rule does, a byte-order mark or none |
| GitignoreLimits.MarkedCoverage | crates/norn-fs/src/gitignore.rs:194-226 | a file that opens with a byte-order mark is taken to cover exactly what its lines after the first do |
| GitignoreLimits.MarkedCanCover | crates/norn-fs/src/gitignore.rs:194-226 | a file that opens with one and excludes the directory |
| GitignoreLimits.GuardIsNeededIff | crates/norn-fs/src/gitignore.rs:124-131 | for every git, vault and home, a `.gitignore` in a directory on the way can take the home back if and only if no directory down to that one is excluded |
| GitignoreLimits.GuardIsNeededAbove | crates/norn-fs/src/gitignore.rs:124-131 | with one covering line, to the letter, the directories that need asking are exactly those above the one the line excludes |
| GitignoreLimits.NoGuardIsNeeded | crates/norn-fs/src/gitignore.rs:124-131 | a root that covers the contents, and for every conforming git and every home no directory needing to be asked |
| Symlinks.RelativeResolves | crates/norn-fixtures/src/symlinks.rs:259-350 | a target spelled relative to a link's directory resolves to what it names, for every normalized path |
| Symlinks.RelativeClimbsLeast | crates/norn-fixtures/src/symlinks.rs:339-350 | a printed target climbs to the last directory the two paths share and no further |
| Symlinks.ClimbingOutEscapes | crates/norn-fixtures/src/symlinks.rs:259-274 | a target climbing one level past the link's depth leaves the vault, whatever follows |
| Symlinks.InsideIsPrefix | crates/norn-fixtures/src/symlinks.rs:306-308 | the string test is the prefix relation on path parts |
| Symlinks.ResolvedInVault | crates/norn-fixtures/src/symlinks.rs:259-274 | the stack loop is the lexical resolution defined on parts |
| Symlinks.Reentered | crates/norn-fixtures/src/symlinks.rs:319-335 | the worklist ends, and decides exactly whether a walk through subtrees and planned links gets from the target to the holding directory |
| Symlinks.AddKeepsAcyclic | crates/norn-fixtures/src/symlinks.rs:181-203 | adding a link that is not re-entered keeps the whole set free of cycles |
| Symlinks.RootIsUnreachable | crates/norn-fixtures/src/symlinks.rs:181-203 | no walk comes to the vault root through a link, so the fallback placement is always safe |
| Symlinks.WalksEnd | crates/norn-fixtures/src/symlinks.rs:181-203 | in what is planned, a walk follows each link at most once |
| Symlinks.PlanDirLinks | crates/norn-fixtures/src/symlinks.rs:181-203 | whatever is drawn, each link joins the two directories drawn for it, or is held at the root exactly where a walk over the earlier links would come back through it; the set is acyclic |
| Symlinks.PlanFiles | crates/norn-fixtures/src/symlinks.rs:170-180 | each second name sits in the directory drawn and resolves to the document drawn |
| Symlinks.PlanDangling | crates/norn-fixtures/src/symlinks.rs:205-216 | each target resolves inside the vault, beside its link, to the name its index gives |
| Symlinks.PlanOutbound | crates/norn-fixtures/src/symlinks.rs:218-231 | each target climbs one level above the root from where its link sits, and leaves the vault |
| Symlinks.Plan | crates/norn-fixtures/src/symlinks.rs:159-234 | as many links of each species as are asked for, in that order and each from its own draws, no two at one path, each leads where its species says, a dangling one to no document, and no walk arrives back through one |
| LinkNames.NamesAreApart | crates/norn-fixtures/src/symlinks.rs:170-231 | links of different species or indices are at different paths, whatever is drawn |
| LinkNames.RemovedIsADocumentIff | crates/norn-fixtures/src/symlinks.rs:210-213 | a sibling said to be removed is a document's name if and only if the index is 1000 or more and the document is numbered so under that very word |
| LinkNames.RemovedIsMissing | crates/norn-fixtures/src/symlinks.rs:210-213 | below index 1000, or without that word, no document stands where a dangling link leads |
| Digest.Sha256.Update | crates/norn-fixtures/src/digest.rs:69-84 | absorbing appends to the message absorbed, at any fill of the block |
| Digest.Sha256.Absorb | crates/norn-fixtures/src/digest.rs:69-84 | one step of the loop: what fits is absorbed, and a full block is compressed |
| Digest.Sha256.UpdateFramed | crates/norn-fixtures/src/digest.rs:86-89 | absorbs the length as eight big-endian bytes, then the data |
| Digest.Sha256.CompressBlock | crates/norn-fixtures/src/digest.rs:111-152 | the schedule and the rounds, in place, are the compression of section 6.2.2 |
| Digest.Sha256.Pad | crates/norn-fixtures/src/digest.rs:91-109 | the padding loop ends with the block at 56 and the message padded as section 5.1.1 says |
| Digest.Sha256.Finish | crates/norn-fixtures/src/digest.rs:91-109 | the digest is SHA-256 of everything absorbed |
| Digest.HashPieces | crates/norn-fixtures/src/digest.rs:69-109 | the digest is that of the concatenation, at every division into pieces below 2^61 bytes |
| Fips180.ZeroBytes | crates/norn-fixtures/src/digest.rs:91-109 | the zeros leave eight bytes to the end of a block, and no fewer would |
| Fips180.PaddedIsWhole | crates/norn-fixtures/src/digest.rs:91-109 | a padded message is whole blocks |
| FipsConstants.InitialValueIsSquareRoots | crates/norn-fixtures/src/digest.rs:22-31 | the initial value is the fractional parts of the square roots of the first eight primes |
| FipsConstants.ConstantsAreTheRows | crates/norn-fixtures/src/digest.rs:33-43 | the sixty-four constants are eight rows, each shown to be the fractional parts of the cube roots of its primes |
| TreeDigest.FramedIsSelfDelimiting | crates/norn-fixtures/src/digest.rs:86-89 | a framed string can be told from whatever follows it |
| TreeDigest.StreamInjective | crates/norn-fixtures/src/lib.rs:314-331 | equal streams come of equal nodes in equal order |
| TreeDigest.ListingIsUnique | crates/norn-fixtures/src/lib.rs:314-331 | a set of names has one sorted listing |
| TreeDigest.PreImageNamesOneTree | crates/norn-fixtures/src/lib.rs:314-331 | the stream under a digest names one tree: directories, files with their digests, links with their targets |
| TreeDigest.WritersHoldOneTree | crates/norn-fixtures/src/lib.rs:314-386 | two writers, whatever they were asked to write, whose digests are over one stream hold one tree |
| TreeDigest.StreamReads | crates/norn-fixtures/src/lib.rs:314-331 | the stream of one directory, one file and one link, byte for byte |
| TreeDigest.PreImageIsOne | crates/norn-fixtures/src/lib.rs:314-331 | a tree has one pre-image, whatever order it was built in |
| TreeDigest.Sorted | crates/norn-fixtures/src/lib.rs:314-331 | the names of a set, each once, in byte order |
| TreeDigest.Writer.DigestTree | crates/norn-fixtures/src/lib.rs:314-331 | the digest is SHA-256 of the tree's pre-image |
| TreeDigest.Writer.EnsureDir | crates/norn-fixtures/src/lib.rs:335-349 | records the directory and every ancestor of it, and nothing when the file system refuses |
| TreeDigest.Writer.Write | crates/norn-fixtures/src/lib.rs:352-370 | exactly when it succeeds, and what is recorded either way: the parents once they are made, the digest once the bytes are written, a second emission refused |
| TreeDigest.Writer.Link | crates/norn-fixtures/src/lib.rs:373-386 | exactly when it succeeds, and what is recorded either way: the target only once the link is there |
| Utf8.FromUtf8IsWellFormed | crates/norn-fs/src/hash.rs:282-322 | the decoder's verdict is the RFC's grammar, and says how far a bad string is good |
| Utf8.FailureIsFinal | crates/norn-fs/src/hash.rs:282-322 | where decoding fails other than at the end, nothing that follows mends it |
| StreamHash.Utf8Stream.Feed | crates/norn-fs/src/hash.rs:282-318 | after any chunk the stream holds the bytes of one unfinished character, or has found the whole invalid |
| StreamHash.Utf8Stream.JudgeRest | crates/norn-fs/src/hash.rs:300-318 | the rest of a chunk judged, its unfinished character carried |
| StreamHash.Utf8Stream.Finish | crates/norn-fs/src/hash.rs:320-322 | the answer is the grammar's for everything fed, however it was divided |
| StreamHash.Streamed | crates/norn-fs/src/hash.rs:170-191 | exactly when it ends whole; hash and length are then those of all that was read, interruptions passed over, and otherwise the side that failed is named |
| StreamHash.HashedAndChecked | crates/norn-fs/src/hash.rs:226-246 | hash, length and well-formedness, each as of the whole buffer |
| StreamHash.CopiedAndHashed | crates/norn-fs/src/hash.rs:254-261 | exactly when it ends whole; the hash is of exactly the bytes written, and a failing write leaves a prefix of the source, part of a chunk among it |
| Dates.DateRoundTrip | crates/norn-fixtures/src/dates.rs:6-29 | every valid date comes back from its day number |
| Dates.DayRoundTrip | crates/norn-fixtures/src/dates.rs:6-29 | every integer day is a valid date and comes back from it |
| Dates.CivilFromDaysSteps | crates/norn-fixtures/src/dates.rs:17-29 | the next number is the next date under the 4, 100 and 400 rule |
| Dates.EpochIsZero | crates/norn-fixtures/src/dates.rs:6-15 | day 0 is 1970-01-01, which with the step fixes the whole calendar |
| Dates.LaterNumbersAreLaterDates | crates/norn-fixtures/src/dates.rs:17-29 | the numbering is strictly monotone |
| Dates.MomentsAreOnTheClock | crates/norn-fixtures/src/dates.rs:43-55 | hour and minute in range and the date valid for every offset, and the offset recovered |
| Dates.LaterOffsetsAreLaterMoments | crates/norn-fixtures/src/dates.rs:43-55 | strictly monotone, negative offsets included |
| Rng.MixIsBijective | crates/norn-embed/src/stub.rs:173-180 | the finalizer has an inverse on 64-bit words, on both sides |
| Rng.DrawsRepeatIff | crates/norn-fixtures/src/rng.rs:17-23 | two draws are equal exactly when a multiple of 2^64 apart |
| Rng.Generator.NextU64 | crates/norn-fixtures/src/rng.rs:17-23 | the n-th call gives the n-th draw of the seed |
| Rng.Generator.Weighted | crates/norn-fixtures/src/rng.rs:48-61 | the index is the one whose share of the total the draw falls in |
| Rng.SharesAreDisjoint | crates/norn-fixtures/src/rng.rs:48-61 | shares do not overlap, and a zero weight is never chosen |
| Rng.SharesAreWide | crates/norn-fixtures/src/rng.rs:48-61 | shares begin at zero, lie end to end, and each is as wide as its weight |
| Rng.Generator.TakeDistinct | crates/norn-fixtures/src/rng.rs:65-71 | the pool is permuted, by exactly the swaps drawn |
| Rng.TakenAt | crates/norn-fixtures/src/rng.rs:65-71 | what is taken i-th is what its own draw points at among what earlier draws left, and later draws leave it there |
| Rng.TakenAreDistinct | crates/norn-fixtures/src/rng.rs:65-71 | what is taken from a pool without repeats has none |
| Database.OnlyContentsAreDamage | crates/norn-db/src/error.rs:152-181 | every extension of the two codes about contents is damage to both policies, no extension of the codes about a moment or a machine is to either, and the two differ on a value's type alone |
| Verdicts.UsableIff | crates/norn-db/src/ceremony.rs:379-483 | a database is usable exactly when it agrees on table, version, fingerprint, digest and epoch and no unfinished build is marked |
| Verdicts.JudgeIs | crates/norn-db/src/ceremony.rs:379-483 | every verdict by what the database says of itself: empty, each pin that differs and in which order, a marked build of this schema, a whole one |
| Verdicts.ClientFirstPutsOff | crates/norn-db/src/ceremony.rs:432-446 | a build is the client's to judge first exactly when the table is there, both pins agree and the mark is set; the mark puts off the digest and the epoch and nothing else |
| Verdicts.RunsInOrder | crates/norn-db/src/ceremony.rs:505-511 | the statement list is its first part and then the rest on what that left |
| Verdicts.BuiltAgrees | crates/norn-db/src/ceremony.rs:501-531 | what is created is what the next open of the same schema calls usable |
| Verdicts.SettlesIff | crates/norn-db/src/ceremony.rs:249-255 | a creation is usable afterwards if and only if recording left the digest of the objects alone |
| Ceremony.StrayIsRebuilt | crates/norn-db/src/ceremony.rs:249-255 | what a client that adds an object has created, its next open rebuilds for damage, and can |
| Ceremony.OpenOverAndOver | crates/norn-db/src/ceremony.rs:249-255 | with nothing going wrong, every one of any number of opens by it is a rebuild for damage |
| Ceremony.UnsettlingExists | crates/norn-db/src/ceremony.rs:249-255 | there is such a schema for every object's name |
| Ceremony.Store.Inspect | crates/norn-db/src/ceremony.rs:379-483 | the verdict over the contents, or damage only a rotten file shows, or a refusal; nothing changed |
| Ceremony.Store.InspectSchema | crates/norn-db/src/ceremony.rs:448-482 | the digest and the epoch judged, under the same policy |
| Ceremony.Store.Connect | crates/norn-db/src/database.rs:425-485 | unreadable only where the file or its pages are; connected only to a database, at a path that names a file, that takes a write-ahead log; refusals told apart from both |
| Ceremony.Store.ReadMeta | crates/norn-db/src/meta.rs:149-163 | the pinned value of the type asked for, or the error its contents, the environment or rot give |
| Ceremony.Store.Create | crates/norn-db/src/ceremony.rs:501-531 | everything the schema, the client and a new epoch make, in one commit, or nothing, wherever it stops |
| Ceremony.Store.RunStatements | crates/norn-db/src/ceremony.rs:505-511 | the statement loop is the whole list in order, and stops at the first that fails |
| Ceremony.Store.Seal | crates/norn-db/src/ceremony.rs:512-526 | the pins, the client's record, and last a newly drawn epoch |
| Ceremony.Store.Rebuild | crates/norn-db/src/ceremony.rs:343-358 | created from nothing, or what was there stands, or it is discarded for the reason given |
| Ceremony.Store.RemoveDatabase | crates/norn-db/src/database.rs:1050-1066 | removal fails before the file went or after, and says so; a path that names no file is refused untouched |
| Ceremony.Store.Open | crates/norn-db/src/ceremony.rs:286-336 | what is handed back agrees with the schema; each outcome against what was there; a sound database a client keeps is left exactly as it is, and handed back when nothing fails; one the client is asked about, marked unfinished or whole, is left alone when it refuses and rebuilt for its word when it discards; it succeeds only where no step of it was refused, and a failure is the refused step's, the path's, the client's or the schema's own |
| Ceremony.CourseIs | crates/norn-db/src/ceremony.rs:286-336 | with every step going well, exactly when an open reuses, creates, is declined, and rebuilds for the client's word, for a version and for a fingerprint |
| Ceremony.Store.Write | crates/norn-db/src/meta.rs:169-177 | the generation moves by one with whatever the transaction does to rows, objects and the client's own keys, or nothing happens; without a counter it is refused |
| Ceremony.Store.PinOwn | crates/norn-db/src/meta.rs:107-124 | a client's own key set or removed, the epoch and the generation as they were |
| Ceremony.HistoryMade | crates/norn-db/src/database.rs:1011-1015 | a creation under a fresh epoch continues a lawful history |
| Lifetimes.AgreeingIsNeverDiscarded | crates/norn-db/src/ceremony.rs:286-358 | an agreeing, undamaged database is discarded on the client's own word only |
| Lifetimes.ReplacedEpochsStayGone | crates/norn-db/src/ceremony.rs:343-358 | over every history an epoch once replaced never returns |
| Lifetimes.SameEpochSameLife | crates/norn-db/src/meta.rs:79-87 | between two moments with one epoch nothing was discarded or made |
| Lifetimes.LifeGoesOn | crates/norn-db/src/meta.rs:59-87 | within one life the changes made only grow, the counter counts the writes among the new ones, and the contents are those changes made to what was there |
| Lifetimes.StoryOfALife | crates/norn-db/src/meta.rs:59-87 | a life's changes begin where its database was made, and what stands is what was made with each of them made to it |
| Lifetimes.PositionNamesAPrefix | crates/norn-db/src/meta.rs:59-87 | with a matching epoch, the changes a consumer saw are a prefix of those made since, the generation has moved by exactly the writes among the rest, the contents are the rest made to what it saw, and at an equal generation rows and objects are as they were |
| Seal.SealHolds | crates/norn-db/src/database.rs:838-948 | whatever a caller composes and however its statements and recordings end, in a transaction or out, nothing is written, no setting moves and no answer is taken back |
| Seal.SnapshotHoldsIff | crates/norn-db/src/database.rs:838-948 | inside a snapshot the transaction stays open and all reads answer from one committed state if and only if the driver abandons it at none of the caller's statements |
| Seal.LostReadsDiffer | crates/norn-db/src/database.rs:838-948 | after an abandonment and a commit elsewhere, one query answers from two states |
| Seal.PermittedExactly | crates/norn-db/src/database.rs:943-999 | what a caller may run is exactly the queries about columns read, selects, functions, recursions and the valueless `data_version` pragma, and each that works is answered from what the connection sees |
| Seal.FlagStaysDown | crates/norn-db/src/database.rs:818-838 | the control flag is down at every act of the caller, inside recordings too |
| Seal.PrepareRecords | crates/norn-db/src/database.rs:867-908 | preparing a statement records all its reads if it is allowed, and never more |
| Seal.RecordingCovers | crates/norn-db/src/database.rs:867-908 | on a sealed connection or any other, a recording reports every column a permitted statement reads, and no column no statement names |
| Seal.NestingBlinds | crates/norn-db/src/database.rs:910-941 | a recording undone inside another leaves the outer one deaf |
| Seal.Handle.Ask | crates/norn-db/src/database.rs:943-999 | the questions are asked in order, up to the first denied |
| Seal.Handle.OpenSnapshot | crates/norn-db/src/database.rs:338-349 | a transaction without a snapshot yet, or refused, and the flag down either way |
| Seal.Handle.CloseSnapshot | crates/norn-db/src/database.rs:372-380 | no transaction, or refused with everything as it was; a handle without one ends nothing |
| Seal.Handle.RecordingReads | crates/norn-db/src/database.rs:867-941 | the columns recorded, and the connection's own authorizer back however the caller's code ended, unless the driver refuses it |
| Seal.Handle.Snapshot | crates/norn-db/src/database.rs:338-380 | an opening, the caller's code and a close, any of them failing: nothing written, and from an opening that works to a close that does, without an abandonment, every answer is of one committed state no older than the opening |
| Profiling.ReportConserves | crates/norn-db/src/profiling.rs:165-187 | spans admitted are calls counted plus spans unfinished |
| Profiling.CountsAdd | crates/norn-db/src/profiling.rs:150-163 | every count of a report is the sum over any division of what happened |
| Profiling.OneEventCounts | crates/norn-db/src/profiling.rs:127-163 | and of one event is what the event says |
| Profiling.Recorder.Start | crates/norn-db/src/profiling.rs:92-123 | each refusal exactly when its reason holds, in this order, changing nothing; otherwise a fresh recording under the next generation |
| Profiling.Recorder.Admit | crates/norn-db/src/profiling.rs:127-148 | a span enters only the recording whose generation it loaded, however stale the load |
| Profiling.Recorder.Drop | crates/norn-db/src/profiling.rs:150-163 | a span is counted once, in its own recording while under way, and touches no other; the decrement never underflows |
| Profiling.Recorder.Finish | crates/norn-db/src/profiling.rs:165-177 | the report tells this recording's events and no others, and accounts for every span admitted |
| Profiling.Recorder.Abandon | crates/norn-db/src/profiling.rs:179-187 | nothing of an abandoned recording remains but its spans, which nothing hears |

## Left out

- The SQLite driver, SQL text, plans, statement counting, busy timeouts and `VACUUM INTO`: a database is a record, a statement a function on it, and its questions to the authorizer are listed by what it does.
- The connections that verify and copy (`crates/norn-db/src/database.rs:655-790`): their wider verdicts are not the seal.
- What a power cut does to a committed transaction under `synchronous = NORMAL`: a crash here is a process that dies.
- Two processes opening one database at once: the ceremony is one process's, its steps interleaved with refusals, deaths and rot.
- Ceremony.Store.constructor: epochs drawn are assumed to differ from one another and from the first file's, which 128 random bits make good.
- StoredFile.Writer.Mutate: shares the file system, the names and the leftovers of `MutateProtocol`, and is not shown to be one of its runs.
- TOML text: reading and printing are a codec assumed to read back what it printed. Vault names, roots, schema sources and backends are strings under a grammar given as predicates, because their rules are elsewhere.
- Registry.Load: which of several faults is reported is not fixed, because the order of a TOML table's keys is not modelled.
- Ceremony.Store.Write: a generation that is not an integer is refused, where SQLite would coerce it; reaching 2^63 is not modelled.
- Seal.Handle.Execute: a read that fails has given rows of what it saw or none; any other statement that fails has done nothing; a caller that installs an authorizer of its own through the connection is not modelled.
- StoredFile.Writer.Fill: a write that fails leaves half of the bytes, one of the many amounts it could leave; `MutateProtocol` leaves any prefix, and every claim is about the name the temporary does not have yet.
- FileSystem.Survives: an inode number is not reused while anything compares it, and a directory comes back as one of its states since its last sync; file modes, privacy checks, link refusals by ancestors, and network mounts are not modelled.
- MutateProtocol.Enabled: the foreign actor leaves the lock name alone while a call is past its recheck; `MutateCounterexamples.TwoCanGetIn` shows why.
- StreamHash.Streamed: the hash is this project's SHA-256 in place of the library's, and seeking back to the start is not modelled.
- GitRules.PlainlyMatches: wildcards other than `*` and `**` between slashes are a matcher nothing is asked of; tracked files, which no rule ignores, and patterns given on git's command line are not modelled.
- Gitignore.FallbackIgnored: the vault does not change while it is being asked; a directory that cannot be listed is an entry that is there.
- Symlinks.Plan: creating the links, the platform's refusals and the probe are not modelled; the generator is any function of the number of draws.
- Dates.FromBasePlusMinutes: the arithmetic is over all integers; the 64-bit limits and the text renderings are not modelled.
- Profiling.Recorder.Drop: counters are unbounded where the source's have 64 and 128 bits; elapsed time is a number handed in.
- The tokenizer, `fnv1a`, the embedding's buckets and its `f32` scaling in `crates/norn-embed/src/stub.rs`: only its finalizer is here.
- Hexadecimal spellings, error texts, `Display`, corpus generation, word pools, profile tables and the command line: easy members or presentation.
