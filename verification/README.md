# IsaacCloudSync, verified

A Dafny model of the core of IsaacCloudSync, which keeps the save files of *The Binding of Isaac:
Repentance* on an iOS device in step with Steam Cloud. Steam may hold a save in Repentance's layout or in
Repentance+'s, and the device may hold one plainly or as a raw LZ4 block; the program has to move progress
between all of these without ever losing any. The model covers, with the program's own branches, constants
and error cases:

* **The save codec** (`Bytes`, `Checksum`, `Lz4`, `SaveFormat`, `SaveGrammar`, `SaveLayout`, `ByteOr`,
  `Conversion`, `RepPlusExtra`, `ConversionLoops`, `SaveWitness`, `GameSave`): the LZ4 block decoder, the validator of the eleven
  sections, the table-driven checksum, both layout converters and the Repentance+ sidecar record.
* **The three-way synchronization** (`SyncDecision`, `SyncCodec`, `SyncModel`, `SyncRuns`, `SyncSafety`,
  `SyncHistory`, `SyncProvenance`, `SyncConvergence`, `SyncProgress`, `SyncVerdicts`, `SyncCopies`, `SyncSidecar`,
  `SyncWitness`, `SyncEngine`): one run over all slots, the user's choices, restores, sign-ins, crashes, and whole histories of these.
* **Effects on the disk** (`Backups`, `PullFaults`): atomic writes, backups with retention, and a pull with
  its rollback, where any operation may fail.
* **The prelaunch barrier** (`PrelaunchBarrier`): all interleavings of the launching thread with operations.
* **Achievements** (`Unlocks`, `AdditivePlan`): two computations of the same unlocks, and the additive plan.
* **The Mach-O patcher** (`MachO`, `MachODecision`, `MachOPatch`): appending a load command to an executable in place.

How the parts fit. Functions specify what the code computes; methods with loops, arrays and class fields
follow the code and are proved equal to them; lemmas state what the program promises about the functions.
Everything about saves holds for *every* checksum function; `Checksum` treats the real 256-entry table, and
`GameSave` puts the two together.
Every `bail!` or raised error is a `None`, a `Failed` or a named outcome; message texts are not modelled.

The synchronization sees save files only through a record of functions, `Codec`, and a few laws of it,
`Lawful` and `ProgressLaws`. `SaveCodecIsLawful` and `SaveCodecKeepsProgress` prove the laws for the real
codec, so every theorem about `Codec` is one about the real saves. A synchronization is a sequence of
effects (store a backup, write the sidecar, upload, replace the live save, save the state); cutting the
sequence off anywhere is a crash or an error at that point. `SyncEngine.Engine` carries the steps out on
its fields and is proved to do exactly these effects, as far as its `budget` of successful effects goes.
There a replacement of the live save is one effect; `PullFaults` shows why it may be taken for one.

Words used below: a *standard* Repentance save is valid and has the words 1, 638, 638 at 20, 24, 28 and
2, 1984, 496 at 670, 674, 678; a standard Repentance+ save is valid and has 1, 642, 642 at 20, 24, 28 and
2, 2092, 523 at 674, 678, 682. What Steam's file *means* is its content converted to Repentance's layout.
A slot is *in sync* when the device's save and what Steam's file means both equal BASE and nothing is queued.
Content *can be read back* from under a Repentance+ name if it is standard, and from under any other name if
it is not Repentance+. A push is *due* in a manual run when no queued pull matches and Steam's file means BASE
while the device has moved, or both sides agree and Steam's file is compressed; a pull is due when the run may
replace the slot's save and a queued pull matches, or Steam has moved while the device holds BASE. No result
about synchronization assumes a save, a backup or a file on Steam to be standard: a push that is due of
content that cannot be read back is accepted by the program and breaks agreement, and the results below say
exactly that.

## Model

| member | source | states |
|---|---|---|
| Lz4.DecodeRawLz4 | src/core/src/isaac_format.rs:349-406 | the decoding loop computes the recursive specification of the block decoder, on every input |
| Lz4.ExtendedLength | src/core/src/isaac_format.rs:408-423 | the length loop computes the specified length and position, or fails exactly when the code is truncated |
| Lz4.DecoderCorrect | src/core/src/isaac_format.rs:349-406 | the decoder returns a string if and only if the input is the encoding of a well-formed list of sequences standing for it, within 32 MiB; a match copies byte by byte, so an overlapping one repeats periodically |
| Lz4.LengthDecodes | src/core/src/isaac_format.rs:408-423 | reading a length undoes its nibble and 255-run code |
| Lz4.DecodedLength | src/core/src/isaac_format.rs:408-423 | every length code that is read is the code of the length read, so the code is a bijection |
| Lz4.DecodedSizeIsBounded | src/core/src/isaac_format.rs:349-423 | no input decodes to more than 32 MiB or to more than 255 times its own length |
| Checksum.ComputeCrc32 | src/core/src/isaac_format.rs:486-493 | the checksum loop computes the specified fold over any table |
| Checksum.ChecksumChains | src/core/src/isaac_format.rs:486-493 | the checksum of a concatenation continues from the checksum of its first part |
| Checksum.ChecksumAffine | src/core/src/isaac_format.rs:25-58 | with the real table, the exclusive or of three checksums of equal length and one seed is the checksum of the bytewise exclusive or |
| Checksum.Residue | src/core/src/isaac_format.rs:486-493 | for every message and seed, the message followed by the complement of its checksum, least significant byte first, has the checksum of all ones |
| Checksum.OneByte | src/core/src/isaac_format.rs:488-491 | from state zero one byte yields the complement of its table entry |
| Checksum.EmptyChecksum | src/core/src/isaac_format.rs:479 | the checksum of nothing is the seed 0xFEDCBA76 |
| GameSave.BitsAreBytes | src/core/src/isaac_format.rs:486-488 | the checksum is computed over the save's own bytes, in order |
| CrcTables.TableLinear | src/core/src/isaac_format.rs:25-58 | the real table sends exclusive or to exclusive or, for all bytes |
| CrcTables.TableBasis | src/core/src/isaac_format.rs:25-58 | the entries of the eight single bits, which with linearity determine the table |
| SaveFormat.ValidateCanonical | src/core/src/isaac_format.rs:425-484 | the validating loops accept exactly the valid streams: size, magic, the walk over the sections ending at the trailer, checksum |
| SaveFormat.ReadU32 | src/core/src/isaac_format.rs:502-511 | reads a little-endian word and advances, or fails exactly when fewer than four bytes are left |
| SaveFormat.Relocate | src/core/src/isaac_format.rs:425-484 | a walk over sections succeeds on any other stream that holds the same bytes, shifted |
| SaveGrammar.ValidatorAcceptsGrammar | src/core/src/isaac_format.rs:425-484 | a stream is valid if and only if it is at most 32 MiB long and the print of a well-formed record: sixteen fixed bytes, header, ten sections whose lengths follow from their numbers, four bestiary subsections numbered 4, 2, 3, 1, and sealed trailer |
| SaveGrammar.RecordIsUnique | src/core/src/isaac_format.rs:425-484 | a stream prints at most one record |
| SaveLayout.CanonicalizeSave | src/core/src/isaac_format.rs:296-312 | canonicalization by method equals its specification |
| SaveLayout.CanonicalizeMeaning | src/core/src/isaac_format.rs:296-312 | the result is valid, and is the input itself (canonical) or what the input decodes to (compressed) |
| SaveLayout.CanonicalizeIsIdempotent | src/core/src/isaac_format.rs:296-312 | what canonicalization returns is valid and canonicalizes to itself, as canonical |
| SaveLayout.MagicIsNotLz4 | src/core/src/isaac_format.rs:296-312 | no input that starts with the magic is a decodable LZ4 block, so the two branches never compete |
| ConversionLoops.ConvertRepPlusToRep | src/core/src/isaac_format.rs:86-115 | appending the fields of the Repentance layout one by one gives the specified result, error cases included |
| ConversionLoops.ConvertRepToRepPlusWithExtra | src/core/src/isaac_format.rs:176-290 | both branches, raising an existing Repentance+ save and building a new one, give the specified result |
| Conversion.ToRepExactly | src/core/src/isaac_format.rs:86-115 | a valid Repentance+ save converts if and only if it has at least 2790 bytes and its third section starts where the layout has it |
| Conversion.ToRepPlusExactly | src/core/src/isaac_format.rs:233-290 | any other valid save converts to Repentance+ if and only if it has at least 2678 bytes, its third section starts where the layout has it, and there is room for 112 more bytes |
| Conversion.RaisedIsAccepted | src/core/src/isaac_format.rs:182-232 | a standard Repentance+ save can always be raised |
| Unlocks.BuiltMeaning | src/core/src/isaac_format.rs:233-290 | every byte of a save built in the Repentance+ layout, for any ids: an extra achievement is 1 when Steam or the defeat of Mom has it and the sidecar's otherwise, the extra counters are the sidecar's |
| Unlocks.RaisedMeaning | src/core/src/isaac_format.rs:182-232 | every byte of a raised save: an extra achievement is 1 when Steam, the defeat of Mom or the sidecar has it and unchanged otherwise, all else but counters and checksum is unchanged |
| Unlocks.RaisedCounters | src/core/src/isaac_format.rs:210-226 | every extra counter of a raised save is the larger of the save's and the sidecar's |
| Conversion.RepRoundTrip | src/core/src/isaac_format.rs:86-290 | for every standard Repentance save, sidecar and id list the conversion to Repentance+ succeeds exactly up to the size limit less 112 bytes, and converting back gives the original bytes, checksum included |
| GameSave.GameRoundTrip | src/core/src/isaac_format.rs:86-290 | with the real table, a standard save up to 112 bytes below the limit converts, the last word of the result is the table's checksum of its body, and it converts back to the original |
| Conversion.RepPlusRoundTrip | src/core/src/isaac_format.rs:162-290 | for every standard Repentance+ save, rebuilding it from its conversion and its extra gives it back exactly if and only if byte 33 being 1 implies byte 673 being 1 |
| SaveWitness.RepPlusRoundTripFails | src/core/src/isaac_format.rs:162-290 | a standard Repentance+ save with byte 33 set and byte 673 clear, which its conversion and its extra do not give back |
| Conversion.ToRepIsClosed | src/core/src/isaac_format.rs:86-115 | any result of the conversion to Repentance is valid, not Repentance+, and a fixpoint |
| Conversion.ToRepPlusIsClosed | src/core/src/isaac_format.rs:176-290 | any result of the conversion to Repentance+ is valid, Repentance+, and converting it again with the same sidecar and ids changes nothing |
| Conversion.ConvertedReadsBack | src/core/src/isaac_format.rs:86-290 | a valid save converted to Repentance+ reads back as itself if and only if it is standard |
| RepPlusExtra.Sidecar.Merge | src/core/src/isaac_format.rs:123-143 | merging in place ors the achievement bytes and takes the larger of each whole counter word |
| RepPlusExtra.MergedByte | src/core/src/isaac_format.rs:124-131 | a merged achievement byte is the bitwise or of the two, whatever their lengths |
| ByteOr.OrDigit | src/core/src/isaac_format.rs:129 | a binary digit of the bitwise or is set exactly when one of the two has it |
| RepPlusExtra.MergedPad | src/core/src/isaac_format.rs:132-142 | a merged counter is the larger of the two where the second record holds a whole word, and the first's elsewhere |
| RepPlusExtra.MergeCommutes | src/core/src/isaac_format.rs:124-142 | merging commutes when counters are whole words |
| RepPlusExtra.MergeAssociates | src/core/src/isaac_format.rs:124-142 | merging associates when the middle record's counters are whole words, or its partial word lies beyond the whole words of the last record |
| RepPlusExtra.MergeAssociatesExactly | src/core/src/isaac_format.rs:124-142 | merging records of three given counter lengths is associative for all of them if and only if that holds of the lengths |
| RepPlusExtra.MergeIsIdempotent | src/core/src/isaac_format.rs:124-142 | merging a record into itself changes nothing, whatever its lengths |
| RepPlusExtra.MergeCommutesExactly | src/core/src/isaac_format.rs:124-142 | merging two records of given counter lengths is independent of the order for all of them if and only if both lengths are whole words |
| RepPlusExtra.PartialWordDoesNotCommute | src/core/src/isaac_format.rs:124-142 | for every partial length, two records whose merge depends on the order |
| Unlocks.UnlockedAchievementIdsFromCanonical | src/core/src/save_achievements.rs:30-71 | the loop collects exactly the ids of achievement bytes equal to 1, or fails on an unexpected header |
| Unlocks.CollectLocalUnlocks | src/core/src/achievements.rs:460-488 | the collected ids are those of all saves, of the defeat of Mom, and of all sidecars |
| Unlocks.CollectedMeaning | src/core/src/achievements.rs:460-488 | an id is collected if and only if some save has a 1 at byte 32 + id within its count, or at byte 33 for id 641, or some sidecar has a 1 at id - 638 |
| Unlocks.UnlocksAgree | src/core/src/achievements.rs:460-488 | for a standard save of either layout, any sidecar and any ids, the ids read back from the converted save are those collected for the slot and those given among 638 to 641, and no others; ids up to 637 are those of the save |
| SyncDecision.AgreementIsRecognized | src/core/src/sync_engine.rs:13-29 | equal sides are exactly the Unchanged and Converged cases, Unchanged exactly when BASE is equal too |
| SyncDecision.TransfersOverwriteBaseOnly | src/core/src/sync_engine.rs:13-29 | an upload is decided exactly when only the device moved from BASE, a download exactly when only Steam did, a choice exactly when neither side equals BASE and they differ |
| SyncCodec.NormalizedIsStable | src/core/src/engine.rs:946-972 | what Steam's file means is a valid Repentance save that means itself |
| SyncCodec.RepPlusNameMeaning | src/core/src/engine.rs:1429 | a name counts as Repentance+ if and only if it contains the 22 letters of the stem, each in either case |
| SyncCodec.ContentMeaning | src/core/src/engine.rs:946-962 | Steam's bytes stand for a save if and only if it is valid and they are it or a raw LZ4 block that decodes to it; they need repair if and only if they are not it |
| SyncCodec.LearnedMeaning | src/core/src/engine.rs:963-969 | Repentance+ data is learned exactly from saves whose word at 28 is at least 642: the four bytes at 670 and the 27 words at 2670 |
| SyncCodec.ReadRepPlusIsStandard | src/core/src/engine.rs:963-972 | a Repentance+ file that can be read at all means a standard save and yields its extra |
| SyncCodec.UploadReadsBack | src/core/src/engine.rs:1393-1449 | an upload is canonical, and means the pushed content if and only if that content is standard (Repentance+ name) or not Repentance+ (other names) |
| SaveWitness.StandardSaveExists | src/core/src/isaac_format.rs:425-484 | there are standard saves with any header and any achievements, under every checksum function |
| SaveWitness.RepSizedUploads | src/core/src/engine.rs:1393-1449 | a valid save with Repentance's section sizes is uploaded under any name up to 112 bytes below the size limit, whatever its unchecked words say |
| SaveWitness.NonStandardDoesNotReadBack | src/core/src/engine.rs:1393-1449 | a valid save whose word at 28 is 637 is uploaded under a Repentance+ name and does not mean itself there |
| SyncCodec.SaveCodecIsLawful | src/core/src/engine.rs:946-972 | the real codec satisfies every law the synchronization theorems use |
| SyncRuns.RunIsTurns | src/core/src/engine.rs:925-1148 | a completed run does to each slot exactly what that slot's turn alone does, and nothing to other slots |
| SyncRuns.CutRunIsCutTurns | src/core/src/engine.rs:925-1151 | a run cut off anywhere, or failing, has done to each slot a beginning of that slot's own turn, and a whole run all of it |
| SyncRuns.UpsertEntries | src/core/src/engine.rs:1671-1682 | replacing a slot's entry leaves one entry for it, the new one, and every other slot its own |
| SyncSafety.SyncIsJustified | src/core/src/engine.rs:852-1152 | in a run cut off anywhere, the live save is replaced only where permitted, with what Steam means, when it equals BASE or a queued pull matches, after its backup; Steam's file only on a manual run, when it means BASE or the device's content, after its backup; the state is saved last |
| SyncSafety.DivergenceTouchesNeitherSide | src/core/src/engine.rs:1124-1147 | a conflict or first sync changes neither side, keeps BASE, and backs up both |
| SyncProvenance.TurnCommits | src/core/src/engine.rs:925-1148 | every turn changes a side only in its last effect, and a new BASE is what both sides then hold if and only if a push that was due was of content that can be read back |
| SyncProvenance.ForceCommits | src/core/src/engine.rs:1187-1299 | the same for the user's choices, over an existing Steam file or none: if and only if the device's side was not chosen or can be read back from under the name it is sent to |
| SyncProvenance.TurnTransfers | src/core/src/engine.rs:963-1123 | a turn uploads if and only if a push is due and its conversion does not fail, and replaces the device's save if and only if a pull is due |
| SyncProvenance.PushCommits | src/core/src/engine.rs:1355-1449 | after a push both sides hold the new BASE if and only if the content can be read back from under the file's name |
| SyncProvenance.PushRepairs | src/core/src/engine.rs:1355-1449 | an upload, by a run or by a choice, is the last effect of its turn and never compressed |
| SyncProvenance.StepKeepsOrder | src/core/src/engine.rs:809-1299 | every step, cut off anywhere, keeps the world orderly: one entry for each slot, under a name of its own, and every file in its place |
| SyncProvenance.SignInExactly | src/core/src/engine.rs:809-828 | signing in with the same account, or the first one, keeps BASE and queued pulls; another account starts without either; nothing else changes |
| SyncProvenance.StepMovesBase | src/core/src/engine.rs:809-1299 | a step, cut off anywhere, keeps a slot's BASE, clears it, or sets it to what both sides then hold, if and only if a push or a forced upload it was about to make from this slot can be read back |
| SyncProvenance.BaseOrigin | src/core/src/engine.rs:809-1299 | in every history without exception, the last step that changed a slot's BASE to its present value left the device and the signed-in account's Steam file holding exactly it, if and only if what that step was about to push from this slot can be read back |
| SyncProvenance.BaseWasShared | src/core/src/engine.rs:852-1152 | so in every history in which the earlier steps could read back what they were about to push from the slot, its BASE is content that the device and the signed-in account's Steam file once held together |
| SyncWitness.PushCanLoseAgreement | src/core/src/engine.rs:1393-1449 | a turn with the real codec that is reported as settled, moves BASE, and leaves Steam's file with another meaning |
| SyncConvergence.MovedBaseIsInSync | src/core/src/engine.rs:963-1123 | a turn that pushed, pulled or converged leaves the slot in sync if and only if a push that was due can be read back |
| SyncConvergence.InSyncIsFixpoint | src/core/src/engine.rs:1031-1050 | a slot in sync compares as Unchanged and is left alone, unless a manual run replaces a compressed Steam file; it stays in sync, after such a replacement if and only if the content can be read back |
| SyncConvergence.TwoSyncsConverge | src/core/src/engine.rs:852-1152 | from a BASE that at most one side has left, one completed prelaunch run that may replace saves and one completed manual run put the slot in sync, if and only if a push due in the manual run can be read back |
| SyncConvergence.InSyncStays | src/core/src/engine.rs:852-1152 | any completed run keeps a slot in sync that was, if and only if a push due on the slot (replacing a compressed Steam file) can be read back |
| SyncConvergence.CutSyncHeals | src/core/src/engine.rs:925-1151 | after a run cut off before its state is stored, each slot's sides are as before, or agree if and only if a push that was due can be read back; agreeing sides compare as Unchanged or Converged whatever BASE is stored |
| SyncConvergence.NextSyncRecovers | src/core/src/engine.rs:925-1151 | a completed run that takes up a slot whose sides agree puts it in sync, if and only if a push that is due (replacing a compressed Steam file) can be read back and a queued pull that matches may be applied |
| SyncVerdicts.VerdictMeaning | src/core/src/engine.rs:925-1148 | a turn fails exactly when a file cannot be read or a due push not converted; it waits exactly when a manual run would push, asks for a relaunch exactly when a run that may replace saves would pull, and for a choice exactly when Steam has no file or both sides have moved |
| SyncVerdicts.ReportMeaning | src/core/src/engine.rs:925-1148 | a completed run reports, for each slot it takes up and in their order, what the slot as it was before calls for, by the same conditions |
| SyncVerdicts.PhaseMeaning | src/core/src/engine.rs:1153-1183 | a conflict is shown if any slot has one, else a relaunch, else a waiting upload |
| SyncVerdicts.IdleExactly | src/core/src/engine.rs:1157-1159 | a completed run shows idle if and only if no slot it took up has a push, a pull, a choice or a first upload left |
| SyncVerdicts.IdleMeansInSync | src/core/src/engine.rs:1157-1159 | when idle is shown, every slot the run took up is in sync if and only if a push that was due there can be read back |
| SyncVerdicts.SettledMeansInSync | src/core/src/engine.rs:925-1148 | a slot reported as settled is in sync afterwards if and only if a push that was due can be read back, and any other verdict or failure means that neither side was touched |
| SyncVerdicts.SteamChosen | src/core/src/engine.rs:1244-1255 | choosing Steam's side queues exactly the present version and changes neither side |
| SyncVerdicts.ChosenVersionOnly | src/core/src/engine.rs:989-992 | whatever file Steam has later, the queued pull applies to it if and only if it has the chosen name and the chosen listed content, or no listed hash when the chosen file had none |
| SyncVerdicts.ChosenSteamArrives | src/core/src/engine.rs:989-1008 | the chosen Steam version replaces whatever the device holds at the next completed run that may replace saves, and the slot is then in sync |
| SyncVerdicts.ChosenDeviceArrives | src/core/src/engine.rs:1187-1243 | after a successful choice of the device's side, over a Steam file or none, BASE is the device's content, and Steam's file means it if and only if it can be read back from under its name |
| SyncVerdicts.RestoredContent | src/core/src/engine.rs:577-650 | a restored slot holds what the backup means and the replaced save is backed up; a writable sidecar of flags learns the backup's extra |
| SyncSidecar.RestoreExactly | src/core/src/engine.rs:577-650 | the whole world after a restore: an unreadable backup changes nothing, one that cannot be converted only the sidecar and the backups, any other is put back, byte for byte unless it is Repentance+ |
| SyncVerdicts.SyncKeepsSidecar | src/core/src/engine.rs:963-969 | wherever a run is cut off, a slot whose sidecar and files have flag bytes 0 or 1 keeps every unlock and every counter in its sidecar |
| SyncSidecar.SyncSidecars | src/core/src/engine.rs:963-969 | after a completed run each sidecar is exactly the old one, merged with what Steam's file held and with what a push carried, as far as it could be written |
| SyncSidecar.ForceSidecar | src/core/src/engine.rs:1217-1224 | the same for a choice over a Steam file |
| SyncSidecar.ForceLeavesDevice | src/core/src/engine.rs:1187-1243 | a successful choice of the device's side changes no save on the device, no queued pull and not the account |
| SyncSidecar.FirstUpload | src/core/src/engine.rs:1301-1353 | a first upload creates exactly the uploaded bytes under the name given, keeps every save, and records BASE as the device's content |
| SyncSidecar.UnreadableStopsRun | src/core/src/engine.rs:868-890 | one unreadable save among those that a run would take up, and the run does nothing at all |
| SyncCopies.SyncKeepsCopies | src/core/src/engine.rs:925-1148 | a run, cut off anywhere, takes no backup away and adds a beginning of exactly those that the slot's state calls for, source by source; a completed run adds them all |
| SyncCopies.ForceKeepsCopies | src/core/src/engine.rs:1225-1243 | a choice adds exactly these backups: of both sides over a Steam file, of Steam's file before a push, of the device's save before a first upload |
| SyncCopies.ForceCopiesFirst | src/core/src/engine.rs:1225-1290 | wherever a choice is cut off, an upload or a stored state comes after the copies of both sides, or of the device's save for a first upload |
| SyncVerdicts.PushRemembers | src/core/src/engine.rs:1418-1434 | after a push under a Repentance+ name of a slot with flag bytes 0 or 1, a sidecar that can be rewritten has all that the new Steam file has, which has all that the sidecar had |
| SyncProgress.SaveCodecKeepsProgress | src/core/src/isaac_format.rs:162-290 | a conversion under a Repentance+ name carries every unlock and counter of the sidecar |
| SyncProgress.SyncKeepsProgress | src/core/src/engine.rs:963-969 | a run, wherever it ends, keeps every unlock and every counter of a Repentance+ file on Steam if and only if it has not uploaded to the slot, or what the content carries with the sidecar, after learning what it could, covers them |
| SyncProgress.CompletedSyncKeepsProgress | src/core/src/engine.rs:925-1148 | for a run that completes the condition is known beforehand: if and only if no push of the slot is due or what it would carry covers them |
| SyncWitness.RunCanLoseUnlock | src/core/src/engine.rs:963-969 | a world of the real codec in which a completed manual run whose sidecar cannot be written loses an unlock from Steam |
| SyncProgress.PushHolds | src/core/src/engine.rs:1393-1449 | after a push under a Repentance+ name Steam's file holds exactly what the content carries with the sidecar and the ids |
| SyncProgress.RunCovers | src/core/src/engine.rs:963-969 | once a run has learned from a Repentance+ file, what a push would carry is above all that file holds, when the slot has flag bytes 0 or 1 and the sidecar is writable or already covers it |
| SyncProgress.ChoiceCovers | src/core/src/engine.rs:1217-1243 | so it is for a choice with a writable sidecar when Steam's file is not compressed, because the code looks for Repentance+ data in the undecoded bytes |
| SyncProgress.ForceKeepsProgress | src/core/src/engine.rs:1217-1243 | a choice, cut off anywhere, keeps that progress if and only if it has not uploaded or what the content carries with the sidecar covers it |
| SyncWitness.ChoiceCanLoseUnlock | src/core/src/engine.rs:1217-1224 | a world of the real codec in which the choice of the device's side over a compressed Steam file loses an unlock though the sidecar is writable |
| SyncProgress.StepKeepsProgress | src/core/src/engine.rs:852-1299 | any step of this program keeps a file's progress if and only if an upload it made to the slot covers it |
| SyncProgress.HistoryKeepsProgress | src/core/src/engine.rs:1418-1443 | in every history, progress on Steam at one time is there at every later time when in between no other client replaces the file, no other account signs in, and every upload to the slot covers what it replaces |
| SyncProgress.CarefulHistory | src/core/src/engine.rs:963-969 | in every history with flag bytes 0 or 1, progress on Steam is never lost while the slot's sidecar can be written and the device's side is chosen only over uncompressed files |
| SyncEngine.UpsertState | src/core/src/engine.rs:1671-1682 | the removing loop and the insertion give the specified map |
| SyncEngine.Engine.PushOne | src/core/src/engine.rs:1355-1449 | a push performs exactly its specified effects, as far as the budget goes, and moves the working BASE when it succeeds |
| SyncEngine.Engine.PullOne | src/core/src/engine.rs:1480-1564 | the same for a pull |
| SyncEngine.Engine.Compare | src/core/src/engine.rs:1031-1147 | the branch taken for each decision performs its specified effects and yields its verdict |
| SyncEngine.Engine.Resolve | src/core/src/engine.rs:989-1030 | a queued pull is applied, kept waiting or dropped as specified before the comparison |
| SyncEngine.Engine.RunSync | src/core/src/engine.rs:852-1152 | a run over all slots performs exactly the specified effects, succeeds exactly when it stores its state, and reports the specified verdicts |
| SyncEngine.ReportPhase | src/core/src/engine.rs:1153-1183 | the phase shown, from the pending choices and the number of waiting uploads, is the specified one |
| SyncEngine.Engine.ForceSlot | src/core/src/engine.rs:1187-1299 | a choice performs exactly its specified effects |
| SyncEngine.Engine.ApplyPendingRestore | src/core/src/engine.rs:577-650 | a restore backs up the live save, merges a Repentance+ backup into the sidecar, and only then converts and writes it, or fails |
| SyncEngine.Engine.BindAccount | src/core/src/engine.rs:809-828 | a sign-in clears BASE and queued pulls exactly when another account was signed in before |
| Backups.Disk.WriteBytes | src/core/src/atomic.rs:10-40 | at every moment the file is its old or its new content, success means new, and no other file but temporaries changes |
| Backups.RetentionKeepsNewest | src/core/src/backups.rs:140-157 | twelve records of a slot and source stay, and none removed is newer than one that stays |
| Backups.NewestSurvives | src/core/src/backups.rs:140-157 | a strictly newest record is never removed |
| Backups.OldestExpires | src/core/src/backups.rs:140-157 | a strictly oldest record among more than twelve is removed |
| PullFaults.BackupManager.ApplyRetention | src/core/src/backups.rs:140-157 | exactly the expired records may disappear, all of them when nothing fails |
| PullFaults.BackupManager.BackupBytes | src/core/src/backups.rs:47-80 | a returned record is in place with its data, the live save is never touched, and records of other slots and sources stay in place at every moment |
| PullFaults.BackupManager.RestoreLocal | src/core/src/backups.rs:108-138 | the live save is at every moment as before or the backup, and whenever it is not the one before, a copy of that is in place; without failures it succeeds if and only if adding this copy does not make the chosen record expire, and otherwise the chosen backup is lost |
| PullFaults.OthersAreRestorable | src/core/src/backups.rs:108-157 | a backup made for any other purpose than a restore never expires in its own restore |
| PullFaults.OldestIsLost | src/core/src/backups.rs:108-157 | the oldest of twelve or more backups made before restores of the slot does, when there is a live save |
| PullFaults.RestoresLoseFirst | src/core/src/backups.rs:108-157 | a disk, after any number of restores from twelve on, that holds such a backup intact |
| PullFaults.LiveSave.PullOne | src/core/src/engine.rs:1501-1556 | for every placement of failures the live save is at every moment the old or the new one, and whenever it is not the old one a backup of that is in place; BASE moves exactly on success, a reported rollback has the old save, and a rollback fails only when two operations fail |
| PrelaunchBarrier.BarrierHolds | src/core/src/engine.rs:561-575 | after a preflight returns by its started path, in every interleaving no operation is inside a replacement and none writes the live save until the preflight is entered again |
| PrelaunchBarrier.AtMostOneOperation | src/core/src/engine.rs:652-699 | in every interleaving at most one operation is active, and the flag is then set |
| PrelaunchBarrier.CompletedMeansDone | src/core/src/engine.rs:562-565 | a preflight that reports completion has seen its own operation end |
| PrelaunchBarrier.PreflightCompletes | src/core/src/engine.rs:547-575 | an interleaving with a restore, an operation that replaces the save and ends, and a preflight that reports completion |
| PrelaunchBarrier.EarlyReturnExactly | src/core/src/engine.rs:556-560 | after the early return the live save can still be written exactly when some operation is at that moment inside a replacement past its check |
| PrelaunchBarrier.EarlyReturnIsNoBarrier | src/core/src/engine.rs:556-560 | an interleaving in which that happens |
| AdditivePlan.BuildAdditiveStats | src/core/src/achievements.rs:328-405 | a plan is built exactly when every requested name has a definition with a bit below 32, and it is the plan specified |
| AdditivePlan.StoredBitMeaning | src/core/src/achievements.rs:341-400 | a bit of a stored value is set exactly when a block, a stat, a cached unlock or a request has it |
| AdditivePlan.HasDigit | src/core/src/achievements.rs:343-347 | the bit of an achievement is the binary digit of that number, counted from the least significant |
| AdditivePlan.LastIsFound | src/core/src/achievements.rs:334-337 | of several definitions of a name the last one counts |
| AdditivePlan.PlanIsUnique | src/core/src/achievements.rs:397-404 | the inputs determine the plan, its order included |
| AdditivePlan.PlanOnlyAdds | src/core/src/achievements.rs:378-404 | every stored value keeps all that Steam had, holds all requested bits, and is a change |
| AdditivePlan.AppliedPlanCoversTarget | src/core/src/achievements.rs:328-405 | storing the plan gives every group exactly its old bits and its requested bits |
| AdditivePlan.SecondPlanIsEmpty | src/core/src/achievements.rs:328-405 | planning again after storing the plan gives nothing to store |
| AdditivePlan.CountLostUnlocks | src/core/src/achievements.rs:502-518 | counts the earlier unlocks that are not read back as achieved |
| MachOPatch.PatchSlice | tools/macho-add-dylib.py:35-87 | the patch in place decides and changes exactly as specified, the bytes left when the counts overflow included |
| MachODecision.AddedExactly | tools/macho-add-dylib.py:35-87 | a library is added if and only if the slice is a 64-bit image whose counted commands fit their area, none names the library or says that it is encrypted (0x21, 0x2C), no section starts below the end of the new command, and the bytes it takes are zero and in the slice; by the numbers of the format |
| MachO.PatchedParses | tools/macho-add-dylib.py:35-87 | the patched slice parses as the same commands and then one naming the library, and nothing else, if and only if the old command sizes sum to the header's total |
| MachO.PatchedFrame | tools/macho-add-dylib.py:75-87 | only the two counts and a zero range change: one command more, the new command's size more, and the new command in the zero range, which ends at or below every section's content |
| MachO.SecondPatch | tools/macho-add-dylib.py:49-55 | for every slice that was patched, what a second patch decides is what the command makes it that starts in the bytes left after the counted commands and goes on into the new command |
| MachO.SecondPatchOfWhole | tools/macho-add-dylib.py:49-55 | when no bytes were left, a second patch finds the library if and only if its name up to a zero byte decodes to the name asked for |
| MachO.UncountedIsAdded | tools/macho-add-dylib.py:35-87 | a slice whose header counts no commands but eight bytes of them is patched, does not list the library, and is refused the second time |
| MachO.SecondPatchFindsName | tools/macho-add-dylib.py:49-55 | when no bytes were left, it finds every name without a zero byte |
| MachO.DylibFields | tools/macho-add-dylib.py:25-32 | the new command is framed, aligned and names the library at offset 24 |
| MachODecision.CommandExactly | tools/macho-add-dylib.py:25-32 | the new command byte by byte: six words, the name, and zeros up to the least multiple of eight that holds one |
| MachO.CountFits | tools/macho-add-dylib.py:46-47 | a slice that scans leaves room in the command counter |

## Left out

- Steam login, listing, download and upload as network operations: reading and replacing the bytes under a name. Another client writing between the check that Steam's file is unchanged and the upload is not modelled, nor is the game writing during a run.
- Finding save files, excluded slots and the uniqueness of slots: a run takes the slots it finds, distinct, with one save each. The snapshot that a prelaunch run takes once is the current save.
- SHA-1 and SHA-256: files are compared by content. Steam may or may not list a SHA-1; two missing ones count as equal for a queued pull, as in the code, so such a pull applies to any version under the same name.
- Status texts other than the phase after a run, logging, state schema migration, the cloud change number and the pending-choice guard of `force_slot`.
- Retention in the synchronization model: its backups only grow; `Backups` and `PullFaults` model retention.
- Directories, permissions and stable-read retries. Two backups are assumed to have different, increasing times.
- Steam's achievement schema, its cache and the store request; definitions and cached names are inputs.
- The Repentance+ branch of `pull_one`: its input is already converted, and SyncCodec.NormalizedIsStable shows that the branch is never taken.
- FAT headers and the choice of slices in the Mach-O tool; one slice is patched, with any decoder of names to text.
- CRC-32 error detection: top bytes of this table repeat, so the usual single-error claim is not made.
- SyncConvergence.TwoSyncsConverge: assumes that both runs complete; a run stops at a slot that cannot be read or converted, for instance at a push of a save within 112 bytes of the size limit.
