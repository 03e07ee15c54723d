# Verified models of QEMU's core protocols

This project models parts of QEMU 0.15.1 whose correctness is easy to state and hard to see from the
code, and proves what each part is for.

* **AES** (`AesField`, `AesWord`, `AesCipher`, `Aes`, `AesKeys`, `AesExample`, `AesCbc`): the table-driven cipher of
  `aes.c` against the definitions of FIPS 197, key expansion for the three key sizes, and cipher block
  chaining. The main results: decryption under the schedule of `AES_set_decrypt_key` inverts encryption
  under the schedule of `AES_set_encrypt_key`, and CBC decryption recovers the plaintext of any length.
* **RAM migration** (`RamList`, `RamStream`, `RamLoad`, `RamReplay`, `RamSave`, `RamMigration`): the
  sender, a guest that keeps writing, and the receiver. Every complete run leaves the receiver with the
  sender's RAM, byte stream and all.
* **Block migration** (`DirtyTracking`, `BlockMigration`, `AioBitmap`, `BlockSave`): asynchronous reads,
  writes in flight, the send queue, the dirty bitmap and the in-flight bitmap. Whatever the guest writes
  and in whatever order reads complete, the stream makes every receiver exact if and only if the last
  block sent of every clean chunk has the contents of the newest read of it. That holds when stage 3
  empties the queue and no read has completed before an earlier one of its chunk.
* **Multiwrite** (`MultiwriteMerge`, `MultiwriteProtocol`): merging sorted write requests preserves
  their meaning, exactly when no byte is cut off for good; and every user callback runs exactly once.
* **Block layer** (`BlockBytes`, `Commit`): byte access over sectors refines a flat array of bytes, and
  committing an overlay never changes what the guest sees.
* **Virtual CPUs** (`VcpuPause`, `Icount`): pausing loses no wakeup and no kick and leaves every CPU unable to run;
  the instruction budget is conserved.
* **Translation-block cache** (`TbCache`, `TbTable`): the chains relinked through the blocks, and the
  agreement of the fast lookup with the slow one over every sequence of lookups.
* **Bitmaps** (`Bitops`, `Bitmap`) and the **buffered file** (`BufferedFile`).

Code that updates state in place is modelled by classes and methods on arrays, fields and linked
objects. Each such method is proved against a function of the old state or as steps of a state machine,
and the main theorems are lemmas about that function or machine. Whatever the outside world decides
(guest writes, the moment a request completes, partial writes, I/O errors, rate limits, the hash of the
virtual-pc cache, the page mapping) is a parameter, so each theorem holds for all of it.

`dafny verify dfyconfig.toml` checks the whole project.

## Where a property fails

* `MultiwriteMerge`: a request that ends before the one it is merged with cuts off that one's tail.
  `CutOffExample` shows it and `MeaningPreservedExactly` gives the exact condition.
* `DirtyTracking`: turning tracking on while it is on zeroes the counter and keeps the bits.
  `EnabledTwice` shows it and `EnableKeepsCount` gives the exact condition.
* `BlockMigration`: stage 3 does not look at the queue after its flush, so a flush stopped by the rate
  limit loses blocks. `StrandedExample` shows it.
* `BlockMigration`: the in-flight bitmap does not cover the reads of the bulk phase, so two reads of a
  chunk can be pending; if the later one completes first, the receiver can end with old contents.
  `OvertakingExample` shows it.
* `ExactlyWhenNewest` is the exact condition for both: the last block sent of every clean chunk has the
  contents of the newest read of it. `MigrationIsExact` and `GuardedMigrationIsExact` are two conditions
  that a caller can see to: no read overtakes an earlier one of its chunk, and a chunk is read only while
  no read of it is pending. `AioBitmap` says which submissions the bitmap guards.
* `VcpuPause`: after `pause_all_vcpus` a thread may still be in guest code. `PausedInGuestCodeExample`
  shows it and `PausedInGuestCode` gives the exact condition: its CPU stopped itself in a device model.
* `Commit`: an allocated extent that reaches past either image makes the commit fail with -EIO, without
  harm to what the guest sees. `UnfitExample` shows it and `Commit.CommitJob.Run` gives the exact
  condition.
* `AesCbc`: after a short last block the two directions leave the same `ivec` only where the block
  function fixes it. `CbcIv` says what each leaves and `CbcIvSame` when they are the same.

## Model

| member | source | states |
|---|---|---|
| `AesField.GfInvIsInverse` | qemu-0.15.1/aes.c:46-58 | The field inversion under the substitution table S is multiplicative inversion in GF(2^8), with 0 sent to 0 (section 5.1.1 of FIPS 197). |
| `AesField.SBoxInverse` | qemu-0.15.1/aes.c:46-58 | S and Si undo each other on every byte, in both orders. |
| `AesField.SBoxBits` | qemu-0.15.1/aes.c:46-58 | Equation (5.1) of FIPS 197, bit by bit: each bit of S[x] is the sum of five bits of the field inverse of x and a bit of the constant 63. |
| `AesField.ConstantMultiples` | qemu-0.15.1/aes.c:46-58 | The shift-and-add forms of the table coefficients 2, 3, 9, b, d and e are field products. |
| `AesField.MatrixProduct` | qemu-0.15.1/aes.c:46-58 | The coefficient rows of Td and Te multiply to the identity matrix. |
| `AesWord.XorIsU32Xor` | qemu-0.15.1/aes.c:976-1035 | Exclusive-or of two u32s is exclusive-or of their four bytes. |
| `AesWord.MasksAreBytes` | qemu-0.15.1/aes.c:1037-1070 | The masks of the last round keep one byte of a u32 and clear the others. |
| `AesWord.ToFromU32` | qemu-0.15.1/aes.c:885-900 | A u32 is determined by its four bytes, as GETU32 and PUTU32 use them. |
| `AesWord.FromToU32` | qemu-0.15.1/aes.c:885-900 | Four bytes are determined by the u32 they make. |
| `AesWord.MixColumnInverse` | qemu-0.15.1/aes.c:46-58 | InvMixColumns undoes MixColumns on every column. |
| `AesWord.InvMixColumnXor` | qemu-0.15.1/aes.c:853-876 | InvMixColumns is linear over exclusive-or, which is what allows the round keys to be transformed in advance. |
| `AesCipher.InvRoundsUndo` | qemu-0.15.1/aes.c:1076-1261 | For every n, n rounds of the straightforward inverse cipher undo the last n rounds of the cipher (sections 5.1 and 5.3 of FIPS 197). |
| `AesCipher.InvCipherInverse` | qemu-0.15.1/aes.c:1076-1261 | The straightforward inverse cipher inverts the cipher under any round keys and any number of rounds. |
| `AesCipher.EqInvCipherIsInvCipher` | qemu-0.15.1/aes.c:832-878 | The equivalent inverse cipher under reversed and transformed round keys equals the straightforward inverse cipher (section 5.3.5 of FIPS 197). |
| `AesCipher.DecryptEncrypt` | qemu-0.15.1/aes.c:885-1261 | On 16 bytes, decryption under a decryption schedule recovers the bytes encrypted under the schedule it was made from. |
| `Aes.EncRoundIsRound` | qemu-0.15.1/aes.c:976-1035 | One round of four table lookups per column is SubBytes, ShiftRows, MixColumns and AddRoundKey. |
| `Aes.DecRoundIsEqRound` | qemu-0.15.1/aes.c:1167-1226 | The same for a decryption round and the round of the equivalent inverse cipher. |
| `Aes.EncLastIsFinalRound` | qemu-0.15.1/aes.c:1037-1070 | The masked Te4 lookups are the final round without MixColumns. |
| `Aes.DecLastIsEqFinalRound` | qemu-0.15.1/aes.c:1228-1261 | The masked Td4 lookups are the final round of the equivalent inverse cipher. |
| `Aes.TablesAtZero` | qemu-0.15.1/aes.c:60-657 | The first entry of each of the ten tables is the literal in the code. |
| `Aes.EncryptBlock` | qemu-0.15.1/aes.c:976-1070 | The loop that runs two rounds per pass computes Cipher of FIPS 197 for 10, 12 and 14 rounds. |
| `Aes.Encrypt` | qemu-0.15.1/aes.c:885-1070 | AES_encrypt writes the ciphertext of the block to 16 bytes of out and changes nothing else, also when in and out are the same array. |
| `Aes.DecryptBlock` | qemu-0.15.1/aes.c:1167-1261 | The loop that runs two rounds per pass computes the equivalent inverse cipher. |
| `Aes.Decrypt` | qemu-0.15.1/aes.c:1076-1261 | AES_decrypt writes the deciphered block to 16 bytes of out and changes nothing else, also in place. |
| `AesKeys.RconTable` | qemu-0.15.1/aes.c:722-726 | The literal round constants are the powers of x in GF(2^8), placed in the top byte. |
| `AesKeys.ScheduleUnique` | qemu-0.15.1/aes.c:731-827 | The recurrence of section 5.2 of FIPS 197 determines the whole schedule, so any expansion that satisfies it is the one. |
| `AesKeys.Expand128` | qemu-0.15.1/aes.c:756-775 | The unrolled loop for 128 bits satisfies the recurrence for 44 words and writes no other word. |
| `AesKeys.Expand192` | qemu-0.15.1/aes.c:776-797 | The unrolled loop for 192 bits satisfies the recurrence for 52 words and writes no other word. |
| `AesKeys.Expand256` | qemu-0.15.1/aes.c:798-825 | The unrolled loop for 256 bits satisfies the recurrence for 60 words and writes no other word. |
| `AesKeys.SetEncryptKey` | qemu-0.15.1/aes.c:731-827 | Status -1 for a null argument, -2 for another key size, else 0 with the FIPS 197 schedule of the key in the first 4*(rounds+1) words and nothing after them changed; on failure nothing changes. |
| `AesKeys.InvMixByTablesIsInvMixColumn` | qemu-0.15.1/aes.c:853-876 | Td lookups of Te4 bytes compute InvMixColumns of a round key word. |
| `AesKeys.ReverseRoundKeys` | qemu-0.15.1/aes.c:846-852 | The swapping loop reverses the order of the round keys in place. |
| `AesKeys.InvMixRoundKey` | qemu-0.15.1/aes.c:853-876 | One pass of the second loop applies InvMixColumns to one round key and leaves the others. |
| `AesKeys.SetDecryptKey` | qemu-0.15.1/aes.c:832-878 | Same statuses; on success the key holds the decryption schedule made from the encryption schedule of the same user key. |
| `AesKeys.DecryptInvertsEncrypt` | qemu-0.15.1/aes.c:731-1261 | For every key of 128, 192 or 256 bits and every block, AES_decrypt under the schedule of AES_set_decrypt_key inverts AES_encrypt under the schedule of AES_set_encrypt_key. |
| `AesExample.FirstRound` | qemu-0.15.1/aes.c:976-1035 | The first round of the example of appendix B of FIPS 197, with the words of the standard. |
| `AesExample.LastRound` | qemu-0.15.1/aes.c:1037-1070 | The last round of that example, which gives the ciphertext of the standard. |
| `AesExample.Key128` | qemu-0.15.1/aes.c:756-775 | The first computed word of the 128-bit key expansion of appendix A.1 of FIPS 197. |
| `AesExample.Key192` | qemu-0.15.1/aes.c:776-797 | The first computed word of the 192-bit key expansion of appendix A.2. |
| `AesExample.Key256` | qemu-0.15.1/aes.c:798-812 | The first computed word of the 256-bit key expansion of appendix A.3. |
| `AesExample.Key256Middle` | qemu-0.15.1/aes.c:813-825 | The word of the same expansion that is substituted without rotation or round constant. |
| `AesCbc.AesInverts` | qemu-0.15.1/aes.c:731-1261 | The two schedules of one key make a block function and its inverse, as CBC needs. |
| `AesCbc.CbcRoundTrip` | qemu-0.15.1/aes.c:1265-1314 | For every length, decryption recovers what encryption was given, including a short last block padded from ivec. |
| `AesCbc.CbcBlock` | qemu-0.15.1/aes.c:1276-1294 | Section 6.2 of SP 800-38A by index: block j of the ciphertext enciphers 16 bytes that are the exclusive-or of block j of the plaintext with ivec for j = 0 and with ciphertext block j - 1 otherwise; past the end of a short last block they are the bytes of that previous block. |
| `AesCbc.CbcDecryptedBlock` | qemu-0.15.1/aes.c:1295-1313 | Each byte of plaintext block j, whole or short, is the exclusive-or of that byte of the deciphered block j with that byte of ivec for j = 0 and of ciphertext block j - 1 otherwise. |
| `AesCbc.EncryptedIvIsLast` | qemu-0.15.1/aes.c:1281-1293 | Encryption leaves in ivec the last block of ciphertext, or ivec itself when there is none. |
| `AesCbc.DecryptedIvIsLast` | qemu-0.15.1/aes.c:1301-1311 | Decryption leaves in ivec the last block of ciphertext, or after a short block its deciphered form. |
| `AesCbc.CbcIv` | qemu-0.15.1/aes.c:1265-1314 | For whole blocks both directions leave the same ivec; after a short last block decryption leaves the deciphered form of what encryption leaves. |
| `AesCbc.CbcIvSame` | qemu-0.15.1/aes.c:1265-1314 | Both directions leave the same ivec if and only if the length is a whole number of blocks or the block function fixes the last ivec. |
| `AesCbc.CbcDecryptedPrefix` | qemu-0.15.1/aes.c:1295-1313 | Decryption depends only on the whole blocks that hold the ciphertext, however long the buffer is. |
| `AesCbc.EncryptNext` | qemu-0.15.1/aes.c:1277-1294 | One block or short block: the exclusive-or with ivec, completed from ivec, is enciphered into out and becomes the next ivec, with out and in possibly the same array; CbcBlock says what that is byte by byte. |
| `AesCbc.CbcEncrypt` | qemu-0.15.1/aes.c:1276-1294 | The encrypting branch writes the CBC ciphertext that CbcBlock describes, rounded up to whole blocks, and the final ivec, also in place; nothing else in out changes. |
| `AesCbc.DecryptNext` | qemu-0.15.1/aes.c:1296-1312 | One block or short block of decryption, also in place: the deciphered block exclusive-or ivec reaches n bytes of out, and ivec becomes the ciphertext block, or the deciphered one after a short block. |
| `AesCbc.CbcDecrypt` | qemu-0.15.1/aes.c:1295-1313 | The decrypting branch writes exactly the length bytes of plaintext that CbcDecryptedBlock describes and the final ivec, also in place; nothing else in out changes. |
| `AesCbc.ThereAndBack` | qemu-0.15.1/aes.c:731-1314 | For every supported key and any buffer and length: expanding the key both ways, encrypting in place and decrypting in place from the same ivec gives the bytes back and touches nothing beyond the last block. |
| `RamList.AddrInjective` | qemu-0.15.1/arch_init.c:113-175 | Pages of a list of disjoint blocks have different addresses. |
| `RamList.NextDistance` | qemu-0.15.1/arch_init.c:159-169 | One move of the circular scan goes one place further round until it is back at its start, which it reaches after exactly all pages. |
| `RamList.RamAddrsMember` | qemu-0.15.1/arch_init.c:179-195 | The pages that ram_save_remaining visits are exactly the pages of the list. |
| `RamStream.Be64RoundTrip` | qemu-0.15.1/arch_init.c:289-295 | An 8-byte number read back is the number written. |
| `RamStream.DigitAt` | qemu-0.15.1/savevm.c:637-649 | Each byte of a number on the stream is its base-256 digit of that place, most significant first. |
| `RamStream.DigitsValue` | qemu-0.15.1/savevm.c:669-675 | Any bytes are the bytes of the number read from them. |
| `RamStream.HeaderBits` | qemu-0.15.1/arch_init.c:378-381 | Joining a page-aligned number and flags with | and taking them apart with masks is addition, remainder and difference. |
| `RamLoad.RamLoader.FindBlock` | qemu-0.15.1/arch_init.c:359-362 | The list search returns the first block of that name, or none if there is none. |
| `RamLoad.RamLoader.SynchronizeSizes` | qemu-0.15.1/arch_init.c:389-419 | The loop over the sender's block list accepts or refuses as the specification does, for unknown names, different lengths and a list that overruns the total. |
| `RamLoad.RamLoader.Load` | qemu-0.15.1/arch_init.c:368-458 | ram_load (version 4) computes the specified result on every byte stream whose records are complete: the RAM, the remembered block and the rest of the stream, or the error code. |
| `RamLoad.Find` | qemu-0.15.1/arch_init.c:359-362 | The result has the name asked for; none means no block has it. |
| `RamReplay.ReplayPage` | qemu-0.15.1/arch_init.c:134-154 | A page record, repeated or not, compressed or not, puts that page where it belongs and leaves its block remembered. |
| `RamReplay.ReplayEos` | qemu-0.15.1/arch_init.c:331-331 | An EOS record ends the section and changes nothing. |
| `RamReplay.CheckSizesBack` | qemu-0.15.1/arch_init.c:289-295 | The receiver accepts the sender's whole block list and stops at its end. |
| `RamReplay.ReplaySizes` | qemu-0.15.1/arch_init.c:289-295 | The opening record is accepted and changes nothing. |
| `RamReplay.SizesAcceptedExactly` | qemu-0.15.1/arch_init.c:389-419 | The receiver accepts a block list, and stops at a given rest of the stream, if and only if the list names blocks of the receiver with their lengths until the total is used up modulo 2^64, and that rest follows. |
| `RamSave.FirstDirtyUnique` | qemu-0.15.1/arch_init.c:113-175 | There is at most one first dirty page after the remembered place. |
| `RamSave.SentCount` | qemu-0.15.1/arch_init.c:113-175 | Sending a dirty page lowers the number of dirty pages by exactly one. |
| `RamSave.IsDupPage` | qemu-0.15.1/arch_init.c:95-108 | The word-by-word comparison holds exactly when every byte of the page is the given one. |
| `RamSave.RamSaver.Scan` | qemu-0.15.1/arch_init.c:115-169 | The do/while scan stops at the first dirty page in circular order, or has been once round and none is dirty; it terminates. |
| `RamSave.RamSaver.SaveBlock` | qemu-0.15.1/arch_init.c:113-175 | Returns 0 exactly when no page is dirty, and then changes nothing; otherwise sends the first dirty page, clears its flag, remembers its place and writes the record with CONTINUE exactly when the block is the remembered one. |
| `RamSave.RamSaver.Remaining` | qemu-0.15.1/arch_init.c:179-195 | The loop counts exactly the dirty pages. |
| `RamSave.RamSaver.MarkAllDirty` | qemu-0.15.1/arch_init.c:276-284 | Every page becomes dirty. |
| `RamSave.RamSaver.BeginStage1` | qemu-0.15.1/arch_init.c:263-296 | Stage 1 forgets the last block, marks every page dirty and opens the stream with the size record. |
| `RamMigration.StepKeeps` | qemu-0.15.1/arch_init.c:113-366 | Every step keeps the invariant: what the receiver would make of the stream so far agrees with the sender on every clean page, and its remembered block is the sender's last_block. |
| `RamMigration.RunKeeps` | qemu-0.15.1/arch_init.c:113-366 | So does every run, of any length. |
| `RamMigration.MigrationIsExact` | qemu-0.15.1/arch_init.c:251-458 | For every run from stage 1 to the end of stage 3, whatever the guest writes in between, the receiver accepts every section and ends with the sender's final RAM. |
| `RamMigration.SaveBlockInRun` | qemu-0.15.1/arch_init.c:113-175 | A call of ram_save_block is a step of the run, lowers the dirty count by one unless it returns 0, and counts its bytes. |
| `RamMigration.SaveUnderLimit` | qemu-0.15.1/arch_init.c:301-309 | The rate-limited loop is a sequence of steps and sends exactly as many pages as the limit allows or as are dirty, whichever is less. |
| `RamMigration.Drain` | qemu-0.15.1/arch_init.c:321-329 | The loop of stage 3 sends exactly ram_save_remaining() pages and leaves none dirty. |
| `RamMigration.SaveLive` | qemu-0.15.1/arch_init.c:251-336 | Each stage is a sequence of steps and adds exactly one section; it sends all the pages due in stage 3, and in the others as many of them as the limit allows, where those due are every page in stage 1 and every page dirty or logged later; stage 1 starts a run and stage 3 finishes one. |
| `RamMigration.RunGuest` | qemu-0.15.1/arch_init.c:263-266 | Any guest writes between calls are steps: RAM is what the writes make it, and each page written is marked in the log or the dirty set. |
| `RamMigration.LoadSections` | qemu-0.15.1/arch_init.c:368-458 | Loading section after section succeeds exactly when every section is accepted, with the specified state. |
| `RamMigration.Migrate` | qemu-0.15.1/arch_init.c:251-458 | The whole migration, run through the methods: for any bursts of guest writes and any rate limits, the sender ends with all the writes in its RAM, loading succeeds and the receiver has the same RAM. |
| `DirtyTracking.TouchesMeansOverlap` | qemu-0.15.1/block.c:943-946 | The chunk range of a request is exactly the chunks in which it has a sector. |
| `DirtyTracking.CountIsExact` | qemu-0.15.1/block.c:937-963 | On every run that turns tracking on only when it is off, dirty_count is the number of set bits. |
| `DirtyTracking.DirtyMeansWritten` | qemu-0.15.1/block.c:2842-2885 | On those runs a sector reads as dirty exactly when its chunk was written while tracking was on and not reset afterwards. |
| `DirtyTracking.EnableKeepsCount` | qemu-0.15.1/block.c:2842-2861 | Turning tracking on keeps the counter right if and only if it was off or nothing was dirty. |
| `DirtyTracking.EnabledTwice` | qemu-0.15.1/block.c:2842-2861 | Turning it on twice leaves a dirty chunk that the counter does not count. |
| `DirtyTracking.BlockDevice.SetDirtyBitmap` | qemu-0.15.1/block.c:937-963 | Sets or clears exactly the bits of the request's chunks and moves the counter by exactly the bits that changed. |
| `DirtyTracking.BlockDevice.SetDirtyTracking` | qemu-0.15.1/block.c:2842-2861 | The effect of turning tracking on or off on bitmap and counter, in each combination. |
| `BlockMigration.StepKeeps` | qemu-0.15.1/block-migration.c:186-493 | Every step keeps the invariant, in whatever order reads complete: where the newest read of a chunk has a sector that is neither dirty nor being written, it has what is on the disk. |
| `BlockMigration.CompleteReadOrder` | qemu-0.15.1/block-migration.c:186-203 | A completed read leaves every chunk's last block the last, unless it is the latest read of its chunk and overtakes an earlier one. |
| `BlockMigration.CompletionOrder` | qemu-0.15.1/block-migration.c:186-203 | A completion leaves the last block of every chunk the last if and only if it overtakes no earlier read of its chunk or the one it overtakes is the same block. |
| `BlockMigration.ReachKeeps` | qemu-0.15.1/block-migration.c:186-493 | Every reachable state satisfies the invariant. |
| `BlockMigration.LoadedIsLast` | qemu-0.15.1/block-migration.c:639-713 | After loading blocks in order, each sector holds what the last block of its chunk brought, or what was there before. |
| `BlockMigration.MigrationIsExact` | qemu-0.15.1/block-migration.c:557-713 | Every run that starts with no write in flight, in which no latest read of a chunk overtakes an earlier one, and that sends everything leaves the receiver with the sender's final disks. |
| `BlockMigration.FinishedExactly` | qemu-0.15.1/block-migration.c:186-713 | For every run to the end, with reads completing in any order: the stream makes every receiver exact if and only if the last block sent of each chunk has the contents of the newest read of it. |
| `BlockMigration.InOrderIsRight` | qemu-0.15.1/block-migration.c:463-493 | Where the last block of every chunk is the newest and the queue is empty, the last block sent is the newest. |
| `BlockMigration.OrderedKeeps` | qemu-0.15.1/block-migration.c:186-446 | Every step in which no read overtakes an earlier one of its chunk keeps the newest block of every chunk the last. |
| `BlockMigration.GuardedMigrationIsExact` | qemu-0.15.1/block-migration.c:186-713 | With reads completing in any order, the same holds when a chunk is read only while no read of it is pending. |
| `BlockMigration.OvertakingExample` | qemu-0.15.1/block-migration.c:186-446 | A run in which the bulk read of a chunk is pending when the dirty phase reads it again, the second read completes first, and the receiver ends with the old contents while nothing is dirty. |
| `AioBitmap.ClearMeansNoRead` | qemu-0.15.1/block-migration.c:387-419 | What the bitmap guards: with the bit clear no read of the chunk is pending, unless its bulk read is or a second read was submitted before. |
| `AioBitmap.BitmapDirtyRead` | qemu-0.15.1/block-migration.c:413-419 | A dirty-phase read sets the bit and keeps the account; a chunk that was being read becomes one with two reads. |
| `AioBitmap.BitmapCompleted` | qemu-0.15.1/block-migration.c:197-198 | A completed read of either kind clears the bit and keeps the account. |
| `AioBitmap.NothingOverlapped` | qemu-0.15.1/block-migration.c:186-203 | Where no chunk was read twice at once, no completion can overtake another. |
| `BlockMigration.SentNowLoads` | qemu-0.15.1/block-migration.c:379-446 | The synchronous sends of stage 3 bring exactly the dirty chunks up to date and leave the others. |
| `BlockMigration.ExactlyWhenNewest` | qemu-0.15.1/block-migration.c:533-637 | Also when stage 3's flush leaves blocks in the queue, where they are freed: the stream makes every receiver exact if and only if the last block sent of every clean chunk has the contents of the newest read of it. |
| `BlockMigration.StrandedExample` | qemu-0.15.1/block-migration.c:533-637 | A reachable state in which the only block is freed unsent and the receiver is wrong. |
| `BlockSave.BlockSaver.SaveDeviceBulk` | qemu-0.15.1/block-migration.c:222-262 | One pass of the bulk phase on a device advances its cursor, says exactly when the device is done, and is a sequence of steps. |
| `BlockSave.BlockSaver.SaveBulkedBlock` | qemu-0.15.1/block-migration.c:332-351 | False means every device is done; true means strictly less is left, so the bulk phase ends. |
| `BlockSave.BlockSaver.SubmitBulk` | qemu-0.15.1/block-migration.c:252-260 | The read of the chunk at the cursor is submitted, its dirty bit reset and the cursor moved; a read of the chunk is then pending with its in-flight bit clear. |
| `BlockSave.BlockSaver.SubmitDirty` | qemu-0.15.1/block-migration.c:404-419 | The read is submitted, the in-flight bit set and the dirty bit reset, whether or not another read of the chunk is pending. |
| `BlockSave.BlockSaver.ReadCb` | qemu-0.15.1/block-migration.c:186-203 | Whichever pending read completes goes to the end of the queue, its in-flight bit is cleared and the counters stay right; whether it overtook an earlier one is recorded. |
| `BlockSave.BlockSaver.GuestComplete` | qemu-0.15.1/block.c:2171-2180 | A guest write that completes marks exactly the chunks it touches, and the saver stays valid. |
| `BlockSave.BlockSaver.Happen` | qemu-0.15.1/block-migration.c:186-203 | Whatever the guest or the disks do between two calls of the saver, at any moment and with reads completing in any order, has exactly its own effect, is a step and keeps the saver valid. |
| `BlockSave.BlockSaver.AnyOrder` | qemu-0.15.1/block-migration.c:186-203 | While no chunk was read twice at once, no pending read can overtake another. |
| `BlockSave.BlockSaver.AioFlush` | qemu-0.15.1/block-migration.c:388-390 | Waits until every pending read and every guest write in flight has completed, after the events of that wait in their order, with further writes submitted among them; a sequence of steps that may mark more chunks dirty. |
| `BlockSave.BlockSaver.NextDirty` | qemu-0.15.1/block-migration.c:387-436 | The loop stops at a dirty chunk whose in-flight bit is clear, or at the end; with no guest write in flight or to come it skips no dirty chunk; it terminates. |
| `BlockSave.BlockSaver.SaveDeviceDirty` | qemu-0.15.1/block-migration.c:379-446 | Done exactly when the cursor is at the end; otherwise one chunk is submitted, or sent at once; a chunk gets a second pending read only where its bulk read was pending; with no guest write in flight or to come one dirty chunk fewer is left and none is skipped. |
| `BlockSave.BlockSaver.SaveDirtyBlock` | qemu-0.15.1/block-migration.c:448-461 | True means that one read was submitted or one chunk sent; with no guest write in flight or to come, false means that no chunk of any device is dirty. |
| `BlockSave.BlockSaver.FlushBlks` | qemu-0.15.1/block-migration.c:463-493 | Sends queued blocks in order, exactly as many as the allowance or as there are, and keeps the others queued. |
| `BlockSave.BlockSaver.Stage2` | qemu-0.15.1/block-migration.c:580-614 | Stage 2 is a sequence of steps whatever the limits are and whatever its waits complete, and it terminates. It stops between its two flushes only when as many blocks as the limit are read or queued, or when the bulk phase is over and, with no guest write in flight or to come, no chunk is dirty; while the bulk phase goes on and there is room, it advances it; its last flush sends the front of the queue. Once no bulk read is pending it submits no read beside another. |
| `BlockSave.BlockSaver.DrainDirty` | qemu-0.15.1/block-migration.c:616-622 | The loop of stage 3 ends with no chunk dirty and nothing queued or in flight. |
| `BlockSave.BlockSaver.Stage3` | qemu-0.15.1/block-migration.c:557-637 | Stage 3 flushes, sends every dirty chunk and frees what is still queued; with room for the whole queue the run is finished. |
| `BlockSave.FinishMigration` | qemu-0.15.1/block-migration.c:557-713 | Stage 3 followed by loading the stream: exact for every receiver if and only if the last block sent of every clean chunk has the contents of the newest read; so when no read overtook another and the flush empties the queue; and none overtook another where no chunk was read twice at once. |
| `BlockSave.Migrate` | qemu-0.15.1/block-migration.c:557-713 | Stage 1, any mix of stage 2 calls and of guest writes, landings and completions in any order between them, the stop of the guest and stage 3: the same results for every such migration whose bulk phase is over. |
| `BlockSave.LoadStream` | qemu-0.15.1/block-migration.c:639-713 | block_load applied to each block in turn gives the specified contents. |
| `MultiwriteMerge.FlatTake` | qemu-0.15.1/cutils.c:179-214 | Copying size bytes of an I/O vector gives the first size bytes of its contents, or all of them. |
| `MultiwriteMerge.JoinedData` | qemu-0.15.1/block.c:2336-2360 | The joined request runs from the first's start to the second's end and holds the second's data where it has any, else the first's, and zeros in a gap between them. |
| `MultiwriteMerge.JoinedFits` | qemu-0.15.1/block.c:2337-2339 | The vector allocated for a joined request is long enough for its buffers. |
| `MultiwriteMerge.MergedFits` | qemu-0.15.1/block.c:2332-2334 | Requests of at most IOV_MAX buffers are merged into requests of at most IOV_MAX buffers. |
| `MultiwriteMerge.StepValue` | qemu-0.15.1/block.c:2314-2369 | What one pass of the merge does to the value of each byte of the disk, for every pair of requests, overlapping, adjacent or with a gap. |
| `MultiwriteMerge.AgreeUnlessLost` | qemu-0.15.1/block.c:2303-2372 | Every byte that is not lost is written as the given requests write it, or is a zero in a gap that the driver asked to fill. |
| `MultiwriteMerge.MergePreservesMeaning` | qemu-0.15.1/block.c:2303-2372 | When, in sorted order, no request ends before an earlier one, the merged requests write every disk as the given ones do, but for zeros in the gaps that the driver asked to fill, also under the IOV_MAX cut-off. |
| `MultiwriteMerge.CutOffMeans` | qemu-0.15.1/block.c:2314-2369 | When no gap merge is asked for and IOV_MAX is not reached, a byte is cut off exactly when two consecutive requests touch and the byte lies past the end of the second and before the end of the first. |
| `MultiwriteMerge.LostIsUncovered` | qemu-0.15.1/block.c:2303-2372 | When no gap merge is asked for and IOV_MAX is not reached, a lost byte is written by none of the merged requests. |
| `MultiwriteMerge.MeaningPreservedExactly` | qemu-0.15.1/block.c:2303-2372 | When no gap merge is asked for and IOV_MAX is not reached, merging preserves the meaning on every disk if and only if no byte is lost: cut off and not written again later. |
| `MultiwriteMerge.CutOffExample` | qemu-0.15.1/block.c:2303-2372 | Two overlapping requests of which the second ends first: the merged request drops the tail of the first. |
| `MultiwriteMerge.MergeNext` | qemu-0.15.1/block.c:2315-2368 | One pass of the in-place loop performs one step of the specification and leaves the requests after it. |
| `MultiwriteMerge.Merge` | qemu-0.15.1/block.c:2313-2371 | The in-place loop leaves the merged requests at the front of the array, between 1 and as many as were given, and touches nothing beyond them. |
| `MultiwriteMerge.Merged` | qemu-0.15.1/block.c:2313-2371 | The number of requests kept is between 1 and the number given. |
| `MultiwriteProtocol.StepKeeps` | qemu-0.15.1/block.c:2251-2474 | Every submission, completion and end of the submit loop keeps the count of outstanding requests and the first error right. |
| `MultiwriteProtocol.RunKeeps` | qemu-0.15.1/block.c:2251-2474 | So does every interleaving. |
| `MultiwriteProtocol.CallbacksRunOnce` | qemu-0.15.1/block.c:2388-2474 | In every interleaving: a refused first submission runs no callback; once the submit loop has ended and all requests have completed, every callback, one after the other, has run exactly once with the first negative result or 0; before that none has run. |
| `MultiwriteProtocol.FirstErrorIsFirst` | qemu-0.15.1/block.c:2271-2273 | The collected error is 0 if and only if no result was negative, and otherwise the first negative one. |
| `MultiwriteProtocol.NothingFollows` | qemu-0.15.1/block.c:2388-2474 | After either outcome nothing more can happen. |
| `MultiwriteProtocol.MultiwriteCB.UserCb` | qemu-0.15.1/block.c:2251-2263 | Runs every user callback exactly once, in order, each with the collected error, and no other call. |
| `MultiwriteProtocol.MultiwriteCB.Cb` | qemu-0.15.1/block.c:2265-2280 | A completion keeps the first error and counts down; the last one, and only it, runs every callback once with that error. |
| `BlockBytes.BlockDevice.CheckRequest` | qemu-0.15.1/block.c:894-921 | Succeeds exactly when a medium is present and every byte of the sectors is on the disk. |
| `BlockBytes.BlockDevice.Read` | qemu-0.15.1/block.c:924-935 | Exactly the sectors asked for, or the error code of each failing check or of the driver. |
| `BlockBytes.BlockDevice.Write` | qemu-0.15.1/block.c:971-991 | Exactly the sectors given change; a refused request changes nothing, and one on which the driver fails changes the sectors the driver got to and returns -EIO. |
| `BlockBytes.BlockDevice.Pread` | qemu-0.15.1/block.c:993-1036 | A successful read returns exactly the bytes asked for; without driver errors it succeeds if and only if the count is 0 or all the bytes are on the disk. |
| `BlockBytes.BlockDevice.WriteAligned` | qemu-0.15.1/block.c:1065-1083 | From a sector boundary on: whole sectors in place, then a read-modify-write of the last sector, with the same exactness. |
| `BlockBytes.BlockDevice.WritePart` | qemu-0.15.1/block.c:1053-1057 | Read, change and write back of one sector changes exactly the given part of it. |
| `BlockBytes.BlockDevice.Pwrite` | qemu-0.15.1/block.c:1038-1085 | A successful write changes exactly its bytes and keeps the rest of its edge sectors; however it ends, no byte outside its range changes; without driver errors it succeeds if and only if there is nothing to write or the device is writable and holds the range. |
| `BlockBytes.WrittenJoin` | qemu-0.15.1/block.c:1038-1085 | Writing a range piece by piece is writing it at once. |
| `BlockBytes.HoldsJoin` | qemu-0.15.1/block.c:993-1036 | Adjacent pieces read from a disk are one piece of it. |
| `BlockBytes.PartlyJoin` | qemu-0.15.1/block.c:1038-1085 | After any prefix of the writes, each byte is the old one or the one asked for at its place. |
| `BlockBytes.Touched` | qemu-0.15.1/block.c:993-1085 | Each sector the code accesses holds a byte of the range, so it is on the disk if the range is. |
| `BlockBytes.ReadAfterWrite` | qemu-0.15.1/block.c:993-1085 | What a read returns after a write of the same range is what was written. |
| `Commit.HiddenUnderOverlay` | qemu-0.15.1/block.c:823-826 | Whatever lands in the backing image under allocated sectors, the guest does not see it. |
| `Commit.DropCopied` | qemu-0.15.1/block.c:830-833 | Once every overlay sector is in the backing image, dropping any of them changes nothing the guest sees. |
| `Commit.FitsWhenExtentsEnd` | qemu-0.15.1/block.c:815-828 | The copy stays within both images when the backing image is as long as the overlay and no allocated extent passes the end. |
| `Commit.UnfitExample` | qemu-0.15.1/block.c:815-828 | A backing image shorter than the overlay, with everything allocated, makes the copy fail. |
| `Commit.CommitJob.WriteBacking` | qemu-0.15.1/block.c:823-826 | A write to the backing image puts there exactly its data, or what the failing driver left, and leaves what the guest sees in either case. |
| `Commit.CommitJob.CopyExtent` | qemu-0.15.1/block.c:816-827 | One pass copies its extent or fails with -EIO, and leaves what the guest sees. |
| `Commit.CommitJob.MakeEmpty` | qemu-0.15.1/block.c:830-833 | Emptying the overlay, or the part of it that a failing driver dropped, leaves what the guest sees. |
| `Commit.CommitJob.Run` | qemu-0.15.1/block.c:812-843 | After every change to either image the guest sees the same contents, however the commit ends; on 0 the backing image alone holds them; without driver errors it succeeds if and only if no extent to copy reaches past either image; the loop terminates. |
| `VcpuPause.ThreadKeeps` | qemu-0.15.1/cpus.c:737-776 | Every step of a CPU thread keeps the invariant. |
| `VcpuPause.StepKeeps` | qemu-0.15.1/cpus.c:737-963 | Every step of the CPU threads, of the pausing and resuming thread and of the rest of the emulator keeps it. |
| `VcpuPause.RunKeeps` | qemu-0.15.1/cpus.c:737-963 | So does every interleaving. |
| `VcpuPause.PausedMeansStopped` | qemu-0.15.1/cpus.c:933-963 | In every reachable state after pause_all_vcpus returns and before resume_all_vcpus, every CPU is stopped and cpu_can_run is false for it. |
| `VcpuPause.NoLostWakeup` | qemu-0.15.1/cpus.c:933-951 | While pause_all_vcpus waits, every CPU has stop or stopped set, no thread stays parked with stop set on its CPU, and if the wait is parked there is a CPU still to stop. |
| `VcpuPause.KickUnderWay` | qemu-0.15.1/cpus.c:867-876 | In every reachable state a thread that runs CPUs, one of which is told to stop or kicked, has the signal that makes it leave guest code: skipping a kick because one is under way loses none. |
| `VcpuPause.KickedAllSignals` | qemu-0.15.1/cpus.c:933-963 | After every CPU has been kicked, every thread that runs CPUs has the signal. |
| `VcpuPause.StopsShrink` | qemu-0.15.1/cpus.c:933-951 | While it waits, no step tells a further CPU to stop. |
| `VcpuPause.HandlingCounts` | qemu-0.15.1/cpus.c:737-746 | When a thread handles its events strictly fewer CPUs are left to stop, and the wait is signalled. |
| `VcpuPause.PauseEnds` | qemu-0.15.1/cpus.c:943-951 | When no CPU is left to stop, the wait has been signalled and pause_all_vcpus returns. |
| `VcpuPause.CanReact` | qemu-0.15.1/cpus.c:737-776 | The thread of a CPU that is to stop can always go on to handle the request. |
| `VcpuPause.PauseCanEnd` | qemu-0.15.1/cpus.c:933-951 | From every waiting state some run lets pause_all_vcpus return: it cannot be stuck. |
| `VcpuPause.EveryWaitEnds` | qemu-0.15.1/cpus.c:933-951 | Every run of the wait in which each thread with a CPU to stop handles its events ends it: it has been signalled and returns when it wakes. |
| `VcpuPause.PausedInGuestCode` | qemu-0.15.1/cpus.c:1015-1036 | Once paused, a thread is still in guest code with a CPU if and only if that CPU stopped itself there and has not left since. |
| `VcpuPause.PausedLeavesGuestCode` | qemu-0.15.1/cpus.c:1015-1036 | A run in which no CPU stops itself in a device model has no thread in guest code once all are paused. |
| `VcpuPause.PausedInGuestCodeExample` | qemu-0.15.1/cpus.c:1015-1036 | A run in which that happens. |
| `VcpuPause.VcpuFlags.CpuKick` | qemu-0.15.1/cpus.c:867-876 | Wakes the CPU's thread, and signals it exactly when no kick is under way. |
| `VcpuPause.VcpuFlags.AllVcpusPaused` | qemu-0.15.1/cpus.c:919-931 | True exactly when every CPU is stopped. |
| `VcpuPause.VcpuFlags.StopAll` | qemu-0.15.1/cpus.c:933-942 | Sets stop on and kicks every CPU; exactly the threads with a CPU not yet kicked are signalled. |
| `VcpuPause.VcpuFlags.ResumeAll` | qemu-0.15.1/cpus.c:953-963 | Clears stop and stopped on and kicks every CPU, with the same signals. |
| `VcpuPause.VcpuFlags.HandleEvents` | qemu-0.15.1/cpus.c:737-776 | Stops exactly the thread's CPUs that were told to stop, and signals exactly when there is one. |
| `Icount.StepConserves` | qemu-0.15.1/cpus.c:1051-1075 | Each grant, block, refill and fold-back, for every deadline, moves the clock by exactly the instructions executed and keeps the counter within 16 bits. |
| `Icount.RunConserves` | qemu-0.15.1/cpus.c:1051-1075 | So does every sequence of them. |
| `Icount.GrantNotNegative` | qemu-0.15.1/qemu-timer.c:788-803 | However late the first timer is, or with none, the budget granted is not negative. |
| `Icount.RoundIsLeast` | qemu-0.15.1/qemu-timer.c:286-289 | Rounding gives the least number of instructions that take at least the time to the deadline. |
| `Icount.GrantIsLeast` | qemu-0.15.1/cpus.c:1057-1063 | A grant is the least number of instructions that covers the time to the first timer, with as much of it in the counter as fits. |
| `Icount.RefillExact` | qemu-0.15.1/cpu-exec.c:586-612 | A refill moves as much budget as fits into the counter and loses none. |
| `Icount.EntersExactly` | qemu-0.15.1/gen-icount.h:8-23 | A block starts exactly when no interrupt is flagged and the counter holds its instructions; with the flag set nothing runs and nothing is refilled. |
| `Icount.TcgCpu.GrantBudget` | qemu-0.15.1/cpus.c:1051-1063 | The fields after a grant for any deadline, which are the least budget that reaches the first timer; the clock is unchanged. |
| `Icount.TcgCpu.CounterExpired` | qemu-0.15.1/cpu-exec.c:586-612 | When the counter expires: refill or leave, exactly as the budget decides, with the clock advanced by the instructions executed. |
| `Icount.TcgCpu.FoldBudgetBack` | qemu-0.15.1/cpus.c:1068-1075 | Unused budget returns to qemu_icount, which then is the clock. |
| `TbCache.Scan` | qemu-0.15.1/cpu-exec.c:101-121 | The result is the first block of the chain that matches the full key, or the chain's length if none does. |
| `TbCache.MoveToFrontPermutes` | qemu-0.15.1/cpu-exec.c:127-132 | Moving a block to the front leaves a permutation of the same blocks. |
| `TbCache.NewBlockMatches` | qemu-0.15.1/exec.c:972-1008 | The block tb_gen_code makes matches the key it was made for, belongs in that key's bucket, and records a second page exactly when its code reaches into it. |
| `TbCache.GenKeeps` | qemu-0.15.1/exec.c:972-1008 | Translating a key that no block matches, with or without a flush, keeps the invariant. |
| `TbCache.SlowKeeps` | qemu-0.15.1/cpu-exec.c:83-136 | tb_find_slow keeps the invariant and returns a block that matches the key and is in its chain. |
| `TbCache.MatchIsUnique` | qemu-0.15.1/cpu-exec.c:101-121 | Under one page mapping at most one block of a chain matches a key. |
| `TbCache.SameScan` | qemu-0.15.1/cpu-exec.c:101-121 | Chains of the same blocks in any order give the same result. |
| `TbCache.HitIsSlowResult` | qemu-0.15.1/cpu-exec.c:138-154 | A hit in the virtual-pc cache is the block that the slow path would return. |
| `TbCache.StepAgrees` | qemu-0.15.1/cpu-exec.c:138-154 | One fast lookup and one slow lookup over the same blocks return the same block and leave the same blocks. |
| `TbCache.FastAgreesWithSlow` | qemu-0.15.1/cpu-exec.c:83-154 | Over every sequence of lookups under one page mapping, through flushes, the fast path returns the blocks that the slow path alone returns. |
| `TbCache.FoundCodeInPlace` | qemu-0.15.1/cpu-exec.c:83-154 | Whichever path finds it, the block is of the key asked for, and every byte of its code lies in the physical page that the block records and the present mapping gives for it. |
| `TbCache.AfterRemap` | qemu-0.15.1/exec.c:2000-2000 | After a change of the page mapping, which clears the virtual-pc cache, the invariant holds for the new mapping if and only if no two blocks of one key fit it. |
| `TbCache.AgreesAfterRemap` | qemu-0.15.1/exec.c:2000-2000 | Then the fast path agrees with the slow path from there on. |
| `TbTable.Relink` | qemu-0.15.1/cpu-exec.c:127-132 | Relinking through the pointer to the block leaves a proper chain of the blocks with the found one in front. |
| `TbTable.TbCaches.Flush` | qemu-0.15.1/exec.c:728-753 | Empties every chain and the virtual-pc cache. |
| `TbTable.TbCaches.LinkPage` | qemu-0.15.1/exec.c:1266-1288 | Puts the new block in front of its chain and leaves every other chain. |
| `TbTable.TbCaches.Translate` | qemu-0.15.1/exec.c:972-1008 | tb_gen_code makes the specified block and table, with a flush first when the buffer is full. |
| `TbTable.TbCaches.Search` | qemu-0.15.1/cpu-exec.c:95-121 | The loop finds what a plain scan finds, and the block before it; it terminates. |
| `TbTable.TbCaches.Place` | qemu-0.15.1/cpu-exec.c:122-132 | Found, translated into an empty chain, or translated in front of others: the relinking leaves the specified chains in each case. |
| `TbTable.TbCaches.LookupSlow` | qemu-0.15.1/cpu-exec.c:83-136 | tb_find_slow on linked blocks computes the specified result and state, with chains acyclic and disjoint. |
| `TbTable.TbCaches.LookupFast` | qemu-0.15.1/cpu-exec.c:138-154 | tb_find_fast does too. |
| `TbTable.TbCaches.LookupAll` | qemu-0.15.1/cpu-exec.c:83-154 | A run of tb_find_fast on linked blocks returns exactly what always taking the slow path returns. |
| `TbTable.TbCaches.constructor` | qemu-0.15.1/exec.c:728-753 | The empty tables satisfy the invariant. |
| `Bitops.Ffsl` | qemu-0.15.1/bitops.h:31-61 | The lowest set bit. |
| `Bitops.Flsl` | qemu-0.15.1/bitops.h:69-99 | The highest set bit. |
| `Bitops.Ffz` | qemu-0.15.1/bitops.h:107-110 | The lowest clear bit. |
| `Bitops.NextBitIsFirst` | qemu-0.15.1/bitops.c:21-113 | The search bit by bit returns the first such bit at or after offset, or size when there is none. |
| `Bitops.NextBitBelowSize` | qemu-0.15.1/bitops.c:21-113 | The bits of the last word beyond size play no part. |
| `Bitops.LastBitIsLast` | qemu-0.15.1/bitops.c:115-142 | The downward search returns the last set bit, or size when there is none. |
| `Bitops.FindNextBit` | qemu-0.15.1/bitops.c:21-64 | Equal to the search bit by bit for every bitmap, size and offset. |
| `Bitops.FindNextZeroBit` | qemu-0.15.1/bitops.c:70-113 | The same for a clear bit. |
| `Bitops.FindLastBit` | qemu-0.15.1/bitops.c:115-142 | Equal to the downward search bit by bit. |
| `Bitmap.WriteRange` | qemu-0.15.1/bitmap.c:160-198 | bitmap_set and bitmap_clear change exactly the bits of the range. |
| `Bitmap.SetThenClear` | qemu-0.15.1/bitmap.c:160-198 | Clearing a range that was set restores the bitmap if and only if the range was clear before. |
| `Bitmap.AlignUpIsNext` | qemu-0.15.1/bitmap.c:200-225 | Rounding up gives the least multiple of the alignment that is not smaller. |
| `Bitmap.AlignMaskIsAlignUp` | qemu-0.15.1/bitmap.c:200-200 | The macro's masking, on words, is rounding up, for the mask of every power of two and a sum that does not wrap around. |
| `Bitmap.AreaAfter` | qemu-0.15.1/bitmap.c:231-235 | No run that starts at index or later contains the set bit found, so all start after it. |
| `Bitmap.AreaNotBefore` | qemu-0.15.1/bitmap.c:222-225 | No run starts before the next clear bit rounded up. |
| `Bitmap.FindNextZeroArea` | qemu-0.15.1/bitmap.c:214-237 | Returns the leftmost aligned run of nr clear bits at or after start, and a number above size if and only if there is none; the loop terminates. |
| `BufferedFile.QemuFileBuffered.Append` | qemu-0.15.1/buffered_file.c:48-70 | Appends the data; the buffer grows, by the data and 1024 bytes, exactly when the data do not fit. |
| `BufferedFile.QemuFileBuffered.Flush` | qemu-0.15.1/buffered_file.c:72-107 | Delivered bytes followed by buffered bytes stay the same for every partial count and -EAGAIN; without error or freeze the buffer is empty; a freeze and an error come only from the backend's last answer. |
| `BufferedFile.QemuFileBuffered.PutDirectly` | qemu-0.15.1/buffered_file.c:127-150 | Delivers a prefix of the data; less than all of it only on error, freeze or rate limit, each of which has its cause in the backend's last answer or the bytes sent; past the limit it offers nothing. |
| `BufferedFile.QemuFileBuffered.PutBuffer` | qemu-0.15.1/buffered_file.c:109-167 | Accepts all the data, delivering or buffering every byte, or fails with -EINVAL; a backend that takes everything gets everything while the rate limit allows it; the output freezes only when the backend's last answer was -EAGAIN, and an error is set only when one of its answers was. |
| `BufferedFile.QemuFileBuffered.Close` | qemu-0.15.1/buffered_file.c:169-190 | An error-free close has delivered everything that was put; an error comes from the backend. |
| `BufferedFile.QemuFileBuffered.RateTick` | qemu-0.15.1/buffered_file.c:231-251 | A tick starts a new interval and empties the buffer unless the output freezes or fails; a frozen file stays as it is. |
| `BufferedFile.Run` | qemu-0.15.1/buffered_file.c:48-251 | For every sequence of writes and ticks and every backend, without error: delivered bytes followed by the buffer are everything put, and all of it is delivered after a tick that does not freeze and after a close; an error comes from the backend. |

## Left out

- MultiwriteMerge.MeaningPreservedExactly: assumes that the driver asks for no merge across a gap, which no driver of this version does, and that IOV_MAX is not reached, because beyond it a lost byte may still be written by an earlier request that was kept apart, and whether the meaning survives then depends on the data; AgreeUnlessLost and MergePreservesMeaning hold beyond it.
- MultiwriteMerge.LostIsUncovered: assumes the same, for the same reasons.
- MultiwriteMerge.CutOffMeans: assumes the same; otherwise requests that touch may stay apart, and others be merged.
- BlockMigration.MigrationIsExact: assumes that no latest read of a chunk overtakes an earlier one; without that the exact condition is the one of FinishedExactly.
- BlockSave.BlockSaver.SaveDeviceBulk: shared base images and failing submissions are not modelled.
- BlockSave.BlockSaver.SaveDeviceDirty: failing submissions and reads are not modelled.
- BlockSave.BlockSaver.SaveDirtyBlock: the same.
- BlockSave.BlockSaver.ReadCb: a read error is not modelled; the bandwidth figures are not kept.
- BlockSave.BlockSaver.FlushBlks: a block with a read error is not modelled.
- BlockSave.BlockSaver.Stage2: file errors and the cleanup they cause are not modelled.
- BlockSave.LoadStream: record headers, the lookup of the device by name and write errors are not modelled.
- TbCache.FastAgreesWithSlow: one page mapping throughout; AgreesAfterRemap continues it over a change of mapping, for tables in which no two blocks of one key fit the new mapping.
- TbTable.TbCaches.Translate: block slots are not reused after a flush; the model makes a new object.
- Bitmap.FindNextZeroArea: sums do not wrap around.
- AesCbc.CbcEncrypt: `ivec` is a buffer of its own, and `in` and `out` are the same buffer or separate ones, not overlapping at an offset.
- AesCbc.CbcDecrypt: the same.
- AesCbc.EncryptNext: the same.
- AesCbc.DecryptNext: the same.
- RamLoad.RamLoader.SynchronizeSizes: a stream that ends within the list gives -EIO; the code reads zeros, or what its buffer held, past the end and can return -EINVAL.
- RamLoad.RamLoader.Load: stream version 3 is not modelled, a stream that ends within a record gives -EIO as above, and a PAGE record whose block is not found, or an offset outside its block, is an error instead of a write through that address; the page size is fixed at 4096.
- RamMigration.SaveLive: stage -1, the failure of the dirty-bitmap synchronisation, bandwidth estimates and the return value are not modelled.
- BlockBytes.BlockDevice.CheckRequest: growable devices are not modelled.
- VcpuPause.VcpuFlags.HandleEvents: the work items queued by `run_on_cpu` are not run.
- BufferedFile.QemuFileBuffered.PutBuffer: the notification of the writer is not modelled.
- BufferedFile.QemuFileBuffered.Close: waiting for the output to unfreeze is a further call of the backend, and closing the backend is not modelled.
- BufferedFile.QemuFileBuffered.RateTick: the timer and the notification of the writer are not modelled.
- AES: of the tables Te0 to Te4 and Td0 to Td4 only the first entries are compared with the formulas of the comment that defines them; the model uses the formulas. Of the worked examples of FIPS 197 single rounds and words are taken, not the whole runs. The unrolled variant under FULL_UNROLL is not modelled.
- RAM migration: `sort_ram_list` and the `madvise` of zero pages.
- Block migration: progress records, device names, cancellation, and the unit of the rate limit. A guest write may complete before all of its sectors have reached the disk.
- Dirty tracking: the bitmap is a sequence of bits; its packing into words is not modelled. Writes that complete asynchronously mark the bitmap when they complete.
- Multiwrite: the sort itself is a precondition of the merge; `flush` and the memory that callbacks free are not modelled.
- Byte access: negative counts, the dirty bitmap and `wr_highest_sector`; `bdrv_pwrite_sync`.
- Commit: re-opening a read-only backing file and its failures, and the flushes.
- Virtual CPUs: signal masks, and the variant without an I/O thread; a signal is a flag of the thread that keeps it out of guest code until it is taken.
- Instruction budget: 64-bit overflow of the rounded deadline, the warp of the clock while all CPUs are idle, and the conversion to nanoseconds.
- Translation-block cache: invalidation of single blocks, the lists of blocks per page, direct jumps between blocks, and exceptions raised while a page is looked up.
- Bitmaps: the single-bit helpers, the logical operations on whole bitmaps, and words that are not of 64 bits.
- Buffered file: the rate-limit getters and setters.
- Device models, the code generator and its targets, the monitor, and the image formats.
