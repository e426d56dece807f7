# Verified models of the web application's algorithmic core

The repository is a web application whose own code is mostly plumbing around a few pieces of real algorithm: the
CryptoJS bundle, jQuery's Deferred, the EasyUI module loader, data grid, calendar and parser, and one Java class that
writes itself to a buffer. This project models those pieces and proves what they are for.

**CryptoJS.** JavaScript Numbers are mathematical integers with explicit cuts to 32 bits (`JsNumbers`) and an exactness
bound of 2^53; words are 32-bit patterns. `WordArrays` models the byte arrays with whatever junk lies past their
significant bytes, missing slots reading as 0. `Streaming` is the buffering template shared by hashes and ciphers, with
a ghost history of every byte given; its results hold for any step function. On top of it stand

- `BlockModes`, `Padding`, `Ciphers`: the block modes on carried state, PKCS #7, and the round trip for any cipher,
  any message and any chunking; `ModeTexts`: what the modes are on whole texts, block against block; `Keystreams`,
  `RC4`, `Rabbit`, `RabbitStandard`: ciphers that XOR a keystream;
- `DES`, `AES`, `AESTables`, `AESStandard`: the two block ciphers, in place on arrays, against their standards, each
  with its inverse, and the walk through GF(2^8) that fills the tables of AES;
- `HashWords`, `MD5`, `SHA1`, `SHA256`, `SHA512`: the block functions on Numbers that are never, or only sometimes, cut
  to 32 bits, against the words of the standards; `HashStandards`: those against tables that meet the standards'
  recurrences; `Hashing`, `HashFunctions`: padding and the streaming digest; `WordNumbers`: words in arithmetic;
- `HMAC`, `PBKDF2`, `Base64`.

**The rest.** `Deferred` models callback lists and the Deferred as a machine whose steps are the calls user code can
make, also from inside a callback; the theorems are about all runs. `EasyLoader` is a machine over browser events in
which any number of `load` calls interleave, with what every run keeps and how every call ends. `DataGridSelection`
and `DataGridChanges` are the grid's selection lists and its change tracking, `ForEach` the worklist walk of the
parser, `Calendar` the month grid and the week number on proleptic Gregorian dates, and `Transport` the transport
configuration with its buffer, its equality and its equivalence of connectors.

What the source does step by step in place is a class or a method here, proved against a function that states the
result; the theorems are lemmas about those functions or contracts of those methods. Each such function is also tied to
what it means by a statement that does without it: slices of input and output, values and digits of numbers, or any
table that meets the recurrence of a standard.

## What the code does otherwise than one might expect

Each of these is proved, with the exact condition under which the code does what its purpose asks, or with a concrete
input that shows it does not:

- Appending word by word keeps junk that follows the other array's last byte in its word: exactly when
  `WordArrays.WordArray.Concat` says, for instance the array of `WordArrays.JunkSurvives`.
- The padding of a hash is right exactly when the last piece of the message ends without junk in its word or does not
  start at a word of the message (`Hashing.Hasher.Finalize`, on the buffer `Hashing.PaddingExact`), because finalizing
  `or`s the 0x80 marker in without clamping (`HashFunctions.DigestSpoiled` is a message it goes wrong for); and the
  marker goes to the right word exactly below 2^29 buffered bytes (`Hashing.IndicesRight`).
- The same holds of the inner hash of an HMAC (`HMAC.HmacHasher.Finalize`) and of a key or password longer than a block
  (`HMAC.HmacHasher.constructor`, `PBKDF2.Compute`).
- CTR with an IV shorter than a block encrypts the second block under the keystream of the first
  (`Keystreams.CtrRepeatsExactly`, which says when any two blocks share it).
- Every Rabbit setup reverses the bytes of the caller's key in place, so `reset` starts over from other values than
  the first setup unless each key word reads the same both ways (`Rabbit.ResetRepeats`, `Rabbit.ResetDiffers`).
- RC4 with an empty key is RC4 with the low byte of the first key word as its key (`RC4.EmptyKey`).
- Decrypting whole blocks leaves a negative number of significant bytes exactly when the last decrypted byte is greater
  than what is left to hand out (`Ciphers.NegativeExactly`); any block ending in 0xff and encrypted without padding
  does it (`Ciphers.OneBlockUnpadded`).
- A `load` call gives up exactly when it looks at its queue with its time over and the first module it misses has been
  requested by another call, which then still waits for the script (`EasyLoader.GivesUpExactly`, over runs
  `EasyLoader.HasGivenUpExactly`; `EasyLoader.SecondGivesUp` is such a run for every timeout).
- Grid rows without an id can be listed as selected more than once (`DataGridSelection.StaysDistinct`).
- The calendar's grid is not a run of consecutive days in the years 0 to 99 and in two more families of months
  (`Calendar.GridRightExactly`).
- A transport configuration with a null parameter does not equal itself (`Transport.EqualsLaws`), and equivalence of
  connectors fails to carry over exactly through names that hold both transport words (`Transport.ThroughExactly`;
  `Transport.HasBothWords` names one).

## Model

| member | source | states |
|---|---|---|
| `JsNumbers.NumBits` | myframework2/WebContent/js/crypto/crypto-js.js:3028 | `x >>> 0` of any Number, however large or negative, is `x` modulo 2^32 |
| `JsNumbers.BitsSigned` | myframework2/WebContent/js/crypto/crypto-js.js:1327 | `x or 0` (ToInt32) keeps the 32 bits and lies between -2^31 and 2^31 |
| `JsNumbers.BitsAdd` | myframework2/WebContent/js/crypto/crypto-js.js:1321-1331 | a sum of Numbers may be cut to 32 bits before or after it is taken: additions without a cut stay congruent |
| `JsNumbers.BitsMod` | myframework2/WebContent/js/crypto/crypto-js.js:3028-3032 | two Numbers have the same 32 bits exactly when they agree modulo 2^32 |
| `JsNumbers.SameBits` | myframework2/WebContent/js/crypto/crypto-js.js:1312 | a Number has the bits of a word exactly when it is congruent to the word's value modulo 2^32 |
| `WordArrays.WordArray.Clamp` | myframework2/WebContent/js/crypto/core.js:247-255 | the significant bytes stay, every bit past them becomes 0 and the array gets exactly the words those bytes need |
| `WordArrays.ClampedBytes` | myframework2/WebContent/js/crypto/core.js:247-255 | for every length, also multiples of 4 where the mask is a shift by 32: no bit survives past the significant bytes and none before is touched |
| `WordArrays.WordArray.Concat` | myframework2/WebContent/js/crypto/core.js:211-238 | appends exactly the other array's significant bytes, whatever junk either array holds past its end and also when an array is appended to itself; the result is free of junk exactly when the bytes were copied one by one or no junk follows the other's last byte in its word |
| `WordArrays.WordArray.ConcatBytes` | myframework2/WebContent/js/crypto/core.js:222-227 | the byte-wise path: `or`-ing single bytes into clamped words appends them exactly and leaves no junk |
| `WordArrays.WordArray.ConcatWords` | myframework2/WebContent/js/crypto/core.js:228-233 | the word-wise path appends the same bytes; what follows them is what follows the other's last byte in its word |
| `WordArrays.TidyWhen` | myframework2/WebContent/js/crypto/core.js:222-233 | whenever the end of an array was copied from another one, it is free of junk exactly when it was copied byte by byte or the other ended without junk |
| `WordArrays.JunkSurvives` | myframework2/WebContent/js/crypto/core.js:228-233 | a word with a bit set past its one significant byte, appended to an empty array, leaves junk there |
| `WordArrays.OrAtByte` | myframework2/WebContent/js/crypto/core.js:226 | an `or` of a shifted byte changes one byte of the array and no other |
| `WordArrays.SwapsBytes` | myframework2/WebContent/js/crypto/crypto-js.js:881-884 | the shift-and-mask expression reverses the bytes of a word |
| `Streaming.BufferedBlock.Reset` | myframework2/WebContent/js/crypto/crypto-js.js:497-501 | an empty history, buffer and output, and the initial state |
| `Streaming.BufferedBlock.Append` | myframework2/WebContent/js/crypto/crypto-js.js:513-522 | the buffered bytes and the history of all bytes given grow by exactly the new bytes; state and processed bytes stay; the buffer is free of junk exactly when it did not end in a whole word before or the new piece ends without junk |
| `Streaming.BufferedBlock.Process` | myframework2/WebContent/js/crypto/crypto-js.js:538-577 | the ready blocks go through the step function as the reference run of the words does, are handed back in place of the bytes taken off the front, and the history stays consistent; with a flush nothing is left |
| `Streaming.BufferedBlock.ProcessBlocks` | myframework2/WebContent/js/crypto/crypto-js.js:563-569 | the block loop replaces the first words by the reference run over them, also where it reads past the end of the array, and leaves the rest alone |
| `Streaming.BufferedBlock.Splice` | myframework2/WebContent/js/crypto/crypto-js.js:563-576 | processed words are taken off the buffer together with their bytes; the bytes that stay are the tail of those that were there |
| `Streaming.BufferedBlock.Flush` | myframework2/WebContent/js/crypto/crypto-js.js:538-577 | from the first byte on: everything handed back before and now is the reference run over all bytes given |
| `Streaming.BufferedBlock.KeepsLastBlock` | myframework2/WebContent/js/crypto/crypto-js.js:552-561 | with a minimum buffer of a block a call never takes the last whole block, for every buffer size |
| `Streaming.BufferedBlock.ReadyWords` | myframework2/WebContent/js/crypto/crypto-js.js:546-561 | the words taken are whole blocks, cover the buffer on a flush, and cover it exactly when it is a whole number of blocks |
| `Streaming.RunConcat` | myframework2/WebContent/js/crypto/crypto-js.js:538-577 | interrupting the block loop at any block boundary changes neither the final state nor the output |
| `Streaming.NextBlock` | myframework2/WebContent/js/crypto/crypto-js.js:563-569 | one block more goes through the step from the state the blocks before it leave, and its output follows theirs |
| `Streaming.OutputAt` | myframework2/WebContent/js/crypto/crypto-js.js:563-569 | so the block of the output at any boundary is what the step makes of the block there |
| `Streaming.FlushTotal` | myframework2/WebContent/js/crypto/crypto-js.js:538-577 | the bytes of the last, partial block come out right whatever completes its words |
| `BlockModes.BlockCipherMode.TakeMixer` | myframework2/WebContent/js/crypto/crypto-js.js:3574-3586 | the IV is mixed in once and then dropped, the carried block from then on |
| `BlockModes.BlockCipherMode.EncryptCbc` | myframework2/WebContent/js/crypto/crypto-js.js:3529-3540 | CBC encryption of one block in place (section 6.2 of NIST SP 800-38A); no other word changes |
| `BlockModes.BlockCipherMode.DecryptCbc` | myframework2/WebContent/js/crypto/crypto-js.js:3557-3571 | CBC decryption of one block in place; the ciphertext block is remembered although it is overwritten |
| `BlockModes.BlockCipherMode.EncryptCfb` | myframework2/WebContent/js/crypto/crypto-js.js:4102-4113 | CFB encryption of one block in place (section 6.3 of NIST SP 800-38A) |
| `BlockModes.BlockCipherMode.DecryptCfb` | myframework2/WebContent/js/crypto/crypto-js.js:4115-4129 | CFB decryption of one block in place, with the forward cipher |
| `BlockModes.BlockCipherMode.ProcessOfb` | myframework2/WebContent/js/crypto/crypto-js.js:4263-4287 | one OFB step in place: the keystream block is the encrypted previous one |
| `BlockModes.BlockCipherMode.ProcessCtr` | myframework2/WebContent/js/crypto/crypto-js.js:5713-5741 | one CTR step in place: the counter block, filled up with zeros, is encrypted, and its last word goes up by one, wrapping at 2^32; in a counter too short to have that word it becomes 0 |
| `BlockModes.ModeUndoes` | myframework2/WebContent/js/crypto/crypto-js.js:3518-3592 | in CBC, CFB, OFB, CTR and ECB the decryptor undoes the encryptor block by block and both carry the same state on |
| `BlockModes.RunUndoes` | myframework2/WebContent/js/crypto/crypto-js.js:3518-3592 | hence it undoes it over any number of blocks |
| `ModeTexts.CbcText` | myframework2/WebContent/js/crypto/crypto-js.js:3529-3571 | section 6.2 of NIST SP 800-38A on slices of whole texts: ciphertext block i is the encryption of plaintext block i plus ciphertext block i - 1, the IV filled up with zeros before the first; decrypted block i is the decryption of block i plus block i - 1 |
| `ModeTexts.CfbText` | myframework2/WebContent/js/crypto/crypto-js.js:4102-4129 | section 6.3: block i of the ciphertext, and of what is decrypted, is block i plus the encrypted ciphertext block i - 1 or IV |
| `ModeTexts.OfbText` | myframework2/WebContent/js/crypto/crypto-js.js:4263-4287 | section 6.4: what text and ciphertext differ by is, block by block, the encryption of the block in front, the IV at first; both directions are the same |
| `ModeTexts.CtrText` | myframework2/WebContent/js/crypto/crypto-js.js:5713-5741 | section 6.5: block n of that difference is the encrypted IV with n added to its last word modulo 2^32; for an IV shorter than a block, n - 1 in place of the missing word and 0 in the first block; both directions are the same |
| `ModeTexts.EcbText` | myframework2/WebContent/js/crypto/crypto-js.js:4159-4175 | section 6.1: every block by itself |
| `ModeTexts.CipherTextIs` | myframework2/WebContent/js/crypto/crypto-js.js:3697-3721 | the ciphertext that any cut of a message into calls gives is, in words, the text of its mode over message and padding |
| `Padding.Pad` | myframework2/WebContent/js/crypto/crypto-js.js:3618-3637 | appends the padding of section 6.3 of RFC 5652: `k` bytes of value `k`, up to the next block boundary and at least one |
| `Padding.PaddingIs` | myframework2/WebContent/js/crypto/crypto-js.js:3618-3637 | between one byte and a block of padding, up to a multiple of the block size, every byte of it the number of them |
| `Padding.UnpadUndoesPad` | myframework2/WebContent/js/crypto/crypto-js.js:3650-3656 | on the tail of a padded message of at least one block, `unpad` removes exactly the padding |
| `Padding.UnpadReadsLast` | myframework2/WebContent/js/crypto/crypto-js.js:3650-3656 | the byte that `unpad` reads is the last one |
| `Padding.UnpadIsLast` | myframework2/WebContent/js/crypto/crypto-js.js:3650-3656 | on a whole number of words `unpad` removes as many bytes as the last one says, whatever it says |
| `Ciphers.Cipher.constructor` | myframework2/WebContent/js/crypto/crypto-js.js:3316-3326 | an empty cipher, with the padding and the buffer its direction asks for |
| `Ciphers.Cipher.Process` | myframework2/WebContent/js/crypto/crypto-js.js:3355-3361 | every output goes on from the outputs before it; the history of bytes given grows by the update |
| `Ciphers.Cipher.PadBuffer` | myframework2/WebContent/js/crypto/crypto-js.js:3706-3708 | padding put straight into the buffer completes the message as padding the whole message would |
| `Ciphers.Cipher.Finalize` | myframework2/WebContent/js/crypto/crypto-js.js:3377-3387 | all outputs together are the reference run over the message, padded when encrypting; when unpadding, a whole block (or all that was given) is still in hand |
| `Ciphers.RoundTrip` | myframework2/WebContent/js/crypto/crypto-js.js:3676-3721 | for any block cipher whose decryption inverts its encryption, any mode and IV, any message and any cut of plaintext and of ciphertext into `process` calls, junk past their ends included: the decryptor's outputs concatenate to the message |
| `Ciphers.EncryptChunks` | myframework2/WebContent/js/crypto/crypto-js.js:3697-3721 | the ciphertext does not depend on how the message was cut up |
| `Ciphers.DecryptChunks` | myframework2/WebContent/js/crypto/crypto-js.js:3697-3721 | decrypting the ciphertext of a message, cut up in any way, gives the message |
| `Ciphers.CipherTextUndone` | myframework2/WebContent/js/crypto/crypto-js.js:3518-3592 | decrypting the words of the ciphertext in one piece gives the padded message |
| `Ciphers.NegativeExactly` | myframework2/WebContent/js/crypto/crypto-js.js:3650-3656 | decrypting whole blocks with Pkcs7, in any pieces, leaves a negative `sigBytes` exactly when the last decrypted byte is greater than the number of bytes still to be handed out, which is at least a block |
| `Ciphers.OneBlockUnpadded` | myframework2/WebContent/js/crypto/crypto-js.js:3703-3721 | a block encrypted without padding and decrypted with it: in every mode and under every cipher, one that ends in 0xff leaves fewer than no bytes |
| `Keystreams.StreamChunks` | myframework2/WebContent/js/crypto/crypto-js.js:3438-3447 | a keystream cipher without padding, fed any chunks, XORs byte i of the message with byte i of the keystream and keeps the length, partial words included |
| `Keystreams.StreamRoundTrip` | myframework2/WebContent/js/crypto/crypto-js.js:3438-3447 | running the cipher again from the same start undoes it, for any chunking on either side |
| `Keystreams.StreamTwice` | myframework2/WebContent/js/crypto/crypto-js.js:3438-3447 | the XOR with one keystream undoes itself byte by byte |
| `Keystreams.RunXor` | myframework2/WebContent/js/crypto/crypto-js.js:4280-4283 | running the step block by block is one long XOR with the keystream |
| `Keystreams.FeedbackModesAreKeystreams` | myframework2/WebContent/js/crypto/crypto-js.js:4263-4287 | OFB and CTR are keystream ciphers over the forward cipher alone, in both directions |
| `Keystreams.CtrRepeatsExactly` | myframework2/WebContent/js/crypto/crypto-js.js:5713-5741 | under any cipher with an inverse, two blocks of a CTR keystream are the same exactly when the counter has gone up by a multiple of 2^32 in between; with an IV shorter than a block the first step does not count, so the second block repeats the first |
| `Keystreams.CountsUp` | myframework2/WebContent/js/crypto/crypto-js.js:5718-5732 | the counter of every block, for IVs of any length |
| `Keystreams.KeyBlockIs` | myframework2/WebContent/js/crypto/crypto-js.js:5728-5737 | the blocks that result compares are the slices of the keystream |
| `RC4.Cipher4.constructor` | myframework2/WebContent/js/crypto/crypto-js.js:5325-5352 | the key setup leaves S a permutation of 0..255, mixed by the key's bytes over and over, and both counters 0 |
| `RC4.Mixed` | myframework2/WebContent/js/crypto/crypto-js.js:5335-5348 | S is a permutation after every exchange of the key setup and j stays below 256, for every key |
| `RC4.SameStart` | myframework2/WebContent/js/crypto/crypto-js.js:5335-5348 | a key repeated is the same key, and bytes past the first 256 do not matter |
| `RC4.EmptyKey` | myframework2/WebContent/js/crypto/crypto-js.js:5335-5348 | an empty key is the key of one byte that is the low byte of its first word |
| `RC4.Cipher4.Turn` | myframework2/WebContent/js/crypto/crypto-js.js:5372-5381 | one keystream byte; S stays a permutation and i, j stay in range |
| `RC4.Cipher4.GenerateKeystreamWord` | myframework2/WebContent/js/crypto/crypto-js.js:5363-5388 | four keystream bytes, the first one most significant, and the state after them |
| `RC4.NextByte` | myframework2/WebContent/js/crypto/crypto-js.js:5372-5381 | from any state with S a permutation the next state has one too, and the byte drawn is below 256 |
| `RC4.Rc4Text` | myframework2/WebContent/js/crypto/crypto-js.js:5354-5388 | byte i of the output is byte i of the message XOR the i-th byte drawn from S |
| `RC4.Rc4Fills` | myframework2/WebContent/js/crypto/crypto-js.js:5354-5388 | RC4 is a keystream cipher on one-word blocks, so the chunking and round-trip results hold for it |
| `RC4.SwapKeeps` | myframework2/WebContent/js/crypto/crypto-js.js:5376-5379 | the exchange of two entries keeps S a permutation |
| `RC4.MixedStart` | myframework2/WebContent/js/crypto/crypto-js.js:5335-5338 | the key setup starts from S[k] = k and j = 0 |
| `RC4.MixedOn` | myframework2/WebContent/js/crypto/crypto-js.js:5340-5348 | turn i adds S[i] and key byte i modulo the key length to j, modulo 256, exchanges S[i] and S[j] and leaves the other entries |
| `DES.DesCipher.DoCryptBlock` | myframework2/WebContent/js/crypto/crypto-js.js:5193-5236 | the block in place: initial exchanges, rounds, swap and final exchanges; no other word changes |
| `DES.DesCipher.constructor` | myframework2/WebContent/js/crypto/crypto-js.js:5178-5183 | the inverse subkeys are the subkeys reversed |
| `DES.DesCipher.EncryptBlock` | myframework2/WebContent/js/crypto/crypto-js.js:5185-5187 | the block in place under the subkeys |
| `DES.DesCipher.DecryptBlock` | myframework2/WebContent/js/crypto/crypto-js.js:5189-5191 | the block in place under the reversed subkeys, which undoes `encryptBlock` |
| `DES.TripleDesCipher.constructor` | myframework2/WebContent/js/crypto/crypto-js.js:5272-5281 | three single ciphers under the three keys |
| `DES.TripleDesCipher.EncryptBlock` | myframework2/WebContent/js/crypto/crypto-js.js:5283-5287 | encrypt, decrypt, encrypt, in place on one block; no other word changes |
| `DES.TripleDesCipher.DecryptBlock` | myframework2/WebContent/js/crypto/crypto-js.js:5289-5293 | the reverse, in place |
| `DES.ExchangeIsSwap` | myframework2/WebContent/js/crypto/crypto-js.js:5246-5256 | each exchange swaps bit p + offset of one word with bit p of the other, for every p in the mask |
| `DES.ExchangeTwice` | myframework2/WebContent/js/crypto/crypto-js.js:5246-5256 | each of the five exchanges undoes itself |
| `DES.PermutationsCancel` | myframework2/WebContent/js/crypto/crypto-js.js:5198-5231 | the final sequence of exchanges reverses the initial one, both ways |
| `DES.RoundsUndone` | myframework2/WebContent/js/crypto/crypto-js.js:5205-5224 | any number of Feistel rounds with the subkeys reversed cancel, for every table |
| `DES.CryptUndone` | myframework2/WebContent/js/crypto/crypto-js.js:5193-5236 | crypting with reversed subkeys undoes crypting, both ways, for every table, block and subkeys |
| `DES.BlockUndone` | myframework2/WebContent/js/crypto/crypto-js.js:5185-5236 | `decryptBlock` undoes `encryptBlock` and the other way round |
| `DES.TripleUndone` | myframework2/WebContent/js/crypto/crypto-js.js:5283-5293 | TripleDES: decrypt-encrypt-decrypt undoes encrypt-decrypt-encrypt under any three keys (section 3 of NIST SP 800-67) |
| `DES.TripleDegenerates` | myframework2/WebContent/js/crypto/crypto-js.js:5283-5287 | with the first two keys equal TripleDES is single DES under the third |
| `DES.DesInverse` | myframework2/WebContent/js/crypto/crypto-js.js:5185-5191 | DES is a cipher the block modes' round trip applies to |
| `DES.TripleInverse` | myframework2/WebContent/js/crypto/crypto-js.js:5283-5293 | so is TripleDES |
| `DES.InverseSubKeys` | myframework2/WebContent/js/crypto/crypto-js.js:5179-5182 | the inverse subkeys are the subkeys reversed |
| `DES.InitialPermutationIsStandard` | myframework2/WebContent/js/crypto/crypto-js.js:5198-5203 | the five exchanges are table IP of the standard, bit by bit |
| `DES.MasksAreE` | myframework2/WebContent/js/crypto/crypto-js.js:5129-5132 | the eight masks select exactly the bits table E of the standard names for each S-box |
| `DES.CryptIs` | myframework2/WebContent/js/crypto/crypto-js.js:5193-5236 | between initial and final permutation the halves meet the Feistel recurrence: L becomes R, and R becomes L plus the look-ups of R and the subkey; the last exchange is undone |
| `DES.EncryptedIs` | myframework2/WebContent/js/crypto/crypto-js.js:5185-5236 | the same of a block of two words, the first one the left half |
| `DES.RoundsAre` | myframework2/WebContent/js/crypto/crypto-js.js:5205-5224 | the rounds alone |
| `DES.LookUpsAre` | myframework2/WebContent/js/crypto/crypto-js.js:5211-5216 | the value of a round combines, for each of the eight S-boxes, its entry for the masked sum of half and subkey |
| `DES.TripleIs` | myframework2/WebContent/js/crypto/crypto-js.js:5283-5287 | TripleDES by encryptions alone: the block under the first key, taken back under the second, is encrypted under the third |
| `AES.Aes.constructor` | myframework2/WebContent/js/crypto/crypto-js.js:4430-4486 | for 4-, 6- and 8-word keys the schedule is the KeyExpansion of section 5.2 of FIPS 197, with 10, 12 or 14 rounds |
| `AES.Aes.EncryptBlock` | myframework2/WebContent/js/crypto/crypto-js.js:4488-4490 | the table-driven routine is the Cipher of section 5.1 of FIPS 197 on the block at `offset`; no other word changes |
| `AES.Aes.DecryptBlock` | myframework2/WebContent/js/crypto/crypto-js.js:4492-4504 | the forward routine on exchanged columns with the inverse schedule is the InvCipher of section 5.3 of FIPS 197 |
| `AES.DoCryptBlock` | myframework2/WebContent/js/crypto/crypto-js.js:4506-4545 | look-ups, shifts and XORs are substitute, shift rows, mix columns and add round key for every number of rounds and either direction |
| `AES.CryptWords` | myframework2/WebContent/js/crypto/crypto-js.js:4510-4538 | the same on the four words of a block |
| `AES.MixedCol` | myframework2/WebContent/js/crypto/crypto-js.js:4522-4525 | four look-ups in the rotated tables substitute and mix one column |
| `AES.TableCols` | myframework2/WebContent/js/crypto/crypto-js.js:4395-4411 | the byte layout of the eight tables: multiples by 1, 2, 3 and by 9, 11, 13, 14 in GF(2^8) |
| `AES.CipherUndone` | myframework2/WebContent/js/crypto/crypto-js.js:4488-4545 | InvCipher undoes Cipher for all round keys, all blocks and any pair of inverse boxes |
| `AES.BackwardIsInvCipher` | myframework2/WebContent/js/crypto/crypto-js.js:4492-4504 | the equivalent inverse cipher: exchanged columns and the reordered, unmixed key schedule (section 5.3.5 of FIPS 197) |
| `AES.MixUndone` | myframework2/WebContent/js/crypto/crypto-js.js:4404-4411 | InvMixColumns undoes MixColumns |
| `AES.InvMixAdds` | myframework2/WebContent/js/crypto/crypto-js.js:4482-4483 | InvMixColumns distributes over the addition of a round key |
| `AES.ExpandKey` | myframework2/WebContent/js/crypto/crypto-js.js:4442-4466 | every word of the schedule is the one of section 5.2 of FIPS 197 |
| `AES.InvertSchedule` | myframework2/WebContent/js/crypto/crypto-js.js:4468-4485 | the inverse schedule: round keys backward, columns 1 and 3 exchanged, all but the outer two through InvMixColumns |
| `AES.RconTable` | myframework2/WebContent/js/crypto/crypto-js.js:4424 | the table of round constants is the powers of x in GF(2^8) |
| `AES.AesInverse` | myframework2/WebContent/js/crypto/crypto-js.js:4488-4504 | AES is a cipher the block modes' round trip applies to |
| `AESStandard.CipherIs` | myframework2/WebContent/js/crypto/crypto-js.js:4506-4545 | the output is the last of any states whose sixteen cells each meet sections 5.1.1 to 5.1.4 of FIPS 197: the matrix product of the substituted and shifted cells of the state before, plus the key, without the matrix at the end |
| `AESStandard.RoundCell` | myframework2/WebContent/js/crypto/crypto-js.js:4522-4525 | one cell after one full round |
| `AESStandard.MixedCell` | myframework2/WebContent/js/crypto/crypto-js.js:4522-4525 | mixing a column is the product with the matrix of rows 2 3 1 1, 1 2 3 1, 1 1 2 3 and 3 1 1 2 in GF(2^8) |
| `AESStandard.SubstitutedCell` | myframework2/WebContent/js/crypto/crypto-js.js:4522-4525 | row r of the substituted bytes moves r columns to the left |
| `AESStandard.WordCells` | myframework2/WebContent/js/crypto/crypto-js.js:4510-4513 | blocks and round keys are columns of words, the most significant byte in row 0 |
| `AESStandard.ScheduleIs` | myframework2/WebContent/js/crypto/crypto-js.js:4442-4466 | the schedule is any table that meets section 5.2 of FIPS 197 byte by byte, with the rotation, the substitution and the power of x |
| `AESStandard.SmallProducts` | myframework2/WebContent/js/crypto/crypto-js.js:4400-4401 | doubling and tripling are the products with x and x + 1 in GF(2^8) |
| `AESTables.Tables.Fill` | myframework2/WebContent/js/crypto/crypto-js.js:4387-4420 | the walk fills all ten tables: the S-box of section 5.1.1 of FIPS 197, its inverse box, and the eight mixing tables made of the two, each with an entry for every byte |
| `AESTables.Tables.Enter` | myframework2/WebContent/js/crypto/crypto-js.js:4388-4411 | one turn enters a byte and its substitute in every table and leaves the entries of all other bytes |
| `AESTables.Reciprocals` | myframework2/WebContent/js/crypto/crypto-js.js:4413-4419 | `xi` is the reciprocal of `x` in GF(2^8) in every turn, and the only one |
| `AESTables.WalkDistinct` | myframework2/WebContent/js/crypto/crypto-js.js:4413-4419 | neither `x` nor `xi` takes a value twice in 256 turns |
| `AESTables.PowersOfFive` | myframework2/WebContent/js/crypto/crypto-js.js:4418 | multiplying by 5 comes back to 1 after 255 turns and not before |
| `AESTables.AllBytes` | myframework2/WebContent/js/crypto/crypto-js.js:4387-4420 | hence every byte is met |
| `AESTables.ProductBack` | myframework2/WebContent/js/crypto/crypto-js.js:4417 | the step of `x` is a multiplication in GF(2^8) |
| `AESTables.AffineIsStandard` | myframework2/WebContent/js/crypto/crypto-js.js:4389-4390 | the shifted sum, folded and mixed with 0x63, is the affine map of section 5.1.1 of FIPS 197, bit by bit |
| `AESTables.SpreadingDistinct` | myframework2/WebContent/js/crypto/crypto-js.js:4389-4390 | and gives different bytes different values |
| `AESTables.OneSubstitute` | myframework2/WebContent/js/crypto/crypto-js.js:4388-4391 | the value FIPS 197 gives a byte is unique |
| `AESTables.Create` | myframework2/WebContent/js/crypto/crypto-js.js:4373-4486 | AES on these tables is the AES of FIPS 197, with its own S-box and no assumption on it |
| `Base64.Stringify` | myframework2/WebContent/js/crypto/crypto-js.js:764-796 | writes the text of section 4 of RFC 4648 for the significant bytes; the array keeps them |
| `Base64.Parse` | myframework2/WebContent/js/crypto/crypto-js.js:811-838 | reads letters up to the first padding character back into exactly the bytes their sextets spell, without junk past them |
| `Base64.ParseUndoesStringify` | myframework2/WebContent/js/crypto/crypto-js.js:764-838 | parsing what was written gives back exactly the bytes, for every length |
| `Base64.SpillAbsorbed` | myframework2/WebContent/js/crypto/crypto-js.js:830-832 | the unmasked `bits1` reaches into the previous byte, but only with bits already set there |
| `Base64.ParseStep` | myframework2/WebContent/js/crypto/crypto-js.js:828-834 | every character completes one byte and leaves the bytes before it as they were |
| `Base64.OrWideBytes` | myframework2/WebContent/js/crypto/crypto-js.js:832 | an `or` of a 12-bit value touches one byte and its left neighbour, nothing else |
| `Base64.TextPrefix` | myframework2/WebContent/js/crypto/crypto-js.js:787-823 | the reader's search for padding stops after exactly the letters that were written |
| `Base64.DecodedText` | myframework2/WebContent/js/crypto/crypto-js.js:775-834 | byte by byte: what a group's sextets spell is what was encoded |
| `Base64.MapIndex` | myframework2/WebContent/js/crypto/crypto-js.js:783-831 | `indexOf` inverts `charAt` on the alphabet |
| `Base64.AlphabetIs` | myframework2/WebContent/js/crypto/crypto-js.js:840 | the alphabet is table 1 of RFC 4648: A to Z, a to z, 0 to 9, + and / |
| `Base64.TextShape` | myframework2/WebContent/js/crypto/crypto-js.js:785-793 | four characters for every three bytes or fewer; the text ends in as many padding characters as the last group lacks bytes |
| `Base64.LetterIs` | myframework2/WebContent/js/crypto/crypto-js.js:775-784 | letter j of group q is the digit number j, to the base 64, of the 24-bit number of its three bytes |
| `Base64.DecodedIs` | myframework2/WebContent/js/crypto/crypto-js.js:827-834 | every decoded byte is, in numbers, the first, middle or last eight of the twelve bits of two neighbouring letters, for every text of letters |
| `Base64.TextEnds` | myframework2/WebContent/js/crypto/crypto-js.js:817-823 | the text counts up to its first padding character or its end |
| `Rabbit.RabbitCipher.NextState` | myframework2/WebContent/js/crypto/crypto-js.js:5647-5682 | one step is the counter system and next-state function of sections 2.5 and 2.6 of RFC 4503 |
| `Rabbit.RabbitCipher.AdvanceCounters` | myframework2/WebContent/js/crypto/crypto-js.js:5657-5666 | the eight counter statements with their comparisons compute the counters and the carry bit of section 2.5 of RFC 4503 |
| `Rabbit.RabbitCipher.GValues` | myframework2/WebContent/js/crypto/crypto-js.js:5669-5681 | the eight values of G are the specified ones, and no product taken on the way loses a bit |
| `Rabbit.CountersAreExact` | myframework2/WebContent/js/crypto/crypto-js.js:5657-5666 | over a step the 256-bit counter and the carry bit go up by exactly the constant A and the old carry |
| `Rabbit.CounterSum` | myframework2/WebContent/js/crypto/crypto-js.js:5657-5666 | the same for any number of words |
| `Rabbit.CounterStep` | myframework2/WebContent/js/crypto/crypto-js.js:5659-5665 | `(now >>> 0) < (before >>> 0)` is the carry, because no increment is 0 or 2^32 - 1 |
| `Rabbit.GExact` | myframework2/WebContent/js/crypto/crypto-js.js:5670-5681 | G is exactly the high XOR the low 32 bits of the square of `(X + C)` modulo 2^32 |
| `Rabbit.HighExact` | myframework2/WebContent/js/crypto/crypto-js.js:5672-5677 | the 16-bit pieces give the exact high word of the 64-bit square |
| `Rabbit.LowExact` | myframework2/WebContent/js/crypto/crypto-js.js:5678 | the two cut products give the exact low word |
| `Rabbit.ProductsAreExact` | myframework2/WebContent/js/crypto/crypto-js.js:5677-5678 | every product fits a double, although the first exceeds 2^53: its low 16 bits are 0 |
| `Rabbit.RabbitCipher.Reset` | myframework2/WebContent/js/crypto/crypto-js.js:5549-5617 | key and IV setup of sections 2.3 and 2.4 of RFC 4503, for the key with its bytes reversed; the caller's key is changed in place |
| `Rabbit.RabbitCipher.SeedState` | myframework2/WebContent/js/crypto/crypto-js.js:5560-5577 | the spelled-out halves are the initial state of section 2.3 of RFC 4503 |
| `Rabbit.RabbitCipher.AddIv` | myframework2/WebContent/js/crypto/crypto-js.js:5590-5610 | the counters take in the IV as section 2.4 of RFC 4503 asks |
| `Rabbit.RabbitCipher.DoProcessBlock` | myframework2/WebContent/js/crypto/crypto-js.js:5619-5640 | one keystream block of section 2.7 of RFC 4503 is XORed onto the block in place |
| `Rabbit.KeyBlockByte` | myframework2/WebContent/js/crypto/crypto-js.js:5626-5635 | each keystream byte is the XOR of the two state bytes section 2.7 of RFC 4503 names |
| `Rabbit.RabbitFills` | myframework2/WebContent/js/crypto/crypto-js.js:5619-5640 | Rabbit is a keystream cipher, so chunking does not matter and running it again decrypts |
| `RabbitStandard.ConstantsAre` | myframework2/WebContent/js/crypto/crypto-js.js:5657-5665 | the constants A of section 2.5 of RFC 4503 |
| `RabbitStandard.StepIs` | myframework2/WebContent/js/crypto/crypto-js.js:5683-5693 | the eight equations of the next state, written out as section 2.6 of RFC 4503 has them |
| `RabbitStandard.GIs` | myframework2/WebContent/js/crypto/crypto-js.js:5669-5681 | the g-values are the halves of the squared sum, added without carry |
| `RabbitStandard.SeedIs` | myframework2/WebContent/js/crypto/crypto-js.js:5560-5577 | the sixteen initial values as numbers of the 16-bit pieces of the key |
| `RabbitStandard.SetUpIs` | myframework2/WebContent/js/crypto/crypto-js.js:5579-5617 | four steps, then the counters take in the other half of the state; with an IV they take in its pieces and four steps follow |
| `RabbitStandard.IvIs` | myframework2/WebContent/js/crypto/crypto-js.js:5590-5610 | the four pieces of the IV in numbers |
| `Rabbit.ResetRepeats` | myframework2/WebContent/js/crypto/crypto-js.js:5554-5558 | `reset` starts over from the same initial values exactly when reversing the bytes of every key word changes nothing |
| `Rabbit.ResetDiffers` | myframework2/WebContent/js/crypto/crypto-js.js:5554-5558 | a key for which the second setup differs from the first |
| `Rabbit.ResetRestores` | myframework2/WebContent/js/crypto/crypto-js.js:5549-5617 | for keys whose words read the same both ways the whole state after `reset`, IV included, is that of the first setup |
| `Rabbit.ThirdSetUp` | myframework2/WebContent/js/crypto/crypto-js.js:5549-5617 | every second setup is the same |
| `SHA256.Sha256.DoProcessBlock` | myframework2/WebContent/js/crypto/crypto-js.js:1283-1343 | one block updates the hash words as section 6.2.2 of FIPS 180-4, and the hash stays signed 32-bit |
| `SHA256.Expand` | myframework2/WebContent/js/crypto/crypto-js.js:1302-1312 | the uncut schedule entry is congruent to the specified word and within a bound that keeps every partial sum exact |
| `SHA256.EntryFacts` | myframework2/WebContent/js/crypto/crypto-js.js:1302-1312 | the growth bound of an entry follows from those of the entries it adds |
| `SHA256.DoRound` | myframework2/WebContent/js/crypto/crypto-js.js:1315-1331 | a round in which only `a` and `e` are cut is the specified round, every sum exact |
| `SHA256.CodeIsStandard` | myframework2/WebContent/js/crypto/crypto-js.js:1303-1319 | the left rotations and shifts are the functions of section 4.1.2 of FIPS 180-4 |
| `SHA256.Sha256.AddUp` | myframework2/WebContent/js/crypto/crypto-js.js:1334-1342 | the sums of the last step |
| `HashStandards.Sha256Block` | myframework2/WebContent/js/crypto/crypto-js.js:1283-1343 | a block adds to the hash value the last rows of any table that meets the recurrences of section 6.2.2 of FIPS 180-4 for W, a and e, with sums of numbers modulo 2^32 |
| `HashStandards.Sha256Functions` | myframework2/WebContent/js/crypto/crypto-js.js:1302-1319 | the functions of section 4.1.2 as rotations of bit vectors |
| `HashStandards.Choice` | myframework2/WebContent/js/crypto/crypto-js.js:1315 | Ch takes bits of y where x has one and bits of z elsewhere |
| `HashStandards.Majority` | myframework2/WebContent/js/crypto/crypto-js.js:1316 | Maj has the bits that two of the three have |
| `SHA1.Sha1.DoProcessBlock` | myframework2/WebContent/js/crypto/crypto-js.js:1118-1162 | one block updates the hash words as section 6.1.2 of FIPS 180-4 although `a` to `e` are never cut |
| `SHA1.DoRound` | myframework2/WebContent/js/crypto/crypto-js.js:1138-1153 | a round on uncut sums is the specified round; every sum is exact |
| `SHA1.ExtendMessage` | myframework2/WebContent/js/crypto/crypto-js.js:1131-1136 | the message schedule |
| `SHA1.KFits` | myframework2/WebContent/js/crypto/crypto-js.js:1139-1147 | subtracting a constant's complement adds the specified constant |
| `SHA1.ChIsStandard` | myframework2/WebContent/js/crypto/crypto-js.js:1140 | the `or` form of Ch is the specified one |
| `SHA1.MajIsStandard` | myframework2/WebContent/js/crypto/crypto-js.js:1144 | the `or` form of Maj is the specified one |
| `HashStandards.Sha1Block` | myframework2/WebContent/js/crypto/crypto-js.js:1118-1162 | a block adds to the hash value the last rows of any table that meets the recurrences of section 6.1.2 of FIPS 180-4 |
| `HashStandards.Sha1Functions` | myframework2/WebContent/js/crypto/crypto-js.js:1138-1147 | the functions and constants of the four ranges of rounds |
| `MD5.Md5.DoProcessBlock` | myframework2/WebContent/js/crypto/crypto-js.js:874-987 | one block of little-endian words updates the hash words as section 3.4 of RFC 1321; the block is left byte-reversed in place |
| `MD5.Step` | myframework2/WebContent/js/crypto/crypto-js.js:1041-1059 | a step on uncut Numbers stays congruent to the specified one and within a bound that grows by 2^31 a step |
| `MD5.Quad` | myframework2/WebContent/js/crypto/crypto-js.js:913-917 | four steps return the variables to their roles |
| `MD5.Round1` | myframework2/WebContent/js/crypto/crypto-js.js:914-929 | steps 1 to 16 |
| `MD5.Round2` | myframework2/WebContent/js/crypto/crypto-js.js:931-946 | steps 17 to 32 |
| `MD5.Round3` | myframework2/WebContent/js/crypto/crypto-js.js:948-963 | steps 33 to 48 |
| `MD5.Round4` | myframework2/WebContent/js/crypto/crypto-js.js:965-980 | steps 49 to 64 |
| `MD5.SwapBlock` | myframework2/WebContent/js/crypto/crypto-js.js:875-885 | the bytes of the sixteen words are reversed in place, no other word changes |
| `MD5.SumsFit` | myframework2/WebContent/js/crypto/crypto-js.js:982-986 | after 64 chained steps the sums are still exact |
| `HashStandards.Md5Block` | myframework2/WebContent/js/crypto/crypto-js.js:874-987 | a block adds to the hash value the last values of any sequence that meets the 64 steps of section 3.4 of RFC 1321, with the order of words and the rotations listed there |
| `HashStandards.ChoosesByFirst` | myframework2/WebContent/js/crypto/crypto-js.js:1041 | F takes bits of y where x has one and bits of z elsewhere |
| `HashStandards.ChoosesByLast` | myframework2/WebContent/js/crypto/crypto-js.js:1046 | G does so by its last argument |
| `HashStandards.Adds` | myframework2/WebContent/js/crypto/crypto-js.js:1051-1056 | H is the sum without carry, and I adds y to x or not z |
| `SHA512.Sha512.DoProcessBlock` | myframework2/WebContent/js/crypto/crypto-js.js:2946-3102 | one block updates the hash values as section 6.4.2 of FIPS 180-4 although W and H are never cut, and no Number exceeds 2^53 in the first 2^21 - 10 blocks |
| `SHA512.RoundLeaves` | myframework2/WebContent/js/crypto/crypto-js.js:3038-3060 | uncut hash words meet only small schedule entries, and large entries only cut variables, so that every sum of a round stays exact |
| `SHA512.CarryIs` | myframework2/WebContent/js/crypto/crypto-js.js:3028 | the `>>> 0` comparison finds the carry out of the low halves, whatever multiples of 2^32 the Numbers carry along |
| `SHA512.PairSum` | myframework2/WebContent/js/crypto/crypto-js.js:3027-3032 | adding halves with that carry is addition modulo 2^64 |
| `SHA512.AddToSum` | myframework2/WebContent/js/crypto/crypto-js.js:3027-3060 | how large a sum of pairs gets, and that it is exact |
| `SHA512.RotationsAre64Bit` | myframework2/WebContent/js/crypto/crypto-js.js:3008-3016 | the funnel shifts of the halves are rotations and shifts of the 64-bit word |
| `SHA512.Expand` | myframework2/WebContent/js/crypto/crypto-js.js:3004-3035 | a schedule entry in uncut halves is congruent to the specified word and within its bound |
| `SHA512.DoRound` | myframework2/WebContent/js/crypto/crypto-js.js:3038-3082 | a round on pairs is the specified round; the two new variables are cut |
| `SHA512.Settles` | myframework2/WebContent/js/crypto/crypto-js.js:3066-3082 | after four rounds every variable has been cut |
| `SHA512.HashRoom` | myframework2/WebContent/js/crypto/crypto-js.js:3085-3101 | the hash halves grow by at most 2^31 and a carry a block |
| `SHA512.Sha512.AddUp` | myframework2/WebContent/js/crypto/crypto-js.js:3085-3101 | the eight sums at the end of a block |
| `HashStandards.Sha512Block` | myframework2/WebContent/js/crypto/crypto-js.js:2946-3102 | a block adds to the hash value the last rows of any table of 64-bit words that meets the recurrences of section 6.4.2 of FIPS 180-4, modulo 2^64 |
| `HashStandards.Sha512Functions` | myframework2/WebContent/js/crypto/crypto-js.js:3008-3053 | the functions of section 4.1.3 as rotations of 64-bit vectors |
| `Hashing.Hasher.Reset` | myframework2/WebContent/js/crypto/crypto-js.js:633-639 | ready for a new message, whatever was hashed before |
| `Hashing.Hasher.Update` | myframework2/WebContent/js/crypto/crypto-js.js:653-662 | takes in exactly the new bytes; less than a block stays buffered, free of junk exactly when it did not end in a whole word before or the new piece ends without junk |
| `Hashing.Hasher.Finalize` | myframework2/WebContent/js/crypto/crypto-js.js:678-688 | the value is the compression function folded over some padded bytes; these are message, 0x80, zeros and length, as the standards ask, exactly when the last piece ends without junk in its word or does not start at a word of the message |
| `Hashing.Hasher.DoFinalize` | myframework2/WebContent/js/crypto/crypto-js.js:1164-1183 | the same for what is buffered: exactly when no junk follows it |
| `Hashing.Hasher.WritePadding` | myframework2/WebContent/js/crypto/crypto-js.js:1164-1176 | the buffer then holds the rest of the padded message exactly when no junk followed it; MD5 also claims a word it did not write |
| `Hashing.MarkWords` | myframework2/WebContent/js/crypto/crypto-js.js:998-1009 | the marker and the length, in either byte order |
| `Hashing.PaddingExact` | myframework2/WebContent/js/crypto/crypto-js.js:1173-1175 | the buffer holds the padding of section 5.1 of FIPS 180-4 exactly when nothing but zeros (or the marker's own bit) lay past the message |
| `Hashing.JunkFreeWhen` | myframework2/WebContent/js/crypto/crypto-js.js:678-683 | whether junk follows in the buffer depends on the word the last piece ends in, and only if pieces are appended word by word |
| `Hashing.IndicesRight` | myframework2/WebContent/js/crypto/crypto-js.js:1173-1176 | marker and length go to the right words exactly as long as the buffered rest and the length field stay below 2^29 bytes |
| `Hashing.LeastBlocks` | myframework2/WebContent/js/crypto/crypto-js.js:1173-1176 | no shorter run of whole blocks has room for message, marker and length |
| `Hashing.PaddedTail` | myframework2/WebContent/js/crypto/crypto-js.js:1164-1176 | padding the buffered rest is padding the message |
| `Hashing.PaddedIs` | myframework2/WebContent/js/crypto/crypto-js.js:1164-1176 | every byte of the padded message: message, 0x80, zeros, and in the last eight bytes the digits of the number of bits to the base 256, the highest first in SHA and the lowest first in MD5 |
| `Hashing.LengthBytes` | myframework2/WebContent/js/crypto/crypto-js.js:1173-1175 | those eight bytes alone, for any number |
| `Hashing.DigestIs` | myframework2/WebContent/js/crypto/crypto-js.js:563-569 | the digest is the last of any states of which the first is the initial one and each block of the padded message takes one to the next |
| `WordNumbers.ByteIs` | myframework2/WebContent/js/crypto/core.js:224 | the bytes of a word are its digits to the base 256, the first one the most significant |
| `HashFunctions.DigestChunks` | myframework2/WebContent/js/crypto/crypto-js.js:653-688 | any cut of a message into `update` calls and `finalize` hashes the message padded as the standards ask, and so gives its digest, exactly when the last piece ends without junk or starts inside a word |
| `HashFunctions.DigestSpoiled` | myframework2/WebContent/js/crypto/crypto-js.js:678-688 | the message of the one byte 0x61 in a word with ones behind it: under every algorithm something else than the padded message is hashed |
| `HashFunctions.FeedAll` | myframework2/WebContent/js/crypto/crypto-js.js:653-662 | `update` with piece after piece takes in the pieces joined |
| `HashFunctions.AllUsable` | myframework2/WebContent/js/crypto/crypto-js.js:866-3128 | MD5, SHA-1, SHA-256 and SHA-512 fit the template and, for HMAC, hand out between one word and a block |
| `HashFunctions.Sha512Blocks` | myframework2/WebContent/js/crypto/crypto-js.js:2946-3102 | block after block the SHA-512 object computes the run of its step, on the padded message the digest, as long as all blocks since the reset stay below the bound on exact sums |
| `HashFunctions.Sha256Blocks` | myframework2/WebContent/js/crypto/crypto-js.js:1283-1343 | the same for the SHA-256 object and any number of blocks |
| `HashFunctions.Sha1Blocks` | myframework2/WebContent/js/crypto/crypto-js.js:1118-1162 | the same for the SHA-1 object |
| `HashFunctions.Md5Blocks` | myframework2/WebContent/js/crypto/crypto-js.js:874-987 | the same for the MD5 object, in place: the words are left as its step puts them out |
| `HashFunctions.InitialValues` | myframework2/WebContent/js/crypto/crypto-js.js:866-872 | the initial values of MD5 and SHA-1, their block size and byte order |
| `HashFunctions.Md5Reads` | myframework2/WebContent/js/crypto/crypto-js.js:874-885 | MD5 takes four bytes of a block as one number, the least significant first |
| `HashFunctions.Sha1Reads` | myframework2/WebContent/js/crypto/crypto-js.js:1118-1136 | SHA-1 the most significant first |
| `HashFunctions.Sha256Reads` | myframework2/WebContent/js/crypto/crypto-js.js:1283-1301 | so does SHA-256 |
| `HashFunctions.Sha512Reads` | myframework2/WebContent/js/crypto/crypto-js.js:2993-3002 | so does SHA-512, on blocks of 128 bytes |
| `HashFunctions.Md5Bytes` | myframework2/WebContent/js/crypto/crypto-js.js:1011-1024 | MD5 hands out the digits of its four words, the least significant first |
| `HashFunctions.Sha512Bytes` | myframework2/WebContent/js/crypto/crypto-js.js:3104-3125 | SHA-512 hands out sixty-four bytes, the high word of each pair first |
| `HashFunctions.BigEndianBytes` | myframework2/WebContent/js/crypto/crypto-js.js:1164-1183 | SHA-1 and SHA-256 hand out their words the most significant byte first |
| `HMAC.HmacHasher.constructor` | myframework2/WebContent/js/crypto/crypto-js.js:1869-1907 | the two pads are the key, hashed if longer than a block and filled up with zeros, XOR 0x5c and 0x36; the bytes hashed for a long key are the padded key exactly when it ends without junk; the caller's key keeps its bytes |
| `HMAC.HmacHasher.Reset` | myframework2/WebContent/js/crypto/crypto-js.js:1916-1923 | ready for the next message, whatever was hashed before |
| `HMAC.HmacHasher.Update` | myframework2/WebContent/js/crypto/crypto-js.js:1937-1942 | takes in exactly the new bytes |
| `HMAC.HmacHasher.Finalize` | myframework2/WebContent/js/crypto/crypto-js.js:1958-1968 | the value is the outer hash of section 2 of RFC 2104 over that of some padded bytes; these are the padded inner message, and the value is the HMAC of all bytes taken in since the last reset, exactly when the last piece ends without junk or starts inside a word of the message |
| `HMAC.PrepareKey` | myframework2/WebContent/js/crypto/crypto-js.js:1882-1888 | a long key is hashed, a short one kept, and junk past it cleared; what was hashed is the padded key exactly when the key ends without junk |
| `HMAC.XoredBytes` | myframework2/WebContent/js/crypto/crypto-js.js:1898-1903 | XORing words, missing slots included, is XORing the filled-up key byte by byte |
| `HMAC.HmacIs` | myframework2/WebContent/js/crypto/crypto-js.js:1869-1968 | section 2 of RFC 2104 byte by byte: any block that holds the key, or its hash when it is longer, and zeros, and the two copies of it mixed with 0x36 and 0x5c, give the HMAC by hashing twice |
| `PBKDF2.Compute` | myframework2/WebContent/js/crypto/crypto-js.js:2027-2074 | the derived key starts T_1, T_2, ... of section 5.2 of RFC 8018, as many as needed, and counts `keySize` words; they are derived under the password, or under the hash of some bytes for a password longer than a block, which are the padded password exactly when it ends without junk |
| `PBKDF2.DeriveBlock` | myframework2/WebContent/js/crypto/crypto-js.js:2046-2066 | one block: the in-place XOR loop computes T_i although the first intermediate value is the block itself |
| `PBKDF2.Iterate` | myframework2/WebContent/js/crypto/crypto-js.js:2055-2066 | one round of that loop |
| `PBKDF2.FirstBlock` | myframework2/WebContent/js/crypto/crypto-js.js:2046-2047 | the first value: salt and block index, most significant byte first |
| `PBKDF2.DeriveBlocks` | myframework2/WebContent/js/crypto/crypto-js.js:2044-2070 | whole blocks until there are enough words |
| `PBKDF2.ShorterKey` | myframework2/WebContent/js/crypto/crypto-js.js:2045-2071 | a shorter derived key is a prefix of a longer one |
| `PBKDF2.BlockIs` | myframework2/WebContent/js/crypto/crypto-js.js:2046-2066 | block i is, word by word, the sum of any values of which the first is the HMAC of the salt and the four digits of i and each further one the HMAC of the one before |
| `PBKDF2.ValuesAre` | myframework2/WebContent/js/crypto/crypto-js.js:2046-2066 | those values are the U_c of section 5.2 of RFC 8018 |
| `PBKDF2.BlocksAre` | myframework2/WebContent/js/crypto/crypto-js.js:2045-2071 | the derived key is those blocks, numbered from 1, one behind the other |
| `Deferred.CallbackList.constructor` | myframework2/WebContent/js/lib/jquery.js:705-714 | an empty list that never fired |
| `Deferred.CallbackList.Add` | myframework2/WebContent/js/lib/jquery.js:737-744 | what `add` does to a list: the running loop gets further to go, or a new loop over the additions starts with the remembered arguments |
| `Deferred.CallbackList.FireWith` | myframework2/WebContent/js/lib/jquery.js:785-788 | what `fireWith` does: nothing when locked, disabled or fired before; a waiting notification while running |
| `Deferred.CallbackList.Begin` | myframework2/WebContent/js/lib/jquery.js:721-728 | the start of a loop |
| `Deferred.CallbackList.Finish` | myframework2/WebContent/js/lib/jquery.js:733-734 | the end of a loop: a `once` list is emptied, a waiting notification starts the next loop |
| `Deferred.CallbackList.Disable` | myframework2/WebContent/js/lib/jquery.js:770-773 | a disabled list holds nothing and stays so |
| `Deferred.CallbackList.Lock` | myframework2/WebContent/js/lib/jquery.js:777-781 | a locked list takes no more notifications; one that never fired is disabled (`NotifiedInVain` says what comes of it) |
| `Deferred.StateIsFirstSettlement` | myframework2/WebContent/js/lib/jquery.js:801-865 | in every run, with re-entrant calls at any point, the state is that of the first `resolve` or `reject`, and "pending" before it |
| `Deferred.StateChangesOnce` | myframework2/WebContent/js/lib/jquery.js:801-865 | the state leaves "pending" at most once |
| `Deferred.CallbacksRunOnceInOrder` | myframework2/WebContent/js/lib/jquery.js:705-865 | each callback given to the settling list before, during or after the settlement is called exactly once, in order, with the first settlement's arguments |
| `Deferred.LosersNeverRun` | myframework2/WebContent/js/lib/jquery.js:801-865 | no callback of the other list is ever called, and none at all before a settlement |
| `Deferred.NotifiedInVain` | myframework2/WebContent/js/lib/jquery.js:777-788 | in every run, once something is settled a notification changes nothing at all |
| `Deferred.NeverNotified` | myframework2/WebContent/js/lib/jquery.js:770-788 | without a notification before the settlement no progress callback is ever called |
| `Deferred.NotificationsInOrder` | myframework2/WebContent/js/lib/jquery.js:705-788 | every notification before the settlement calls each progress callback there is at the time once and in order, and those added until the next one starts; the notifications follow one another, and while nothing is settled none is lost |
| `Deferred.RunKeeps` | myframework2/WebContent/js/lib/jquery.js:705-865 | the invariant of every run that the four results rest on |
| `Deferred.StepKeeps` | myframework2/WebContent/js/lib/jquery.js:721-788 | one step keeps it: an addition, a settlement, a notification or the return of a callback |
| `Deferred.SettleServes` | myframework2/WebContent/js/lib/jquery.js:856-862 | state, other list and notifications are dealt with before any user callback of the first settlement runs |
| `Deferred.SettlesAgain` | myframework2/WebContent/js/lib/jquery.js:785-788 | a later `resolve` or `reject` changes nothing |
| `Deferred.AddServes` | myframework2/WebContent/js/lib/jquery.js:737-744 | a callback added after or during the settlement is called by the running loop or by one of its own |
| `EasyLoader.RequestedAtMostOnce` | myframework2/WebContent/js/EasyUI/easyloader.js:50-86 | in every interleaving of `load` calls no script is requested twice; `RequestedExactly` says which are |
| `EasyLoader.RequestedExactly` | myframework2/WebContent/js/EasyUI/easyloader.js:50-73 | in every run the modules of the table are exactly those whose script has been requested, and a call that waits for a script waits for one of them |
| `EasyLoader.RequestedOnlyIfNeeded` | myframework2/WebContent/js/EasyUI/easyloader.js:87-125 | only what some call asked for, or what that needs, is requested |
| `EasyLoader.RequestedAfterDependencies` | myframework2/WebContent/js/EasyUI/easyloader.js:87-148 | when a script is requested, every module it needs, however indirectly, is loaded |
| `EasyLoader.CompletedAfterLoading` | myframework2/WebContent/js/EasyUI/easyloader.js:109-145 | a call completes at most once, and only when every known module it asked for, and all those need, is loaded |
| `EasyLoader.CompletedExactly` | myframework2/WebContent/js/EasyUI/easyloader.js:109-145 | in every run a call has completed exactly when a completion names it |
| `EasyLoader.LoadedStays` | myframework2/WebContent/js/EasyUI/easyloader.js:79-81 | what is loaded stays loaded |
| `EasyLoader.CallsAreFinite` | myframework2/WebContent/js/EasyUI/easyloader.js:116-146 | in every interleaving the events that change a call are fewer than a number its queue and the time it has waited determine |
| `EasyLoader.NeverStuck` | myframework2/WebContent/js/EasyUI/easyloader.js:116-146 | in every run a call that no event can change any more is one that has completed or given up, and the other way round |
| `EasyLoader.GivesUpExactly` | myframework2/WebContent/js/EasyUI/easyloader.js:116-146 | in every run an event, be it a `load`, the arrival of a script or a timer, makes a call give up exactly when the call looks at its queue then, its time is over and the first module it misses has been requested; another call then still waits for that script |
| `EasyLoader.HasGivenUpExactly` | myframework2/WebContent/js/EasyUI/easyloader.js:87-146 | a call has given up at the end of a run exactly when one of its events made it look in vain |
| `EasyLoader.SecondGivesUp` | myframework2/WebContent/js/EasyUI/easyloader.js:127-134 | for any timeout, the second of two calls for one module gives up if it looks often enough while the script is on its way |
| `EasyLoader.GoesOnWhenAllArrived` | myframework2/WebContent/js/EasyUI/easyloader.js:116-146 | once no script is on its way, a call that looks requests one or completes, whatever made it look |
| `EasyLoader.RunFetched` | myframework2/WebContent/js/EasyUI/easyloader.js:73-86 | in every run a script that was requested and has not arrived is one some call waits for |
| `EasyLoader.StepNearer` | myframework2/WebContent/js/EasyUI/easyloader.js:116-146 | every event that changes a call brings it nearer to its end |
| `EasyLoader.RunIsValid` | myframework2/WebContent/js/EasyUI/easyloader.js:87-148 | the invariant of every run: each queue is the rest of its call's order, what came before is loaded, the table is closed under dependencies |
| `EasyLoader.StepKeeps` | myframework2/WebContent/js/EasyUI/easyloader.js:116-146 | one browser event keeps it, and the table only grows |
| `EasyLoader.AdvanceKeeps` | myframework2/WebContent/js/EasyUI/easyloader.js:116-146 | so does the queue runner, from any point it may be woken at |
| `EasyLoader.OrderIsOrdered` | myframework2/WebContent/js/EasyUI/easyloader.js:97-108 | in the order `add` computes every known dependency stands before its module |
| `EasyLoader.OrderIsNeeded` | myframework2/WebContent/js/EasyUI/easyloader.js:97-108 | that order holds exactly the module, if it is known, and the known modules it needs, however indirectly |
| `EasyLoader.OrderOfOne` | myframework2/WebContent/js/EasyUI/easyloader.js:97-108 | a known module comes behind the orders of its dependencies as they are listed; an unknown one is passed over |
| `EasyLoader.OrderAllOf` | myframework2/WebContent/js/EasyUI/easyloader.js:87-96 | what is asked for first comes first |
| `EasyLoader.Browser.Add` | myframework2/WebContent/js/EasyUI/easyloader.js:97-108 | `add` appends that order to the queue |
| `EasyLoader.Browser.Load` | myframework2/WebContent/js/EasyUI/easyloader.js:87-96 | a new call, its queue filled and run |
| `EasyLoader.Browser.RunQueue` | myframework2/WebContent/js/EasyUI/easyloader.js:116-146 | skip what is loaded; then request, wait, give up or finish |
| `EasyLoader.Browser.Finish` | myframework2/WebContent/js/EasyUI/easyloader.js:109-114 | the completion of a call, recorded with the table at that moment |
| `EasyLoader.Browser.ScriptArrives` | myframework2/WebContent/js/EasyUI/easyloader.js:73-80 | the module is marked as loaded |
| `EasyLoader.Browser.ScriptDone` | myframework2/WebContent/js/EasyUI/easyloader.js:81-84 | the call that requested it goes on |
| `EasyLoader.Browser.TimerFires` | myframework2/WebContent/js/EasyUI/easyloader.js:130-133 | a waiting call looks again |
| `EasyLoader.Browser.LocaleArrives` | myframework2/WebContent/js/EasyUI/easyloader.js:137-141 | the call completes |
| `DataGridSelection.IndexOf` | myframework2/WebContent/js/EasyUI/plugins/jquery.parser.js:11-24 | the first row with the id, or -1 when there is none; a missing id finds nothing |
| `DataGridSelection.WithItemIds` | myframework2/WebContent/js/EasyUI/plugins/jquery.parser.js:39-46 | adding a row that has an id adds to the set of ids and lists none twice |
| `DataGridSelection.WithoutItemIds` | myframework2/WebContent/js/EasyUI/plugins/jquery.parser.js:25-38 | removing takes exactly that id out of the set |
| `DataGridSelection.WithItemIs` | myframework2/WebContent/js/EasyUI/plugins/jquery.parser.js:39-46 | the row takes the place of the first one listed with its id; without one, or without an id of its own, it comes last |
| `DataGridSelection.WithoutItemIs` | myframework2/WebContent/js/EasyUI/plugins/jquery.parser.js:25-38 | the first row with the id is cut out and nothing else changes |
| `DataGridSelection.WithAllIs` | myframework2/WebContent/js/EasyUI/plugins/jquery.datagrid.js:1284-1287 | after all shown rows are added listed ones have kept their places, replaced by the rows shown under their ids, and the others follow in the order shown |
| `DataGridSelection.WithoutAllIs` | myframework2/WebContent/js/EasyUI/plugins/jquery.datagrid.js:1300-1303 | after all are removed the listed rows whose ids are not shown are left, in their order |
| `DataGridSelection.StaysDistinct` | myframework2/WebContent/js/EasyUI/plugins/jquery.parser.js:39-46 | a list stays free of duplicates exactly when the new row has an id or no listed row lacks one |
| `DataGridSelection.NoIdNoSet` | myframework2/WebContent/js/EasyUI/plugins/jquery.parser.js:39-46 | a row without an id, added twice, is listed twice |
| `DataGridSelection.Selection.SelectRow` | myframework2/WebContent/js/EasyUI/plugins/jquery.datagrid.js:1238-1258 | both lists after a row is selected; linked lists hold the same ids, each once, and the new id |
| `DataGridSelection.Selection.UnselectRow` | myframework2/WebContent/js/EasyUI/plugins/jquery.datagrid.js:1259-1275 | both lists lose exactly the row's id |
| `DataGridSelection.Selection.SelectAll` | myframework2/WebContent/js/EasyUI/plugins/jquery.datagrid.js:1276-1291 | both lists gain exactly the ids of the shown rows |
| `DataGridSelection.Selection.UnselectAll` | myframework2/WebContent/js/EasyUI/plugins/jquery.datagrid.js:1292-1307 | both lists lose exactly the ids of the shown rows |
| `DataGridSelection.Selection.CheckRow` | myframework2/WebContent/js/EasyUI/plugins/jquery.datagrid.js:1308-1333 | as `SelectRow`, from the other side of the link |
| `DataGridSelection.Selection.UncheckRow` | myframework2/WebContent/js/EasyUI/plugins/jquery.datagrid.js:1334-1353 | as `UnselectRow`, from the other side |
| `DataGridSelection.Selection.CheckAll` | myframework2/WebContent/js/EasyUI/plugins/jquery.datagrid.js:1354-1371 | as `SelectAll`, from the other side |
| `DataGridSelection.Selection.UncheckAll` | myframework2/WebContent/js/EasyUI/plugins/jquery.datagrid.js:1372-1389 | as `UnselectAll`, from the other side |
| `DataGridSelection.Selection.ClearSelections` | myframework2/WebContent/js/EasyUI/plugins/jquery.datagrid.js:2010-2020 | both lists are empty, or only the one when they are not linked |
| `DataGridSelection.Selection.ClearChecked` | myframework2/WebContent/js/EasyUI/plugins/jquery.datagrid.js:2021-2031 | as `ClearSelections`, from the other side |
| `DataGridSelection.Selection.DeleteRow` | myframework2/WebContent/js/EasyUI/plugins/jquery.datagrid.js:1579-1581 | a deleted row leaves both lists, whatever the link options |
| `DataGridSelection.Selection.Restore` | myframework2/WebContent/js/EasyUI/plugins/jquery.datagrid.js:1666-1687 | after a rejection both lists hold the restored rows whose ids they listed; linked lists of a grid that allows several rows stay linked, on the old ids that are among the restored rows |
| `DataGridSelection.FoundIds` | myframework2/WebContent/js/EasyUI/plugins/jquery.datagrid.js:1672-1679 | looking up listed ids one by one brings back exactly those the rows have, each once, a missing one included |
| `DataGridSelection.FoundOnly` | myframework2/WebContent/js/EasyUI/plugins/jquery.datagrid.js:1672-1679 | in a grid for single selection at most one row comes back, and none exactly when none of the ids is there |
| `DataGridSelection.FoundInOrder` | myframework2/WebContent/js/EasyUI/plugins/jquery.datagrid.js:1672-1679 | they come back in the order of the ids, each the first of the rows with its id |
| `DataGridSelection.FoundLast` | myframework2/WebContent/js/EasyUI/plugins/jquery.datagrid.js:1672-1679 | with single selection it is the row of the last id that is there |
| `DataGridChanges.Grid.InsertRow` | myframework2/WebContent/js/EasyUI/plugins/jquery.datagrid.js:1587-1594 | the row is shown at its place and remembered as inserted; total and rows stay balanced against the snapshot |
| `DataGridChanges.Grid.AppendRow` | myframework2/WebContent/js/EasyUI/plugins/jquery.datagrid.js:1595-1602 | the same at the end |
| `DataGridChanges.Grid.DeleteRow` | myframework2/WebContent/js/EasyUI/plugins/jquery.datagrid.js:1566-1586 | an inserted row is forgotten, any other remembered as deleted; total + deleted - inserted stays what it was at the snapshot |
| `DataGridChanges.Grid.UpdateRow` | myframework2/WebContent/js/EasyUI/plugins/jquery.datagrid.js:1603-1623 | the fields are written into the row object itself, the others stay; the row is remembered as updated exactly when a field was missing or different and the row is neither an inserted nor a remembered one |
| `DataGridChanges.Grid.AcceptChanges` | myframework2/WebContent/js/EasyUI/plugins/jquery.datagrid.js:1624-1636 | the shown rows are copied as the new snapshot and the three lists emptied |
| `DataGridChanges.Grid.RejectChanges` | myframework2/WebContent/js/EasyUI/plugins/jquery.datagrid.js:1651-1688 | after any run of changes the rows hold what the snapshot held, and the total is the snapshot's |
| `DataGridChanges.Grid.LoadData` | myframework2/WebContent/js/EasyUI/plugins/jquery.datagrid.js:1990-1994 | new rows and a new snapshot |
| `DataGridChanges.BalancedInsert` | myframework2/WebContent/js/EasyUI/plugins/jquery.datagrid.js:1587-1602 | shown and deleted row objects are, as a multiset, those of the snapshot and the inserted ones: kept by insertion |
| `DataGridChanges.BalancedDelete` | myframework2/WebContent/js/EasyUI/plugins/jquery.datagrid.js:1566-1586 | and by deletion, whichever list the row goes to |
| `DataGridChanges.WithoutIs` | myframework2/WebContent/js/EasyUI/plugins/jquery.parser.js:25-38 | forgetting a row cuts out its first place and nothing else |
| `ForEach.ForEach` | myframework2/WebContent/js/EasyUI/plugins/jquery.parser.js:49-65 | the worklist gives the callback the rows in preorder, cut off after the first row it answers with false |
| `ForEach.OneStep` | myframework2/WebContent/js/EasyUI/plugins/jquery.parser.js:54-64 | taking the first row off and putting its children in its place is one step of the preorder walk |
| `ForEach.WalkAround` | myframework2/WebContent/js/EasyUI/plugins/jquery.parser.js:49-65 | of any row the walk gives what stands before it with all below that, then the row, then all below it, and only then its next siblings |
| `ForEach.StopsAt` | myframework2/WebContent/js/EasyUI/plugins/jquery.parser.js:55-57 | the row that stops the walk is the last one given |
| `ForEach.NothingStops` | myframework2/WebContent/js/EasyUI/plugins/jquery.parser.js:49-65 | a callback that never stops is given every row |
| `Calendar.MonthWeeks` | myframework2/WebContent/js/EasyUI/plugins/jquery.calendar.js:172-230 | six rows of seven cells that are the cells of the grid in order |
| `Calendar.LastDay` | myframework2/WebContent/js/EasyUI/plugins/jquery.calendar.js:175 | the day before the first of the next month is the last one of this month |
| `Calendar.MonthRows` | myframework2/WebContent/js/EasyUI/plugins/jquery.calendar.js:176-196 | the days of the month cut into rows at the end of the week, the first and last row perhaps shorter |
| `Calendar.ExtendFirst` | myframework2/WebContent/js/EasyUI/plugins/jquery.calendar.js:198-203 | days are put in front of the first row, each the one before its neighbour as the Date constructor finds it |
| `Calendar.ExtendLast` | myframework2/WebContent/js/EasyUI/plugins/jquery.calendar.js:213-218 | days are put after the last row in the same way |
| `Calendar.GridRight` | myframework2/WebContent/js/EasyUI/plugins/jquery.calendar.js:172-230 | for a plain month: consecutive days, every row starting on the first day of the week, all days of the month among them |
| `Calendar.GridIs` | myframework2/WebContent/js/EasyUI/plugins/jquery.calendar.js:172-230 | which days they are: between one and seven days of the month before, so many that the first row starts on the first day of the week, and from there on day after day |
| `Calendar.GridRightExactly` | myframework2/WebContent/js/EasyUI/plugins/jquery.calendar.js:172-230 | the cells are consecutive days exactly for the plain months: years outside 0 to 99, except January 100 when it starts two or more columns in, and December of year -1 unless it starts in column 4 |
| `Calendar.TwoDigitYear` | myframework2/WebContent/js/EasyUI/plugins/jquery.calendar.js:198-210 | years 0 to 99 are read as 1900 to 1999 in front of the first of the month |
| `Calendar.JanuaryHundred` | myframework2/WebContent/js/EasyUI/plugins/jquery.calendar.js:198-203 | where the grid of January 100 breaks |
| `Calendar.DecemberBeforeZero` | myframework2/WebContent/js/EasyUI/plugins/jquery.calendar.js:213-227 | where the grid of December of year -1 breaks |
| `Calendar.GetWeekNumber` | myframework2/WebContent/js/EasyUI/plugins/jquery.calendar.js:385-392 | the ISO 8601 week number, for every date and whatever summer time does to the difference |
| `Calendar.ThursdayOrdinal` | myframework2/WebContent/js/EasyUI/plugins/jquery.calendar.js:385-392 | a Thursday's ordinal among the Thursdays of its year is one more than the whole weeks before it |
| `Calendar.NextNumber` | myframework2/WebContent/js/EasyUI/plugins/jquery.calendar.js:385-392 | consecutive dates have consecutive day numbers, across every month and year end |
| `Calendar.LeapYears` | myframework2/WebContent/js/EasyUI/plugins/jquery.calendar.js:385-392 | a leap year every four years but for three centuries in four |
| `Calendar.MonthLengths` | myframework2/WebContent/js/EasyUI/plugins/jquery.calendar.js:175 | the lengths of the twelve months |
| `Calendar.CycleRepeats` | myframework2/WebContent/js/EasyUI/plugins/jquery.calendar.js:385-392 | 400 years are 146097 days and a whole number of weeks; day 0 is Thursday 1 January 1970 |
| `Calendar.IsThursday` | myframework2/WebContent/js/EasyUI/plugins/jquery.calendar.js:386-387 | the date that is looked up is the Thursday at most three days away |
| `Transport.MyTransportConfiguration.Encode` | RecieveMsgHornetq4.0/src/alarm_recieveLCjms/MyTransportConfiguration.java:260-301 | what is written, and where a null string or a value of an unknown type stops it |
| `Transport.MyTransportConfiguration.Decode` | RecieveMsgHornetq4.0/src/alarm_recieveLCjms/MyTransportConfiguration.java:310-371 | what the object and the buffer become, also when the bytes end early or hold an unknown type |
| `Transport.RoundTrip` | RecieveMsgHornetq4.0/src/alarm_recieveLCjms/MyTransportConfiguration.java:260-371 | decoding undoes encoding for every map order and whatever follows in the buffer, and consumes exactly the bytes written; only an empty map and none are confused |
| `Transport.DecodedEquals` | RecieveMsgHornetq4.0/src/alarm_recieveLCjms/MyTransportConfiguration.java:132-371 | what comes back equals what was sent, both ways round |
| `Transport.LayoutIs` | RecieveMsgHornetq4.0/src/alarm_recieveLCjms/MyTransportConfiguration.java:260-267 | name, class, number of parameters and the parameters, in this order |
| `Transport.EntryIs` | RecieveMsgHornetq4.0/src/alarm_recieveLCjms/MyTransportConfiguration.java:271-299 | a parameter is its key, the type byte 0, 1, 2 or 3 of a boolean, int, long or string, and the value; any other value stops it after the key |
| `Transport.EntriesInOrder` | RecieveMsgHornetq4.0/src/alarm_recieveLCjms/MyTransportConfiguration.java:265-299 | parameters stand one behind the other, up to the first that cannot be written |
| `Transport.StopsEarly` | RecieveMsgHornetq4.0/src/alarm_recieveLCjms/MyTransportConfiguration.java:310-328 | where name, class or number cannot be read, what was read before is set and nothing else changes |
| `Transport.BrokenOff` | RecieveMsgHornetq4.0/src/alarm_recieveLCjms/MyTransportConfiguration.java:326-370 | where more parameters are announced than follow, or one has an unknown type byte, those before it stay |
| `Transport.UnknownType` | RecieveMsgHornetq4.0/src/alarm_recieveLCjms/MyTransportConfiguration.java:362-366 | a type byte of none of the four fails |
| `Transport.MapUndone` | RecieveMsgHornetq4.0/src/alarm_recieveLCjms/MyTransportConfiguration.java:265-370 | the parameters alone |
| `Transport.FailsWhen` | RecieveMsgHornetq4.0/src/alarm_recieveLCjms/MyTransportConfiguration.java:275-298 | encoding the parameters fails exactly when one of them is of none of the four types |
| `Transport.MyTransportConfiguration.Equals` | RecieveMsgHornetq4.0/src/alarm_recieveLCjms/MyTransportConfiguration.java:132-179 | `equals` is true exactly for the same class and, for every key, the same value in both or the key in neither, with no null value among them; a null class of this object throws |
| `Transport.SameExactly` | RecieveMsgHornetq4.0/src/alarm_recieveLCjms/MyTransportConfiguration.java:132-179 | of two configurations without null parameters: equal exactly for the same class and the same value, or none, under every key |
| `Transport.OneDifference` | RecieveMsgHornetq4.0/src/alarm_recieveLCjms/MyTransportConfiguration.java:160-165 | one changed value, one parameter more or another class makes them unequal |
| `Transport.EqualsLaws` | RecieveMsgHornetq4.0/src/alarm_recieveLCjms/MyTransportConfiguration.java:126-179 | of the relation that `Equals` decides: symmetric, transitive, consistent with the hash code, and reflexive exactly without null parameters |
| `Transport.MyTransportConfiguration.IsEquivalent` | RecieveMsgHornetq4.0/src/alarm_recieveLCjms/MyTransportConfiguration.java:189-207 | the same class, or two that both name Netty or both name InVM |
| `Transport.NotTransitive` | RecieveMsgHornetq4.0/src/alarm_recieveLCjms/MyTransportConfiguration.java:189-207 | any name with both words is equivalent to names that are not equivalent |
| `Transport.HasBothWords` | RecieveMsgHornetq4.0/src/alarm_recieveLCjms/MyTransportConfiguration.java:189-207 | NettyInVM is such a name |
| `Transport.ThroughExactly` | RecieveMsgHornetq4.0/src/alarm_recieveLCjms/MyTransportConfiguration.java:189-207 | equivalence carries over through a name, whatever stands on either side, exactly when the name does not hold both words |
| `Transport.EquivalentThrough` | RecieveMsgHornetq4.0/src/alarm_recieveLCjms/MyTransportConfiguration.java:189-207 | the half of it that needs no example: only such a name can break transitivity |

## Left out

- CryptoJS's prototype machinery, module wrappers, typed arrays, `clone`, `random`, formatters, `CipherParams`, the
  serializable and password-based wrappers, EvpKDF, and the Hex, Latin1, Utf8 and Utf16 codecs: language plumbing and
  glue; strings passed where an array is expected are taken as already converted.
- WordArray objects that share one JavaScript array of words: the words are a value of their object here.
- RIPEMD-160, SHA-3, SHA-224, SHA-384, RabbitLegacy, RC4Drop, CTRGladman and the paddings other than PKCS #7 and none:
  variants of what is modelled.
- Byte offsets from 2^32 on, where `>>> 2` would wrap, and byte counts from 2^53 on, where Numbers lose bits.
- SHA512.Sha512.DoProcessBlock: proved for the first 2^21 - 10 blocks only (256 megabytes), because the uncut hash words
  grow with every block: from 2^21 blocks on the sum of two of them may exceed 2^53, depending on the values hashed.
- Hashing.Hasher.Finalize: says nothing from 2^29 buffered bytes on, where `Hashing.IndicesRight` shows the marker or the
  length at the wrong word.
- HashFunctions.DigestChunks: pieces of less than 2^29 bytes, for the same reason.
- HMAC.HmacHasher.Finalize: says nothing of messages that leave no room below that size for a pad and the length.
- PBKDF2.Compute: the same of salts and passwords.
- The tables computed with `Math.sin`, `Math.sqrt` and `Math.pow`, and the initial values of SHA-256 and SHA-512:
  parameters of the right length and size.
- DES: the S-boxes are a parameter, and the key schedule (PC1, PC2, the shifts) is not modelled; the results hold for
  any sixteen subkeys and any tables.
- AES.Aes.constructor: keys that are not 4, 6 or 8 words long.
- Ciphers.NegativeExactly: ciphertexts that are not whole blocks, where `unpad` reads past the last byte.
- MD5.Md5.DoProcessBlock: the byte order of the words handed out at the end belongs to `HashFunctions.Md5`.
- Block modes without an IV throw where CBC, CFB, OFB and CTR read it; the model always has one.
- RC4.Cipher4.constructor: the index that is NaN for an empty key is the constant 0.
- Strength of any kind: secrecy, collision resistance, randomness.
- Callbacks' `remove`, `empty`, `unique` and `stopOnFalse`, callbacks that throw, and `when`, `pipe` and `always`:
  the Deferred uses none of the former, and the latter only combine what is modelled.
- Deferred.CallbackList.Begin: a method call ends where the loop calls the user's function; what runs in between is
  the machine's business, on values rather than in one call stack.
- EasyLoader: style sheets, URLs and the `css` flag; module tables with a cycle, on which `add` never returns.
- EasyLoader.Browser.RunQueue: the recursion through script callbacks is cut at each browser event.
- Data grid rendering, editing, loaders, sorting, events that veto, negative insert indices, selection without an id
  field, and ids that are null or only loosely equal (an id is a number or missing).
- Calendar: local time zones (a date is a day, and summer time only an offset of less than half a day in the week
  number), dates beyond the range of JavaScript dates, and months or first days out of range.
- ForEach.ForEach: a callback that changes the rows while they are walked.
- The buffer's own encodings: any encodings that reading undoes, and a read that ends early leaves the reader where it
  was; names and classes that are null make the string
  writer throw; `equals` of values of other classes is the identity of a number here.
- JMS senders and receivers, login, uploads, WeChat pages, locales and all other widgets: network, DOM and UI plumbing.
