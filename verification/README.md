# ashe in Dafny

A Dafny 4.11 model of the algorithmic core of the C++ library ashe, and proofs
about it. Every `.dfy` file is one module, and nearly every module is one source
file; `dafny verify dfyconfig.toml` checks the whole project.

Code that works by changing things step by step is modelled by classes and
methods with loops, proved against specification functions; what the source
promises is then proved about those functions, or about every run of a state
machine.

* **RSA** (`Rsa`, `RsaText`, on `NumberTheory`). 64-bit signed arithmetic wraps as
  two's complement does (`Machine`). Primes are preconditions. The round trip is
  proved from Fermat's little theorem, which is proved here from the binomial
  theorem.
* **Text** (`StringUtil`, `Base64`). Splitting, joining, decimal text and Base64.
* **Timers** (`TimerModel`, `TimerManager`). One step per critical section; the
  handler runs with the mutex released, while other steps happen. The history of
  added, removed and fired timers is part of the state, so that theorems speak
  of whole runs.
* **Message loop** (`MessageLoopModel`, `MessageLoop`). The four queues, the pump's
  program counter, the flag, the clock and the posters that have pushed a task
  and not yet called scheduleWork.
* **Configuration files** (`ConfigorModel`, `Configor`, `ConfigorReadback`). Printer,
  preprocessor, tokenizer and recursive-descent parser; the last module is the
  converse of the round trip.
* **Hashes** (`Sha256`, `Sha1`, `Md5`, `Sha512` and their `...Transform` modules, on
  `Streaming`, `Words`, `WordBytes`, `Bits`). The hash of a message is defined once,
  as the compression function over the padded message of the standard; the
  contexts carry the message absorbed so far as a ghost field. FIPS 180-4 and
  RFC 1321 are the standards.
* **CRC** (`Crc32`). The table against the shift register of RFC 1952.
* **BufferQueue** (`BufferQueue.dfy`), **MemoryPool** (`MemoryPool.dfy`). Heap objects with
  links in both directions; ghost sequences of nodes say what the links mean.
* **Search path editing** (`EnvVariable`).

Bytes and machine words are numbers with explicit modulus in the streaming code,
and bit vectors inside the transforms.

Where the code does less than its promise, the exact condition is proved:
products modulo more than 2^62 (`Rsa.ModMultCorrectIff`), powers modulo 1 or more than
2^62 (`Rsa.ModExpIsPowerIff`), Base64 encoding of 2^32 bytes or more
(`Base64.EncodeEndsIff`), timed sleeps of the default pump, which can miss work
(`MessageLoopModel.TimedSleepMissesIff`) and can end late
(`MessageLoopModel.TimedSleepIsBounded`), the 32-bit length field of SHA-512
(`Sha512.FieldsAgreeIff`) and its block offsets (`Sha512Transform.OffsetsExactIff`), the
value removeData returns for more bytes than there are, where the header promises
the number of elements crossed (`BufferQueues.RemoveResultIsCrossedIff`), the
removal of an empty path (`EnvVariable.EmptyPathNeverEnds`), the removal of a path of
several directories after adding it (`EnvVariable.RemoveUndoesAddIff`), splitting at
an empty delimiter (`StringUtil.EmptyDelimiterNeverEnds`), and configuration values
that do not read back (`ConfigorReadback.RoundTripIsIdentityIff`).

## Model

| member | source | states |
|---|---|---|
| Rsa.QuotientDetectsOverflow | src/rsa.cpp:1033-1037 | dividing the wrapped 64-bit product back by `a` gives `b` if and only if the product fits a signed 64-bit integer, and then nothing wrapped |
| Rsa.ModMult | src/rsa.cpp:1028-1060 | the multiplication with its three fallbacks returns the value of `ModMultValue`, wrap-around included, for all 64-bit arguments (the second one not the least) |
| Rsa.ModMultCorrect | src/rsa.cpp:1028-1060 | for every modulus up to 2^62 that value is `a * b` modulo `m`, although the product may wrap |
| Rsa.ModMultFailsAbove | src/rsa.cpp:1028-1060 | for every modulus above 2^62 the product of 2^62 and 2 comes out negative, exactly `-(2^63 - m)` where `2^63 - m` is right |
| Rsa.ModMultCorrectIff | src/rsa.cpp:1028-1060 | all products of residues come out right if and only if the modulus is at most 2^62 |
| Rsa.ShiftAddCorrect | src/rsa.cpp:1051-1059 | for moduli up to 2^62 the shift-and-add loop ends below `m` with `a * b` added modulo `m` |
| Rsa.LoopNeverWraps | src/rsa.cpp:1051-1059 | for such moduli no sum and no doubling at any turn of the loop leaves 64 bits |
| Rsa.HalvingNeverWraps | src/rsa.cpp:1039-1049 | nor does one in the halving branches |
| Rsa.OnlyProductsWrapIff | src/rsa.cpp:1028-1060 | in the whole recursion, for all residues, nothing but products that are then not used leaves 64 bits, if and only if the modulus is at most 2^62 |
| Rsa.ModExp | src/rsa.cpp:1062-1077 | square and multiply returns -1 in the three error cases and otherwise the value of `ModExpValue`, wrap-around included, for all 64-bit arguments |
| Rsa.ModExpLoopCorrect | src/rsa.cpp:1062-1077 | for moduli up to 2^62 the squaring loop multiplies its product by `x^e` modulo `m` |
| Rsa.ModExpIsPowerBelow | src/rsa.cpp:1062-1077 | for moduli up to 2^62 the result is `b^e` modulo `m` if and only if `m > 1` or `e > 0`: with modulus 1 the initial 1 is never reduced |
| Rsa.ModExpFailsAbove | src/rsa.cpp:1062-1077 | for every modulus above 2^62 the power `2^63` comes out negative, exactly `-(2^63 - m)` |
| Rsa.ModExpIsPowerIff | src/rsa.cpp:1062-1077 | among all 64-bit moduli the result is `b^e` modulo `m` for every base and exponent if and only if `1 < m <= 2^62` |
| Rsa.GcdLoop | src/rsa.cpp:1001-1009 | the loop computes the greatest common divisor |
| NumberTheory.GcdIsGreatestCommonDivisor | src/rsa.cpp:1001-1009 | the number it computes divides both arguments and every common divisor divides it |
| Rsa.EuclidStep | src/rsa.cpp:1013-1024 | one round keeps both Bezout identities and the alternating signs, and no product or difference in it leaves 64 bits |
| Rsa.ExtEuclid | src/rsa.cpp:1011-1026 | the returned coefficient completes `x * a + y * b == gcd(a, b)` and is no larger than `a` |
| Rsa.GenKeys | src/rsa.cpp:1104-1122 | for distinct primes that pass the loop exit the exponents are inverse modulo phi, and the sign fix ends with a positive `d` below phi |
| NumberTheory.RsaIdentity | src/rsa.cpp:1081-1178 | `a^n` is `a` modulo `p * q` for every `a`, also one not coprime to the modulus, when `n` is 1 modulo phi |
| Rsa.RoundTripValue | src/rsa.cpp:1062-1077 | decrypting the encryption of any residue gives it back |
| Rsa.RoundTripBytes | src/rsa.cpp:1125-1178 | decrypting the encryption of every byte array returns that array, for every key pair |
| Rsa.Encrypt | src/rsa.cpp:1125-1140 | for every 64-bit key: null exactly when an exponentiation reports an error, otherwise the encrypted values in order |
| Rsa.Decrypt | src/rsa.cpp:1142-1178 | for every 64-bit key: null exactly when the size is no multiple of 8; the comparison of a byte with -1 never fires |
| RsaText.RemoveFrontZero | src/rsa.cpp:1188-1207 | the flag loop drops exactly the leading zeros of a text longer than one character |
| RsaText.StripZerosOfPadded | src/rsa.cpp:1180-1207 | stripping undoes zero padding of any text that does not start with a zero |
| RsaText.GenKeysText | src/rsa.cpp:1211-1229 | the texts are those of a key pair that the numeric generator makes, each number padded to 20 digits |
| RsaText.ReadKey | src/rsa.cpp:1235-1243 | a key is read exactly from Base64 text of 40 characters |
| RsaText.ParseOfKeyText | src/rsa.cpp:1217-1243 | reading the printed text of any storable key gives the key back |
| RsaText.PrintNumbers | src/rsa.cpp:1251-1256 | the loop prints the decimal numbers joined by commas |
| RsaText.ReadNumbers | src/rsa.cpp:1295-1302 | an empty field is an error; otherwise the parsed numbers in order |
| RsaText.ParsedOfPrinted | src/rsa.cpp:1251-1302 | splitting and parsing the printed list gives the numbers back |
| RsaText.EncryptText | src/rsa.cpp:1231-1263 | every error case and the cipher text, against the specification `Encrypted` |
| RsaText.DecryptText | src/rsa.cpp:1273-1314 | every error case and the plain bytes, against the specification `Decrypted` |
| RsaText.TextRoundTrip | src/rsa.cpp:1211-1314 | text-level decryption of text-level encryption returns the plain bytes, for every non-empty input and every key pair, through padding, decimal text, commas and Base64 |
| RsaText.NumberTextFits | src/rsa.cpp:1251-1256 | the printed numbers of up to 204522252 bytes stay below the 2^32 characters that Base64 can encode, whatever the key |
| RsaText.EncryptAndDecrypt | src/rsa.cpp:1211-1314 | making the key texts, encrypting and decrypting, one call after the other, gives back every non-empty input of up to 204522252 bytes |
| StringUtil.FindIsFirst | src/string_util.cpp:390-407 | the search finds the first occurrence at or behind the offset, or there is none |
| StringUtil.StrSplit | src/string_util.cpp:390-407 | the loop collects the fields between delimiters, without the empty ones if so asked |
| StringUtil.EmptyDelimiterNeverEnds | src/string_util.cpp:390-401 | the one case shut out: with an empty delimiter the search finds the place it starts from, and the next one starts there again |
| StringUtil.StrJoin | src/string_util.cpp:428-445 | the stream holds the fields with delimiters between them, whatever the flag |
| StringUtil.JoinOfSplit | src/string_util.cpp:390-445 | joining what splitting gives returns the text, for every text and non-empty delimiter |
| StringUtil.SplitOfJoin | src/string_util.cpp:390-445 | splitting what joining gives returns the fields, if none holds the delimiter character |
| StringUtil.SplitFieldsAreClean | src/string_util.cpp:390-407 | no field holds a one-character delimiter |
| StringUtil.AtollOfToString | src/rsa.cpp:1217-1243 | reading a printed number gives it back over the whole 64-bit range |
| Base64.PosOfCharInvertsChars | src/base64.cpp:18-35 | the position function inverts the alphabet, in both alphabets |
| Base64.EncodeEndsIff | src/base64.cpp:151-175 | the 32-bit loop index passes the length if and only if the input is shorter than 2^32 bytes |
| Base64.Encode | src/base64.cpp:133-178 | for every such input the loop terminates with the encoding of the specification, '=' or '.' padded |
| Base64.QuadCarries24Bits | src/base64.cpp:153-172 | the four sextets of a group carry its bytes as one 24-bit number, which is RFC 4648's definition |
| Base64.EncodingLength | src/base64.cpp:134-177 | four characters for every group of three bytes begun |
| Base64.Decode | src/base64.cpp:37-131 | the chunk loop with its early returns, error cases and optional removal of newlines |
| Base64.DecodingOfEncoding | src/base64.cpp:37-178 | decoding inverts encoding for every input, in both alphabets |
| Base64.InsertLineBreaks | src/base64.cpp:222-238 | the inserting loop terminates and gives `Wrapped` |
| Base64.WrappedLines | src/base64.cpp:222-238 | every line but the last has exactly the given length, and the lines together are the text |
| Base64.WrappedRoundTrip | src/base64.cpp:46-238 | text broken at any distance (64 for PEM, 76 for MIME) still decodes to the input |
| TimerModel.InvAfterEveryRun | src/timer_manager.cpp:105-187 | the invariant holds after every interleaving of add, remove, destory, notifications and worker steps |
| TimerModel.EveryIdInOnePlace | src/timer_manager.cpp:105-187 | in every run each id handed out is exactly once in exactly one of: the free stack, the time queue, the worker's hands |
| TimerModel.AddReturnsUnusedId | src/timer_manager.cpp:109-121 | add never returns the id of a timer that is pending or whose handler runs |
| TimerModel.FiredIsEarliest | src/timer_manager.cpp:156-160 | what fires is due, and nothing pending is due earlier |
| TimerModel.FiringsFollowSchedule | src/timer_manager.cpp:121-180 | a timer's firing number k is scheduled at exactly `when + k * period`, starts no earlier, and none starts after the timer's remove |
| TimerModel.OneShotFiresAtMostOnce | src/timer_manager.cpp:171-181 | without a positive period a timer fires at most once in every run |
| TimerModel.NoLostWakeUp | src/timer_manager.cpp:150-184 | a worker that sleeps while no notification is owed to it has nothing due before it wakes |
| TimerModel.ApplyKeepsInv | src/timer_manager.cpp:105-187 | each single step keeps the invariant |
| TimerManager.Manager.Add | src/timer_manager.cpp:105-125 | the critical section performs the model's step, keeps the invariant and returns an id in use nowhere |
| TimerManager.Manager.NotifyAll | src/timer_manager.cpp:89-89 | one notification owed less, and a sleeping worker is awake, as the model's step |
| TimerManager.Manager.Locate | src/timer_manager.cpp:137-137 | the search finds the first entry of the id, or the end |
| TimerManager.Manager.Remove | src/timer_manager.cpp:131-145 | performs the model's step; false exactly for ids never handed out |
| TimerManager.Manager.WorkerTurn | src/timer_manager.cpp:150-163 | one loop turn up to a wait, the return, or the call of the handler |
| TimerManager.Manager.FinishFiring | src/timer_manager.cpp:169-181 | after the handler: reinserted one period later, or the id freed |
| TimerManager.Manager.Destroy | src/timer_manager.cpp:85-89 | the part that stops the worker performs the model's step |
| MessageLoopModel.InvAfterEveryRun | src/message_loop/message_loop.cpp:142-315 | the invariant holds after every run of the loop, the pump, the clock and any number of posters between push and scheduleWork |
| MessageLoopModel.ApplyKeepsInv | src/message_loop/message_pump_default.cpp:5-86 | each single step keeps the invariant |
| MessageLoopModel.BlockedPumpIsIdle | src/message_loop/message_pump_default.cpp:27-61 | whenever the pump blocks, work and deferred queues are empty, the deadline is the earliest delayed run time (zero exactly if none), and incoming tasks are announced or about to be |
| MessageLoopModel.UntimedSleepIsSafe | src/message_loop/message_pump_default.cpp:27-34 | the untimed wait never sleeps on posted work unless a wake-up is on its way |
| MessageLoopModel.TimedSleepIsBounded | src/message_loop/message_pump_default.cpp:36-55 | the timed wait ends after the earliest deadline by at most the time from the clock reading to the begin of the wait; it ends by the deadline if and only if that time is no more than what the cast to milliseconds cut off; the time-out leads back to doWork |
| MessageLoopModel.MissBegins | src/message_loop/message_pump_default.cpp:36-54 | in every run a timed sleep on work that was posted and fully announced begins exactly when the pump starts to wait with such work there, and then the flag was up: the wait does not look at it first |
| MessageLoopModel.TimedSleepMissesIff | src/message_loop/message_pump_default.cpp:36-54 | a timed sleep misses work, from its first moment to its last, if and only if it begins on fully announced work; begun with the flag down it never misses any |
| MessageLoopModel.TimedSleepCanMissWork | src/message_loop/message_pump_default.cpp:39-54 | such a run exists |
| MessageLoopModel.EachTaskInOnePlace | src/message_loop/message_loop.cpp:142-315 | each posted task is in exactly one of incoming, work, delayed, deferred, or has been taken to run exactly once; nothing is lost |
| MessageLoopModel.RunInPostingOrder | src/message_loop/message_loop.cpp:142-315 | the immediate nestable tasks run so far are a prefix of those posted, and so are the immediate non-nestable ones |
| MessageLoopModel.NeverTakenEarly | src/message_loop/message_loop.cpp:275-304 | no entry leaves the delayed queue before its run time |
| MessageLoopModel.EqualTimesOrder | src/message_loop/pending_task.cpp:16-29 | for equal times the earlier entry is preferred if and only if the wrapped distance of the sequence numbers is below 2^31 |
| MessageLoopModel.LessIsBefore | src/message_loop/pending_task.cpp:16-29 | for entries of different times, or less than 2^31 apart, the comparison is the order by time, then posting |
| MessageLoopModel.TakenInOrder | src/message_loop/message_loop.cpp:156-164 | in every run the top of the delayed queue is first by time, then by posting order, as long as live entries of one time are less than 2^31 apart |
| MessageLoopModel.TopExists | src/message_loop/pending_task.cpp:16-29 | such a queue has a top: the comparison has no cycles there |
| MessageLoopModel.MovedInPostingOrder | src/message_loop/message_loop.cpp:156-164 | delayed tasks enter the delayed queue in posting order, and their sequence numbers count them |
| MessageLoopModel.LongSpanBreaksOrder | src/message_loop/pending_task.cpp:26-28 | at a distance of 2^31 neither of two equal times is preferred, and one further the later one is |
| MessageLoopModel.LongSpanHasNoTop | src/message_loop/pending_task.cpp:16-29 | three equal times spread over three quarters of the sequence numbers form a cycle: such a queue has no top, wherever the numbers start |
| MessageLoop.Loop.AddToIncomingQueue | src/message_loop/message_loop.cpp:166-187 | the locked part pushes the task and says whether its poster must call scheduleWork |
| MessageLoop.Loop.ScheduleWork | src/message_loop/message_pump_default.cpp:71-79 | raises the flag; the notification is still owed |
| MessageLoop.Loop.ReloadWorkQueue | src/message_loop/message_loop.cpp:189-200 | an empty work queue takes over all incoming tasks; otherwise nothing changes |
| MessageLoop.Loop.WorkOneItem | src/message_loop/message_loop.cpp:251-268 | one turn of the inner loop delays, runs or defers the oldest task, as the model's step |
| MessageLoop.Loop.DoWorkTurn | src/message_loop/message_loop.cpp:244-272 | one turn of the outer loop is the drained sequence of the model's steps, and says which task to run |
| MessageLoop.Loop.Top | src/message_loop/message_loop.cpp:287-297 | the entry no other is above is first by time and posting order |
| MessageLoop.Loop.DoDelayedWork | src/message_loop/message_loop.cpp:275-304 | takes the top if it is due, reading the clock only when the remembered time is not enough, and stores the next deadline |
| MessageLoop.Loop.DoIdleWork | src/message_loop/message_loop.cpp:306-315 | runs the oldest deferred task |
| MessageLoop.Loop.ChooseWait | src/message_loop/message_pump_default.cpp:27-60 | chooses untimed wait, timed wait or none, as the model's step |
| MessageLoop.Loop.BeginWait | src/message_loop/message_pump_default.cpp:40-43 | the wait that starts now ends later than now, and after the earliest deadline by no more than the time since the clock was read |
| MessageLoop.Loop.CheckTimed | src/message_loop/message_pump_default.cpp:43-54 | after a wake-up: the flag taken down, or a new delay to wait for with the lock held |
| Configor.Config.TestChar | src/configor.cpp:220-236 | the quote and escape state moves as the specification says |
| Configor.Config.Preprocess | src/configor.cpp:329-358 | the line loop removes blanks and comments outside strings and keeps newlines inside them |
| Configor.Config.Tokenize | src/configor.cpp:360-405 | the character loop yields the tokens of the specification |
| Configor.Config.ReadArray | src/configor.cpp:287-311 | value lists, stray commas as empty values, optional semicolon |
| Configor.Config.ReadObject | src/configor.cpp:313-327 | elements up to the closing brace, optional semicolon |
| Configor.Config.ReadVar | src/configor.cpp:265-285 | one element, or none where the equals sign or the semicolon is missing |
| Configor.Config.ParseTokens | src/configor.cpp:407-416 | the whole token list; false only when the fuel runs out |
| Configor.Config.Load | src/configor.cpp:329-416 | preprocess, tokenize and parse in a row |
| Configor.Config.WriteElement | src/configor.cpp:428-487 | the printer appends exactly the specified text of an element |
| Configor.Config.Save | src/configor.cpp:588-599 | the saved text is that of all root elements |
| ConfigorModel.ScanIsTokOfPre | src/configor.cpp:329-405 | preprocessing and tokenizing in two passes is one scan of the text |
| ConfigorModel.ScanWriteAll | src/configor.cpp:329-487 | scanning printed text gives exactly the tokens of the tree, whatever the indentation |
| ConfigorModel.RoundTrip | src/configor.cpp:220-487 | parsing printed text terminates and gives back the forest up to what printing drops |
| ConfigorModel.PruneKeepsIff | src/configor.cpp:428-487 | printing drops nothing if and only if every node has values or children, and not both |
| ConfigorModel.UnclosedListNeverEnds | src/configor.cpp:255-311 | an opened list with nothing behind it keeps the value loop going whatever the fuel |
| ConfigorModel.RoundTripIsIdentity | src/configor.cpp:220-487 | for such forests loading what was saved is the identity |
| ConfigorReadback.ListReadsBackIff | src/configor.cpp:287-311 | a printed list reads back as itself if and only if its first and last values are not empty, none is a closing bracket and none but the first a comma |
| ConfigorReadback.EmptyFirstValueIsLost | src/configor.cpp:29-36 | setting only the second value of a new element leaves an empty first one, which reads back as a comma |
| ConfigorReadback.RoundTripIsIdentityIff | src/configor.cpp:220-487 | among forests of printable names and values, whose nodes have values or children and not both, loading what was saved gives the forest back if and only if every list and every single value in it is readable |
| Streaming.AbsorbMore | src/sha256.cpp:138-166 | more data continues from the state of the data so far and its unfinished block, wherever the message is split |
| Streaming.FillBlock | src/sha256.cpp:149-155 | data that completes the unfinished block makes exactly one more call of the compression function |
| Streaming.KeepPartial | src/sha256.cpp:143-147 | data that does not is only kept |
| Streaming.PaddingFillsBlock | src/sha256.cpp:171-210 | message, 0x80, zeros and length field fill whole blocks |
| Streaming.AbsorbPadding | src/sha256.cpp:171-210 | the padded message ends in one block or two, which depends on the buffered bytes only |
| Words.String2IntIsWordValue | src/sha256.cpp:54-57 | the shifts and ors of STRING2INT make the big-endian word |
| Sha256Transform.Transform | src/sha256.cpp:266-391 | with renamed registers and a schedule kept in sixteen words the result is that of FIPS 180-4, section 6.2.2, for every state and block |
| Sha256Transform.Round | src/sha256.cpp:43-49 | ROUND is one step of the standard, on registers renamed instead of moved |
| Sha256Transform.Expand | src/sha256.cpp:41-41 | EXPAND, on indices modulo 16, puts the next schedule word in place |
| Sha256Transform.PlainRounds | src/sha256.cpp:342-351 | eight rounds on the words of the block bring the registers back in place |
| Sha256Transform.ExpandedRounds | src/sha256.cpp:353-370 | eight rounds on expanded words |
| Sha256.LengthWords | src/sha256.cpp:207-208 | the two words shifted together from the block counters and the index are the 64-bit bit length of the standard |
| Sha256.NextCount | src/sha256.cpp:249-251 | the carry between the two counters keeps the number of blocks modulo 2^64 |
| Sha256.Parse | src/sha256.cpp:253-255 | the words of a block as section 5.2.1 of FIPS 180-4 reads them |
| Sha256.Context.constructor | src/sha256.cpp:116-136 | init: the initial hash value of FIPS 180-4, section 5.3.3, for the empty message |
| Sha256.Context.Sha256Block | src/sha256.cpp:245-258 | counts the block and compresses it: state and counters account for the longer message |
| Sha256.Context.Update | src/sha256.cpp:138-166 | after any update the state is the compression of all whole blocks so far and the buffer holds the rest |
| Sha256.Context.Final | src/sha256.cpp:171-210 | the state is the compression function over the message padded as FIPS 180-4, section 5.1.1, says |
| Sha256.Context.Digest | src/sha256.cpp:212-243 | the digest bytes are the words of the state, most significant byte first |
| Sha256.GetDataSha256 | src/sha256.cpp:425-447 | feeding data in chunks of 10240 bytes gives the SHA-256 of the data |
| Sha1Transform.SwapIsBigWord | src/sha1.cpp:179-184 | SHABLK0 turns the word a little-endian machine loads into the big-endian one |
| Sha1Transform.Block | src/sha1.cpp:186-189 | SHABLK puts the next schedule word into its place modulo 16 |
| Sha1Transform.R0 | src/sha1.cpp:191-195 | a round on a loaded word is one step of the standard |
| Sha1Transform.R1 | src/sha1.cpp:196-200 | rounds 16 to 19 are steps of the standard |
| Sha1Transform.R2 | src/sha1.cpp:201-205 | rounds 20 to 39 are steps of the standard |
| Sha1Transform.R3 | src/sha1.cpp:206-210 | rounds 40 to 59, with the rewritten majority, are steps of the standard |
| Sha1Transform.R4 | src/sha1.cpp:211-215 | rounds 60 to 79 are steps of the standard |
| Sha1Transform.Transform | src/sha1.cpp:217-319 | the eighty unrolled rounds are FIPS 180-4, section 6.1.2, for every state and block |
| Sha1.CountMore | src/sha1.cpp:36-39 | the two-word counter with its carry test counts bits modulo 2^64 |
| Sha1.BufferedBytes | src/sha1.cpp:34-34 | the counter's bits 3 to 8 are the number of buffered bytes |
| Sha1.BufferedBits | src/sha1.cpp:67-67 | the mask 504 picks eight times the number of buffered bytes |
| Sha1.PaddingStops | src/sha1.cpp:65-68 | the zero-feeding loop stops exactly when the standard's zeros are complete |
| Sha1.CountByteIsLength | src/sha1.cpp:61-63 | the eight bytes prepared are the 64-bit length of the standard |
| Sha1.DigestOfState | src/sha1.cpp:72-74 | the digest bytes are the words of the state, most significant byte first |
| Sha1.SumTestExactIff | src/sha1.cpp:41-41 | the 32-bit test for a full buffer is right if and only if buffered and new bytes number fewer than 2^32 |
| Sha1.StaysBelow | src/sha1.cpp:44-46 | below that bound the 32-bit sum of the loop test never wraps |
| Sha1.Context.Update | src/sha1.cpp:31-55 | after any update the state is the compression of all whole blocks so far and the buffer holds the rest |
| Sha1.Context.Final | src/sha1.cpp:57-85 | padding fed through update gives the hash of FIPS 180-4, section 6.1, in a digest that survives the wiping |
| Sha1.GetDataSha1 | src/sha1.cpp:150-175 | feeding data in chunks of 10240 bytes gives the SHA-1 of the data |
| Md5Transform.Step1 | src/md5.cpp:189-195 | MD5STEP with the rewritten F is one operation of round 1 of RFC 1321 |
| Md5Transform.Step2 | src/md5.cpp:190-195 | the same for G, expressed through F, in round 2 |
| Md5Transform.Step3 | src/md5.cpp:191-195 | the same for H in round 3 |
| Md5Transform.Step4 | src/md5.cpp:192-195 | the same for I in round 4 |
| Md5Transform.Transform | src/md5.cpp:202-282 | the sixty-four steps, with their word indices and shifts, are RFC 1321, section 3.4, for every state and block |
| Md5.CountMore | src/md5.cpp:83-86 | the two-word byte counter with its carry test counts modulo 2^64 |
| Md5.LengthWords | src/md5.cpp:139-140 | the two shifted counter words are the bit length modulo 2^64, low-order byte first |
| Md5.Context.Update | src/md5.cpp:78-113 | after any update the state is the compression of all whole blocks so far and the buffer holds the rest |
| Md5.Context.Final | src/md5.cpp:119-148 | the digest is that of the message padded as RFC 1321, sections 3.1 and 3.2, says, in one last block or two |
| Md5.GetDataMd5 | src/md5.cpp:301-328 | feeding data in chunks of 10240 bytes gives the MD5 of the data |
| Sha512Transform.Expand | src/sha512.cpp:173-178 | the array holds the eighty schedule words of the standard |
| Sha512Transform.TransformBlock | src/sha512.cpp:171-198 | one pass of the outer loop is FIPS 180-4, section 6.4.2, for every state and block |
| Sha512Transform.Transform | src/sha512.cpp:166-199 | compresses the given number of blocks in order, each found at its offset |
| Sha512Transform.OffsetsExactIff | src/sha512.cpp:172-173 | the shifted int offsets of the blocks are right if and only if there are at most 2^24 of them |
| Sha512.FieldsAgreeIff | src/sha512.cpp:149-158 | for every message the standard can hash, the length field written is the standard's if and only if the message is shorter than 2^29 bytes |
| Sha512.TotalMore | src/sha512.cpp:141-146 | m_tot_len counts the bytes of whole blocks modulo 2^32 |
| Sha512.BitLength | src/sha512.cpp:154-154 | the 32-bit length is the bit length modulo 2^32, overflows included |
| Sha512.LastBlocks | src/sha512.cpp:153-158 | memset, 0x80 and four length bytes make the buffered bytes with that padding |
| Sha512.SumTestExactIff | src/sha512.cpp:134-134 | the 32-bit test for an unfinished block is right if and only if buffered and new bytes number fewer than 2^32 |
| Sha512.BlocksFitIff | src/sha512.cpp:136-146 | the blocks behind the first one number at most 2^24 if and only if buffered and new bytes number fewer than 2^31 + 256 |
| Sha512.Context.Update | src/sha512.cpp:127-147 | after any update the state is the compression of all whole blocks so far and the buffer holds the rest |
| Sha512.Context.Final | src/sha512.cpp:149-164 | the hash of the padding the code builds, which below 2^29 bytes is the SHA-512 of FIPS 180-4 |
| Sha512.Context.Digest | src/sha512.cpp:161-163 | the digest bytes are the words of the state, most significant byte first |
| Sha512.GetDataSha512 | src/sha512.cpp:241-250 | one update with the size cut to 32 bits: below 2^29 bytes the SHA-512 of the data |
| Crc32.TableIsEight | src/crc32.cpp:29-68 | every one of the 256 table entries is eight shift-and-xor steps from its index |
| Crc32.LookupIsBitwise | src/crc32.cpp:69-71 | one table look-up equals the eight bitwise steps of RFC 1952, section 8, for every register and byte |
| Crc32.EightOfXor | src/crc32.cpp:69-71 | eight steps are linear over exclusive or |
| Crc32.Context.Update | src/crc32.cpp:26-71 | the loop leaves the register that bitwise division leaves, from every state |
| Crc32.RegisterAppend | src/crc32.cpp:110-124 | chunks one after the other leave the register of the whole |
| Crc32.GetDataCrc32 | src/crc32.cpp:110-127 | the loop over chunks of 10240 bytes gives the CRC of one pass |
| Crc32.RegisterIsInjective | src/crc32.cpp:69-71 | different registers stay different whatever data follows |
| Crc32.BurstIsDetected | src/crc32.cpp:26-75 | two messages of equal length that differ only inside four consecutive bytes have different CRCs |
| BufferQueues.BufferQueue.PushElementToFront | src/buffer_queue.cpp:20-63 | refused exactly for a null pointer or size zero; otherwise a new first element, links and counters exact |
| BufferQueues.BufferQueue.PushElementToLast | src/buffer_queue.cpp:65-110 | the same at the other end |
| BufferQueues.BufferQueue.PopElementFromFront | src/buffer_queue.cpp:112-151 | the first element goes, and as many of its bytes as fit are copied |
| BufferQueues.BufferQueue.PopElementFromLast | src/buffer_queue.cpp:153-191 | the same for the last element |
| BufferQueues.BufferQueue.GetDataFromFrontElement | src/buffer_queue.cpp:193-213 | a prefix of the first element's unread bytes, nothing changed |
| BufferQueues.BufferQueue.GetDataFromLastElement | src/buffer_queue.cpp:215-235 | a prefix of the last element's unread bytes, nothing changed |
| BufferQueues.BufferQueue.PopDataCrossElement | src/buffer_queue.cpp:273-332 | returns and removes exactly the first min(n, total) bytes of the concatenation, across elements, and counts the elements thrown away |
| BufferQueues.BufferQueue.RemoveData | src/buffer_queue.cpp:334-367 | removes the first n bytes; the value returned for every n |
| BufferQueues.RemoveResultIsCrossedIff | src/buffer_queue.cpp:334-367 | that value is the number of elements touched if and only if n is at most the total, or the queue is empty; above the total it is one too many |
| BufferQueues.DropBytesFlat | src/buffer_queue.cpp:273-367 | the elements left hold exactly the remaining bytes |
| BufferQueues.DropBytesNonEmpty | src/buffer_queue.cpp:284-303 | no empty element is left behind |
| BufferQueues.DropBytesAll | src/buffer_queue.cpp:273-367 | the queue is empty afterwards if and only if all its bytes were taken |
| BufferQueues.CrossedPrefix | src/buffer_queue.cpp:334-367 | the number touched is the least k whose first k elements hold n bytes |
| BufferQueues.CrossedElements | src/buffer_queue.cpp:334-367 | of the elements touched at most one, shortened, is still there |
| BufferQueues.BufferQueue.Clear | src/buffer_queue.cpp:237-261 | the walk frees every node once, in order, and returns how many |
| BufferQueues.BufferQueue.GetFrontElementDataSize | src/buffer_queue.cpp:369-372 | the unread bytes of the first element |
| BufferQueues.BufferQueue.GetLastElementDataSize | src/buffer_queue.cpp:374-377 | the unread bytes of the last element |
| BufferQueues.BufferQueue.ToOneBuffer | src/buffer_queue.cpp:379-403 | the concatenation of all unread bytes, nothing changed |
| BufferQueues.BufferQueue.ToOneBufferWithNullEnding | src/buffer_queue.cpp:405-431 | the same with a zero byte behind it |
| BufferQueues.BufferQueue.UnlinkFront | src/buffer_queue.cpp:129-147 | the first node leaves a correctly linked list |
| BufferQueues.BufferQueue.UnlinkLast | src/buffer_queue.cpp:169-187 | the last node leaves a correctly linked list |
| MemoryPools.PadPointerAligns | include/ashe/memory_pool.h:113-118 | for alignments that divide 2^64 the result is the least padding that aligns the pointer, and zero if and only if it is aligned |
| MemoryPools.PaddingIsZero | include/ashe/memory_pool.h:212-242 | behind an aligned header the padding is zero, so allocate skips exactly the header deallocate steps back over |
| MemoryPools.MemoryPool.Allocate | include/ashe/memory_pool.h:207-246 | hands out a block that was not live: the head of the free list, or a new one if that is empty; both lists stay correctly linked and disjoint |
| MemoryPools.MemoryPool.AllocateBlock | include/ashe/memory_pool.h:190-204 | a new block at the head of the live list, registered at its address, its body left as operator new gave it |
| MemoryPools.MemoryPool.PopFree | include/ashe/memory_pool.h:219-224 | the head of the free list leaves it |
| MemoryPools.MemoryPool.PushLive | include/ashe/memory_pool.h:226-230 | a block in no list becomes the head of the live list |
| MemoryPools.MemoryPool.Deallocate | include/ashe/memory_pool.h:248-282 | null changes nothing; otherwise the block behind the pointer moves from any place of the live list to the head of the free list, its body zeroed if so configured, every other body untouched |
| MemoryPools.MemoryPool.BypassBlock | include/ashe/memory_pool.h:260-266 | the neighbours of the leaving block point at each other, whether both, one or none exist |
| MemoryPools.MemoryPool.Destroy | include/ashe/memory_pool.h:159-176 | the two walks give back every block ever obtained exactly once |
| MemoryPools.MemoryPool.DeleteList | include/ashe/memory_pool.h:163-168 | a walk gives back the blocks of one list in order |
| MemoryPools.BlocksApart | include/ashe/memory_pool.h:190-246 | two blocks of the pool, live or free, never overlap |
| MemoryPools.WithoutMiddle | include/ashe/memory_pool.h:260-270 | what is left of the live list is the list without the block, in order |
| EnvVariable.PathRemove | src/win/env_variable.cpp:330-377 | the editing loop terminates; the text is the join of the components left when, from the left, the components of path are taken out wherever they stand in a row, and the count says how often; paths with semicolons included |
| EnvVariable.EmptyPathNeverEnds | src/win/env_variable.cpp:339-372 | the one case shut out: with an empty path and nothing but empty components the search stands at the same match after every edit |
| EnvVariable.RemovedIsFilter | src/win/env_variable.cpp:330-377 | for one directory the text is the join of the components without those equal to path, and the count is their number |
| EnvVariable.RemovedHasNone | src/win/env_variable.cpp:330-377 | no component equal to path is left |
| EnvVariable.CountsTheRemoved | src/win/env_variable.cpp:345-347 | the components kept and those counted are all there were |
| EnvVariable.RunOccursIff | src/win/env_variable.cpp:341-347 | something is counted if and only if the components of path stand somewhere in a row |
| EnvVariable.MatchAtStartIff | src/win/env_variable.cpp:311-314 | the test of both loops, on characters, holds at a component if and only if the components of path stand there in a row |
| EnvVariable.FirstMatch | src/win/env_variable.cpp:340-345 | the first match found in the text is the leftmost run of the components of path |
| EnvVariable.EditedText | src/win/env_variable.cpp:348-366 | each of the three ways to cut the match out leaves whole components with their semicolons |
| EnvVariable.EditGoesOn | src/win/env_variable.cpp:340-371 | an edit shortens the text and makes no match before its place, so the search may go on there |
| EnvVariable.ComponentsOfConcat | src/win/env_variable.cpp:330-377 | a semicolon between two texts splits their components |
| EnvVariable.PathAdd | src/win/env_variable.cpp:300-328 | unchanged if and only if the components of path stand in a row already; otherwise path becomes the value or is appended; every path |
| EnvVariable.AddedComponents | src/win/env_variable.cpp:300-328 | the components of path stand behind the others, which keep their order, and a second call changes nothing |
| EnvVariable.RemoveUndoesAddIff | src/win/env_variable.cpp:300-377 | for every path not there before, removing undoes adding if and only if, where the components of path are then first found, those of them that stood there before are also its last ones |
| EnvVariable.RemoveCanReorder | src/win/env_variable.cpp:300-377 | adding `x;y;x` to `x;y` and removing it leaves `y;x` |
| EnvVariable.RemoveUndoesAdd | src/win/env_variable.cpp:300-377 | removing one directory that was not there undoes adding it, always |

## Left out

- Rsa.ModMult: the least 64-bit number is no second argument, since negating it is undefined in the source; the exponentiation never passes it.
- RsaText.EncryptText: requires fewer than 2^32 characters of printed numbers, which is what Base64 encoding needs to terminate; `RsaText.NumberTextFits` says when that holds.
- Rsa.GenKeys: takes the two primes as arguments; the random choice, whose index can equal the length of the table, and the primality of the table are not modelled.
- Base64.Encode: requires fewer than 2^32 bytes; `Base64.EncodeEndsIff` says that the loop does not end otherwise.
- Configor.Config.Load: carries fuel, because on malformed input the loops of the source need not end (`ConfigorModel.UnclosedListNeverEnds`); on printed text any fuel above the number of tokens is enough.
- Configor.Config.ParseTokens: carries the same fuel.
- ConfigorModel.RoundTrip: names are non-empty and plain, and values hold no quote, backslash or newline; which of the values then read back is exact (`ConfigorReadback.RoundTripIsIdentityIff`). Line and column of tokens are not modelled.
- StringUtil.StrSplit: requires a delimiter that is not empty, without which the loop does not end (`StringUtil.EmptyDelimiterNeverEnds`).
- MessageLoop.Loop.DoDelayedWork: requires live entries of one time to be less than 2^31 sequence numbers apart, without which there may be no top to take (`MessageLoopModel.LongSpanHasNoTop`).
- MessageLoop.Loop.Top: requires the same.
- MessageLoopModel.InvAfterEveryRun: no nested loops, no destructor and no MessagePumpForWin; a task is an opaque step during which others may post.
- TimerModel.InvAfterEveryRun: the handler is one opaque step; the unlocked read of its callback, and destruction after the join, are not modelled.
- Sha1.Context.Update: requires that buffered and new bytes together number fewer than 2^32, since the source adds them in 32 bits and from there on its test takes the data for a partial block (`Sha1.SumTestExactIff`).
- Sha512.Context.Update: requires buffered and new bytes to number fewer than 2^31 + 256, since the offsets of further blocks leave the int range (`Sha512.BlocksFitIff`, `Sha512Transform.OffsetsExactIff`).
- Sha512.GetDataSha512: says nothing about sizes that, cut to 32 bits, are 2^31 + 256 or more, for the same reason.
- Sha512Transform.Transform: requires at most 2^24 blocks, for the same reason.
- Sha256.Context.Update: a chunk has fewer than 2^32 bytes, as its parameter type says.
- Md5.Context.Update: a chunk has fewer than 2^32 bytes, as its parameter type says; the byte-swapping of big-endian hosts is not modelled.
- Sha1Transform.Transform: the load of words is the one of a little-endian host; the workspace shared between calls is not modelled.
- Md5Transform.Transform: the additive constants are one table, not written again at each step.
- Crc32.TableIsEight: the table is sixteen functions of sixteen entries each, in the source's order, so that an index is a bit vector.
- BufferQueues.BufferQueue.PopElementFromFront: the caller's output buffer is a returned sequence; failure of malloc, the mutex and wrap-around of size_t are not modelled.
- MemoryPools.MemoryPool.Allocate: the address operator new returns, aligned and clear of the other blocks, and the bytes found there are parameters; a block's body is a sequence, and moving or swapping pools is not modelled.
- EnvVariable.PathRemove: requires a non-empty path or a component that is not empty, without which the loop does not end (`EnvVariable.EmptyPathNeverEnds`); the registry and its notifications are not modelled.
- MessageLoop.Loop.ScheduleWork: waits while the pump holds the lock, which is a requires; that waiting is a blocked step of the model.
- Hex text of digests, and the functions that hash files.
- Win32, COM, registry, WinHTTP, processes, services, logging and file access.
- Thread, ThreadPool, AsyncWorker, Event, AtExitManager and MessagePumpForWin.
- IPAddress, xorstr, hex and URL codecs, Version, CmdLineParser, path helpers, StrReplace and wide-character twins of string functions.
