# c_utils, modelled and proved

A Dafny model of the parts of the C++ utility library `c_utils` that carry protocols, encodings or coupled
tables, with proofs of what they promise. `dafny verify dfyconfig.toml` checks all of it.

| files | component | form |
|---|---|---|
| `RefBase`, `RefBaseProofs`, `RefBaseSafety`, `RefBaseCalls`, `RefBaseEndgames`, `RefBaseDiscipline` | `sptr`, `wptr`, `RefBase`, `RefCounter`, `WeakRefCounter` around one object | step machine, one atomic operation a step, any number of threads |
| `RwLock`, `RwLockProgress` | `RWLock` | step machine, one atomic access a step |
| `Utf8Codec`, `Unicode` | UTF-8/UTF-16 conversion | methods over byte and unit buffers against pure specifications; RFC 3629 section 4, RFC 2781 sections 2.1 and 2.2 |
| `ParcelCodec`, `ParcelRoundTrip`, `ParcelReads`, `Parcel`, `ParcelSession` | `Parcel` | class over a growing byte array against a pure encoding and a pure reader |
| `EventChain`, `EventReactor` | `IOEventReactor`, `IOEventHandler`, `IOEventEpoll` | classes with linked nodes |
| `EventRaces` | concurrent calls of `AddHandler`, `UpdateHandler` and `RemoveHandler` for one descriptor | step machine, one test, walk, store or stay inside the mutex a step |
| `TimerTables`, `Timer`, `TimerRuns` | `Timer` and the timer half of `EventReactor` | class with maps against predicates on the tables; runs of its sections |
| `TimerIds` | the id counter that all `Timer` objects share | step machine, one atomic access a step |
| `Monitors`, `BlockQueue`, `ThreadPool` | `SafeBlockQueue`, `ThreadPool` | monitors as step machines, one stay inside the mutex a step |
| `MappedFile` | `MappedFile`: the window and its arithmetic | class |
| `Strings` | `ReplaceStr`, `SplitStr`, `TrimStr`, `CountStrInStr`, `GetSubStrBetween` | methods against one pure function |
| `Basics`, `Sums`, `Sequences`, `Arithmetic` | options, sums over threads, positions, division | |

## What the models assume

- Reference counting: atomics are sequentially consistent, `compare_exchange_weak` may fail at will, fewer than 2^28
  references exist. The clients' discipline is the enabling condition of each operation (`Enabled` in `RefBase`): an
  sptr is made from a raw pointer only while some sptr is held, or the object is still with its creator, or its
  life-time is extended and a weak reference is held; a wptr is copied from a wptr, and not given up while a running
  call reads it; `ExtendObjectLifetime` comes first or from an sptr holder. A reference is not given up while somebody
  relies on it alone: a thread that uses the raw pointer and has not counted a strong reference yet, or one that is
  making a wptr. For both kinds of references and both life-times this last rule is exact (`DropIsSafeExactly`,
  `WptrDropIsSafeExactly`): every drop that it refuses leads to a use after delete or to a leak in some continuation,
  and no other does.
- RWLock: calls nest properly, reads may nest in a write, a write nests in nothing. `writeThreadID_` is a plain
  member in the source; the model reads and writes it in one step.
- ThreadPool: a task may call `AddTask` on its own pool, but not `Stop`, which would wait for itself.
- Parcel: the allocator does not fail, the object check is compiled in, `sizeof` of a flattened object is 24 and that
  of the string classes a multiple of four, the machine is little-endian.
- Reactor: in `EventReactor` one public call runs at a time. The mutex does not see to that: `AddHandler` and
  `UpdateHandler` test `prev_` before they lock, and `UpdateHandler` walks the list and stores the mask without the
  lock; `EventRaces` says what comes of it. `Clean` and `HandleEvents` index `ioHandlers_` unchecked, so their callers
  have to know that the descriptor is in the table. The result of the system call is a parameter, so failures are
  covered; `Perform` is about a backend that works.
- Timer: descriptors handed out by the system are not open already, and a section under the mutex is one step: between
  the two sections of `OnTimer` anything may come (`TimerRuns`). In `Timer` no other Timer object's `Register` runs
  while one of this timer does: the id counter is one for all of them, and not guarded by their mutexes. `TimerIds`
  has the counter with any number of timers, and says what happens without that assumption.
- MappedFile: the file is there with a size, or it is not and may be created on demand; it keeps its size. `mmap` may
  fail; the other system calls succeed.

## Where the code and its documentation differ

- The comment on `GetValidId` (`base/src/timer.cpp:212`) allows UINT32_MAX as an id; the code, and so the model, does not.
- `TrimStr` promises to trim; a string of two or more blanks is returned unchanged (`Strings.TrimStrTrims`).

## Where the code falls short

Each with the input that shows it and, where a caller can keep out of it, the exact condition.

- `ThreadPool::Stop` does not wake callers of `AddTask`; and a running pool blocks for good when all its workers add
  to a full queue: `ThreadPool.BlockedForeverExactly`, `StoppedPoolCanBeStuck`, `RunningPoolCanBeStuck`.
- `Stop` drops what is queued, once no worker is in `ScheduleTask` any more: `ThreadPool.QueueIsDroppedExactly`,
  `QueuedTaskIsDropped`.
- Two concurrent `AddHandler` calls for one handler both pass the test before the lock; the second insertion makes the
  list endless, and a walk over it never ends: `EventRaces.BreaksExactly`, `TwoAddsBreakTheList`,
  `EventChain.InsertNodeFront`. And `UpdateHandler` can store a mask that a call in between has made out of date:
  `EventRaces.StaleMask`.
- Two `Timer` objects that register at the same time can be given an id twice, or the error code as an id:
  `TimerIds.GoodIdsExactlyForOneTimer`.
- When the ids have come round between the two sections of `OnTimer`, its erase can stop the timer that periodic
  entries share: `TimerRuns.Run`, `ReissuedIdBreaks`.
- A string of 2^32 units or more can be accepted by a parcel and arrive cut, a C string even without its end:
  `ParcelBuffer.SentIsWhole`, `CStringSentExactly`.
- A write lock taken twice is given back by the first unlock: `RwLock.NestedWriteReleasesEarly`.
- With write-first, a reader that asks for a second read lock while a writer waits is stuck for good, and so is the
  writer: `RwLockProgress.ProgressExactly`, `NeitherGets`.
- An sptr dropped while a raw pointer is being taken up, or the last reference while a wptr is being made:
  `RefBaseDiscipline.DropIsSafeExactly`, `WptrDropIsSafeExactly`.

## Model

| member | source | states |
|---|---|---|
| `RefBaseSafety.CountersCountReferences` | base/src/refbase.cpp:261-350 | in every interleaving: strong = sptrs + shares in flight + the 1<<28 bias while it is on; weak = sptrs + open WeakRefCounters + shares in flight; the reference count likewise |
| `RefBaseSafety.BiasLeavesOnce` | base/src/refbase.cpp:570-584 | the bias is subtracted at most once and is in the count exactly until then, at most one thread is about to subtract it, however first acquisitions race; and OnFirstStrongRef runs at most once (when it does, the next row says) |
| `RefBaseCalls.FirstStrongRefIsTold` | base/src/refbase.cpp:570-584 | in every run from a new object, calls of OnFirstStrongRef made and pending are as many as IncStrongRef took the strong count up from the bias: one or none, and none exactly when there was no strong reference yet or a promotion was the first; a run without promotions has one as soon as there was a strong reference |
| `RefBaseCalls.LastStrongRefIsTold` | base/src/refbase.cpp:600-622 | calls of OnLastStrongRef made and pending are as many as the strong count went from 1 to 0; with a normal life-time that is once, exactly when the object is past its last strong reference |
| `RefBaseCalls.CallsDoTheirWork` | base/include/refbase.h:893-1065 | whatever the others do: a thread that is back from its call has itself made exactly one sptr, one wptr of the WeakRefCounter it copied, or one WeakRefCounter with one wptr more, or given up just one; it has called OnFirstStrongRef and OnLastStrongRef exactly as often as it took the count through these points; a promotion has made an sptr, or nothing and the object is past its last strong reference |
| `RefBaseCalls.ComesBackAlone` | base/src/refbase.cpp:261-452 | no call waits for another thread: from any state, wherever the others stopped, a thread that runs alone is back within 24 steps |
| `RefBaseSafety.NoUseAfterFree` | base/src/refbase.cpp:553-622 | no step of any run touches the object, the RefCounter or a WeakRefCounter after its delete, and nothing is deleted twice |
| `RefBaseSafety.DeletedOnlyWhenUnreferenced` | base/src/refbase.cpp:600-622 | normal life-time: deleted only after the strong 1-to-0 step, or with the last weak reference if there never was a strong one; extended: only at weak 0 |
| `RefBaseSafety.DeadForever` | base/src/refbase.cpp:397-452 | once the last strong reference has gone (normal life-time), in every continuation the strong count stays 0, no promotion succeeds, and the object has been deleted once or is about to be by exactly one thread |
| `RefBaseSafety.DeadIsDeleted` | base/src/refbase.cpp:600-622 | that thread has at most three steps to go, and when nobody is busy the object is deleted |
| `RefBaseSafety.PromotedObjectLives` | base/include/refbase.h:1348-1554 | a promotion that succeeds hands out an object that is alive: callback_ is set and nothing has been deleted |
| `RefBaseSafety.PromotionFailsOnlyOnDead` | base/src/refbase.cpp:397-452 | a promotion gives up only when the life-time is normal and the last strong reference has gone |
| `RefBaseSafety.ReferencedObjectLives` | base/src/refbase.cpp:317-350 | while an sptr exists, or any weak reference in extended mode, object and counter are alive |
| `RefBaseSafety.ExtendedLivesOnWeak` | base/src/refbase.cpp:565-568 | from ExtendObjectLifetime on, in every continuation, the object lives as long as the weak count is not 0 |
| `RefBaseSafety.CounterOutlivesObject` | base/src/refbase.cpp:195-216 | the RefCounter is deleted only after the object, with no sptr and no WeakRefCounter left |
| `RefBaseSafety.NothingLeaks` | base/src/refbase.cpp:553-563 | both life-time modes: when all holders are gone and no thread is busy, object and RefCounter have each been deleted exactly once |
| `RefBaseDiscipline.DropIsSafeExactly` | base/src/refbase.cpp:570-622 | both life-times: dropping an sptr is safe in every continuation if and only if the discipline allows it; every other drop has a continuation that uses the object or the RefCounter after its delete, or in which one of them is never deleted; with a normal life-time it is a use after delete |
| `RefBaseDiscipline.WptrDropIsSafeExactly` | base/src/refbase.cpp:317-350 | the same for dropping a wptr that no running call reads |
| `RefBaseDiscipline.LastSptrRule` | base/include/refbase.h:893-1065 | the same in terms of the other threads: dropping the only sptr does harm exactly when none of them has counted a strong reference for an sptr, one uses the raw pointer or makes a wptr, and what would do instead is not there: with an extended life-time a wptr or another acquisition that is counted in the weak count; otherwise, and then only for the making of a wptr, a wptr |
| `RefBaseDiscipline.UnbackedAcquisitionFaults` | base/include/refbase.h:893-1065 | such drops there are: two threads build an sptr from a new object's pointer, and the first to finish drops its own |
| `RefBaseEndgames.ZombieDoomed` | base/src/refbase.cpp:317-350 | wptrs that are made after the weak count has been 0 take it to 0 again, which deletes the RefCounter under the last of them |
| `RefBaseEndgames.WreckLeaks` | base/src/refbase.cpp:553-563 | where the weak count keeps the object, wptrs that are made and promoted while ~RefBase runs keep it from giving back the object's share of the RefCounter, which is then never deleted |
| `RefBaseProofs.StepKeeps` | base/src/refbase.cpp:205-350 | each atomic step of each operation keeps the invariant that ties counters, holders, life-time mode, deleted and freed together |
| `RefBaseProofs.RunsKeep` | base/src/refbase.cpp:205-350 | hence every run keeps it |
| `RefBaseProofs.InitInv` | base/src/refbase.cpp:185-188 | a new object satisfies it |
| `RwLock.CountsAreExact` | base/src/rwlock.cpp:26-87 | lockCount_ is -1 exactly while one thread has the write lock and no shared read exists, otherwise the number of shared reads; writeWaitCount_ counts the registered writers |
| `RwLock.MutualExclusion` | base/src/rwlock.cpp:26-87 | a writer excludes every other writer and every shared reader, and writeThreadID_ names only the owner |
| `RwLock.GateStays` | base/src/rwlock.cpp:34-38 | write-first: while a writer is registered no step lets another reader past the gate |
| `RwLock.WriterOvertakenBoundedly` | base/src/rwlock.cpp:34-38 | write-first: as long as a writer stays registered, the read locks granted are at most the readers that were past the gate at the start |
| `RwLock.NestedWriteReleasesEarly` | base/src/rwlock.cpp:57-87 | why writes must not nest: the inner LockWrite leaves no trace, and the first UnLockWrite already frees the lock |
| `RwLock.StepKeeps` | base/src/rwlock.cpp:26-87 | every atomic access by every operation, spurious failures of the compare-and-swap included, keeps the lock's invariant |
| `RwLock.CallsDoTheirWork` | base/src/rwlock.cpp:26-87 | whatever the others do: LockRead is back only with one shared read more, or one nested read for the thread that writes, LockWrite only with the write lock, an unlock only after giving back just that; until then the thread holds what it held |
| `RwLockProgress.WhoWaitsCanGet` | base/src/rwlock.cpp:26-87 | in every state of every run in which, under write-first, no holder of a shared read asks for another, each thread in LockRead or LockWrite has a continuation that gives it the lock |
| `RwLockProgress.ProgressExactly` | base/src/rwlock.cpp:26-55 | with two threads or more: that holds in all states of all runs, however reads are nested, if and only if the lock is not write-first |
| `RwLockProgress.NeitherGets` | base/src/rwlock.cpp:26-55 | a reader at the gate that holds the lock already and a registered writer: neither gets the lock, in any continuation |
| `RwLockProgress.NestedReadDeadlocks` | base/src/rwlock.cpp:26-55 | and a run of two threads gets there |
| `Utf8Codec.WriteCodePoint` | base/src/unicode_ex.cpp:73-94 | writing from the last byte back to the first leaves exactly the code point's bytes and nothing else changed |
| `Utf8Codec.EncodingIsUtf8Char` | base/src/unicode_ex.cpp:73-116 | what is written for a scalar value is a UTF8-char of section 4 of RFC 3629 of the computed length, and decodes to that value |
| `Utf8Codec.Utf8CharIsEncoding` | base/src/unicode_ex.cpp:223-259 | every UTF8-char of section 4 of RFC 3629 has the length the packed table gives, decodes to a scalar value, and is what that value is written as |
| `Utf8Codec.DecodedIsNumber` | base/src/unicode_ex.cpp:228-259 | what a UTF8-char decodes to, as section 3 of RFC 3629 has it: its payloads are the digits, six bits each behind the first |
| `Utf8Codec.SequenceLengthTable` | base/src/unicode_ex.cpp:223-226 | what the packed length table means |
| `Unicode.Utf16ToUtf8Length` | base/src/unicode_ex.cpp:119-145 | -1 for no input or a length above INT_MAX, otherwise the length of the UTF-8 form |
| `Unicode.PairMeans` | base/src/unicode_ex.cpp:148-174 | a pair of surrogates is 0x10000 + 0x400 * (high - 0xD800) + (low - 0xDC00), as in section 2.2 of RFC 2781 |
| `Unicode.HalvesMean` | base/src/unicode_ex.cpp:285-316 | the two halves that a code point above 0xFFFF is written as are a pair of surrogates with that sum, as in section 2.1 of RFC 2781 |
| `Unicode.StrncpyStr16ToStr8` | base/src/unicode_ex.cpp:148-174 | a buffer of n bytes gets the form of as many whole code points as fit in n - 1 bytes, a zero, and no other change |
| `Unicode.EverythingFits` | base/src/unicode_ex.cpp:177-194 | the write pass never stops early when it has one byte more than the length pass counted |
| `Unicode.FittedIsLongest` | base/src/unicode_ex.cpp:148-174 | a smaller buffer gets the longest form of a whole number of code points that fits |
| `Unicode.String16ToString8` | base/src/unicode_ex.cpp:196-213 | false for an empty input or a form of INT_MAX bytes or more, otherwise the form up to its first zero byte |
| `Unicode.Char16ToChar8` | base/src/string_ex.cpp:293-310 | the three error codes, each with its exact cause and an untouched buffer; otherwise the whole form, a zero, and its size |
| `Unicode.Utf8ToUtf16Length` | base/src/unicode_ex.cpp:261-283 | -1 exactly for bytes that end inside a sequence, otherwise the number of units the write pass emits, malformed bytes included |
| `Unicode.Utf8ToUtf16` | base/src/unicode_ex.cpp:285-316 | the longest whole-code-point prefix that fits, of the given bytes and of what is behind them if they end inside a sequence; a pair that does not fit costs at most the unit behind it |
| `Unicode.CompleteIsTouched` | base/src/unicode_ex.cpp:285-316 | of bytes that the length pass accepts exactly these are read, whatever is behind them |
| `Unicode.StrncpyStr8ToStr16` | base/src/unicode_ex.cpp:318-323 | that prefix, a zero, and no other change; a buffer of no units, whose size less one wraps, gets everything |
| `Unicode.EverythingFits16` | base/src/unicode_ex.cpp:261-323 | the two passes agree on every input that the length pass accepts, well formed or not |
| `Unicode.String8ToString16` | base/src/unicode_ex.cpp:347-364 | false exactly for an empty input, truncated bytes or INT_MAX units, otherwise the units up to the first zero |
| `Unicode.OutputIsWellFormed` | base/src/unicode_ex.cpp:196-213 | Str16ToStr8 always gives well-formed UTF-8: the form of the input up to its first U+0000 |
| `Unicode.RoundTrip16` | base/src/unicode_ex.cpp:73-364 | Str8ToStr16(Str16ToStr8(s)) is s up to its first U+0000 without its unpaired surrogates, for every s whose form is shorter than INT_MAX |
| `Unicode.RoundTrip16IsIdentity` | base/src/unicode_ex.cpp:73-364 | the round trip is the identity if and only if s is well formed (section 2.2 of RFC 2781) and has no U+0000 |
| `Unicode.RoundTrip8` | base/src/unicode_ex.cpp:73-364 | Str16ToStr8(Str8ToStr16(b)) is b for every well-formed UTF-8 b without a zero and shorter than INT_MAX |
| `Unicode.RoundTrip8IsIdentity` | base/src/unicode_ex.cpp:73-364 | for b shorter than INT_MAX the round trip is the identity if and only if b is well formed (section 4 of RFC 3629) and has no zero |
| `Unicode.ReadsWellFormed` | base/src/unicode_ex.cpp:223-316 | what is read from well-formed UTF-8 is well-formed UTF-16 |
| `Unicode.ReadsBack` | base/src/unicode_ex.cpp:148-316 | what is written for any UTF-16 is well formed and reads back as the input without its unpaired surrogates |
| `Unicode.WritesAgain` | base/src/unicode_ex.cpp:148-316 | what is read from any well-formed UTF-8 writes back byte for byte, in no more units than bytes |
| `Unicode.CutCommutes` | base/src/unicode_ex.cpp:196-213 | cutting at the first zero and converting can be done in either order |
| `Unicode.Str16ToStr8Call` | base/src/string_ex.cpp:273-281 | the empty string when the conversion fails, otherwise its result |
| `Unicode.Str8ToStr16Call` | base/src/string_ex.cpp:263-271 | the same in the other direction |
| `ParcelBuffer.Parcel.CalcNewCapacity` | base/src/parcel.cpp:109-143 | the next capacity lies between the need and the maximum, or is the maximum if the need exceeds it; the doubling ends |
| `ParcelBuffer.Parcel.EnsureWritableCapacity` | base/src/parcel.cpp:145-180 | n > 0 more bytes are to be had if and only if the parcel is writable and write cursor + n is at most max(capacity, maximum); the bytes written are kept |
| `ParcelBuffer.Parcel.SetMaxCapacity` | base/src/parcel.cpp:251-259 | the maximum only rises |
| `ParcelBuffer.Parcel.SetDataCapacity` | base/src/parcel.cpp:358-371 | any capacity above the data, even above the maximum, keeps the data; what fits then is max(capacity, maximum) |
| `ParcelBuffer.Parcel.WriteDataBytes` | base/src/parcel.cpp:383-393 | the bytes are appended, or nothing changes if they do not fit |
| `ParcelBuffer.Parcel.WritePadBytes` | base/src/parcel.cpp:395-407 | masking the last word appends exactly padSize zeros and disturbs no byte before them, whatever the buffer held |
| `ParcelBuffer.MaskedBytes` | base/src/parcel.cpp:395-407 | masking a little-endian word keeps its first n bytes and clears the rest |
| `ParcelBuffer.Parcel.WriteBuffer` | base/src/parcel.cpp:409-432 | appends the bytes padded to a multiple of four if they are not empty and fit, otherwise changes nothing |
| `ParcelBuffer.Parcel.WriteBufferAddTerminator` | base/src/parcel.cpp:434-467 | the same for a body with its terminator |
| `ParcelBuffer.Parcel.WriteScalar` | base/src/parcel.cpp:473-487 | appends the bytes of the value, or nothing |
| `ParcelBuffer.Parcel.WriteString` | base/src/parcel.cpp:595-613 | succeeds exactly when the 32-bit length is acceptable and length, body, terminator and padding all fit, and then appends them; a failure leaves all earlier bytes |
| `ParcelBuffer.Parcel.WriteString16` | base/src/parcel.cpp:615-633 | the same for UTF-16 |
| `ParcelBuffer.Parcel.WriteCString` | base/src/parcel.cpp:582-593 | the same for a C string, whose length is not stored |
| `ParcelBuffer.Parcel.WriteOne` | base/src/parcel.cpp:489-557 | each typed write appends the encoding of its value, small scalars widened to 32 bits |
| `ParcelBuffer.Parcel.WriteElements` | base/src/parcel.cpp:1396-1400 | the element loop appends the encodings in order and succeeds exactly when all are acceptable and fit |
| `ParcelBuffer.Parcel.WriteVector` | base/src/parcel.cpp:1385-1434 | succeeds exactly when count, elements and padding fit together, and then appends them |
| `ParcelBuffer.LongStringIsCut` | base/src/parcel.cpp:595-633 | every other string that is accepted, of bytes or of UTF-16 units, has 2^32 units or more and arrives cut to its length modulo 2^32 |
| `ParcelBuffer.EmptiedStrings` | base/src/parcel.cpp:595-633 | a string of 2^32 units, for one, is accepted and arrives empty |
| `ParcelBuffer.CStringSentExactly` | base/src/parcel.cpp:582-593 | an accepted C string is copied with its terminator if and only if it is shorter than INT32_MAX; of a longer one only the padding ends the copy, and there is none exactly when its length modulo 2^32 is 3 modulo 4 |
| `ParcelBuffer.CStringRunsOn` | base/src/parcel.cpp:1156-1174 | such a string, of 2^32 + 3 bytes: reading it back runs on into what follows |
| `ParcelBuffer.SentIsWhole` | base/src/parcel.cpp:595-633 | a value is accepted and sent whole if and only if its length fits the 32-bit int that carries it |
| `ParcelBuffer.Parcel.ParseFrom` | base/src/parcel.cpp:844-861 | only an empty parcel takes over foreign bytes; they can be read and nothing can be added |
| `ParcelBuffer.Parcel.ValidateReadData` | base/src/parcel.cpp:196-219 | the check that starts at the moving index accepts a read exactly when a scan of all objects finds none overlapping it |
| `ParcelBuffer.Parcel.WriteObjectOffset` | base/src/parcel.cpp:719-734 | an offset is recorded unless it is beyond the data or already recorded |
| `ParcelBuffer.Parcel.WriteRemoteObject` | base/src/parcel.cpp:736-760 | appends the flattened block and its offset, offsets staying sorted and disjoint; without an object nothing changes, and if the object fails to marshal itself what it has written stays and no offset is recorded |
| `ParcelBuffer.Parcel.WriteParcelable` | base/src/parcel.cpp:762-795 | flag and object succeed exactly when both fit; a remote object that fails, in its own marshalling too, leaves no trace; a local one that fails leaves its flag and what it has written |
| `ParcelBuffer.Parcel.CheckOffsets` | base/src/parcel.cpp:292-312 | true exactly when a recorded object starts at the read cursor and lies inside the data |
| `ParcelBuffer.Parcel.RewindWrite` | base/src/parcel.cpp:944-981 | truncates the data and drops exactly the objects that are not wholly before the new end; the moving index stays sound |
| `ParcelBuffer.Parcel.RewindRead` | base/src/parcel.cpp:929-937 | moves the cursor inside the data and restarts the moving index |
| `ParcelBuffer.Parcel.SkipBytes` | base/src/parcel.cpp:915-922 | past the readable bytes the cursor goes to the capacity |
| `ParcelBuffer.Parcel.ReadScalar` | base/src/parcel.cpp:808-829 | reads what the bytes say, refuses a read that would touch an object, and moves the cursor past it even then |
| `ParcelBuffer.Parcel.ReadPadded` | base/src/parcel.cpp:1056-1066 | reads 32 bits and narrows them to the type |
| `ParcelBuffer.Parcel.ReadString` | base/src/parcel.cpp:1205-1235 | the method gives what the pure reader says of the bytes, and the moving index stays sound; what that is, `ParcelReads.TextExactly` says |
| `ParcelBuffer.Parcel.ReadString16` | base/src/parcel.cpp:1266-1296 | the same for UTF-16 |
| `ParcelBuffer.Parcel.ReadCString` | base/src/parcel.cpp:1156-1174 | up to the first zero within the data, or nothing |
| `ParcelBuffer.Parcel.ReadUnpadBuffer` | base/src/parcel.cpp:897-913 | n bytes and their padding, or nothing and no movement |
| `ParcelBuffer.Parcel.ReadOne` | base/src/parcel.cpp:808-1131 | each typed read gives what ReadOne says of the bytes |
| `ParcelBuffer.Parcel.ReadVector` | base/src/parcel.cpp:1501-1570 | a count that cannot be read counts as 0, a count beyond the readable bytes is refused, and the elements follow |
| `ParcelBuffer.Parcel.ReadStringVector` | base/src/parcel.cpp:1627-1685 | the same for strings, where an unreadable element counts as empty |
| `ParcelBuffer.Parcel.ReadObject` | base/include/parcel.h:868-876 | the block at the cursor if an object is recorded there |
| `ParcelCodec.BytesBack` | base/src/parcel.cpp:473-487 | the bytes of an integer give it back modulo their range |
| `ParcelCodec.RangesAre` | base/src/parcel.cpp:489-557 | the values of each kind of scalar are those of its C++ type, so its bytes are as many as the type has |
| `ParcelCodec.ScalarBack` | base/src/parcel.cpp:473-829 | every value of its C++ type survives being written and read |
| `ParcelCodec.WidenedBack` | base/src/parcel.cpp:489-532 | so does a small scalar that is widened to 32 bits and narrowed again |
| `ParcelRoundTrip.ItemReads` | base/src/parcel.cpp:808-1685 | reading any item where its encoding stands, whatever is around it, gives that item and leaves the cursor right behind its padding |
| `ParcelRoundTrip.RoundTrip` | base/src/parcel.cpp:383-1685 | any items in any order, objects among them, read back as they were and leave the cursor at the end of the data |
| `ParcelReads.PlainExactly` | base/src/parcel.cpp:808-829 | on any bytes: a scalar is read if and only if its bytes are there and touch no object; it is then the value of its type with these bytes, for a bool whether the byte is not 0; refused for an object, the cursor moves on all the same, otherwise it stays |
| `ParcelReads.TextExactly` | base/src/parcel.cpp:1205-1235 | on any bytes: ReadString succeeds if and only if some string stands there with its length and terminator and no object in them, and gives that string, with the cursor behind the padding; if it fails the string is empty and the cursor is where it was, except when there is no usable length: then it is behind the length, if that is there |
| `ParcelReads.Text16Exactly` | base/src/parcel.cpp:1266-1296 | the same for UTF-16 |
| `ParcelReads.CStringExactly` | base/src/parcel.cpp:1156-1174 | ReadCString succeeds if and only if some string without a zero stands there with its terminator and no object in it, and gives it; otherwise the cursor stays |
| `ParcelReads.BufferExactly` | base/src/parcel.cpp:897-913 | ReadUnpadBuffer gives n bytes if and only if they are there and touch no object; otherwise the cursor stays |
| `ParcelReads.ObjectExactly` | base/src/parcel.cpp:292-312 | the block is given if and only if an object is on record at the cursor and its bytes are there; otherwise the cursor stays |
| `ParcelReads.WidenedExactly` | base/src/parcel.cpp:1056-1066 | a small scalar is what stands there in 32 bits, narrowed |
| `ParcelReads.CastMeans` | base/src/parcel.cpp:1056-1066 | narrowing gives the value of the type that is the same modulo its range; to bool, whether it is not 0 |
| `ParcelReads.ScalarVectorExactly` | base/src/parcel.cpp:1501-1570 | behind a count n a vector of scalars is read if and only if n is 0, or positive and all n elements are there and touch no object; each is what a single read at its place gives; if it fails the cursor is behind the count, or behind the first element that an object reaches into |
| `ParcelReads.StringVectorExactly` | base/src/parcel.cpp:1627-1685 | behind a count n a vector of strings is read if and only if n is not negative and not more than the bytes behind it; each string is what a single read gives where the one before ended, empty if that fails |
| `ParcelReads.NoCountIsEmpty` | base/src/parcel.cpp:1501-1570 | without a count that can be read, a vector is taken to be empty and the read succeeds |
| `ParcelSession.WriteItem` | base/src/parcel.cpp:383-760 | a write succeeds exactly when the encoding fits, and appends just that |
| `ParcelSession.WriteAll` | base/src/parcel.cpp:383-760 | a sequence of writes succeeds exactly when all encodings fit together; the bytes are then EncodeAll(items), whatever the buffer held before |
| `ParcelSession.ReadAll` | base/src/parcel.cpp:808-1685 | a sequence of reads of any shapes from any parcel gives what ReadItems says of its bytes |
| `ParcelSession.Exchange` | base/src/parcel.cpp:383-1685 | written to a new parcel and read back: the same items, and the read cursor at dataSize |
| `EventChain.InsertNodeFront` | base/src/io_event_reactor.cpp:50-59 | a free handler is linked in front, and the list is a well-formed doubly linked list again; one that is in the list already makes it endless |
| `EventChain.EndlessIsNoChain` | base/src/io_event_reactor.cpp:213-216 | an endless list is no list of any handlers |
| `EventChain.RemoveNode` | base/src/io_event_reactor.cpp:61-71 | the handler is unlinked and free, and what is left is linked |
| `EventChain.DetachAll` | base/src/io_event_reactor.cpp:320-330 | the loop that unlinks while it walks frees every handler and leaves an empty list |
| `EventChain.CollectEvents` | base/src/io_event_reactor.cpp:213-216 | the OR of all handlers' events |
| `EventChain.Find` | base/src/io_event_reactor.cpp:179-183 | finds exactly the members |
| `EventChain.CollectTasks` | base/src/io_event_reactor.cpp:251-263 | the callbacks of exactly the concerned handlers, in list order |
| `EventReactor.Epoll.OperateEpoll` | base/src/io_event_epoll.cpp:54-78 | interestFds_ stays the set of registered descriptors |
| `EventReactor.Epoll.ModifyEvents` | base/src/io_event_epoll.cpp:80-101 | adds, modifies or deletes the registration, and changes nothing on failure |
| `EventReactor.MasksCorrespond` | base/src/io_event_epoll.cpp:124-163 | of a handler's events epoll is asked for reading, writing and errors, and answers with those; of a report each bit by itself: what makes it a read, a write, an error, and that a hang-up is a close only with nothing left to read, otherwise a read |
| `EventReactor.EachReportAsked` | base/src/io_event_epoll.cpp:146-163 | of the reports EPOLLIN, EPOLLPRI, EPOLLOUT and EPOLLERR, epoll is asked for each one that would be one of the events, and for nothing else |
| `EventReactor.Reactor.WatchedExactly` | base/src/io_event_reactor.cpp:211-232 | with an exact mask: the descriptor is registered for each of these reports if and only if some handler in its list asked for such an event |
| `EventReactor.Reactor.Resize` | base/src/io_event_reactor.cpp:94-98 | new descriptors get empty lists, the others keep theirs |
| `EventReactor.Reactor.HasHandler` | base/src/io_event_reactor.cpp:173-186 | true exactly for a handler in the list of its own descriptor |
| `EventReactor.Reactor.UpdateToDemultiplexer` | base/src/io_event_reactor.cpp:211-232 | on success the mask is exact and the backend has it; on failure nothing changes |
| `EventReactor.Reactor.AlreadyCovered` | base/src/io_event_reactor.cpp:100-105 | the shortcut on adding is sound: an exact mask that covers the new events is still exact |
| `EventReactor.Reactor.AddHandler` | base/src/io_event_reactor.cpp:73-109 | while no other call runs: each error code with its cause and no change; otherwise the handler is at the front of its list alone, and an exact mask stays exact |
| `EventReactor.Reactor.UpdateHandler` | base/src/io_event_reactor.cpp:111-137 | while no other call runs: after OK the mask is exact; a handler in no list is added, one in another descriptor's list is not found |
| `EventReactor.Reactor.RemoveHandler` | base/src/io_event_reactor.cpp:139-171 | the handler leaves its list even if the backend fails; after OK the mask is exact |
| `EventReactor.Reactor.FindHandler` | base/src/io_event_reactor.cpp:188-209 | each answer with its cause |
| `EventReactor.Reactor.HandleEvents` | base/src/io_event_reactor.cpp:241-268 | with an exact mask the callbacks called are those of exactly the handlers in the list that are enabled, have a callback and asked for the event, in list order and once each; the gate on the mask keeps it from none |
| `EventReactor.Reactor.AddThenHandle` | base/src/io_event_reactor.cpp:73-268 | a handler with a callback for which AddHandler gave OK is called for every event that it asked for |
| `EventReactor.Reactor.RemoveThenHandle` | base/src/io_event_reactor.cpp:139-268 | one for which RemoveHandler gave OK is called for no event of any descriptor |
| `EventReactor.NobodyMissed` | base/src/io_event_reactor.cpp:246-250 | an event outside an exact mask concerns nobody |
| `EventReactor.Reactor.DoClean` | base/src/io_event_reactor.cpp:320-338 | the list is emptied, its handlers are free and disabled, the other descriptors keep their masks |
| `EventReactor.Reactor.Clean` | base/src/io_event_reactor.cpp:354-368 | the same with its error codes, for a descriptor that is in the table, which the source does not check |
| `EventReactor.Reactor.Destroy` | base/src/io_event_handler.cpp:30-42 | a handler that is destroyed leaves its list and nothing else; the stored mask is left as it was, and if it was exact it still covers the handlers that stay |
| `EventReactor.Reactor.MembersHavePredecessors` | base/src/io_event_reactor.cpp:50-71 | prev_ is set exactly for handlers in a list, and no handler is in two |
| `EventReactor.Reactor.Perform` | base/src/io_event_reactor.cpp:73-171 | any sequence of adds, announced changes, descriptor changes of detached handlers, removals, destructions and cleans with a working backend: lists well formed, every mask the OR of its handlers' events and mirrored by the backend, every handler in a list enabled |
| `EventReactor.Session` | base/src/io_event_reactor.cpp:26-33 | and so from a new reactor with any handlers |
| `EventRaces.OneForEachKeepsTheList` | base/src/io_event_reactor.cpp:73-137 | any number of threads: as long as no two calls for one handler overlap, the list stays a list without repetition |
| `EventRaces.CallsDoTheirWork` | base/src/io_event_reactor.cpp:73-171 | and every call does its work: AddHandler and UpdateHandler are back within three steps with their handler in the list, after RemoveHandler it is not in it, and no step puts in or takes out another |
| `EventRaces.BreaksExactly` | base/src/io_event_reactor.cpp:85-100 | the calls under way can break the list, in some order of their steps, if and only if two of them may both insert one handler that is in no list, or one is about to insert a handler that is in the list |
| `EventRaces.TwoAddsBreakTheList` | base/src/io_event_reactor.cpp:85-100 | a run in which two threads add one handler: both find it free, and both insert it |
| `EventRaces.OneAtATimeKeepsAll` | base/src/io_event_reactor.cpp:73-137 | one call at a time: the list is one, and when all changes are announced the mask is what its handlers ask for |
| `EventRaces.CallsSetTheMask` | base/src/io_event_reactor.cpp:73-171 | one call at a time: an update of a handler in the list and a removal leave the mask up to date, an insertion leaves it with the new events, as it was if it had them |
| `EventRaces.StaleMask` | base/src/io_event_reactor.cpp:124-133 | a run in which UpdateHandler, outside the lock, stores a mask that an AddHandler in between has made out of date |
| `EventRaces.ListAndMaskKeptExactlyByOneThread` | base/src/io_event_reactor.cpp:73-137 | left to themselves, n threads always keep the list, or always the mask, if and only if n is 1 |
| `TimerTables.SomeIdIsFree` | base/src/timer.cpp:213-222 | while there are fewer entries than valid ids, a valid id is free |
| `TimerTables.EntryAdded` | base/src/timer.cpp:81-112 | a new entry keeps all tables in agreement, on a new timer or on the shared periodic one |
| `TimerTables.EntryLeaves` | base/src/timer.cpp:114-144 | so does the departure of an entry, which stops only its own one-shot timer |
| `TimerTables.LastEntryLeaves` | base/src/timer.cpp:114-174 | the last entry of an interval takes everything on record for the interval with it |
| `TimerTables.PeriodicTimerGoesOn` | base/src/timer.cpp:114-144 | a shared periodic timer outlives its entries: it serves nobody exactly when no other periodic entry of the interval is left |
| `TimerTables.LookupKeeps` | base/src/timer.cpp:176-184 | the lookups that may insert an idle record or an empty list do no harm |
| `Timers.Timer.CancelTimer` | base/src/event_reactor.cpp:111-123 | removes the handler of that descriptor, if there is one, and no other |
| `Timers.Timer.ScheduleTimer` | base/src/event_reactor.cpp:95-109 | adds a handler for the new descriptor |
| `Timers.Timer.DoUnregister` | base/src/timer.cpp:167-174 | stops exactly what is on record for the interval |
| `Timers.Timer.GetTimerFd` | base/src/timer.cpp:224-236 | the timer that the interval's periodic entries share, or the statement that it has none |
| `Timers.Timer.NextId` | base/src/timer.cpp:93-101 | while no other timer moves the counter: the search ends while a valid id is free, with the first id from the counter on, going round, that is not in use; 0, UINT32_MAX and TIMER_ERR_DEAL_FAILED are never taken |
| `TimerIds.SerialIdsAreGood` | base/src/timer.cpp:83-101 | any number of timers on the shared counter: as long as no two Registers overlap, every id is valid and new to its timer |
| `TimerIds.OneIdForEachRegister` | base/src/timer.cpp:83-101 | the step that ends a Register gives its timer one id more, and no other step but Unregister changes any timer's ids |
| `TimerIds.RegisterDoesItsWork` | base/src/timer.cpp:83-101 | whatever other timers unregister meanwhile, a Register that meets no other is back only with the first id from the counter on that its timer does not use |
| `TimerIds.RegisterEnds` | base/src/timer.cpp:83-101 | and back it comes, if some valid id is free |
| `TimerIds.GoodIdsExactlyForOneTimer` | base/src/timer.cpp:83-101 | left to themselves, n timers always get good ids if and only if n is 1 |
| `TimerIds.OverlapReusesAnId` | base/src/timer.cpp:83-101 | two timers: the second writes back a counter value that the first has used since, and the first is given an id that it already uses |
| `TimerIds.OverlapIssuesTheErrorCode` | base/src/timer.cpp:83-101 | two timers: between the check and the increment of the first, the second moves the counter on to TIMER_ERR_DEAL_FAILED, which the first then issues |
| `Timers.Timer.Register` | base/src/timer.cpp:81-112 | while no other timer moves the counter: on failure no entry; otherwise exactly one new entry under a new id, in both tables, on a running timer; all tables agree |
| `Timers.Timer.Discard` | base/src/timer.cpp:114-144 | removing one entry from its list changes the tables by exactly that entry and what it alone needs |
| `Timers.Timer.Unregister` | base/src/timer.cpp:114-144 | removes exactly the entry of that id, and stops its one-shot timer or, with the last entry, the interval's timers |
| `Timers.Timer.OnTimer` | base/src/timer.cpp:176-205 | whose callbacks are due, in the order of the list and once each, and which ids are used up; all tables still agree |
| `Timers.Timer.EraseUnusedTimerId` | base/src/timer.cpp:238-260 | any ids: removes exactly those of them that are still entries of the interval, with the timers they use; the tables still agree if and only if no periodic entry is removed while another periodic one of the interval stays |
| `TimerTables.ErasedAgreeExactly` | base/src/timer.cpp:238-260 | that equivalence on the tables |
| `TimerRuns.Run` | base/src/timer.cpp:81-260 | any Registers, Unregisters, first and second sections of OnTimer, in any order: the tables agree after each. The run can stop in one place, before an erase one of whose ids is by now that of a periodic entry of the interval, and that takes an id which was issued again after it had been collected; or, registering, when no id is free |
| `TimerRuns.OnceNoneShares` | base/src/timer.cpp:186-205 | as long as no pending id has gone to a periodic entry of its interval, the erase is one that keeps the tables in agreement |
| `TimerRuns.ReissuedIdBreaks` | base/src/timer.cpp:186-260 | a run of sections in which the ids come round between collecting and erasing: the erase stops the timer that another periodic entry needs |
| `BlockQueue.Fifo` | base/include/safe_block_queue.h:58-139 | in every run what was pushed is what was popped followed by what is queued, and the capacity holds |
| `BlockQueue.NoLostWakeup` | base/include/safe_block_queue.h:58-139 | a pusher that waits un-notified sees at most as many free slots as there are notified pushers, a popper at most as many items as notified poppers; so whoever could go on has a woken thread before it |
| `BlockQueue.NotAllStuck` | base/include/safe_block_queue.h:58-139 | with a positive capacity pushers and poppers never all wait for each other |
| `BlockQueue.StepKeeps` | base/include/safe_block_queue.h:58-139 | every stay in the mutex, spurious wake-ups included, keeps the monitor's invariant |
| `BlockQueue.CallsDoTheirWork` | base/include/safe_block_queue.h:58-139 | whatever the others do: a thread is back from Push(x) only after exactly one append, by itself, of its own x, and from Pop only after exactly one removal, with that element; until then it has moved nothing; PushNoWait and PopNotWait are back at once, and have done it, and say so, if and only if there was room, or an element |
| `BlockQueue.EveryoneMayGoOn` | base/include/safe_block_queue.h:58-139 | every thread outside a call may begin any, one that has been woken may go on, and one that waits may wake up by itself |
| `ThreadPool.TasksInOrder` | base/src/thread_pool.cpp:71-110 | tasks are taken in the order in which they were added, each is taken or still queued, and the limit holds |
| `ThreadPool.EachTakenTaskIsRun` | base/src/thread_pool.cpp:94-125 | in every run the tasks taken from the queue are the tasks that workers begin to run, in the same order: each one by one worker, and once |
| `ThreadPool.TaskStaysWithItsWorker` | base/src/thread_pool.cpp:94-125 | a worker has a task from the step that takes it until it finishes it, calls of AddTask from the task included, and no step of another thread changes that |
| `ThreadPool.ScheduleTaskComesBack` | base/src/thread_pool.cpp:94-110 | ScheduleTask comes back with the first task if there is one, without a task exactly when there is none and the pool is stopped, and waits otherwise |
| `ThreadPool.WorkersStayWhileRunning` | base/src/thread_pool.cpp:117-125 | a worker leaves its loop between two tasks, exactly if the pool is stopped by then |
| `ThreadPool.AddTaskDoesItsWork` | base/src/thread_pool.cpp:71-84 | whatever the others do, AddTask(f) is back where it was called, in a client or in a task, only after exactly one append, by itself, of its own f |
| `ThreadPool.NoLostWakeup` | base/src/thread_pool.cpp:71-110 | the monitor invariant on both conditions, workers and callers of AddTask |
| `ThreadPool.StoppedNobodyWaits` | base/src/thread_pool.cpp:58-69 | after Stop no worker is left waiting |
| `ThreadPool.QueueIsDroppedExactly` | base/src/thread_pool.cpp:58-110 | a stopped pool with tasks queued takes no more of them, in any continuation, if and only if no worker is in ScheduleTask |
| `ThreadPool.QueuedTaskIsDropped` | base/src/thread_pool.cpp:58-110 | a run that gets there: a task is added and Stop comes before the worker looks |
| `ThreadPool.BlockedForeverExactly` | base/src/thread_pool.cpp:58-84 | a caller in AddTask never comes back, in any continuation, if and only if the pool is stuck: the queue is full and no worker will take from it again; after Stop that is every worker outside ScheduleTask |
| `ThreadPool.AddersStayBlocked` | base/src/thread_pool.cpp:58-84 | a stuck pool stays stuck, and the caller in AddTask stays there; Stop does not wake it |
| `ThreadPool.StoppedPoolCanBeStuck` | base/src/thread_pool.cpp:58-84 | a run that gets there by Stop: a full queue, a second caller, and a worker that has not looked yet |
| `ThreadPool.NobodyIsBlocked` | base/src/thread_pool.cpp:71-84 | what a caller can see to: if nobody is in AddTask at Stop, and it is called only when there is room, nobody is ever blocked in it |
| `ThreadPool.UnlimitedIsNeverFull` | base/src/thread_pool.cpp:112-115 | and without a limit nobody ever is |
| `ThreadPool.RunningPoolStuckExactly` | base/src/thread_pool.cpp:71-125 | a running pool is stuck if and only if its queue is full and every worker is itself in AddTask |
| `ThreadPool.RunningPoolCanBeStuck` | base/src/thread_pool.cpp:71-125 | a run that gets there: the only worker's task adds to the full queue |
| `ThreadPool.StepKeeps` | base/src/thread_pool.cpp:58-125 | every step keeps the pool's invariant |
| `MappedFiles.RoundUp` | base/include/mapped_file.h:148-151 | RoundSize gives a multiple of the page size, less than a page above its argument |
| `MappedFiles.RoundIsLeast` | base/include/mapped_file.h:148-151 | and the least one |
| `MappedFiles.MappedFile.Normalize` | base/src/mapped_file.cpp:57-159 | each error code with its exact cause; the size is what was asked for, or by default the file's or, for a file created on demand, a page, cut to the pages that the file reaches into |
| `MappedFiles.MappedFile.Map` | base/src/mapped_file.cpp:201-254 | each error code with its exact cause; a mapped view is not empty, starts its region, and the region is whole pages that the file reaches into; the view is what was asked for: by default it reaches the end of the file, or is a page of a new one, otherwise it has the size named or ends with the file's last page; a failed or refused call leaves the addresses as they were |
| `MappedFiles.MapWhole` | base/src/mapped_file.cpp:201-254 | with the default size and from the beginning, Map succeeds for every file that is not empty, if the system maps it, and the one view is the file: there is no next one |
| `MappedFiles.MappedFile.TurnNext` | base/src/mapped_file.cpp:374-439 | refused exactly for changed parameters and at the end of the file; from a mapped view the next one starts at the previous end plus 1, is not empty, lies in its region, and a new region starts on a page; if that cannot be mapped the window is unmapped and its addresses are null; without a mapping the offset moves on by a page |
| `MappedFiles.Walk` | base/src/mapped_file.cpp:374-439 | turning until the end visits the rest of the file in finitely many turns, as a tiling |
| `MappedFiles.EachByteOnce` | base/src/mapped_file.cpp:374-439 | every byte of the rest of the file is in exactly one of the views |
| `Strings.ReplaceStr` | base/src/string_ex.cpp:45-59 | the parts between the leftmost occurrences, joined with the replacement; what was put in is not scanned again |
| `Strings.SplitStr` | base/src/string_ex.cpp:95-116 | one string for each of the parts of the (trimmed) string, in order: the part, or, to be trimmed, the part without the blanks at its ends, two or more blanks alone excepted; then, unless they are wanted, with exactly the empty ones left out; an empty separator gives the whole string |
| `Strings.KeptExactly` | base/src/string_ex.cpp:95-116 | what the loop keeps of the parts is that list, and no other list is like it |
| `Strings.CleanedIsTrim` | base/src/string_ex.cpp:61-116 | there is only one way to take the blanks off the ends of a part |
| `Strings.CountStrInStr` | base/src/file_ex.cpp:375-391 | one less than the number of parts |
| `Strings.OneNotion` | base/src/string_ex.cpp:95-116 | the parts contain no separator, rejoin to the input, and are one exactly when the separator does not occur |
| `Strings.PartsAreLeftmost` | base/src/string_ex.cpp:95-116 | no other way of writing the input with separators has a shorter first part |
| `Strings.PartsAreUnique` | base/src/string_ex.cpp:95-116 | the parts are the only way in which each separator is the first one behind the separator before it and the last part has none |
| `Strings.FindBehind` | base/src/string_ex.cpp:45-59 | a scan from behind what has been dealt with sees what it would see in the rest alone |
| `Strings.GetSubStrBetween` | base/src/string_ex.cpp:205-236 | the loop, which drops what it has passed, finds the texts that a scan of the whole string finds; an empty delimiter finds nothing |
| `Strings.SpansAreTight` | base/src/string_ex.cpp:205-236 | each left delimiter is the first from the right delimiter of the pair before it, its own right delimiter the first behind it, and at the end no pair is left |
| `Strings.TightSpansAreUnique` | base/src/string_ex.cpp:205-236 | only one list of pairs is like that |
| `Strings.BetweenIsSplit` | base/src/string_ex.cpp:226-236 | with the same separator on both sides it finds what SplitStr finds, without the two end parts |
| `Strings.TrimStrTrims` | base/src/string_ex.cpp:61-80 | TrimStr leaves no blank at either end, except that a string of two or more blanks and nothing else comes back whole |

## Left out

- RefBase: `AttemptIncStrong`, `AttemptAcquire`, the `CanPromote` hook, the debug trackers, copy and move assignment of `RefBase`, and memory orders weaker than sequential consistency. The cookie of a `WeakRefCounter` and the base-class casts of `sptr` and `wptr` do not change any count. Weak and reference counts are unbounded integers. The rule of `MayUseObject`, when an operation may start from a raw pointer, is proved to suffice, not to be the weakest. Promoting an object that never had a strong reference removes the bias without calling OnFirstStrongRef, as the code does.
- RWLock: fairness of the spin loops (that a thread can get the lock is proved, not that it does), and a read holder that asks for a write (which waits for itself).
- Unicode: `Utf8ToUtf16Length` counts in an int that could overflow on more than 2^30 malformed bytes; the model counts in unbounded integers. Failure of `calloc` is not modelled. Whether a lone byte from 0x80 up is read as a negative char is a parameter, so what is proved holds either way.
- ParcelBuffer.Parcel.WriteRemoteObject: holding the object, with `objectHolder_`, is not modelled, and what an object marshals is one block or a part of it.
- ParcelBuffer.Parcel.ReadObject: `Unmarshalling` is not modelled; the block that it would read is handed out.
- Parcel: `SetDataSize`, `InjectOffsets`, `SetAllocator`, `FlushBuffer`, the strings "WithLength", float, double and pointer values, and the alignment guards of 32-bit ARM. A remote object is a block of 24 bytes. The variants of a read that return the value instead of a flag are modelled where another operation uses them (`ReadInt32`). Sizes do not wrap at 2^64.
- Parcel: the growth of the offset table is a sequence that grows.
- `objectHolder_` of Parcel and the life-time of the objects in it.
- EventReactor.Reactor.Clean: a descriptor beyond the table, for which the source reads and writes past `ioHandlers_`; `HandleEvents` is the same.
- EventReactor.Reactor.AddHandler: calls that overlap with others are in `EventRaces`, where handlers are numbers and the backend does not fail; so are those of `UpdateHandler`. A `Resize` during the walk that `UpdateHandler` makes outside the lock is not modelled.
- EventReactor.Reactor.Perform: a handler is removed before it is destroyed; what is left of the masks when it is not, `Destroy` says.
- Reactor: `count_` (not kept by `Clean` and the destructor), `Run`, `Polling`, `CleanUp` over all descriptors (it calls `DoClean` on each), the calls of the callbacks themselves, and handlers shared between two reactors.
- Timers.Timer.NextId: the counter is that of this timer alone; `TimerIds` has the shared one.
- Timers.Timer.Register: fewer entries than valid ids, without which the source searches for ever.
- Timer: `Shutdown`, `MainLoop`, the callbacks. Interval lists may be empty and the descriptor table may keep stale records; both are part of what is proved to be harmless.
- SafeBlockQueue: `SafeBlockQueueTracking`, whose count of unfinished tasks is updated outside the lock.
- ThreadPool: starting threads, a change of the limit while in use, `AddTask` on a pool that was never started, and `Stop` called by a task of the pool.
- MappedFiles.MappedFile.Map: the hint, with which `mmap` is tried first and again without; `mapping` is what it answers in the end.
- MappedFile: opening, mode flags, what `Unmap` gives back to the system (the current view, not the region) and `Resize(newSize)`.
- Strings: case mapping, number conversion. Strings are sequences of characters.
- The rest of the library: ashmem, directories, files, dates, observers, singletons, maps, unique descriptors, the Rust bindings.
