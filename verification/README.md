# legacy-support, modelled

A Dafny model of the parts of MacPorts' legacy-support library that hold its own logic, as opposed to the wrappers around
system calls, with proofs of what each part is for.

| files | part |
|---|---|
| `Bytes`, `EndianSwap`, `AppleDouble*` | the AppleDouble packer and unpacker of copyfile, on byte images, and the format in plain numbers |
| `UberAce`, `CopyData` | copyfile's temporary access control entry, and its data loop |
| `ChaCha*`, `Arc4*`, `Uniform` | the random generator: keystream, buffer, rejection sampling, and test vectors |
| `Kernel`, `AtCall`, `FdOpenDir`, `LinkAt` | the *at() calls: save the working directory, change it, act, restore |
| `AtCallThreads`, `AtCallAlone`, `AtCallProcessWide` | the same sequence in any number of interleaved threads, per thread and on 10.4 |
| `MachTime`, `Clock`, `SleepOffset` | clock arithmetic, the clock calls, and the sleep offset |
| `Cmsg` | rewriting control messages behind recvmsg |
| `MemStream`, `FMemOpen` | files in memory, growing and bounded |
| `Histogram` | the histogram of the clock_info tool |
| `Wrappers` | optional values |

Code that changes state is modelled as classes and methods over arrays and fields, each proved against a function of the old
state; the theorems are lemmas about those functions, most of them over all runs or all inputs. System calls, callbacks, the
clock and entropy are parameters: the model says what happens for every answer they can give. A little-endian 64-bit host is
assumed throughout (Apple's Intel machines), because `copyfile.c` and `packet.c` are compiled differently elsewhere.

Where the code can leave a buffer, the method says so with a result `inside`, under an exact condition, and the model stops
there: nothing is said about what follows in the program.

The base documents are RFC 1740 (AppleDouble), RFC 8439 (ChaCha quarter round; the state layout is the older one with a 64-bit
counter) and RFC 2292 (control messages).

`dafny verify dfyconfig.toml` checks everything.

## Where the code falls short

Properties that do not hold without a condition: the member that states the exact condition, and behind the semicolon the one
that shows an input for which the property fails.

- Rewriting control messages leaves its local buffer of 1024 bytes if the announced size fits and the true one does not,
  because messages of other levels are copied but not announced (`Cmsg.FixReceived`, `Cmsg.FixCmsgFormats`; `SpillsWith`).
  Streams of socket-level messages are safe (`SocketOnlyInside`). Messages of other levels otherwise prevent any rewriting
  (`AnnouncedAll`; `NotAnnounced`). Of a last message that the system truncated the loop copies as many bytes as it claims,
  from behind the stream (`ReadableExactly`; `ReadsBehind`). A rewritten stream parses back exactly if all but its last message
  come out with lengths that are multiples of 4 (`Cmsg.FixReceived`, `ParsesBackExactly`; `NotParsedBack`).
- Packing writes each name into its buffer of 128K before looking for the end of it (`AppleDoublePack.CollectNames`,
  `NamesInsideExactly`; `TooManyNames`).
- Packing values that do not fit the buffer of 128K sets an error and goes on: the length written reaches beyond the buffer,
  and a resource fork resets the error (`AppleDoublePack.Pack`; `TooManyValues`).
- Unpacking swaps the attribute table before checking any entry, and so leaves its buffer for malformed files
  (`AppleDoubleUnpack.Unpack`, `WalkableExactly`; `WalkLeaves`).
- Unpacking with the stat flag does not report a resource fork that cannot be read (`ForkReported`; `ForkErrorLost`).
- Pack and unpack lose values above 4096 bytes, all names if every value is empty, the quarantine attribute, and fail to unpack
  tables or values that end beyond byte 65554 (`RoundTripExact`; `EmptyValueLost`).
- A request above 1600000 bytes wraps the reseeding budget, so that the next reseed is not due after 1600000 bytes
  (`BudgetBounded`; `BudgetWraps`).
- A thread's own working directory is lost if `open(".")` fails or it may not be entered again (`HomeRestored`,
  `AtCallThreads.EveryExit`; `HomeLost`). On 10.4, where the process has only one, it is restored by calls that do not overlap
  under the same condition (`SerialExit`), and by overlapping ones exactly if the last to go back had started from there
  (`OverlapExact`; `ProcessWideOverlaps`).
- A descriptor that is not open is used as the current directory if its number is the one that `open(".")` has just got, or if
  it is -1 on 10.4 (`MistakenActs`; `TakenForOpen`).
- `linkat` and `renameat` with two directories treat an empty path as the directory itself instead of failing with ENOENT
  (`JoinedExact`; `EmptyPathLeads`), and cut paths that do not fit PATH_MAX (`CutExact`; `NameCutOff`).
- `clock_getres` is exact for scales below 2^30 nanoseconds a unit and for no others (`ResolutionExact`; `ResolutionLost`).
- The sleep offset steps back exactly after a raw offset below a retained negative one, because the comparison is unsigned
  (`StepsBackExactly`, over runs `ForwardExactly`; `StepsBackInRun`). It takes two threads that both found no offset
  (`OneUpdateIsClean`, `StaysForGood`).
- `memstream_write` and `memstream_close` write in front of the buffer after a seek to a negative position, which
  `memstream_seek` accepts (`MemStream.Stream.Write`, `MemStream.Stream.Close`; `InFront`). From a size of 2^30 on the doubling
  of the capacity overflows (`MemStream.Stream.Grow`, `CapacityExists`; `TooLarge`). `memstream_read` moves the position, but
  always gives the bytes at the start (`ReadsRightExactly`; `ReadsFirst`).
- `fmemopen_read` stays inside the buffer exactly if it starts in the data or ends before the buffer does
  (`ReadSafeExactly`; `ReadLeaves`). A comment promises the size of the buffer as the position for binary append; the code uses
  the first NUL for both (`BinaryAppendExactly`; `AppendsAtNul`). Streams opened for reading only can be written, because
  `flags & O_RDONLY` is always 0 (`GrantedExactly`; `ReadOnlyWritten`).
- `copyfile_data` returns success without copying anything if the file system reports a block size of 0 (`CopyFileData`;
  `ZeroBlocks`).
- The uberace is made for the real user and recognised for the effective one: where they differ, it stays (`ListsExact`;
  `StaysForOthers`). When a copy fails it depends on the step that fails whether it stays (`FailureLeaves`).

## Model

| member | source | states |
|---|---|---|
| EndianSwap.SwapAdhdr | src/copyfile.c:2559-2581 | the in-place loop over the entries leaves exactly `SwapAd` of the old image, with the entry count decided by the magic before anything is swapped |
| EndianSwap.SwapAttrhdr | src/copyfile.c:2586-2616 | the in-place walk over the variable-length entry table stays inside the image exactly if `AttrFits`, and then leaves exactly `SwapAttr` of the old image |
| EndianSwap.FitsExactly | src/copyfile.c:2594-2615 | the walk over a table whose entries have given name lengths stays inside exactly if the lengths of all entries but the last, and the fixed part of that one, do not go beyond the end |
| EndianSwap.EntryLength | src/copyfile.c:2546-2552 | an entry is the fixed part plus the name, rounded up to the next multiple of four |
| EndianSwap.MagicsDiffer | src/copyfile.c:2407-2433 | neither magic reads the same backwards, so the byte order can be told from it |
| EndianSwap.SwapAdKeepsCount | src/copyfile.c:2566-2570 | the second pass finds the magic in the other order and computes the same entry count |
| EndianSwap.SwapAttrKeepsCount | src/copyfile.c:2594-2602 | the same for the attribute header, although the first pass has changed magic and count |
| EndianSwap.SwapAdTwice | src/copyfile.c:2559-2581 | swapping twice restores every byte, whenever the magic is right in either order |
| EndianSwap.SwapAttrTwice | src/copyfile.c:2586-2616 | swapping twice restores every byte: both passes step by name lengths that the swap leaves alone |
| AppleDouble.SwapAdImage | src/copyfile.c:2559-2581 | the swap turns the encoded AppleDouble header from host into file order and back |
| AppleDouble.SwapAttrImage | src/copyfile.c:2586-2616 | likewise for the attribute header with any table of entries behind it, whatever follows |
| AppleDoublePack.CollectNames | src/copyfile.c:3287-3328 | the first pass writes each blank entry before it looks at the end of the buffer: it stays inside exactly under `NamesInside`, succeeds exactly if the table ends before the buffer does, and then leaves the table of the ordinary names |
| AppleDoublePack.NamesInsideExactly | src/copyfile.c:3303-3323 | the first entry that does not fit decides: the pass stays inside exactly if its name ends in the buffer, which it does exactly if the padded entry ends where the buffer does |
| AppleDoublePack.TooManyNames | src/copyfile.c:3303-3323 | 8185 names of two bytes: the last entry is written behind the buffer |
| AppleDoublePack.CollectValues | src/copyfile.c:3342-3432 | the second pass completes each entry and appends its value, leaving empty and oversized values with length 0, and collects Finder info and resource fork; the error is 1 exactly if the values do not fit the buffer, and it goes on counting |
| AppleDoublePack.Pack | src/copyfile.c:3196-3471 | for every source: both the names and what it writes of the 128K buffer to the file lie in it exactly under `WritesInside`; the error it returns, which a resource fork resets; and it gives a right file, namely `PackFile`, exactly if the source is packable |
| AppleDoublePack.TooManyValues | src/copyfile.c:3409-3459 | 33 values of 4096 bytes: error 1 is set, and the bytes written reach beyond the buffer |
| AppleDoubleFormat.PackedHeader | src/copyfile.c:3228-3248 | the bytes of every packed file: 00 05 16 07, version, filler and the two entries with their types, offsets and lengths; with values also ATTR, inode, total size, data start, data length and the number of attributes, all most significant byte first, and where Finder info, values and resource fork are |
| AppleDoubleFormat.TwoAttrsPacked | src/copyfile.c:3228-3460 | all 156 bytes of the file for two given attributes |
| AppleDoubleFormat.Limits | src/copyfile.c:2433-2447 | values of 1 to 4096 bytes are kept; 65554 bytes of a file and of a list of names are looked at |
| AppleDoubleUnpack.CheckEntry | src/copyfile.c:2780-2852 | the sanity checks on an entry accept exactly the good entries |
| AppleDoubleFormat.GoodEntries | src/copyfile.c:2780-2852 | in plain numbers: a name of 2 to 128 bytes with a NUL at its end, and name and value inside what was read |
| AppleDoubleUnpack.ExtractAttrs | src/copyfile.c:2743-2957 | entries are set one after the other until one is bad |
| AppleDoubleUnpack.ExtractForks | src/copyfile.c:2960-3066 | the Finder info is set unless all zero, the resource fork unless empty, each with its bounds check; with the stat flag the error of the fork is overwritten |
| AppleDoubleUnpack.ForkReported | src/copyfile.c:3007-3066 | a fork that cannot be read is left out in any case, and reported exactly without the stat flag |
| AppleDoubleUnpack.ForkErrorLost | src/copyfile.c:3007-3066 | a file of 82 bytes that announces a fork behind its end: unpacking fails without the flag and succeeds with it |
| AppleDoubleUnpack.Unpack | src/copyfile.c:2625-3069 | for every file, with and without the stat flag: the swap of the table, which comes before any check of an entry, stays inside the buffer exactly if the file is `Walkable`, and then unpacking gives the attributes that `UnpackFile` says, including what is left after a failure |
| AppleDoubleFormat.FinderFileUnpacked | src/copyfile.c:2664-2978 | a genuine file of 82 bytes, written out, is unpacked to its Finder info and nothing else |
| AppleDoubleFormat.TwoAttrsUnpacked | src/copyfile.c:2725-2957 | the 156 bytes for two attributes, written out, are unpacked to those |
| AppleDoubleUnpack.WalkableExactly | src/copyfile.c:2633-2740 | for a header that reaches the table and names of given lengths in it: walkable exactly if the entries, up to the fixed part of the last one, end inside the file and the 65554 bytes that are read |
| AppleDoubleUnpack.WalkLeaves | src/copyfile.c:2725-2740 | a file of 120 bytes whose header announces one attribute: the swap goes beyond it |
| AppleDoubleRoundTrip.RoundTrip | src/copyfile.c:3196-3471 | unpacking a packed file succeeds and leaves exactly `Restored`, provided the values end inside the bytes that unpacking reads: every ordinary attribute but the quarantine one if one of them has a value that is kept (oversized ones as empty), none otherwise, and the forks that are not empty |
| AppleDoubleRoundTrip.RoundTripExact | src/copyfile.c:2625-3069 | packing succeeds and unpacking is its inverse on the attributes exactly if nothing is oversized, the names fill at most 65554 bytes, some ordinary attribute has a value (or there is none), none has the quarantine name, the Finder info has 32 bytes, the values end inside 65554 bytes and the resource fork inside 2^31 - 1 |
| AppleDoubleRoundTrip.PackedTooLong | src/copyfile.c:2633-2636 | a packed file whose table or values end beyond the 65554 bytes that unpacking reads: it fails, or, only if the table ends there already, the swap leaves the buffer |
| AppleDoubleRoundTrip.EmptyValueLost | src/copyfile.c:3434-3444 | one attribute with an empty value: packable, and lost |
| AppleDoubleRoundTrip.LossyDiffers | src/copyfile.c:3395-3399 | an oversized value, or a table without any value, is lost |
| AppleDoubleRoundTrip.LosslessRestores | src/copyfile.c:3434-3444 | otherwise everything a file can carry comes back |
| ChaCha.QuarterVector | src/arc4random.c:101-105 | the quarter round gives the test vector of section 2.1.1 of RFC 8439 |
| ChaCha.Columns | src/arc4random.c:198-201 | the first four quarter rounds work on the columns of the matrix, each from its old values |
| ChaCha.Diagonals | src/arc4random.c:202-205 | the other four work on its diagonals |
| ChaCha.EncryptBytes | src/arc4random.c:146-280 | for every byte count the buffer holds that many bytes of the blocks for consecutive counters (the short last one through `tmp`), nothing else is written, and the context has moved on by the number of blocks |
| ChaCha.BlockWord | src/arc4random.c:206-222 | each four bytes of a block, put together again, are the word after ten double rounds plus the input word |
| ChaCha.RoundsFrom | src/arc4random.c:197-206 | a double round is a column round and then a diagonal round, as many times as asked for |
| ChaChaVector.BlockVector | src/arc4random.c:180-280 | the 64 bytes of the block for key, nonce and counter zero: the first test vector of appendix A.1 of RFC 8439, computed through all 80 quarter rounds |
| ChaCha.BumpNCounts | src/arc4random.c:243-247 | n blocks on, the 64-bit counter in words 12 and 13 is n larger with carry, and all other words are unchanged |
| ChaCha.KeystreamNext | src/arc4random.c:274-279 | the stream continues with the block of the next counter |
| ChaCha.KeySetup | src/arc4random.c:110-144 | the context is constants, key, counter 0 and nonce |
| Arc4Random.RandState.Rekey | src/arc4random.c:296-317 | the head of fresh keystream, with user data mixed in, becomes the next key and is erased; the user data is wiped; all bytes before the pending ones are zero |
| Arc4Random.RandState.Stir | src/arc4random.c:320-336 | reseeding leaves an erased buffer and a full budget |
| Arc4Random.StirInjective | src/arc4random.c:305-316 | different entropy gives a different generator, whatever it was before |
| Arc4Random.RekeyOverZeros | src/arc4random.c:305-316 | where the keystream is zero, the user data itself becomes key and nonce |
| Arc4Random.RekeyPlainly | src/arc4random.c:299-316 | without user data the head of the keystream is the next key and nonce; the 984 bytes behind it do not depend on user data, and no more than 40 bytes of that are used |
| Arc4Vector.FirstStir | src/arc4random.c:320-336 | the first stirring of a fresh state takes the entropy itself as key and nonce |
| Arc4Vector.FirstBytes | src/arc4random.c:349-369 | with entropy zero the first 24 bytes handed out are the last 24 of the test vector |
| Arc4Random.RandState.StirIfNeeded | src/arc4random.c:339-346 | reseeds exactly if the budget is used up, and spends the request with 64-bit wrap-around |
| Arc4Random.RandState.RandomBuf | src/arc4random.c:349-369 | hands out exactly the next n bytes of the generator, erases them, and keeps the erased-head invariant |
| Arc4Random.RandState.RandomU32 | src/arc4random.c:371-386 | hands out one draw and keeps the invariant |
| Arc4Random.TakeIsStream | src/arc4random.c:357-368 | the buffering machine refines one infinite byte stream: its output is the next bytes of the stream and its new state stands for the rest |
| Arc4Random.TakeSplit | src/arc4random.c:357-368 | asking for a and then b bytes gives the bytes and the final state of asking for a+b, across any number of rekeys |
| Arc4Random.TwoRequestsAsOne | src/arc4random.c:349-369 | the same with the reseeding budget, while no reseed is due |
| Arc4Random.StreamOverRekey | src/arc4random.c:366-367 | rekeying an empty buffer does not move the stream |
| Arc4Random.DrawIsStream | src/arc4random.c:377-383 | a 32-bit draw is four consecutive bytes of the stream, behind the fewer than four that are dropped |
| Arc4Random.DrawsLast | src/arc4random.c:377-383 | four pending bytes are used, least significant first; three are dropped |
| Arc4Random.BudgetBounded | src/arc4random.c:342-345 | the budget stays at most 1600000 exactly if the request is at most that; a larger one wraps it |
| Arc4Random.BudgetWraps | src/arc4random.c:342-345 | a request of 1600001 bytes leaves a budget of 2^64 - 1 |
| Arc4Random.BudgetSplit | src/arc4random.c:342-345 | two requests spend what their sum spends |
| Arc4Random.ReseedDue | src/arc4random.c:339-346 | a reseed comes exactly with the request that brings the bytes since the last one to 1600000 |
| Uniform.ExactlyUniform | src/arc4random.c:519-534 | every result below the bound is given by exactly floor(2^32/bound) accepted draws |
| Uniform.OneDraw | src/arc4random.c:528-534 | one draw gives a value exactly if it is one of those counted for that value |
| Uniform.FirstCounted | src/arc4random.c:528-534 | for all draws: the value is that of the first draw counted for any value, every draw before it is counted for none, nothing is drawn behind it, and nothing is found exactly if all are rejected |
| Uniform.FewRejected | src/arc4random.c:519-520 | fewer than half of all draws are rejected |
| Uniform.AcceptedSpan | src/arc4random.c:519-520 | the accepted draws are a whole number of periods of the bound |
| Uniform.ArcUniform | src/arc4random.c:510-535 | the loop returns what `Sample` gives, which FirstCounted describes, below the bound, and 0 without a draw for bounds below 2 |
| AtCall.Process.Run | src/atcalls.h:48-70 | the sequence of system calls, with early return, has exactly the outcome `AtCallOutcome` |
| AtCall.Process.GoBack | src/atcalls.h:55-57 | the way back: change directory and close, with errno protected |
| AtCall.HomeRestored | src/atcalls.h:48-68 | the working directory (own or process) is given back exactly if it could be saved and entered again, or was never left |
| AtCall.HomeLost | src/atcalls.h:51-68 | no descriptor left for `open(".")`: a thread in a directory of its own ends without one |
| AtCall.BadDescriptor | src/atcalls.h:56-60 | a bad descriptor: early return with the errno of fchdir, and no descriptor left behind |
| AtCall.GoodDescriptor | src/atcalls.h:62-68 | a good one: the call acts in its directory, its result and errno survive, and only descriptors that it opened itself remain |
| AtCall.MistakenActs | src/atcalls.h:51-56 | the two cases in which a descriptor that is not open is taken for one that is: the call acts in the current directory, or, if that may not be entered, the early return shows EACCES instead of EBADF |
| AtCall.TakenForOpen | src/atcalls.h:51-56 | descriptor 4 is not open and `open(".")` gets number 4: the call is made and succeeds |
| AtCall.NoChdir | src/atcalls.h:51-51 | with an absolute path or AT_FDCWD nothing but the call happens |
| AtCall.OthersUnaffected | src/pthread_chdir.c:82-108 | no other thread is affected, and with per-thread directories not the process either |
| AtCallThreads.InvStep | src/atcalls.h:48-68 | one system call of one thread keeps every thread inside the sequence in order |
| AtCallThreads.AlwaysInv | src/atcalls.h:48-68 | so in every interleaving, beside any harmless activity of the program |
| AtCallThreads.StepFrame | src/pthread_chdir.c:82-91 | a system call of one thread changes no other thread and not the process directory |
| AtCallThreads.EveryExit | src/atcalls.h:48-68 | in every interleaving each exit, early or normal, leaves the own directory as on entry exactly if there was none, or open(".") worked and the directory can still be entered, leaves errno as the failing step set it, and has closed the saved descriptor |
| AtCallThreads.ActsInTarget | src/atcalls.h:56-62 | the call acts in the directory that the descriptor had when the thread went there, or the thread returns early |
| AtCallThreads.StepRemembers | src/atcalls.h:48-68 | the directory and the result of open that a thread remembers are those of its first system call, and errno that of the step that failed, as a number |
| AtCallThreads.ConservedStep | src/atcalls.h:52-68 | a step conserves descriptors: those of the start, those that calls opened, and the saved ones, all distinct |
| AtCallThreads.OnlyCalls | src/atcalls.h:48-68 | over whole runs of such calls descriptors are conserved, and the process directory and all uninvolved threads stay as they were |
| AtCallThreads.NothingLeft | src/atcalls.h:48-68 | once every thread is done, exactly the descriptors of the start and those that the calls opened are open, and no directory but the callers' own has changed |
| AtCallAlone.AloneIsAtOnce | src/atcalls.h:48-70 | a thread that makes its system calls without interruption ends with the state, the early return and the result of `AtCallOutcome`, with per-thread directories and on 10.4: the interleaved model and the sequential one agree |
| AtCallProcessWide.AlwaysWide | src/atcalls.h:48-68 | on 10.4 too, every interleaving keeps each thread inside the sequence in order: what it saved, what is open, and where it is going |
| AtCallProcessWide.StepMoves | src/pthread_chdir.c:93-108 | where each single system call of the sequence takes the process on 10.4 |
| AtCallProcessWide.SerialExit | src/atcalls.h:48-68 | on 10.4, over every run in which no thread makes a system call while another is inside: at each exit the process is where it was at the entry exactly if it could be saved and entered again, or was never left; errno is kept and the saved descriptor closed |
| AtCallProcessWide.OverlapExact | src/atcalls.h:48-68 | on 10.4, over every run of such calls alone, overlapping or not, in which saving and returning work: when nobody is away any more, the process is where it was at first exactly if the thread that went back last had started from there |
| AtCallProcessWide.SerialReturns | src/atcalls.h:48-68 | in particular it is, if no calls overlap |
| AtCallProcessWide.ProcessWideOverlaps | src/pthread_chdir.c:97-106 | a run in which two overlapping calls both succeed and leave the process in another directory |
| FdOpenDir.FdOpenDir | src/fdopendir.c:94-151 | the steps, with the hand-over of the descriptor in the stream object, have exactly the outcome `Outcome` |
| FdOpenDir.HandedOver | src/fdopendir.c:94-151 | a stream is opened exactly if no step fails, on the given descriptor at its start and close-on-exec, with all other descriptors unchanged; otherwise errno tells the failing step and no descriptor changes |
| FdOpenDir.ThenClosed | src/fdopendir.c:131-137 | closing the stream closes the descriptor that was handed over and leaves nothing behind |
| FdOpenDir.HomeKept | src/fdopendir.c:124-129 | the working directory is given back on every way out, the early return included |
| LinkAt.FullPathAt | src/atcalls.c:66-93 | the descriptor path with the relative one appended, cut at PATH_MAX, and the temporary descriptor closed |
| LinkAt.LinkAt | src/atcalls.c:162-186 | flags are refused with EINVAL; otherwise the dispatch over the two descriptors |
| LinkAt.RenameAt | src/atcalls.c:236-259 | the dispatch over the two descriptors |
| LinkAt.BothPlaces | src/atcalls.c:162-186 | for every combination of absolute and relative paths and of descriptors, link or rename is done on the two places that the caller means, with its result and errno, and leaves no descriptor behind; only where two directories are needed must the paths be joinable |
| LinkAt.OnePath | src/atcalls.c:162-186 | with at most one directory needed that is so without any condition on the paths |
| LinkAt.JoinedLeads | src/atcalls.c:84-85 | the joined path leads where the relative one leads from the directory, exactly unless the relative one is empty |
| LinkAt.JoinedExact | src/atcalls.c:172-185 | so both places are those meant exactly if neither joined path is empty |
| LinkAt.EmptyPathLeads | src/atcalls.c:84-85 | an empty path at descriptor 5: the join leads to the directory, where ENOENT is meant |
| LinkAt.CutExact | src/atcalls.c:84-85 | a joined path that does not fit names what it should exactly if only slashes were cut off |
| LinkAt.Kept | src/atcalls.c:84-87 | paths of up to 1023 characters are kept |
| LinkAt.CutTo | src/atcalls.c:84-87 | of longer ones 1023 are |
| LinkAt.NameCutOff | src/atcalls.c:84-85 | a directory path of 1022 bytes, "/a/a/a" and so on: the relative name is cut off |
| LinkAt.NamesJoin | src/atcalls.c:84-85 | the names of a joined path are those of its two parts |
| LinkAt.UnopenedFails | src/atcalls.c:236-259 | a needed descriptor that is not open makes the call fail with EBADF and open nothing |
| LinkAt.HomeAfter | src/atcalls.c:162-186 | whichever way is taken, and whatever the descriptors and paths, the working directory is given back if the system lets the thread go back |
| MachTime.Middle | src/time.c:529-549 | `mmul64` is the middle 64 bits of the 128-bit product, for all operands |
| MachTime.NothingOverflows | src/time.c:537-545 | the sums of the cross products fit 64 bits, carries included |
| MachTime.ResolutionExact | src/time.c:501-519 | the resolution taken from the rounded multiplier is ceil(numer/denom) exactly if that is below 2^30, for all 32-bit numerators and denominators |
| MachTime.ResolutionLost | src/time.c:501-519 | a scale of 2^30 nanoseconds a unit: the resolution is 0 |
| MachTime.RoundTwice | src/time.c:507-516 | a quotient scaled, rounded to the nearest and rounded up again is the quotient rounded up |
| MachTime.NanosIs | src/time.c:552-560 | below a product of 2^96 the result is the product scaled down |
| MachTime.MonotoneExactly | src/time.c:552-560 | nanoseconds never step back up to a time exactly if its product stays below 2^96 (or the scale is 1:1) |
| MachTime.Accurate | src/time.c:552-560 | the result is within 1 + t/2^35 of t * numer / denom |
| MachTime.ShortcutAgrees | src/time.c:555-559 | the 1:1 shortcut agrees with the multiplication exactly below 2^62 |
| MachTime.TwentyFourMegahertz | src/time.c:501-560 | with a scale of 125/3 a time of 24 million units is exactly one second |
| MachTime.Recombines | src/time.c:563-585 | the timespec built with wrapping 32-bit arithmetic is in normal form and means the same nanoseconds |
| Clock.Statics.GetMachScale | src/time.c:487-498 | the scale is asked for once, and again only after a failure |
| Clock.Statics.SetupMachMult | src/time.c:501-519 | multiplier and resolution are set together from the scale |
| Clock.Statics.ClockGettimeNsecNp | src/time.c:715-766 | gives the time of the clock modulo 2^64, and 0 exactly without a reading (or at time 0) |
| Clock.Statics.ClockGettime | src/time.c:768-825 | gives the same time in normal form, and fails exactly without a reading or without a scale |
| Clock.Statics.ClockGetres | src/time.c:827-865 | a microsecond for timeval clocks, the resolution of the scale for the others |
| Clock.Statics.ThreadUsage | src/time.c:664-707 | thread time in both builds, one nanosecond for none in the older one |
| Clock.MonotonicBehindRaw | src/time.c:739-745 | CLOCK_MONOTONIC shows whole microseconds less than one behind CLOCK_MONOTONIC_RAW |
| Clock.Shows | src/time.c:715-766 | which mach time or system time each clock shows, in nanoseconds, and when the others show none |
| Clock.OneSecond | src/time.c:739-757 | with a scale of 1:1 the clocks show mach time, CLOCK_MONOTONIC in whole microseconds |
| Clock.NeverBack | src/time.c:739-766 | no mach clock steps back while its mach time does not |
| SleepOffset.Offsets.Update | src/time.c:262-278 | the locked section stores exactly what `Updated` says, with the unsigned comparison |
| SleepOffset.Offsets.GetSleepOffset | src/time.c:235-279 | garbage is remembered as final, failures change nothing, otherwise allowance and update |
| SleepOffset.Offsets.MachContinuousTime | src/time.c:290-297 | an attempt is made exactly if there is no valid offset yet, and the wrapping sum of mach time and offset is returned |
| SleepOffset.AloneIsAttempt | src/time.c:235-279 | a thread that is not interrupted does in the model of many threads what get_sleep_offset does |
| SleepOffset.UpdateAdvances | src/time.c:264-271 | an update leaves the offset alone or advances it by more than the allowance, unless the raw offset is below a retained baseline |
| SleepOffset.TimeSinceBoot | src/time.c:256-271 | an update that advances the offset makes mach time in the middle of the sample and offset add up to the time since boot; any other leaves the offset alone |
| SleepOffset.TimeSinceBaseline | src/time.c:264-271 | with a retained baseline they add up to that time minus the baseline |
| SleepOffset.BaselineIs | src/time.c:264-266 | the first negative raw offset becomes the baseline and stays it |
| SleepOffset.AllowanceIs | src/time.c:257-260 | the allowance is the larger of five seconds and one part in 10000 of the time since the sample last used |
| SleepOffset.SleptLong | src/time.c:235-279 | a machine that slept 900 of 1000 seconds gets an offset of 900 seconds |
| SleepOffset.StepsBackExactly | src/time.c:268-269 | the offset acts as a smaller one exactly after a raw offset below the retained baseline |
| SleepOffset.NeverStepsBack | src/time.c:290-297 | in every run of any number of threads without such an offset, a reading returns at least everything returned before it started |
| SleepOffset.OffsetGrows | src/time.c:235-279 | and the offset never decreases from any point of the run to a later one |
| SleepOffset.ChangesExceed | src/time.c:257-271 | every change exceeds five seconds and the drift allowance that the thread computed |
| SleepOffset.ForwardExactly | src/time.c:235-279 | in every run of any number of threads the offset goes forward at every event exactly if no update brings in a raw offset below the retained baseline |
| SleepOffset.OneUpdateIsClean | src/time.c:292-294 | which is so if no thread updates an offset that is valid already |
| SleepOffset.StaysForGood | src/time.c:283-294 | once there is a valid offset and no thread is still after one, as after the attempt at program launch, it never changes |
| SleepOffset.StepsBackInRun | src/time.c:264-269 | a run in which two threads both find no offset: after the second update the continuous time is 10 units below what was returned before |
| Cmsg.Data | include/sys/socket.h:74-83 | the payload follows the 12-byte header without padding |
| Cmsg.Align32 | include/sys/socket.h:74-77 | the next multiple of four |
| Cmsg.CheckCmsgLengths | src/packet.c:242-270 | announces the size of all socket-level messages after rewriting, and whether any timestamp has a foreign length, whatever the last message claims beyond the stream |
| Cmsg.FetchTimeval | src/packet.c:180-239 | seconds and microseconds of 8, 12 and 16-byte payloads are kept; other lengths give zero |
| Cmsg.StampBytes | src/packet.c:292-300 | a timestamp of 20 bytes, written out: header and fields of what it is rewritten to |
| Cmsg.OtherStamps | src/packet.c:194-238 | 64-bit seconds are signed, microseconds come from the low half, and other lengths give zero |
| Cmsg.Refill | src/packet.c:280-310 | what is written stays inside the local buffer and what is read inside the stream exactly if the total size fits and the stream is `Readable`; then the buffer holds all messages in order, timestamps re-encoded |
| Cmsg.FixCmsgFormats | src/packet.c:273-317 | the loop stays inside its 1024-byte buffer and the stream exactly if the announced size is too large to begin, or the true size fits and the stream is readable; then the stream is replaced as a whole if the size comes out as announced, and otherwise left byte for byte |
| Cmsg.FixReceived | src/packet.c:408-421 | buffer and stream are left exactly if the loop runs (`Runs`) and the true size does not fit or the stream is not readable; otherwise replacement happens exactly if a timestamp is foreign, all messages are of the socket level and the result fits both buffers; the new stream holds the messages re-encoded, and parses to them exactly if all rewritten lengths but the last are multiples of 4; in all other cases nothing changes |
| Cmsg.ReadableExactly | src/packet.c:273-302 | a stream is readable exactly if its last message ends in it, or is a timestamp of a length that no format has |
| Cmsg.ReadsBehind | src/packet.c:287-303 | a timestamp of 20 bytes and a message of which 100 bytes were truncated: as many bytes are copied from behind the stream |
| Cmsg.SocketOnlyInside | src/packet.c:273-302 | a stream of socket-level messages only never leaves the buffer |
| Cmsg.SpillsWith | src/packet.c:278-285 | a timestamp of 20 bytes and a message of another level of 1100 bytes: 28 bytes are announced, 1128 written |
| Cmsg.BufferHolds | src/packet.c:273-286 | 1024 bytes are written inside the buffer, 1025 are not |
| Cmsg.BufferFills | src/packet.c:273-286 | socket-level streams of 1024 bytes are rewritten exactly if the caller has the room, 1025 bytes never |
| Cmsg.Formats | src/packet.c:292-309 | only the header is looked at exactly for timestamps of other lengths than 20, 24 and 28 bytes, the header in literal bytes |
| Cmsg.AnnouncedAll | src/packet.c:252-268 | the announced size is the true one exactly if all messages are of the socket level |
| Cmsg.NotAnnounced | src/packet.c:252-268 | a timestamp and a small message of another level: 28 bytes announced, 44 written, and nothing is replaced |
| Cmsg.ParsesBackExactly | include/sys/socket.h:99-108 | messages written one behind the other parse back exactly if all but the last have lengths that are multiples of 4 |
| Cmsg.NotParsedBack | src/packet.c:273-316 | a message of 13 bytes before a timestamp of 20, received with padding between them: the stream is rewritten without it and does not parse back |
| MemStream.Stream.constructor | src/memstream.c:155-173 | an empty file in a zeroed buffer of 4096 bytes |
| MemStream.Stream.Grow | src/memstream.c:90-101 | doubling stays in 32 bits exactly if the minimum is below 2^30; then it goes on until the capacity exceeds the minimum, and no further; the file is unchanged and only zeros are added |
| MemStream.CapacityExists | src/memstream.c:90-101 | a capacity above the minimum that an int can hold exists exactly if the minimum is below 2^30 |
| MemStream.Stream.Read | src/memstream.c:102-110 | the position is moved by what is read, but the bytes are those at the start of the buffer |
| MemStream.ReadsRightExactly | src/memstream.c:102-110 | those are the bytes at the position, whatever the contents, exactly for position 0 |
| MemStream.ReadsFirst | src/memstream.c:102-110 | two bytes are written and a seek goes to the second: the first is read |
| MemStream.Stream.Write | src/memstream.c:112-124 | refines the write of the abstract file exactly if nothing is written in front of the buffer and the end is below 2^30; size below capacity, zeros behind the size and published values are kept |
| MemStream.Stream.Seek | src/memstream.c:126-142 | refines the seek, also to positions in front of the bytes, with the gap zero-filled, exactly for targets from -2^31 to below 2^30; an unknown whence changes nothing |
| MemStream.Stream.Close | src/memstream.c:144-153 | publishes the buffer with the smaller of size and position and a NUL there, outside the buffer exactly if the position is negative |
| MemStream.InFront | src/memstream.c:112-142 | a seek to -1 and a write of one byte: outside the buffer |
| MemStream.TooLarge | src/memstream.c:90-142 | a seek to 2^30, and a write that ends there, need a capacity of 2^31; the positions that a seek can reach |
| MemStream.HoldsLastWritten | src/memstream.c:112-142 | after any writes and seeks in range, from the start, the position or the end, of which none writes in front of the bytes, the position is what the operations add up to, the file is as long as the furthest position, and each byte is the last one written there, zero in the gaps |
| FMemOpen.Fmemopen | src/fmemopen.c:56-166 | fails exactly for the invalid arguments; otherwise the initial state and the access of the mode |
| FMemOpen.SetUp | src/fmemopen.c:94-140 | buffer, length, offset and the two functions by mode |
| FMemOpen.ReadsAll | src/fmemopen.c:124-131 | opened for reading: all bytes can be read from the start |
| FMemOpen.StartsEmpty | src/fmemopen.c:106-110 | opened for writing: no data, and a NUL at the start |
| FMemOpen.StartsAtEnd | src/fmemopen.c:124-129 | opened for appending: writing starts at the first NUL, and nothing can be read |
| FMemOpen.GrantedExactly | src/fmemopen.c:143-147 | a mode gets the access that it names exactly if it is not plain reading |
| FMemOpen.ReadOnlyWritten | src/fmemopen.c:143-147 | with "r" the stream can be written |
| FMemOpen.BinaryAppendExactly | src/fmemopen.c:111-127 | binary append starts at the size of the buffer, as promised, exactly if the buffer is given by the caller and has no NUL |
| FMemOpen.AppendsAtNul | src/fmemopen.c:111-127 | with "ab" and one byte in a buffer of two, writing starts at 1 |
| FMemOpen.Cookie.Read | src/fmemopen.c:168-184 | stays inside the buffer exactly if offset and count do; then refines the abstract read and returns the bytes at the offset |
| FMemOpen.Cookie.Write | src/fmemopen.c:186-214 | refines the abstract write and touches nothing beyond the size |
| FMemOpen.Cookie.Seek | src/fmemopen.c:216-253 | refines the abstract seek |
| FMemOpen.ReadSafeExactly | src/fmemopen.c:173-179 | a read stays inside the buffer exactly if it starts in the data or ends before the end of the buffer |
| FMemOpen.ReadLeaves | src/fmemopen.c:173-179 | opened with "w+" on four bytes, and a seek to 1: ten bytes are read from there |
| FMemOpen.SeekExactly | src/fmemopen.c:221-250 | a seek succeeds exactly for targets in range, goes there and changes nothing but the offset |
| FMemOpen.WriteStores | src/fmemopen.c:190-211 | a write stores min(n, size-off) bytes and touches no other byte but the one behind it, to end a text |
| FMemOpen.ReadsBack | src/fmemopen.c:168-253 | going back and reading gives what was written |
| FMemOpen.RunIs | src/fmemopen.c:168-253 | over all sequences offset and length stay within the size, each byte is the last one written there, and the length is that of the furthest write |
| Histogram.Info.GenDeltas | tools/clock_info.c:702-715 | the entries are the differences of neighbouring samples, not counted yet |
| Histogram.ComparesDiffs | tools/clock_info.c:745-758 | the comparison that qsort gets is a total preorder and the order of the differences |
| Histogram.Info.HcollDiff | tools/clock_info.c:762-776 | compression in place leaves exactly the runs |
| Histogram.Info.GenHist | tools/clock_info.c:779-785 | differences strictly increase, counts are positive and are the numbers of occurrences, add up to the number of deltas, and weighted with the differences to last sample minus first |
| Histogram.Compressed | tools/clock_info.c:762-776 | the runs of the sorted deltas are their histogram and conserve number and sum |
| Histogram.RunsCount | tools/clock_info.c:768-773 | runs conserve the number, the sum and every multiplicity |
| Histogram.EntryCounts | tools/clock_info.c:768-773 | an entry counts all occurrences of its difference |
| Histogram.HistogramEntries | tools/clock_info.c:768-773 | exactly the differences that occur have an entry, in increasing order, with the number of their occurrences |
| Histogram.Telescopes | tools/clock_info.c:702-715 | the deltas add up to last sample minus first |
| UberAce.Copier.FixPerms | src/copyfile.c:1249-1331 | only a list that is there gets the entry in front |
| UberAce.Copier.Security | src/copyfile.c:1801-1909 | a leading uberace and inherited entries of the destination, then the own entries of the source, and an uberace for delayed directories |
| UberAce.Filtered | src/copyfile.c:1853-1893 | own entries are exactly those of the list that are not inherited, the others exactly those that are |
| UberAce.FilteredBoth | src/copyfile.c:1853-1893 | both keep the order of the list |
| UberAce.Copier.RemoveUberace | src/copyfile.c:356-402 | the first entry is removed exactly if it is the uberace of the effective user |
| UberAce.Copier.ResetSecurity | src/copyfile.c:404-430 | the entry is removed unless that is delayed |
| UberAce.Copier.Copy | src/copyfile.c:914-991 | permission fixing, security copying, reset and directory cleanup together |
| UberAce.Copier.CopyFails | src/copyfile.c:914-991 | a copy that fails at any of its steps: the destination is unlinked, or its list is what `After` says |
| UberAce.ListsExact | src/copyfile.c:1801-1982 | the final list is the one asked for, with no uberace in it, exactly if real and effective user are the same or no uberace had to stay until the end |
| UberAce.ListsMerged | src/copyfile.c:1801-1909 | an example of every step in plain entries: the five permissions, the entry in front, the merged list, and the final one |
| UberAce.StaysForOthers | src/copyfile.c:356-402 | real user 1, effective user 2: the uberace is still there at the end |
| UberAce.FailureLeaves | src/copyfile.c:914-991 | after a failure an uberace leads the list: before the data step exactly if the list at the start was fixed; never after a data failure, which unlinks the destination; after the security step depending on what was copied and whether real and effective user are the same |
| CopyData.Copier.WriteBlock | src/copyfile.c:1726-1772 | under short writes, zero writes and retried failures the written bytes stay a prefix of the source; six zero writes in a row abort; it terminates if failures are not retried for ever |
| CopyData.Copier.CopyFileData | src/copyfile.c:1668-1793 | the destination holds a prefix of the source of length totalCopied over its old contents; why the copy ended; a complete one copied the whole source exactly if the block size is positive (or the source empty), and with a block size of 0 nothing is copied at all; nothing is read or written in pieces of more than 2^30 bytes |
| CopyData.ZeroBlocks | src/copyfile.c:1685-1793 | with a block size of 0 the copy of one byte succeeds and the destination holds a zero instead |
| CopyData.EndDecided | src/copyfile.c:1726-1793 | the answers of the system and of the callback decide how the copy ends: no two ends have the same reasons |
| CopyData.EndReasons | src/copyfile.c:1738-1772 | what they are, with the callback's answers as numbers: 0 repeats a failed write, 1 skips the data, 2 quits |
| CopyData.WholeCopy | src/copyfile.c:1780-1784 | after truncation to the size of a wholly copied source the destination is the source |

## Left out

- AppleDoublePack.Pack: with the flag for extended attributes only; access control lists as text and quarantine data are not modelled, and reads and writes of the system succeed. What is written behind the buffer, or from there to the file, is not modelled.
- AppleDoubleUnpack.Unpack: on a system without quarantine support; setting attributes succeeds, and copyfile_stat, which the stat flag calls, is seen by its result only; what the swap does to the bytes behind the buffer is not modelled.
- EndianSwap.SwapAdhdr: requires the fixed entries to lie inside the image, which its callers have checked.
- Uniform.ArcUniform: the loop is given up after as many draws as there are entropy answers, since termination is only probable.
- Arc4Random.RandState.Stir: entropy is whatever the caller passes; per-thread keys and fork detection are not modelled.
- AtCallThreads.EveryExit: the rest of the program does not close the saved descriptors or change the directory of a thread inside the sequence.
- AtCallProcessWide.SerialExit: likewise, and on 10.4 nothing else in the program changes the directory of the process while a thread is inside.
- AtCallProcessWide.OverlapExact: nothing but such calls happens; `open(".")` works and what was saved may be entered again, since otherwise the outcome depends on which step of which thread fails (each step is given by AtCallProcessWide.StepMoves).
- LinkAt.BothPlaces: the descriptors that are needed are open on directories that may be entered. Where two are needed, F_GETPATH gives a path that leads back to the directory, and the joined path fits; LinkAt.CutExact says what a cut one names.
- LinkAt.FullPathAt: paths are values that are appended to, not buffers.
- SleepOffset.NeverStepsBack: mach times and differences stay below 2^62; reading the clocks and the floating-point conversion are parameters.
- SleepOffset.Offsets.MachContinuousTime: the approximate variant differs in the mach time only.
- Clock.Statics.ClockGettime: the continuous time is a parameter, so a scale that is first obtained while computing it is not seen.
- Cmsg.CheckCmsgLengths: requires messages that claim the 12 bytes of their header at least. A smaller length does not lead past the header, and with 0 the walk stays where it is.
- Cmsg.FixReceived: likewise; lengths are unbounded integers; the Rosetta byte swap and big-endian hosts are not modelled, nor what is read and written beyond stream and buffer.
- FMemOpen.Cookie.Read: what lies behind the buffer is not modelled.
- FMemOpen.Fmemopen: mode strings are taken apart already; buffering and append mode in stdio are not modelled.
- MemStream.Stream.Grow: allocation succeeds; what an overflowing int does is not modelled.
- Histogram.Info.HsortDiff: qsort is a parameter, which puts the entries in the order of their comparison; entries that are not counted yet are represented by their differences. The second kind of histogram, of offsets between two clocks, shares everything but its first step and is left out.
- UberAce.Copier.Copy: applying lists succeeds, and mode bits and owners are not modelled; nor is the copy of the list that is kept in the source's state.
- UberAce.Copier.CopyFails: copyfile_stat always returns 0 (src/copyfile.c:2012), so its failure, which the caller tests for, never comes.
- CopyData.Copier.CopyFileData: both files are at their start, and the source does not change while it is read; preallocation and errno are not modelled.
- The variants of fdopendir for different stat structures, which differ in types only.
- copyfile's tree walk, state handling, opening and checking of files, and stat copying: plumbing over the file system.
- The other *at() calls, which use the sequence of `AtCall` with one system call each, and the exchange of user ids in faccessat.
- Wrapper headers, version macros, and the small string, bit and memory functions, which would only add easy members.
