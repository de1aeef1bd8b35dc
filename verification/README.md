# Proofs about the aRVern system IPs: drivers and coverage tools

This project models six components of the repository and proves what they promise.

1. **ACLINT timer driver.** `AclintWindow` is the register window as the driver's headers describe it: every
   access and every counter tick is one atomic step, an LO load moves the snapshot that HI loads return, the
   two halves of a comparator are separate registers, and the interrupt level is `MTIME >= {HI, LO}`. A ghost
   trace keeps the state after every step. `AclintDriver` and `AclintDelay` are the driver's calls; between any
   two of their accesses `Window.Interfere` lets ticks, up to any number given for the run, other readers and
   stores to other harts happen in any order. `TicksCeil` is the shift-subtract ceiling division.
2. **PLIC driver.** `PlicEnable` is the bit-packed enable bank against the set of (context, source) pairs it
   stands for. `PlicProtocol` is claim / handler / complete as a state machine over gateways and any number of
   contexts; `PlicRefines` shows that the bank's operations are its enabling steps, and `PlicDispatch` is the
   driver's dispatch with everybody else interfering.
3. **Filelist flattener.** `Filelist` is the recursive walk that shares one mutable visited set, and the
   first-wins deduplication. `FilelistLines` says what each kind of line contributes, on lines put together from
   their parts. `FilelistReach` relates the walk to reachability, `FilelistInline` to naive inlining.
4. **Coverage waivers.** `Glob` is fnmatch and `GlobMeaning` what its patterns match. `BitGlobs` and
   `CombineBits` fold bit indices into globs, `SourceAnchor` finds literal anchors, `SignalNames`, `WaiverGroups`, `SuggestGlobs`, `WaiverEntries` and
   `WaiverSuggest` generate entries for a location, `WaiverExact` says what these waive and when that is exact,
   `WaiverRules` and `Waivers` load, match and lint them, `WaiverWorkflow` puts the three together, and
   `WaiverLimits` runs them on databases for which they are not exact.
5. **Constant-bit analysis.** `ConstAlias` is the alias closure over a netlist, `ConstIntersect` the
   intersection over bit ranges that are partly absent. `VerilogText`, `ConcatGrammar` and `ConcatReading` give
   the text of Verilog concatenations a grammar in which every text reads as at most one tree, and `ConcatShapes`
   says how the leaves and replications of it are written; `ConcatFlags` is the meaning of the constant flags of
   a tree and `ConcatExact` when they find every constant bit, `ConcatDecide` and `ConstConcat` are the parser on
   text, and `ConcatLimits` runs it on texts for which the flags are too few or miss constant bits.
6. **VCD sampler.** `VcdWindow` is the streaming sampler against a specification without its state.

`Words`, `Text`, `Comments`, `Options`, `Sequences` and `Coverage` hold what several of them share.

Every IP ships its own copies of the Python scripts; the source cells below point at one of them.

## What turned out to hold only under a condition

- **A 64-bit read** is exact as long as the counter does not run through its whole range during the call
  (`MtimeRead`). Of two reads the later is no smaller exactly if the ticks between their last LO loads, modulo
  2^64, do not carry the first value past 2^64 - 1 (`ReadsInOrder`, `ReadTwice`).
- **A completed source leaves service** exactly if it is still enabled for its context. In a whole run nothing
  is left in service unserviced if and only if every completion came while the source was enabled
  (`NoLeakIffCompletedEnabled`); a source left behind stays so (`LeakIsForever`), as in the run of
  `DisabledTooSoonLeaks`.
- **Suggested entries** waive exactly the uncovered points of the location, whatever points the files of the
  database may have, and each entry names of one base only, if and only if each of these points is on a line,
  branch or toggle page, in a file with a name, and has a nonempty name without `*`, `?` and leading zeros in its
  index, and the text or line number the entries look for finds the same uncovered points wherever it occurs in
  files of that base name (`SuggestEntries`, `PerfectIffWritable`). That text or number follows from the database,
  the files and the request (`LooksAtOne`). With one file of the base name the last part always holds
  (`OneFileIsPlaced`). The tool quotes `[` only, so an escaped name matches itself alone exactly if it has no `*`
  and no `?` (`ExactIffPlain`); it prints indices anew, so it finds a name again exactly if its index has no
  leading zero (`FoundIffCanonical`).
- **Suggesting, loading and linting** against one database, with a reason filled in, reports no mistake and flags
  no entry if and only if each uncovered point of the location, or another one written with the same glob, takes a
  point of the database, and none takes a covered one (`SuggestLoadLint`, `CleanIffAllFind`). A point takes
  another when its file name, page and locator fit and the tool's spelling of its name matches the other's name.
  `LeadingZeroIsLost` runs the tool on an uncovered `a[01]` beside a covered `a[1]`: the entry waives `a[1]`
  instead and lint flags it. `LeadingZeroIsStale` runs it on `a[01]` alone: the entry matches nothing, and lint
  flags it too. `SharedNameIsBroad` runs it on two files of one base name.
- **A waiver entry that is not read is reported**, except when its list of types is empty
  (`OnlyNoTypesIsSilent`), although the loader's comments promise a record of every refusal.
- **The report's stale waivers** are those whose every point is covered by an earlier waiver, which includes
  waivers that do match (`NoHitsIffShadowed`, `CopyHasNoHits`); the message says "matched nothing", which is
  what lint decides.
- **Constant flags** number as many as the expression has bits if and only if its whole signals are declared
  from the high index down; `AscendingIsShort` runs the parser on a five-bit concatenation, which gets
  one flag. Flagged bits are constant; they are all constant bits if and only if no replication inside a
  concatenation repeats both constant and other bits (`TopExact`), and `MixedIsCoarse` is one that does.
- **Nested intersections** equal the flat one exactly at the bits that fall in no gap between the leaf ranges
  of a group (`NestedIsFlatWithoutGaps`); `GapLosesBit` is a group with such a gap.
- **Stopping a dump early** loses nothing, for any window, if and only if no time before a wanted clock edge is
  later than the edge (`NeverLosesIffEdgesInOrder`). Nondecreasing times are enough (`EarlyStopLosesNothing`) but
  not needed (`GoingBackCanBeHarmless`), and a time that goes back before an edge loses a row
  (`EarlyStopCanLose`).

## Model

| member | source | states |
|---|---|---|
| `AclintWindow.RunOrdered` | ahb_aclint/sw/include/ahb_aclint_regs.h:46-47 | in every run of ticks, loads and stores, neither the count nor the snapshot goes back, and the snapshot is never ahead of the count |
| `AclintWindow.Window.LoadMtimeLo` | ahb_aclint/sw/include/ahb_aclint.h:80-86 | the low-word load returns the low half of MTIME and moves the shared snapshot to that instant; nothing else changes |
| `AclintWindow.Window.Interfere` | ahb_aclint/sw/include/ahb_aclint.h:88-91 | whatever other readers, ticks and other harts' stores do between two accesses, the comparators of the quiet harts keep their values at every instant and the snapshot only moves forward |
| `AclintDriver.Aclint.Init` | ahb_aclint/sw/src/ahb_aclint.c:19-30 | accepted exactly for a window and 1 to 16 harts; a refused configuration leaves the handle as it was |
| `AclintDriver.PassArithmetic` | ahb_aclint/sw/src/ahb_aclint.c:41-49 | on unbounded counts: equal HI words around the LO load make the joined words the count of that load; unequal ones mean the high word of the snapshot rose |
| `AclintDriver.Aclint.MtimeRead` | ahb_aclint/sw/src/ahb_aclint.c:36-50 | under any interference the result is the 64-bit MTIME at the call's own last LO load, and the failed passes are at most the rise of the snapshot's high word during the call, so the loop ends |
| `AclintDriver.ReadsInOrder` | ahb_aclint/sw/src/ahb_aclint.c:36-50 | at two instants of a run the counts are in order, and the MTIME of the later is no smaller exactly if the ticks between, modulo 2^64, do not carry the earlier value past 2^64 - 1 |
| `AclintDriver.Aclint.ReadTwice` | ahb_aclint/sw/src/ahb_aclint.c:36-50 | a read that starts after another has returned, with anything in between, yields no smaller value, exactly if the ticks between their last LO loads do not carry the first value past 2^64 - 1 |
| `AclintDriver.Aclint.TimerSet` | ahb_aclint/sw/src/ahb_aclint.c:64-76 | at every instant through the three stores and the interference between them, the interrupt is high only if MTIME has reached the lesser of the old and new deadlines; the comparator ends at the deadline and no other hart's changes; a bad hart changes nothing |
| `AclintDriver.Aclint.TimerSetRel` | ahb_aclint/sw/src/ahb_aclint.c:78-87 | the new deadline is min(now + ticks, 2^64 - 1), where `now` is the MTIME of an instant of the call; at every instant of the read and of the stores the interrupt is high only if MTIME has reached the lesser of the old and the new deadline, whether the hart was armed or not, and no other hart's comparator changes |
| `AclintDriver.Aclint.TimerDisable` | ahb_aclint/sw/src/ahb_aclint.c:89-99 | ends disarmed, with the interrupt never high before the old deadline on the way |
| `AclintDriver.Aclint.TimerGet` | ahb_aclint/sw/src/ahb_aclint.c:101-109 | the two half loads give the deadline last set, whatever happens to other harts between them |
| `AclintDriver.Aclint.TimerExpired` | ahb_aclint/sw/src/ahb_aclint.c:111-117 | the answer is the interrupt level of the hart at one instant of the call; false for a bad hart |
| `AclintDelay.OnePoll` | ahb_aclint/sw/src/ahb_aclint.c:134-135 | a wrapped 32-bit difference that passes was really reached, and polls at most 2^31 - 1 ticks apart cannot jump over the window in which it passes |
| `AclintDelay.WaitChunks` | ahb_aclint/sw/src/ahb_aclint.c:132-138 | over all chunks and low-word wraps, passing means the unbounded count advanced by all the ticks, and it is overshot by less than twice the largest gap between loads |
| `AclintDelay.DelayTicks` | ahb_aclint/sw/src/ahb_aclint.c:123-139 | never early: ticks + 1 counted between the first and last LO load (ticks itself for 2^64 - 1), with no bound on gaps; never late: with gaps up to g the last load is less than 2g past that, and with at most g ticks between accesses the whole call takes less than 3g more; with the counter advancing between loads the call is over after as many polls, so both loops end; no comparator is written, and zero ticks load nothing |
| `TicksCeil.TicksCeil` | ahb_aclint/sw/src/ahb_aclint.c:143-156 | the quotient is exactly the ceiling of t * hz / d for all 32-bit t, hz and d > 0, with dividend, remainder and quotient within 64 bits |
| `AclintDelay.UsToTicks` | ahb_aclint/sw/src/ahb_aclint.c:158-161 | the least tick count worth at least the microseconds asked for |
| `AclintDelay.MsToTicks` | ahb_aclint/sw/src/ahb_aclint.c:163-166 | the least tick count worth at least the milliseconds asked for |
| `AclintDelay.DelayUs` | ahb_aclint/sw/src/ahb_aclint.c:168-174 | a finished delay saw full periods p with p * 10^6 >= us * hz pass, and with gaps up to g fewer than 2g + 1 periods more than the microseconds take (3g + 1 for the whole call); it ends after as many polls; zero microseconds load nothing; refused exactly without a tick rate, without touching the window |
| `AclintDelay.DelayMs` | ahb_aclint/sw/src/ahb_aclint.c:176-182 | a finished delay saw full periods p with p * 10^3 >= ms * hz pass, and with gaps up to g fewer than 2g + 1 periods more than the milliseconds take (3g + 1 for the whole call); it ends after as many polls; zero milliseconds load nothing; refused exactly without a tick rate, without touching the window |
| `PlicEnable.OneBit` | ahb_plic/sw/src/ahb_plic.c:100-110 | setting or clearing one source's bit of a word leaves the other 31 sources as they were |
| `PlicEnable.Plic.Init` | ahb_plic/sw/src/ahb_plic.c:22-38 | accepted exactly for buildable configurations, touches no register, the context count and greatest priority follow from the configuration, and the bank then stands for the sources its words have set |
| `PlicEnable.Plic.Enable` | ahb_plic/sw/src/ahb_plic.c:96-103 | adds exactly the pair to the abstract set; refused exactly out of range, changing nothing |
| `PlicEnable.Plic.Disable` | ahb_plic/sw/src/ahb_plic.c:105-112 | removes exactly the pair from the abstract set; refused exactly out of range, changing nothing |
| `PlicEnable.Plic.IsEnabled` | ahb_plic/sw/src/ahb_plic.c:114-119 | true exactly for the members of the abstract set, false out of range |
| `PlicEnable.Plic.ContextClear` | ahb_plic/sw/src/ahb_plic.c:50-59 | empties the context's set and opens its threshold, and leaves every other context's alone |
| `PlicRefines.EnableStep` | ahb_plic/sw/src/ahb_plic.c:96-103 | the driver's enable, refused or not, is the protocol's step on the pairs the bank stands for |
| `PlicRefines.DisableStep` | ahb_plic/sw/src/ahb_plic.c:105-112 | the driver's disable, refused or not, is the protocol's step on the pairs the bank stands for |
| `PlicRefines.ClearStep` | ahb_plic/sw/src/ahb_plic.c:50-59 | the driver's clearing of a context, refused or not, is the protocol's step on the pairs the bank stands for |
| `PlicProtocol.WinnerIsBest` | ahb_plic/sw/include/ahb_plic.h:126-128 | a claim gets the qualifying source of highest priority, the lowest ID among equals, and nothing only when nothing qualifies |
| `PlicProtocol.RunsAreExclusive` | ahb_plic/sw/include/ahb_plic.h:126-152 | in every interleaving of any number of contexts no source is serviced by two at once, nor pending while in service |
| `PlicProtocol.LeakIsForever` | ahb_plic/sw/include/ahb_plic.h:136-140 | a source left in service with nobody servicing it stays in service in every continuation of the run |
| `PlicProtocol.NoLeakIffCompletedEnabled` | ahb_plic/sw/include/ahb_plic.h:136-140 | after a run the sources in service are those being serviced if and only if every completion came while its source was enabled for its context |
| `PlicProtocol.DisabledTooSoonLeaks` | ahb_plic/sw/include/ahb_plic.h:136-140 | a run that disables a source between its claim and its completion leaves it in service with nobody servicing it |
| `PlicDispatch.Plic.Dispatch` | ahb_plic/sw/src/ahb_plic.c:139-151 | with everything else interleaved, a nonzero claim is followed by one handler call with the claimed, in-range ID and one completion of that ID, which is returned, and the source leaves service exactly if it is still enabled then; a zero claim does nothing more |
| `Filelist.Flattener.Process` | ahb_aclint/sim/rtl_sim/bin/flatten_filelist.py:77-144 | the walk with a shared visited set ends on every include graph, and its output and visited set are those of the specified walk, in which each line contributes what it says (`LineYields`) |
| `FilelistLines.LineYields` | ahb_aclint/sim/rtl_sim/bin/flatten_filelist.py:91-141 | whatever white space and comment are around it: `-f` goes to the named list and `+incdir+` emits the directory, both resolved from the filelist; a bare name is resolved; `+incdir+./`, `./` and other directives are emitted as written; blank lines and comments yield nothing |
| `FilelistLines.EveryLineSays` | ahb_aclint/sim/rtl_sim/bin/flatten_filelist.py:91-141 | every line is of one of these kinds, so what lines of these kinds yield is all there is to know of the walk's lines |
| `FilelistLines.WalkOfItems` | ahb_aclint/sim/rtl_sim/bin/flatten_filelist.py:77-144 | the walk over the lines of a filelist enters and emits, in order, what its lines say |
| `FilelistLines.OnlyDirectivesPass` | ahb_aclint/sim/rtl_sim/bin/flatten_filelist.py:155-162 | of what lines yield, exactly the directives other than `+incdir+` are kept out of the deduplication, as long as resolved names are absolute |
| `Filelist.DedupLines` | ahb_aclint/sim/rtl_sim/bin/flatten_filelist.py:147-170 | what is left are, in order, the lines that are passthrough directives or equal to no earlier line; the others are counted as dropped |
| `Filelist.DedupPicksFirsts` | ahb_aclint/sim/rtl_sim/bin/flatten_filelist.py:147-170 | the recursive deduplication picks exactly the places of passthrough directives and of first occurrences |
| `FilelistReach.FlattenIsReachable` | ahb_aclint/sim/rtl_sim/bin/flatten_filelist.py:77-144 | for any include graph, cyclic or not: exactly the filelists reachable from the root are entered, each once, and the output is as a multiset the sum of their own entries |
| `FilelistReach.EnteredIsReachable` | ahb_aclint/sim/rtl_sim/bin/flatten_filelist.py:103-112 | every filelist entered from any visited set is at the end of a chain of includes |
| `FilelistInline.KeyedOfDedup` | ahb_aclint/sim/rtl_sim/bin/flatten_filelist.py:147-170 | the file and +incdir+ entries that survive are the first occurrences of such entries |
| `FilelistInline.FlattenIsInline` | ahb_aclint/sim/rtl_sim/bin/flatten_filelist.py:77-170 | for acyclic graphs the file and +incdir+ entries after flattening and deduplication are the first occurrences of the naive expansion that inlines a nested filelist every time it is named |
| `Glob.ParseLiteral` | ahb_aclint/sim/rtl_sim/bin/cov_waive.py:368-371 | an escaped name is read by fnmatch character by character, whatever glob text follows it |
| `GlobMeaning.MatchIffCut` | ahb_aclint/sim/rtl_sim/bin/cov_waive.py:264 | a pattern matches exactly the texts that can be cut into one piece for each of its tokens, any piece for a star and one allowed character for anything else |
| `GlobMeaning.ClassMatches` | ahb_aclint/sim/rtl_sim/bin/cov_waive.py:264 | a bracketed class matches exactly the characters and ranges of its body, one at a time |
| `GlobMeaning.NegatedMatches` | ahb_aclint/sim/rtl_sim/bin/cov_waive.py:264 | a class negated with `!` matches exactly the other characters |
| `BitGlobs.DigitClass` | ahb_aclint/sim/rtl_sim/bin/cov_waive.py:352-365 | the class body stands for exactly the given digits, and is their maximal runs in order, one of three digits or more written as a range and a shorter one digit by digit |
| `CombineBits.GroupGlob` | ahb_aclint/sim/rtl_sim/bin/cov_waive.py:386-389 | a group's glob is the escaped base, its leading digits, and one last position that takes exactly the group's last digits, a plain digit when there is one only |
| `CombineBits.SelectsBits` | ahb_aclint/sim/rtl_sim/bin/cov_waive.py:386-389 | a group's glob matches base[b] exactly for the bits of the group, for every base, wildcards included, and every natural b |
| `CombineBits.SelectsOneByOne` | ahb_aclint/sim/rtl_sim/bin/cov_waive.py:386-389 | a group's glob matches, among all names and for every base, what the escaped names of its bits match one by one |
| `CombineBits.PlainFolds` | ahb_aclint/sim/rtl_sim/bin/cov_waive.py:386-389 | for a base without wildcards the folded globs match the names of the wanted bits and no other name at all |
| `CombineBits.CombineBits` | ahb_aclint/sim/rtl_sim/bin/cov_waive.py:374-398 | succeeds exactly if the wanted bits are present; then the globs match base[b] exactly for the wanted b, each by one glob, and there is exactly one glob for each choice of leading digits among the wanted bits, which on any name matches what the escaped names of its bits match |
| `CombineBits.FoldsOneByOne` | ahb_aclint/sim/rtl_sim/bin/cov_waive.py:374-398 | on any name, and for every base, the folded globs match what one escaped name a bit would match |
| `SourceAnchor.SrcAnchor` | ahb_aclint/sim/rtl_sim/bin/cov_waive.py:316-348 | there is an anchor exactly if the line's code is on no other line; it is on the requested line only, goes through the signal if the line has it, ends no identifier half way, and is the shortest such |
| `SourceAnchor.CodeOfLine` | ahb_aclint/sim/rtl_sim/bin/cov_waive.py:329 | the code of a line is what is left without the white space around it and the comment after it |
| `SourceAnchor.OneShortest` | ahb_aclint/sim/rtl_sim/bin/cov_waive.py:332-348 | the promises of an anchor hold of one text only, so the file, the line and the name settle it |
| `Coverage.NamedBasename` | ahb_aclint/sim/rtl_sim/bin/cov_waive.py:426-428 | every path a file hint selects, by base name or by suffix, has the hint's base name |
| `Coverage.NamesMeaning` | ahb_aclint/sim/rtl_sim/bin/cov_waive.py:426-428 | a hint selects exactly the paths that are the hint without a slash or end with a slash and the hint |
| `Coverage.CoveredSomewhere` | ahb_aclint/sim/rtl_sim/bin/cov_waive.py:421-424 | the accumulated count of a point is positive exactly if some instance covered it |
| `Coverage.CountIsLargest` | ahb_aclint/sim/rtl_sim/bin/cov_waive.py:433 | the accumulated count of a point is at least the count of each of its instances, and one of them has it unless it is zero |
| `Coverage.Accumulate` | ahb_aclint/sim/rtl_sim/bin/cov_waive.py:425-434 | the dictionary has exactly the selected points, once, each with its largest count, in the order in which they were first seen |
| `SignalNames.SplitsAtLastIndex` | ahb_aclint/sim/rtl_sim/bin/cov_waive.py:450-455 | an indexed name is split at its last index for every base, array elements included |
| `SuggestGlobs.MemberGlobs` | ahb_aclint/sim/rtl_sim/bin/cov_waive.py:457-480 | for any names of one base: there is exactly one glob for each set of uncovered names without an index or with indices that differ in the last digit only; it matches what these names, as the tool spells them, catch, and is empty only for the empty name; among all names the globs match the uncovered ones and no others exactly if each of these is nonempty, has no wildcard and no leading zero |
| `SuggestGlobs.ExactIffFoldable` | ahb_aclint/sim/rtl_sim/bin/cov_waive.py:457-480 | globs that match what the spellings catch are exact if and only if every uncovered name of the base is nonempty, wildcard-free and canonical |
| `WaiverEntries.StubIsRefused` | ahb_aclint/sim/rtl_sim/bin/cov_waive.py:146-148 | a suggestion pasted with its generated reason is refused |
| `WaiverRules.TypesArePages` | ahb_aclint/sim/rtl_sim/bin/cov_waive.py:165-172 | the types are line, branch and toggle, the page of each is its name after `v_`, and `all` stands for these three |
| `WaiverEntries.MadeReads` | ahb_aclint/sim/rtl_sim/bin/cov_waive.py:133-178 | a suggestion with a reason of its own is read back without complaint as the file, locator, page and glob it was made for |
| `WaiverEntries.MadeWaives` | ahb_aclint/sim/rtl_sim/bin/cov_waive.py:133-178 | whatever a suggestion was made for, it waives exactly the points of its file name, the pages its type is read as, its place and its glob |
| `WaiverSuggest.SuggestEntries` | ahb_aclint/sim/rtl_sim/bin/cov_waive.py:412-481 | for every database and location there is exactly one entry for each set of uncovered points that are written with one glob; as generated every entry is refused; with any reason filled in it is read exactly if the points have a file name and a known type, and waives what they take; together the entries waive exactly what the uncovered points take; they waive these points and nothing else in the files, each entry names of one base, if and only if the uncovered points are on known pages, in files with a name, with nonempty wildcard-free canonical names, and the locator finds the same points wherever it occurs under that base name, which it does whenever the database has one file of it; covered points are counted as skipped; the locator is the shortest anchor of the line, in the file of the first uncovered point of the database and through its base name, exactly if the line has one, and else the line number |
| `WaiverSuggest.LooksAtOne` | ahb_aclint/sim/rtl_sim/bin/cov_waive.py:445-446 | the database, the files and the request settle the locator, so the conditions on it can be checked before the call |
| `WaiverGroups.AtMeaning` | ahb_aclint/sim/rtl_sim/bin/cov_waive.py:426-432 | the location is the points of the requested line in the files the hint names, on the page of the requested type; without a type on any page, with an unknown one nowhere |
| `WaiverSuggest.GroupEntryForHole` | ahb_aclint/sim/rtl_sim/bin/cov_waive.py:457-480 | an entry with the glob for an uncovered name of a group waives exactly what that point and those written with it take, whatever their page and file |
| `WaiverExact.SuggestedWaive` | ahb_aclint/sim/rtl_sim/bin/cov_waive.py:412-481 | a point is waived exactly if some uncovered point of the location has its file name, page and place and a spelling that catches its name |
| `WaiverExact.PerfectIffWritable` | ahb_aclint/sim/rtl_sim/bin/cov_waive.py:412-481 | exactness for all points the files may have, as an equivalence with what the uncovered points and the places of the locator are like |
| `WaiverExact.OneFileIsPlaced` | ahb_aclint/sim/rtl_sim/bin/cov_waive.py:445-446 | with one file of the requested base name the anchor or line number finds the requested line and no other place |
| `WaiverRules.OnlyNoTypesIsSilent` | ahb_aclint/sim/rtl_sim/bin/cov_waive.py:133-178 | an entry is dropped without a report exactly when it is otherwise sound and its type list is empty |
| `WaiverRules.QuotedIsLocator` | ahb_aclint/sim/rtl_sim/bin/cov_waive.py:149-157 | text between slashes is a literal locator, and after `re` a regex one, refused exactly if it does not compile |
| `WaiverRules.NumberIsLocator` | ahb_aclint/sim/rtl_sim/bin/cov_waive.py:158-163 | digits with a sign or not, and white space around, are the line of that number |
| `WaiverRules.ReadSaysWhy` | ahb_aclint/sim/rtl_sim/bin/cov_waive.py:141-178 | a waiver that is read has a reason that is not the stub, a file, known pages, and a regex that compiles or a nonempty literal |
| `Waivers.Waivers.AddDict` | ahb_aclint/sim/rtl_sim/bin/cov_waive.py:133-178 | appends the waiver an entry reads as, with no hits yet, and the mistakes it is reported for; earlier waivers stay |
| `Waivers.Waivers.Match` | ahb_aclint/sim/rtl_sim/bin/cov_waive.py:248-268 | the answer is the first waiver covering the point, none exactly if none covers it, and only its hits go up, by one |
| `Waivers.Waivers.MatchAll` | ahb_aclint/sim/rtl_sim/bin/cov_report.py:108-116 | over a whole report each waiver is hit by as many points as it is the first to cover |
| `Waivers.NoHitsIffShadowed` | ahb_aclint/sim/rtl_sim/bin/cov_waive.py:270-271 | a waiver is without hits if and only if an earlier one covers each point it covers |
| `Waivers.CopyHasNoHits` | ahb_aclint/sim/rtl_sim/bin/cov_report.py:186-187 | a second copy of a matching waiver has no hits, so it is reported as matching nothing |
| `Waivers.Waivers.Unhit` | ahb_aclint/sim/rtl_sim/bin/cov_waive.py:270-271 | exactly the waivers without hits, each once, by their places in order |
| `Waivers.Waivers.Lint` | ahb_aclint/sim/rtl_sim/bin/cov_waive.py:514-556 | stale means no point of the database is covered, broad that a covered point is, fine that some points are and all of them uncovered, with how many there are of each; the result counts the verdicts that are not fine |
| `WaiverWorkflow.FineIffFindsUncovered` | ahb_aclint/sim/rtl_sim/bin/cov_waive.py:302-314 | a waiver is judged neither stale nor broad if and only if it waives some point of the database and no covered one |
| `WaiverWorkflow.CleanIffFind` | ahb_aclint/sim/rtl_sim/bin/cov_waive.py:514-556 | any entries of the generated form are loaded without a mistake and none is flagged, if and only if each waives some point of the database and no covered one |
| `WaiverWorkflow.ReadIffLegible` | ahb_aclint/sim/rtl_sim/bin/cov_waive.py:133-178 | suggested entries are all read without a mistake if and only if every uncovered point of the location has a file name and a page that is read back as a known type |
| `WaiverWorkflow.CleanIffAllFind` | ahb_aclint/sim/rtl_sim/bin/cov_waive.py:412-556 | suggested entries are read without a mistake and none is flagged, if and only if every uncovered point, or one written with its glob, takes a point of the database and none takes a covered one |
| `WaiverWorkflow.SuggestLoadLint` | ahb_aclint/sim/rtl_sim/bin/cov_waive.py:412-556 | suggested, given a reason, loaded and linted against the same database: no entry is refused or flagged if and only if every uncovered point, or one written with its glob, takes a point of the database and none takes a covered one; no entry is refused exactly if every uncovered point has a file name and a known type; the first condition holds whenever these points are writable in their places, so whenever the database has one file of the base name and they have known pages and nonempty names without wildcards and leading zeros; some entry is flagged whenever one takes a covered point |
| `WaiverWorkflow.TakesCoveredIsFlagged` | ahb_aclint/sim/rtl_sim/bin/cov_waive.py:514-556 | whenever an uncovered point takes a covered point of the database, lint flags an entry |
| `WaiverLimits.ExactIffPlain` | ahb_aclint/sim/rtl_sim/bin/cov_waive.py:368-371 | the escaped name matches only itself if and only if it has no `*` and no `?` |
| `WaiverLimits.FoundIffCanonical` | ahb_aclint/sim/rtl_sim/bin/cov_waive.py:459-464 | globs made from the value of an index find the name it came from if and only if the index has no leading zeros |
| `WaiverLimits.LeadingZeroIsLost` | ahb_aclint/sim/rtl_sim/bin/cov_waive.py:459-464 | on a database with `a[01]` uncovered and `a[1]` covered, the entries suggested waive `a[1]` and not `a[01]`, and lint flags one |
| `WaiverLimits.LeadingZeroIsStale` | ahb_aclint/sim/rtl_sim/bin/cov_waive.py:459-464 | on a database with `a[01]` uncovered and no other point, the entry suggested is read, matches nothing, and lint flags it |
| `WaiverLimits.SharedNameIsBroad` | ahb_aclint/sim/rtl_sim/bin/cov_waive.py:254-255 | an uncovered point of one file gets an entry that also waives the covered point of another file of the same base name, which lint flags |
| `ConstAlias.Constants` | ahb_aclint/sim/rtl_sim/bin/cov_const.py:209-244 | the loop ends, and a bit is found constant exactly when a chain of connected bits leads from it to a bit tied to 0 or 1; found bits have one value in all valuations that meet the connections position by position, and where no bit has two drivers and the connections can be met, no other bit has |
| `ConstAlias.Pass` | ahb_aclint/sim/rtl_sim/bin/cov_const.py:238-243 | one in-place pass adds only bits that reach a tie, and adds none exactly when the set is closed under the aliases |
| `ConstAlias.ConstantsAreFixed` | ahb_aclint/sim/rtl_sim/bin/cov_const.py:209-244 | a bit found constant has one value in all valuations that satisfy every connection |
| `ConstAlias.ClosureIsExact` | ahb_aclint/sim/rtl_sim/bin/cov_const.py:209-244 | where bits have single drivers, a bit is found constant if and only if all valuations agree on it |
| `ConstAlias.ReachedIffFixed` | ahb_aclint/sim/rtl_sim/bin/cov_const.py:209-244 | the same equivalence on the connections themselves: a bit is reached if and only if all valuations that give facing positions one value agree on it |
| `ConstAlias.MeetsIsSatisfies` | ahb_aclint/sim/rtl_sim/bin/cov_const.py:228-234 | a valuation meets the connections position by position exactly if it satisfies the pairs the closure works on |
| `ConstIntersect.IntersectMeaning` | ahb_aclint/sim/rtl_sim/bin/cov_const.py:254-260 | a bit is kept exactly when some set's range has it and it is constant in every set whose range has it |
| `ConstIntersect.HullIsTight` | ahb_aclint/sim/rtl_sim/bin/cov_const.py:259-260 | the range of the result is the least one around all ranges |
| `ConstIntersect.NestedIsFlatWithoutGaps` | ahb_aclint/sim/rtl_sim/bin/cov_const.py:247-260 | the intersection of intersections keeps a bit exactly when the flat one does and the bit is in no gap between the leaf ranges of a group |
| `ConstIntersect.GapLosesBit` | ahb_aclint/sim/rtl_sim/bin/cov_const.py:247-260 | a bit between the two leaves of a group is kept by the flat intersection and lost by the nested one |
| `ConcatGrammar.CutJoins` | ahb_aclint/sim/rtl_sim/bin/cov_const.py:103-116 | the pieces between top-level commas, with the commas put back, are the text |
| `ConcatReading.ReadsClosed` | ahb_aclint/sim/rtl_sim/bin/cov_const.py:119-169 | text that reads as an expression closes its brackets in order and has no comma outside them |
| `ConcatReading.ReadsCut` | ahb_aclint/sim/rtl_sim/bin/cov_const.py:103-116 | cutting at top-level commas finds exactly the items that text reads as, at any nesting |
| `ConcatReading.ReadsOnce` | ahb_aclint/sim/rtl_sim/bin/cov_const.py:119-169 | a text reads as at most one expression |
| `ConcatShapes.LeafMeaning` | ahb_aclint/sim/rtl_sim/bin/cov_const.py:119-141 | a text is read as a literal, a select, a part select or a whole signal exactly if it is written as that one: width, tick, base and digits, or name, brackets and indices, with white space where it may be |
| `ConcatShapes.RepeatMeaning` | ahb_aclint/sim/rtl_sim/bin/cov_const.py:119-141 | a text is read as a replication of a body exactly if it is written as a count and the body in braces, in braces |
| `ConstConcat.SplitTop` | ahb_aclint/sim/rtl_sim/bin/cov_const.py:103-116 | the loop over characters gives the stripped pieces between top-level commas |
| `ConstConcat.Elem` | ahb_aclint/sim/rtl_sim/bin/cov_const.py:119-141 | width and constancy are those of whatever the element reads as; unsure means it reads as nothing the flags are defined for |
| `ConstConcat.Concat` | ahb_aclint/sim/rtl_sim/bin/cov_const.py:144-169 | ends on every text; gives flags only to text that reads as an expression, and then exactly that expression's flags; gives up exactly when there are none |
| `ConcatFlags.TopWidth` | ahb_aclint/sim/rtl_sim/bin/cov_const.py:144-169 | an expression never gets more flags than bits, and gets one for each bit if and only if its whole signals are declared downwards |
| `ConcatFlags.TopSteady` | ahb_aclint/sim/rtl_sim/bin/cov_const.py:144-169 | a flagged bit has the same value under all values of the signals that agree on the parameters, at any nesting of concatenations and replications |
| `ConcatExact.TopExact` | ahb_aclint/sim/rtl_sim/bin/cov_const.py:119-169 | the flags of an expression are exactly its constant bits if and only if no replication inside a concatenation repeats both constant and other bits |
| `ConcatLimits.AscendingIsShort` | ahb_aclint/sim/rtl_sim/bin/cov_const.py:137-140 | run on the text `{b,1'b0}` with `wire [0:3] b` declared, the parser answers with one flag for a text that reads as an expression of five bits |
| `ConcatLimits.MixedIsCoarse` | ahb_aclint/sim/rtl_sim/bin/cov_const.py:119-141 | run on the text `{{2{1'b0,a}}}` the parser flags no bit, although two of the four are constant |
| `ConstConcat.FlagsAreConstant` | ahb_aclint/sim/rtl_sim/bin/cov_const.py:144-169 | what is answered with flags reads as exactly one expression, the flags are one for each of its bits exactly if its signals descend, and then flagged bits are constant, and are all constant bits exactly if no replication inside a concatenation is mixed |
| `VcdWindow.Sample` | ahb_interconnect/sim/rtl_sim/bin/vcd_window.py:188-240 | the rows are, in order, those of the sections up to the stop whose settled clock makes the edge from the previous section's settled value inside the window, each with the settled values of the signals |
| `VcdWindow.EdgeTurns` | ahb_interconnect/sim/rtl_sim/bin/vcd_window.py:199-209 | the wanted edge of a rising clock is from 0 to 1 since the section before, of a falling one from 1 to 0 |
| `VcdWindow.StopIsPrefix` | ahb_interconnect/sim/rtl_sim/bin/vcd_window.py:214-226 | whatever the times, stopping early only drops rows from the end |
| `VcdWindow.NeverLosesIffEdgesInOrder` | ahb_interconnect/sim/rtl_sim/bin/vcd_window.py:214-226 | for every window the pass that stops early yields the rows of the whole dump, if and only if no time before a wanted edge is later than the edge |
| `VcdWindow.EarlyStopLosesNothing` | ahb_interconnect/sim/rtl_sim/bin/vcd_window.py:214-226 | for nondecreasing times stopping at the first time past the window gives the rows of the whole dump |
| `VcdWindow.EarlyStopCanLose` | ahb_interconnect/sim/rtl_sim/bin/vcd_window.py:214-226 | a dump whose time goes back from 10 to 1 before an edge at 1 loses the row of the edge |
| `VcdWindow.GoingBackCanBeHarmless` | ahb_interconnect/sim/rtl_sim/bin/vcd_window.py:214-226 | a dump whose time goes back with no edge after it loses nothing, so nondecreasing times are not the exact condition |

## Left out

- MtimeRead: the value is tied to the LO load as long as the snapshot's high word rises by less than 2^32 during the call; the run is taken to end before some tick, however late, so that the retry loop can be shown to end.
- DelayTicks: the call is observed for a number of polls chosen by the caller, because a wait on hardware has no bound of its own; the bounds hold for every such number. `loads` are the counts at the call's own LO loads, as the call reports them.
- SuggestEntries: the order of the entries, which the tool sorts, is not stated; indices, bases and digits are taken in the order they come, and the note of how many bits a glob folds is not kept; `line` is a number, not the command line's text of one.
- The per-bit fallback of suggest_entries: `CombineBits` never gives up on bits that are present, so the branch is dead.
- The RTL itself, and `aclint_mtime_write`: a backward write of MTIME breaks the order of the snapshot, and its guarantees rest on RTL timing. No MTIME write happens in the modelled runs.
- Two calls of the timer functions for one hart that interleave, and enable read-modify-writes of one word from two contexts at once: the headers exclude them.
- A dispatch nested inside a handler on the same context, and software that claims or completes other than through the dispatch.
- MSIP and SSIP accessors, `plic_context`, priority and threshold accessors: one-branch facts. Thresholds do not affect a claim.
- Null handles and null out-pointers, except for the window or base address being absent.
- In the PLIC protocol a gateway samples its line at arbitrary moments; that a handler lowers the line is not assumed.
- The file system: only regular files, resolved paths as given by a parameter, no warnings for missing source files, no directories named as filelists.
- Relativising and emitting the flattened list in other formats.
- Regular expressions in waivers: whether a pattern compiles and where it is found are parameters. JSON and Markdown parsing, the older one-line format, and values of other JSON types than the loader expects.
- Text is ASCII: no Unicode digits, letters or white space; integers without underscores; coverage names without line breaks; fnmatch on a case-sensitive file system.
- Folding of toggle directions and the naming of twin points when a database is read; the database is a sequence of normalised records.
- RTLIL text and sigspec parsing: a netlist is the sequence of its connections, bit by bit. Merging several generate scopes under one plain name.
- Collecting drivers, widths and parameters from Verilog source; the parser is given them. Signals are not unpacked arrays. A replication may hold another one directly, which Verilog does not allow.
- VCD headers, hierarchy and value spelling; the body is a sequence of times and value changes, and times are multiplied as reals. With a time scale of zero early stopping is not related to the whole dump.
- HTML reports, sweep runners, configuration tables and subprocesses.
