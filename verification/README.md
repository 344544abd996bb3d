# Models of a set of small C systems programs

The repository holds small C programs that share mutable state: a process tree drawn from one linked table, a shell
that wires pipelines, a `popen` with its table of live streams, three protocols between processes, a `strtok` parser,
an in-place redirection and a character device. Each Dafny module below models one of them and states what it is for.

* `Forest`, `ProcTable`, `Pstree`, `EndToEnd`, `Listing`, `Drawing` — the `pstree` engine. A forest is a sequence of
  parent indices. The class `Pstree` keeps the source's array of rows and its depth counter, and its methods are the
  source's passes, loop by loop; each is tied to a function of the old array (`LinkTable`, `MarkTable`, `DropTable`,
  `Rows`). The lemmas then say what those functions mean: the lists, the two-way closure, the exact lines and their
  order, and when a drawing gives back its tree. The output is a sequence of rows with abstract prefix cells.
* `Descriptors`, `Pipeline` — descriptor tables, and the shell's pipeline as all interleavings of its processes.
* `Popen` — one process image as a class, then the parent and all its children under every sequence of calls.
* `BinarySems`, `Transfer` — the semaphores with their retry loop, and the writer and reader over one shared block as
  all interleavings; a reservation is one step there, and the loop is shown to agree with that step.
* `Ring` — the overwriting producer and the polling consumer, against every interleaving of reads and writes.
* `PingPong` — parent and child exchanging one blocked signal.
* `Parser`, `Redirect` — the shell's parser over a buffer that is cut in place, and redirection over a vector that is
  shifted in place with ownership of its strings.
* `Device` — the exclusive-open device and its chunked reads.

What the operating system decides (descriptor numbers, process ids, how much a read returns, which process moves next,
when a call is interrupted) is a parameter of the step or of the method, constrained only by what the call guarantees.

These results say exactly when the code does what it is for:

* The source's walk up from a picked process ends exactly when it meets no process that is its own proper ancestor
  (`Forest.WalkEndsIff`, with two processes that are each other's parents in `Forest.WalkNeverEnds`); `MarkProcs` asks
  for no more than that these walks end, and the printed forest is acyclic exactly then (`EndToEnd.KeptAcyclicIff`).
  `MakeTree`, `DropProcs` and `PrintTree` need no condition: they are modelled for cyclic tables too.
* main without arguments finds a start exactly when some process has pid 1, ppid 0, ppid 1, its own pid as ppid, or
  the pid -1 that stands for "none" (`EndToEnd.StartIsRowIff`); otherwise the source reads a row -1.
* Wherever marking ends, a listing has the right lines, each once, exactly when no cycle brings a start that stays back
  within the depth bound, counting one level less when the start is veiled (`EndToEnd.GoodListingIff`); cycles elsewhere
  do no harm. Only showall can meet such a start. It then has a second line (`EndToEnd.TwoLines`), or, being
  veiled, its child on the cycle has (`EndToEnd.ChildTwice`); three levels deep, process 1 under -r on a cycle of two
  is still listed rightly (`EndToEnd.HiddenStartUnseen`).
* A drawing gives back its tree exactly when no listed process but the start has a hidden parent
  (`EndToEnd.FinalDrawing`); under -H a single line below two hidden ancestors does not (`EndToEnd.VeiledExample`).
* With two commands or more, every run wires every command rightly exactly when 0 and 1 are open in the shell
  (`Pipeline.WiredIff`); a single round fails exactly when pipe returns the very number an end should go to
  (`Pipeline.RoundIff`).
* `my_pclose` reaps its own child as long as no wait is interrupted (`Popen.ReapsOwn`); with two streams open, one
  interruption is enough to reap the other's (`Popen.InterruptedReapsOther`).
* A consumer loses nothing exactly when every message is returned by some read before the sentinel that no read of a
  larger one precedes (`Ring.LossZeroIff`).
* A retrying reservation succeeds exactly when the semaphore is available or another process releases it before an
  error other than an interruption (`BinarySems.ReserveSucceedsIff`).
* A line has a command for `pipe_spliter` exactly when it is not made of bars alone (`Parser.NoCommand`).
* `getArgs` undoes the printing of a command exactly when no word but the first begins with `&` and the first does not
  begin with white space that `isspace` knows and the delimiters do not (`Parser.ArgsRoundTrip`; `a &` is lost in
  `Parser.AmpersandLost`). The first word is taken even when it begins with `&`.
* A positive-length read of the device comes back empty exactly at the end of the message (`Device.EndMeansComplete`).

## Model

| member | source | states |
|---|---|---|
| ProcTable.PidIndex | hw3/part2.c:259-265 | the last index holding the pid, or -1 when no row holds it |
| Pstree.Pstree.GetPidIndex | hw3/part2.c:259-265 | the backwards search finds that index |
| ProcTable.ParentIs | hw3/part2.c:275-278 | p becomes the parent of i iff p is the last row with the number i names as its parent, and is not i itself |
| Pstree.Pstree.MakeTree | hw3/part2.c:269-290 | for every table, cyclic or not: each row's parent is the last row with the number it names, unless that is the row itself; first child and next sister are exactly those of that forest; nothing else changes |
| Pstree.Pstree.AttachTo | hw3/part2.c:275-288 | attaching one process puts it at the end of its parent's list, first child or not |
| Forest.KidsExact | hw3/part2.c:269-290 | a list of children is strictly increasing and holds exactly the children |
| EndToEnd.MakeTreeLists | hw3/part2.c:269-290 | each process heads a finite sister list equal to the increasing sequence of its children; membership agrees with `parent` and with the numbers in the table |
| Pstree.Pstree.MarkChildren | hw3/part2.c:292-298 | flags exactly the process and all its descendants |
| Pstree.Pstree.MarkParents | hw3/part2.c:315-320 | flags exactly the proper ancestors, and hides them under -H |
| Pstree.Pstree.MarkProcs | hw3/part2.c:300-326 | the flags after the whole pass, for every selection whose walks up end, and for every table under showall |
| EndToEnd.MarkedExactly | hw3/part2.c:300-326 | prints iff ancestor or descendant of a picked process or one itself; selected iff picked; hidden iff -H and a proper ancestor of a picked one |
| EndToEnd.SelectedIff | hw3/part2.c:305-313 | selected iff the owner is that of -u, or -U and the owner is not root, or the number is that of -p, or -s and the command contains the text and is not pstree itself |
| EndToEnd.EachSwitchAlone | hw3/part2.c:305-313 | what each of the four switches selects by itself |
| EndToEnd.KeptUpClosed | hw3/part2.c:300-326 | the printed set is closed under `parent`, so pruning orphans nobody |
| Forest.WalkEndsIff | hw3/part2.c:315-320 | the walk up from a process ends iff nobody on the way is his own proper ancestor |
| EndToEnd.KeptAcyclicIff | hw3/part2.c:300-326 | the printed forest is acyclic iff the walks up from all picked processes end (under showall: iff the table is acyclic) |
| Pstree.Pstree.DropProcs | hw3/part2.c:328-347 | the links of every printing row become those of the forest of printing rows; silent rows stay untouched |
| Pstree.Pstree.SkipSilent | hw3/part2.c:334-336 | walking over silent rows reaches the first printing sister, though earlier rows are already rewritten |
| EndToEnd.DropProcsFilters | hw3/part2.c:328-347 | each printing process keeps its child list restricted to printing processes, in its order |
| Pstree.Pstree.PrintTree | hw3/part2.c:349-390 | appends the rows of the subtree and leaves the depth counter as it was, for cyclic links too |
| Forest.WalkNeverEnds | hw3/part2.c:315-320 | two processes that are each other's parents: the walk up does not end |
| Listing.RowsMembers | hw3/part2.c:349-390 | a process has a row iff it lies below the start, within the depth bound, and is shown |
| Listing.RowsOrdered | hw3/part2.c:349-390 | rows come in strict preorder, sisters by index, hence each process at most once |
| Pstree.Pstree.BuildTree | hw3/part2.c:531-533 | the three passes in main's order leave the final table |
| Pstree.Pstree.Show | hw3/part2.c:499-536 | from a fresh table to the output: whether there is a start; if so, the good listing of its process exactly unless showall and a short cycle bring it back, and then whether its drawing gives back the tree |
| Pstree.Pstree.GetRootPid | hw3/part2.c:228-257 | the four rules in their order, each with the first process it picks, and -1 when none does |
| EndToEnd.RootPidIs | hw3/part2.c:228-257 | 1 when a process has it, else the first with ppid 0, else the first with ppid 1, else the first with its own pid as ppid, else -1 |
| EndToEnd.StartIsRowIff | hw3/part2.c:228-265 | the start is a row of the table iff some process has pid 1, ppid 0, ppid 1, pid equal to ppid, or pid -1 |
| Pstree.Pstree.ShowEach | hw3/part2.c:531-545 | from a fresh table: one block for each given pid, in order, empty for an unknown one and otherwise its right output; the depth counter is 0 again |
| EndToEnd.FinalListing | hw3/part2.c:269-390 | the four passes together list exactly the kept, unveiled processes of the subtree within the depth bound, each once, parents first and sisters by index, and each row is, field by field, prefix and corner included, the line its process must have, unless the start stays on a short cycle |
| EndToEnd.ListedIff | hw3/part2.c:300-390 | a process has a line iff it lies below the start within the depth bound, is on one line with a selected one or everything is shown, and is selected itself or neither hidden by -H nor process 1 under -r |
| EndToEnd.RowShows | hw3/part2.c:353-369 | a line shows its own process's number, command, leadership, owner unless -n, and threads when there are more than one |
| EndToEnd.GoodListingIff | hw3/part2.c:349-390 | for every start: the listing is good iff no cycle brings a start that stays back where it, or its children when it is veiled, are within the depth bound |
| EndToEnd.SecondLine | hw3/part2.c:349-390 | an unveiled start that stays on such a cycle has a second line |
| EndToEnd.ChildTwice | hw3/part2.c:349-390 | a veiled one under showall has a child that is listed twice |
| EndToEnd.TwoLines | hw3/part2.c:349-390 | an input that shows it: two processes that are each other's parents, under showall |
| EndToEnd.HiddenStartUnseen | hw3/part2.c:349-390 | the edge: the same cycle from process 1 under -r, three levels deep, is listed rightly |
| EndToEnd.MarkingEndsOffCycles | hw3/part2.c:300-326 | where the marking pass ends, no start that stays is on a cycle |
| EndToEnd.BlockGood | hw3/part2.c:537-545 | what is drawn for one argument: nothing when unknown, otherwise its right output |
| EndToEnd.PathsInFull | hw3/part2.c:269-390 | in an acyclic table, depth and order in the printed tree are those in the full one |
| EndToEnd.ListingUnique | hw3/part2.c:269-390 | that description leaves no choice: two good listings are equal, in every field of every line |
| Drawing.RowsHeads | hw3/part2.c:374-387 | every line carries the prefix its place in the tree asks for, whatever is hidden |
| Drawing.HeadCells | hw3/part2.c:374-384 | below n >= 1 shown ancestors a prefix has 2n-1 cells, and the cell of an ancestor is a bar iff it has a later sister |
| EndToEnd.PlainPrefix | hw3/part2.c:374-384 | where nothing that stays is veiled, a line at depth d >= 1 has 2d-1 cells, with bars exactly for ancestors with a later sister that stays |
| EndToEnd.Marks | hw3/part2.c:365-369 | the corner tells whether a sister that stays follows, the joint whether a child stays |
| Drawing.DrawingDeterminesTree | hw3/part2.c:349-390 | each line but the first is a child of the nearest line above with a shorter prefix, iff every listed process but the start has a shown parent |
| EndToEnd.FinalDrawing | hw3/part2.c:269-390 | the same for what the four passes draw: the parents in the table can be read off iff no listed process but the start has a veiled parent |
| EndToEnd.VeiledExample | hw3/part2.c:378-384 | an input that shows the failing side: three processes in a line under -H, the last one picked |
| Pipeline.RunCommand | hw4/part2/run_command.c:56-74 | one process's way through the loop: which command it gets and its exact descriptor table |
| Pipeline.StepKeeps | hw4/part2/run_command.c:56-74 | every call of every process keeps the invariant over all tables |
| Pipeline.PipelineEnds | hw4/part2/run_command.c:56-74 | every interleaving ends after exactly 9n-8 steps and is never stuck before |
| Pipeline.PipelineWired | hw4/part2/run_command.c:56-77 | each command is run by exactly one process, between its two pipes; the outer ends and all else are the shell's own |
| Pipeline.OneHolderEach | hw4/part2/run_command.c:56-77 | each pipe end is held once, by its own command, and never by the shell |
| Pipeline.RoundIff | hw4/part2/run_command.c:58-70 | after one round each side has its end iff pipe did not return that end as the standard number it should go to |
| Pipeline.WiredIff | hw4/part2/run_command.c:56-74 | for two commands or more: every reachable command is rightly wired iff 0 and 1 are open in the shell |
| Parser.CmdNum | hw4/part2/run_command.c:12-18 | counts the commands before the null |
| Popen.Process.MyPopen | hw5/2/popen.c:13-39 | for "w" the parent keeps only the writing end and the child reads it at 0, otherwise the parent keeps only the reading end and the child writes it at 1; streams, table and all other descriptors of both |
| Popen.Process.RunChild | hw5/2/popen.c:21-28 | the child closes the parent's end and moves its own to 0 or 1 unless it is there already |
| Popen.Process.MyPclose | hw5/2/popen.c:41-50 | closes and forgets the stream and yields the process to wait for |
| Popen.Await | hw5/2/popen.c:49-51 | the wait loop stops at the first answer that is no interruption: its own child in the first call, any child in every later one |
| Popen.Process.Insert | hw5/2/dict.cpp:9-12 | an existing key keeps its value |
| Popen.Process.Drop | hw5/2/dict.cpp:14-20 | closes every stream in the table, in any order, and empties it |
| Popen.Process.Erase | hw5/2/dict.cpp:22-25 | removes one key only |
| Popen.Process.GetPid | hw5/2/dict.cpp:27-30 | the process the stream was opened with |
| Popen.ParentTableIs | hw5/2/popen.c:16-35 | the parent gains the writing end at wr, or the reading end at rd, and nothing else |
| Popen.ChildTableIs | hw5/2/popen.c:21-28 | for any two unused numbers, 0 and 1 included, the child has the reading end at 0 or the writing end at 1, and none of the streams |
| Popen.StepKeeps | hw5/2/popen.c:13-54 | every call, child exit and unrelated open or close keeps the invariant over all processes |
| Popen.PipePrivate | hw5/2/popen.c:13-54 | the parent's end of a live stream's pipe is held by the parent alone, the other end by the child forked for it alone, interruptions or not; without any, that is the child the table names |
| Popen.TableIsOpenStreams | hw5/2/dict.cpp:9-30 | the table's keys are exactly the open streams, so insert never meets an existing key |
| Popen.CloseWaitsForOwn | hw5/2/popen.c:41-54 | when my_pclose waits nobody holds the parent's end any more; with no interruption so far it waits for its own stream's child |
| Popen.ReapsOwn | hw5/2/popen.c:49-51 | without interruptions every wait ends by reaping the child of the stream closed |
| Popen.InterruptedReapsOther | hw5/2/popen.c:49-51 | from any such state with two streams, an interrupted close reaps the other stream's child while its own is still there |
| Popen.TwoStreams | hw5/2/popen.c:13-39 | such a state is reached |
| BinarySems.SemSet.InitAvailable | hw9/54-1/binary_sems.c:23-30 | the value becomes 1 |
| BinarySems.SemSet.InitInUse | hw9/54-1/binary_sems.c:32-39 | the value becomes 0 |
| BinarySems.SemSet.Reserve | hw9/54-1/binary_sems.c:44-58 | called at any value, it sleeps through releases by others, retries interruptions when told to, and leaves the result and value of `Reservation` |
| BinarySems.SemSet.Semop | hw9/54-1/binary_sems.c:49-53 | one call: granted as soon as the value is positive, or stopped by an interruption or another error |
| BinarySems.ReserveSucceedsIff | hw9/54-1/binary_sems.c:44-58 | with retries on, succeeds iff the semaphore is available or released in time; a success takes exactly one |
| BinarySems.SingleTry | hw9/54-1/binary_sems.c:53-55 | with retries off the first event decides |
| BinarySems.SemSet.Release | hw9/54-1/binary_sems.c:60-70 | adds one, with no upper bound |
| BinarySems.InterruptionsDoNotMatter | hw9/54-1/binary_sems.c:53-55 | with retries on, interruptions never change the outcome, wherever they come |
| Transfer.WriterReservation | hw9/54-1/svshm_xfr_writer.c:74-82 | whatever the reader does and signals interrupt meanwhile, the writer's retry loop succeeds exactly when its reservation step is possible, with the same value |
| Transfer.ReaderReservation | hw9/54-1/svshm_xfr_reader.c:51 | the same for the reader |
| Transfer.StepKeeps | hw9/54-1/svshm_xfr_writer.c:72-85 | every atomic step of either side keeps the token, data, phase and count invariants |
| Transfer.OutputIsPrefix | hw9/54-1/svshm_xfr_reader.c:49-63 | in every reachable state the output is a prefix of what was read, missing at most the block in the buffer |
| Transfer.TokenConserved | hw9/54-1/svshm_xfr_writer.c:59-77 | one token in all: both semaphores stay binary, turns alternate strictly, the writer's re-read sees its own count, nobody uses a removed set |
| Transfer.StepDecreases | hw9/54-1/svshm_xfr_writer.c:73-83 | every step but an interruption comes closer to the end |
| Transfer.NoDeadlock | hw9/54-1/svshm_xfr_reader.c:50-63 | while a side is unfinished some step is possible |
| Transfer.ReadIsFree | hw9/54-1/svshm_xfr_writer.c:75 | read may return any positive amount that fits, and 0 at the end of the input only |
| Transfer.TransferComplete | hw9/54-1/svshm_xfr_writer.c:72-87 | every run has at most 30 steps a byte plus 43; it cannot go on iff both are finished, and then output equals input, both report its length, and both report as many blocks as reads returned more than 0 |
| Ring.ProducerJob | hw10/Producer.c:18-28 | the zero-filled array after every write, in order: write w puts w into slot w modulo B and the last one -1 into slot M modulo B, each leaving all other slots alone |
| Ring.SlotIsModulo | hw10/Producer.c:23 | the slot of a write is its number modulo the ring size |
| Ring.SlotBounds | hw10/Producer.c:18-28 | before the sentinel, slots hold values below the write count and the latest slot the latest value |
| Ring.SlotHolds | hw10/Producer.c:18-28 | before the sentinel each slot holds the last message with its remainder, or 0 when there is none |
| Ring.ReadsAt | hw10/Consumer.c:13-25 | the k-th read returns what slot k modulo B holds at that time |
| Ring.ConsumerJob | hw10/Consumer.c:7-31 | the polling loop returns the messages minus the tally of its reads, the k-th of which goes to slot k modulo B; a patient consumer gets 0 |
| Ring.CountsAreMaxima | hw10/Consumer.c:13-26 | before the sentinel the values counted are exactly the strict running maxima of the reads |
| Ring.CountsUpToSentinel | hw10/Consumer.c:13-30 | a whole run: exactly the strict running maxima of the reads before the first -1, where it stops |
| Ring.LossInRange | hw10/Consumer.c:30 | under any interleaving the loss lies between 0 and M and every counted value in [0, M) |
| Ring.StopsWithinRound | hw10/Consumer.c:13-26 | the consumer stops within B reads of the sentinel |
| Ring.PatientLosesNothing | hw10/Consumer.c:7-31 | with B reads after each write it counts each of 0..M-1 once, in order, and stops |
| Ring.LossZeroIff | hw10/Consumer.c:13-30 | the loss is 0 iff for every message some read before the sentinel returned it and no earlier read returned more |
| PingPong.StepKeeps | hw7/22-3/sig_speed_sigsuspend.c:79-95 | exactly one side has the turn or the signal is pending for one of them |
| PingPong.NoWakeUpLost | hw7/22-3/sig_speed_sigsuspend.c:65-95 | at most one signal is pending, no kill meets a pending one or a finished target |
| PingPong.BothFinish | hw7/22-3/sig_speed_sigsuspend.c:79-95 | every run takes exactly 6n+2 steps, is not stuck before, and both sides make n rounds |
| Parser.Tokenizer.Next | hw4/part2/parser.c:12-17 | one strtok call on the buffer it cuts: the next token, and what is left |
| Parser.PipeSpliter | hw4/part2/parser.c:6-22 | the null-terminated vector of the parts between bars |
| Parser.NoCommand | hw4/part2/parser.c:12-16 | there is no part exactly when the line is bars alone |
| Parser.GetArgs | hw4/part2/parser.c:29-58 | blank exactly for white space; otherwise the first word and the following ones up to one that begins with `&` |
| Parser.CollectArgs | hw4/part2/parser.c:42-57 | the loop stores exactly those words |
| Parser.TokensOfJoin | hw4/part2/parser.c:12-17 | strtok undoes a join, whatever the parts |
| Parser.TokensExact | hw4/part2/parser.c:12-17 | tokens apart by any delimiters, with any before and behind them, are exactly what strtok delivers |
| Parser.TokensApart | hw4/part2/parser.c:12-17 | every text is such a row of tokens and gaps |
| Parser.ArgsExact | hw4/part2/parser.c:29-58 | after leading white space, words apart by blanks, tabs and newlines: the first word and the later ones up to one that begins with `&`, whatever follows it |
| Parser.BlankExact | hw4/part2/parser.c:33-40 | blank iff there is only white space as isspace knows it |
| Parser.ArgsRoundTrip | hw4/part2/parser.c:29-58 | printing words with spaces and parsing gives them back iff the command is plain |
| Parser.AmpersandLost | hw4/part2/parser.c:47-53 | an input that does not come back: `a &` |
| Parser.LineRoundTrip | hw4/part2/parser.c:6-58 | printing and parsing a pipeline: the same number of commands, each one given back iff it is plain |
| Redirect.Argv.FindSymbol | hw4/part2/redirect.c:11-17 | finds the first argument beginning with the symbol, in bounds |
| Redirect.Argv.RemovePair | hw4/part2/redirect.c:25-34 | shifts the tail over the pair, null included, and frees its two strings |
| Redirect.Argv.RedirectTo | hw4/part2/redirect.c:6-35 | the first pair is cut out, its strings freed, its file put on the right descriptor; nothing happens without a pair |
| Redirect.Argv.RedirectBoth | hw4/part2/redirect.c:37-42 | the `<` pair and then the first `>` pair of what remains |
| Redirect.Argv.FreeUntilNull | hw4/part2/shell.h:14-20 | frees every string up to the null, each allocated when freed |
| Redirect.Argv.RedirectAndClean | hw4/part2/run_command.c:75-81 | redirection and clean-up together free every string of the vector, each once |
| Redirect.SymbolIsFirst | hw4/part2/redirect.c:11-15 | the symbol found is the first that begins with it |
| Redirect.CutMeans | hw4/part2/redirect.c:6-34 | the first argument beginning with the symbol and the name after it go, the rest keeps its order, and the file goes to 0 for `<` and to 1 for `>`; without such a pair nothing happens |
| Redirect.CutAllocated | hw4/part2/redirect.c:27-34 | what stays in the vector is still allocated and distinct |
| Redirect.CutSplits | hw4/part2/redirect.c:27-34 | no string is lost or duplicated between the vector and the freed pair |
| Redirect.GoneAndLeft | hw4/part2/redirect.c:37-42 | what both redirections take away and what they leave are all the arguments |
| Device.Driver.Open | hw12/demo.c:74-90 | refused and without effect while open; otherwise the message of this open is in the buffer |
| Device.Driver.Release | hw12/demo.c:93-104 | the device is free again |
| Device.Driver.Read | hw12/demo.c:109-141 | before the end delivers as much as asked for or as is left, whichever is less, and moves the offset by that; at the end nothing, and the offset is 0 |
| Device.MessageFits | hw12/demo.c:81 | the message with any 31-bit counter fits the 80-byte buffer with its terminator |
| Device.MessageIs | hw12/demo.c:81 | the text around the open counter, written in decimal digits that read back as it, without leading zeros |
| Device.StepKeeps | hw12/demo.c:74-141 | opens, reads and releases of all processes keep the holder, its message and what it has read in agreement |
| Device.OneHolder | hw12/demo.c:78-81 | at most one process holds the device, and its message is the one of its own open |
| Device.ReadsReassemble | hw12/demo.c:109-141 | what a holder has read is whole messages, one for each end met, and then a prefix |
| Device.ReadDelivers | hw12/demo.c:109-141 | one read of a holder delivers the next part of that length |
| Device.ReleaseFrees | hw12/demo.c:93-104 | after the holder's release the next open succeeds, with its own message |
| Device.EndMeansComplete | hw12/demo.c:118-121 | a positive-length read is empty iff the message is complete, and then it starts over |
| Device.HeldIsStable | hw12/demo.c:74-90 | nobody's step changes the message while it is held |

## Left out

- EndToEnd.FinalListing: a start that stays on a cycle shorter than the depth bound is outside; its lines, repeated once round the cycle, are described only by the recursion of `Rows`.
- Pstree.Pstree.Show: without a start it reports that and draws nothing, where the source reads a row -1.
- Reading the process table, option parsing, `uid2user`, graphics tables and column truncation of `pstree`: prefixes are cells and rows are records, and `MAXLINE` does not cut them.
- The programs built on processes (`Transfer`, `Pipeline`, `PingPong`, the call sequences of `Popen` and `Device`) are step relations on values, because their content is the interleaving.
- Transfer.TransferComplete: byte and block counts are unbounded, so C's `int` overflow beyond 2^31-1 bytes is not modelled; failing reads, partial writes and the signal handlers that release a semaphore out of turn are not modelled either.
- BinarySems.SemSet.Reserve: failing `semctl` calls and `SEM_UNDO` are not modelled; of other waiting processes only the releases that reach this one are seen.
- Pipeline.PipelineWired: `pipe` and `fork` succeed, and the shell has 0 and 1 open, without which a pipeline can be wired wrongly (`WiredIff`); `exec`, the parent's wait loop and its `&` test are not modelled.
- Popen.CloseWaitsForOwn: what a signal handler does besides interrupting the wait, and the exit status that is passed on, are not modelled.
- Popen.Process.MyPopen: failing `pipe` and `fork`, what the executed command opens itself, and buffered output are not modelled.
- Ring.ConsumerJob: reads and writes of a slot number are atomic; the text in a slot, waiting times, zero messages and the parent's collection of the counts (`collect_child`) are not modelled.
- PingPong.BothFinish: only TESTSIG is delivered; other signals that end `sigsuspend` are not modelled.
- Parser.GetArgs: at most 511 arguments, because the vector grows by bytes instead of elements in the source; the uninitialised string a blank command gets is `Blank`.
- Parser.PipeSpliter: needs 1 to 511 commands; with none the source duplicates a null string, with more it writes beyond its vector.
- Redirect.Argv.RedirectTo: the file can be opened; its open mode and the descriptor table are not modelled, only which file goes to which standard descriptor.
- Device.Driver.Read: faults of user memory, `pread` and seeking, offsets of duplicated files and module reference counts are not modelled; the open counter stays below 2^31.
- The other homework directories (file servers, dictionary tools, directory watching, file mapping, signal wrappers, sequence server): mostly library calls or one-branch claims.
