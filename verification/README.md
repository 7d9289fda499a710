# Event management system: a verified model

The system keeps events, each a hall of `rows * cols` seats with a counter of reservations, and executes
the commands of `.jobs` files on them: CREATE, RESERVE, SHOW, LIST, WAIT, BARRIER, HELP. It exists in
stages: one thread working through a file, several threads sharing one file and one list of events, and
a server that clients talk to over named pipes. This project models the stages in Dafny and proves what
holds of every file, every schedule and every request.

How the files belong together:

| files | what they are about |
|---|---|
| `Seating`, `ReserveSteps` | one event: the two reservation rules as atomic operations, the half-done states of the rule with rollback, and the density of reservation ids |
| `EventStore`, `ServerStore` | the list of events as a value, commands as atomic operations on it, and runs of commands |
| `EventObjects` | events, list nodes and the list as objects updated in place, proved against the two files above |
| `Runner` | the multi-threaded runner as a step machine; one step is one section between lock operations |
| `RunnerInvariants`, `RunnerHistory`, `RunnerRefinement`, `RunnerTheorems`, `RunnerProgress` | what every step of it keeps, and the results about whole runs |
| `RunnerOutput`, `RunnerShow` | what SHOW and LIST leave in the output file of a run |
| `RunnerListLock` | the same machine with the readers and the writer of the list lock in its state |
| `CommandSyntax`, `CommandReader`, `OrdinaryFiles`, `JobFiles`, `JobLines`, `CommandTexts` | the command reader as functions, as an object with a file position, the files its buffers are large enough for, its round trip, how commands relate to lines, and exactly which texts are which commands |
| `ShownHalls` | halls as someone reading SHOW's text sees them, and what CREATE and RESERVE do in these terms |
| `Decimal`, `Printing`, `Listing`, `GridBuffer`, `Grids`, `Shows` | numbers, LIST and SHOW as text, and the bounded buffers the text goes through |
| `Wire`, `Payload`, `ListPayload` | the RESERVE request and the SHOW and LIST replies between client and server |
| `Sessions` | the ring of admitted sessions, and session ids |
| `Commands`, `Buffers` | commands, options, sequences, induction over infinite sequences, copying into buffers |

The runner's state holds what the program holds (unread part of the file, `threadArray`, fetch mutex,
event list, event mutexes, output lock, output file, a program counter per thread, main's loop) and two
history sequences that nothing reads: which thread fetched which command, and in which order commands
took effect. A run is any sequence of states from the initial one in which each follows from the one
before by some enabled step, so every schedule is covered. `Shape`, which the step functions require,
holds in every state of every run (`RunnerTheorems.RunInv`), so it excludes nothing.

Three properties that one might expect turned out false of the code. For each there is an input on which it
fails, and the exact condition under which it holds:

* One line of a file is not always one command: a CREATE whose first number ends the line swallows the next
  line (`JobLines.RefusedLineTakesTheNext`). On any text a command is exactly its line unless what was refused
  contained a newline, which for arguments means that the parser gave up at the newline, and another line
  follows; or unless it ended at a NUL byte (`JobLines.OneLineExactly`, `JobLines.CommandTakes`). A file has as
  many commands as lines exactly when no line is swallowed in this way (`JobLines.OneCommandPerLine`). Likewise
  the reader stands at a line start after a command exactly unless a NUL byte ended that command
  (`JobLines.AlignedExactly`; `JobLines.NulBreaksAlignment` is such an input).
* LIST in the threaded runner loses lines once the listing reaches 1024 bytes; it is complete exactly
  below that (`Listing.ListingCompleteExactly`), and which lines are lost is known exactly
  (`Listing.KeptIsWritten`). With 114 events it is never complete
  (`Listing.LongListsLoseLines`), and 114 CREATEs make such a list (`EventStore.CreatedEventsNotListed`).
* The client's text buffer for LIST is too small as soon as the ids of the events average four digits or
  more (`ListPayload.ListFitsExactly`); its buffer for SHOW and the buffer of the threaded SHOW suffice
  under one and the same condition (`Grids.ShowFitsExactly`, `Payload.ClientBufferFitsExactly`), which
  density guarantees.

A run of the threaded runner on a file whose WAITs all name existing threads comes to its end exactly when the
file has no HELP, no `WAIT 0` and no malformed WAIT, all of which leave the fetch mutex locked
(`RunnerProgress.FinishesUnlessLockKept`). A WAIT with a delay for any other thread writes outside
`threadArray`; the model has no step for reading it. Putting the list lock into the state changes none of this:
the runs are the same (`RunnerListLock.LockRunRefines`, `RunnerListLock.LockRunLifts`).

## Model

| member | source | states |
|---|---|---|
| RunnerTheorems.FinishedRunIsSequential | Exercicio3/p1_base/main.c:30-309 | any finished run, for any file, thread count and schedule, leaves the events as the file's CREATE, RESERVE and LIST commands run one at a time would, each exactly once, in some order that moves none across a BARRIER; and every call reported what it reports at its place in that order |
| RunnerTheorems.EffectsFollowRealTime | Exercicio3/p1_base/main.c:30-148 | that order respects real time: a command finished before another was fetched comes first, which makes the calls linearizable |
| RunnerTheorems.ReservationsNumbered | Exercicio3/p1_base/operations.c:164-166 | under any schedule the successful reservations of an event get ids 1, 2, 3, ... in the order in which they take effect |
| RunnerTheorems.FinishedEventsDense | Exercicio3/p1_base/operations.c:152-216 | after any finished run the ids on every countable grid are exactly 1..reservations |
| RunnerTheorems.IdsAlwaysUnique | Exercicio3/p1_base/operations.c:80-150 | at every moment of every run the list holds no two events with one id, although the first check for it is made under a lock released before the append |
| RunnerTheorems.FirstResultSpeaksForAll | Exercicio3/p1_base/main.c:280-309 | when all threads are joined, all returned 2 behind a barrier or all returned 0 at the end of the file, so looking at the first result alone loses nothing |
| RunnerTheorems.FetchedInFileOrder | Exercicio3/p1_base/main.c:36-144 | commands are handed out in file order, each to one thread once, and all of them when the file is read up |
| RunnerTheorems.BarrierSafety | Exercicio3/p1_base/main.c:43-46 | when a command is fetched, every command still being executed lies between the same two BARRIERs as it |
| RunnerTheorems.ListWritesASnapshot | Exercicio3/p1_base/operations.c:289-343 | a LIST writes what an atomic LIST would at the moment its last next pointer was read, whatever is appended meanwhile; that is the whole list iff the listing is shorter than 1024 bytes. `RunnerOutput.OutputStays` says that it stays in the file |
| RunnerTheorems.WaitPending | Exercicio3/p1_base/main.c:36-110 | the delay of a WAIT for a thread is pending from its fetch until that thread's next fetch, or another such WAIT; nothing else touches it |
| RunnerOutput.OutputStays | Exercicio3/p1_base/main.c:259-303 | what is in the output file at one moment of a run stays there, at its place, to the end: no step, of a thread or of main behind a BARRIER, takes anything out |
| RunnerOutput.FinishedOutput | Exercicio3/p1_base/main.c:30-309 | the output file of a finished run is, one behind the other in the order in which they took the output lock, what each SHOW and LIST wrote, none across a BARRIER; each LIST wrote what it reported, which is what it writes at its place in the sequential order |
| RunnerOutput.StepKeepsParts | Exercicio3/p1_base/operations.c:218-343 | every step keeps the file made up of these parts: the last one is that of the thread that holds the output lock, a LIST that has ended has written what it reported, and a SHOW or LIST that waits for the lock has written nothing |
| RunnerOutput.ClosedPartsStay | Exercicio3/p1_base/operations.c:218-343 | a part whose thread has given the lock back is never changed again |
| RunnerTheorems.RunInv | Exercicio3/p1_base/main.c:30-148 | every state of every run satisfies the whole invariant: shapes, lock ownership, round protocol, jobs, barrier order, simulation, listings, reading order |
| RunnerTheorems.StepInv | Exercicio3/p1_base/main.c:30-148 | no step of main or of any thread breaks the invariant |
| RunnerTheorems.ReadingKept | Exercicio3/p1_base/main.c:48-143 | what has been handed out and what is unread make up the file, and the fetch mutex is locked between steps only because of a HELP, WAIT 0 or malformed WAIT |
| RunnerRefinement.SimulationKept | Exercicio3/p1_base/operations.c:80-343 | each step keeps the event list equal to the replay of the commands that took effect, but for events whose mutex is held, which are at a known point of that reservation |
| RunnerRefinement.CreateSimulation | Exercicio3/p1_base/operations.c:88-147 | CREATE takes effect at its failing check or at its append, with the outcome an atomic CREATE has there |
| RunnerRefinement.ReserveInsideSimulation | Exercicio3/p1_base/operations.c:164-210 | counting, probing, marking, uncounting and undoing change nothing outside the event the thread has locked and follow the states of a half-done reservation |
| RunnerRefinement.UnlockIsAtomicReserve | Exercicio3/p1_base/operations.c:203-215 | at unlock the event is what one atomic all-or-nothing reservation makes of it, and so is the result |
| RunnerRefinement.ListEffect | Exercicio3/p1_base/operations.c:311-339 | at the step that reads the last next pointer, LIST has collected what an atomic LIST reports |
| RunnerRefinement.ListingsKept | Exercicio3/p1_base/operations.c:311-334 | appends by others and writes under the output lock never disturb a LIST in progress |
| RunnerInvariants.ThreadFrame | Exercicio3/p1_base/operations.c:80-343 | a thread's step changes no other thread, no event's id or size, and locks only on its own behalf |
| RunnerInvariants.LocksKept | Exercicio3/p1_base/operations.c:162-214 | in every state each thread holds exactly the locks its program counter says |
| RunnerInvariants.RoundsKept | Exercicio3/p1_base/main.c:43-46 | barrier flag, results and end of file stay consistent through fetching, joining and restarting |
| RunnerHistory.JobsKept | Exercicio3/p1_base/main.c:48-143 | every tracked command fetched is being executed by the thread that fetched it, or has taken effect exactly once |
| RunnerHistory.BarrierOrderKept | Exercicio3/p1_base/main.c:136-139 | effects are ordered by the segments between BARRIERs, and pending commands belong to the current one |
| RunnerProgress.NeverStuck | Exercicio3/p1_base/operations.c:162-175 | every reachable unfinished state of a clean file has an enabled step, which is returned |
| RunnerProgress.HolderRuns | Exercicio3/p1_base/operations.c:306-340 | the holder of an event mutex or of the output lock can always take its next step |
| RunnerProgress.EveryStepFalls | Exercicio3/p1_base/main.c:30-148 | every step of every reachable state makes a global measure fall |
| RunnerProgress.NoInfiniteRun | Exercicio3/p1_base/main.c:30-309 | no schedule of any file goes on forever |
| RunnerProgress.FinishesUnlessLockKept | Exercicio3/p1_base/main.c:100-143 | where every WAIT that writes to threadArray writes inside it, a file can be processed to the end iff it has no HELP, no malformed WAIT and no WAIT with delay 0 |
| RunnerProgress.FinishesExactlyWhenClean | Exercicio3/p1_base/main.c:100-143 | over all files, a run of the model reaches the end iff the file has none of these and no WAIT that writes outside threadArray, for which the model has no step |
| RunnerProgress.ContinueToEnd | Exercicio3/p1_base/main.c:30-309 | from any state of a clean file the run can be continued to the end |
| RunnerListLock.LockStepInv | Exercicio3/p1_base/operations.c:80-343 | with readers and writer of the list lock in the state: whoever is inside is there for its next section, readers share the lock, a writer is alone |
| RunnerListLock.ChangesExclusive | Exercicio3/p1_base/operations.c:80-216 | the list and the events change only under the exclusive list lock, but for a reservation that takes back its count, without it, and its marks, under the shared one |
| RunnerListLock.InsideNeverWaits | Exercicio3/p1_base/operations.c:160-216 | the lock order: a thread inside the list lock never waits for the fetch mutex, an event mutex or the output lock |
| RunnerListLock.LockNeverStuck | Exercicio3/p1_base/operations.c:80-343 | with all locks in the state, every reachable unfinished state of a clean file has an enabled step, which is returned |
| RunnerListLock.LockRunRefines | Exercicio3/p1_base/operations.c:80-343 | every run with the list lock is a run of the machine without it, so what is proved of those holds of it |
| RunnerListLock.LockRunLifts | Exercicio3/p1_base/operations.c:80-343 | every run without it is one with it, in which each thread enters before its section: the lock forbids no order of sections |
| RunnerListLock.EveryLockStepFalls | Exercicio3/p1_base/operations.c:80-343 | entering the list lock can only happen as often as there are threads before the machine's measure falls |
| RunnerListLock.NoInfiniteLockRun | Exercicio3/p1_base/main.c:30-309 | no schedule of any file goes on forever, entering the list lock included |
| RunnerListLock.LockedFinishesExactlyWhenClean | Exercicio3/p1_base/main.c:30-309 | with the list lock in the state the files that can be processed to the end are the same |
| RunnerShow.ShowWrites | Exercicio3/p1_base/main.c:76-86 | any SHOW of any run, from the step that fetches it to its thread's next fetch: its thread is in that SHOW all the time; either the list has no event of the id when it looks, and it has no part in the file, then or later; or its part is what the buffer makes of the event's cells, each read once, in order, at a moment in between |
| RunnerShow.ShowPrintsTheGrid | Exercicio3/p1_base/operations.c:218-287 | a SHOW of an event that nobody reserves meanwhile, with fewer than 10000 reservations, from its fetch on: the guards never fire and what it has in the file when it returns, and ever after, is exactly the grid's text of the event with that id; it has nothing there iff no event has the id |
| RunnerShow.ShowRunsOn | Exercicio3/p1_base/operations.c:218-287 | each step takes a SHOW one phase on, leaves it where it is, or ends it in one of these two ways |
| RunnerShow.FreeEventStays | Exercicio3/p1_base/operations.c:162-214 | an event whose mutex is free is not changed by any step |
| RunnerShow.FreeEventDense | Exercicio3/p1_base/operations.c:164-215 | at any moment of any run an event whose mutex is free has dense ids |
| Seating.RulesAgreeExactly | server/operations.c:144-172 | the two-pass rule and the rule with rollback agree on verdict and grid unless the request is in bounds, all free and repeats a seat; there the first succeeds and the second leaves the event as it was |
| Seating.ReservationsBounded | server/operations.c:165-172 | with dense ids: reservations <= held seats <= rows * cols, strictly fewer when a seat is free |
| Seating.CommitKeepsDensity | Exercicio1/p1_base/operations.c:129-158 | a granted request keeps ids dense iff it names a seat |
| Seating.NoWrap | server/operations.c:165-165 | the unsigned counter never wraps on a countable event |
| Seating.HeldCellsStay | Exercicio1/p1_base/operations.c:141-146 | granting never changes a seat somebody holds |
| Seating.SeatIndexInRange | server/operations.c:33-33 | in-bounds seats index inside the grid; which cell that is says `ShownHalls.StrictAsShown` |
| Seating.SeatIndexInjective | server/operations.c:33-33 | different in-bounds seats index different cells |
| ShownHalls.ShownIsRows | Exercicio3/p1_base/operations.c:241-279 | reading SHOW's text as lines of numbers gives the grid back, row by row |
| ShownHalls.StrictAsShown | Exercicio3/p1_base/operations.c:152-216 | the rule with rollback in terms of SHOW's text: a request is granted iff each of its seats (row, col) is place col of line row and shows 0, and none is repeated (but for the moment the counter wraps); then these places show the next number, all others what they showed; otherwise nothing changes |
| ShownHalls.LenientAsShown | server/operations.c:119-177 | the two-pass rule in the same terms, repeated seats allowed |
| ShownHalls.CreateGrantedExactly | Exercicio3/p1_base/operations.c:80-150 | CREATE is granted iff no event has the id; refused, it changes nothing |
| ShownHalls.CreatesHall | Exercicio3/p1_base/operations.c:105-117 | a granted CREATE adds one event behind the others, which SHOW shows as rows lines of cols zeros |
| ShownHalls.CreatedHallBounds | server/operations.c:88-105 | under both rules a request for one seat of the new event is granted iff 1 <= row <= rows and 1 <= col <= cols, and gets number 1 |
| ShownHalls.ReservesInHall | Exercicio3/p1_base/operations.c:152-216 | in a list of different ids RESERVE is decided on the event with the id, as above, reports its number, and changes no other event |
| ShownHalls.ServerReservesInHall | server/operations.c:119-177 | the same on the server |
| ReserveSteps.MarkOne | Exercicio1/p1_base/operations.c:136-147 | marking one more takeable seat keeps the event in a known half-done state |
| ReserveSteps.MarkingDone | Exercicio1/p1_base/operations.c:149-158 | all seats marked is the atomic commit, and the atomic rule grants the request |
| ReserveSteps.BadSeatRefuses | Exercicio1/p1_base/operations.c:136-144 | a seat out of bounds or taken, also by this very request, means the atomic rule refuses the request |
| ReserveSteps.UndoingDone | Exercicio1/p1_base/operations.c:150-156 | the undo loop ends in exactly the event it started from |
| EventObjects.Event.ReserveWithRollback | Exercicio1/p1_base/operations.c:129-158 | writing while checking and undoing on refusal equals the atomic strict rule, in event and result, and does in terms of SHOW's text what `ShownHalls.StrictAsShown` says |
| EventObjects.Event.UndoMarks | Exercicio1/p1_base/operations.c:152-154 | freeing the seats marked so far restores the event |
| EventObjects.Event.ReserveTwoPass | server/operations.c:136-175 | bounds pass, grid scan and commit equal the atomic lenient rule, in event and result, and do in terms of SHOW's text what `ShownHalls.LenientAsShown` says |
| EventObjects.Event.ScanForTaken | server/operations.c:144-163 | the nested scan with its `continue` and `break` finds a taken requested seat iff there is one |
| EventObjects.Event.CommitMarks | server/operations.c:165-172 | the counter goes up by one and exactly the requested seats get it |
| EventObjects.Event.constructor | Exercicio3/p1_base/operations.c:105-117 | a new event has the id, rows and cols it was asked for, no reservations, and a grid that shows as rows lines of cols zeros |
| EventObjects.EventList.Link | server/eventlist.c:18-36 | linking at head or tail appends one node to the chain |
| EventObjects.EventList.Append | Exercicio3/p1_base/eventlist.c:13-31 | appending extends the sequence the list stands for by one event |
| EventObjects.EventList.GetEvent | Exercicio3/p1_base/eventlist.c:56-69 | the walk returns the first event with the id, or NULL iff there is none |
| EventObjects.EventList.GetEventBetween | server/eventlist.c:59-74 | the walk from one node to another terminates and returns the first event with the id in that stretch, or NULL |
| EventObjects.EventList.ListEvents | Exercicio3/p1_base/operations.c:305-339 | what goes through the 1024-byte buffer is the output of the walk over all ids |
| EventObjects.Ems.Create | Exercicio1/p1_base/operations.c:72-114 | result and list are those of an atomic CREATE |
| EventObjects.Ems.CreateOnServer | server/operations.c:63-117 | the same for the server's version |
| EventObjects.Ems.Lookup | server/operations.c:131-131 | searching from head to tail is searching the whole list |
| EventObjects.Ems.Reserve | Exercicio1/p1_base/operations.c:116-159 | result and list are those of an atomic strict RESERVE |
| EventObjects.Ems.ReserveOnServer | server/operations.c:119-177 | result and list are those of an atomic lenient RESERVE |
| EventStore.Find | Exercicio3/p1_base/eventlist.c:56-69 | position of the first event with the id, or nothing iff no event has it |
| EventStore.FindUnique | Exercicio3/p1_base/eventlist.c:56-69 | with unique ids the search is a lookup: it finds each event by its id |
| EventStore.ReplayWellFormed | Exercicio1/p1_base/operations.c:72-159 | in any run of commands ids stay unique and grids keep their size |
| EventStore.ReplayDense | Exercicio1/p1_base/operations.c:116-159 | in any run of non-empty requests the ids on each countable grid are exactly 1..reservations |
| EventStore.CounterCountsGrants | Exercicio1/p1_base/operations.c:129-158 | the counter equals the number of requests granted on the event |
| EventStore.ReservationsNumberedInOrder | Exercicio3/p1_base/operations.c:164-166 | granted requests on an event get ids 1, 2, 3, ... in the order they run |
| EventStore.HeldSeatsKept | Exercicio1/p1_base/operations.c:141-146 | once held, a seat keeps its holder through any further commands |
| EventStore.CreatedEventsNotListed | Exercicio3/p1_base/operations.c:308-339 | after 114 or more CREATEs, all of them granted, LIST reports less than the list |
| ServerStore.ServerReplayDense | server/operations.c:119-177 | density also holds in any run under the server's rule, repeated seats included |
| ServerStore.StoresAgreeExactly | server/operations.c:63-177 | on any run of commands the server's store and that of the first versions are the same all along iff no request is refused merely for naming a seat twice |
| Listing.ListingCompleteExactly | Exercicio3/p1_base/operations.c:308-339 | LIST prints every event iff the listing is shorter than 1024 bytes |
| Listing.LongListsLoseLines | Exercicio3/p1_base/operations.c:308-339 | with 114 events or more LIST loses some of them, whatever their ids |
| Listing.KeptIsWritten | Exercicio3/p1_base/operations.c:308-339 | LIST writes the complete lines of some of the events: a line is lost iff it would bring the bytes gathered since the last loss to 1024 |
| Listing.ListNamesKept | Exercicio3/p1_base/operations.c:308-339 | reading what LIST writes as lines gives exactly these ids back, in list order |
| JobFiles.FileRoundTrip | Exercicio3/p1_base/parser.c:10-261 | any file of commands with 32-bit arguments and 1 to 255 seats, comments and blank lines reads back as these commands, in both dialects |
| JobFiles.CommandBack | Exercicio3/p1_base/parser.c:47-261 | each such command reads back from its line and leaves what follows unread |
| JobFiles.ReadUintBack | common/io.c:8-40 | parse_uint reads back the decimal text of any unsigned int, and the byte behind it |
| JobFiles.ParseReserveBack | Exercicio3/p1_base/parser.c:163-220 | a request of 1 to 255 seats reads back |
| JobLines.AcceptedIsOneLine | Exercicio3/p1_base/parser.c:47-261 | a command that is accepted, however its arguments were written, takes exactly the line it stands on |
| JobLines.CreateHalts | Exercicio3/p1_base/parser.c:138-161 | however a CREATE fails or succeeds, the place where its parser halts is inside its line or at its newline, and from there it either stops or skips to the next newline |
| JobLines.ReserveHalts | Exercicio3/p1_base/parser.c:163-220 | the same for RESERVE, through its loop over the seats |
| JobLines.ShowHalts | Exercicio3/p1_base/parser.c:222-231 | the same for SHOW |
| JobLines.WaitHalts | Exercicio3/p1_base/parser.c:233-261 | the same for WAIT, in both ways of calling it |
| JobLines.ArgumentsTake | client/parser.c:95-216 | on every text arguments take one line, or two iff they were refused at the newline; or they were accepted at a NUL byte and the reader stands behind that |
| JobLines.RefusedAtNewlineMeans | client/parser.c:95-216 | when that is, number by number, for CREATE, SHOW and WAIT |
| JobLines.GetNextTakes | client/parser.c:17-93 | a command word leads into the arguments on its own line; any other line, recognised or not, takes one line and one more for each newline among the bytes compared with the word |
| JobLines.CommandTakes | Exercicio3/p1_base/parser.c:41-261 | on every text a command takes exactly the lines computed from the two conditions above, or ends behind a NUL byte inside its line |
| JobLines.OneLineExactly | Exercicio3/p1_base/parser.c:41-261 | a command is exactly the line it stands on iff it does not end at a NUL byte and swallows no line that is there |
| JobLines.OneCommandPerLine | Exercicio3/p1_base/parser.c:41-261 | a file in which no command is cut at a NUL byte has at most as many commands as lines, and as many iff no refused command swallows a line |
| JobLines.AlignedExactly | client/parser.c:11-216 | on every text a command consumes something, and leaves the reader at a line start or at the end iff it did not end at a NUL byte with more behind it |
| JobLines.CommandsEndLines | client/parser.c:11-216 | on NUL-free input every command, valid or not, consumes something and ends at a line start or at the end |
| JobLines.NulBreaksAlignment | Exercicio3/p1_base/parser.c:225-230 | a NUL byte behind a number ends a command in the middle of a line |
| JobLines.RefusedLineTakesTheNext | Exercicio3/p1_base/parser.c:41-45 | a CREATE whose first number ends the line swallows the next line, whatever it is |
| CommandSyntax.RequestsNonEmpty | Exercicio3/p1_base/parser.c:163-220 | the reader hands out only requests of 1 to 255 seats |
| CommandTexts.CommandsExactly | Exercicio3/p1_base/parser.c:47-261 | on every text, the reader finds a command with these arguments and leaves this rest iff the text is that command's word, then arguments of its form, then the rest; everything else is reported as malformed |
| CommandTexts.WordsExactly | client/parser.c:17-93 | CREATE, RESERVE, SHOW and WAIT are recognised iff the text starts with exactly that word and a space |
| CommandTexts.CreateExactly | Exercicio3/p1_base/parser.c:138-161 | CREATE's arguments are accepted iff they are three numerals below 2^32 with one space between two of them, closed by a newline, a NUL or the end of the file |
| CommandTexts.ReserveExactly | Exercicio3/p1_base/parser.c:163-220 | RESERVE's are accepted iff they are a numeral, a space, `[`, 1 to 255 seats `(row,col)` with one space between two of them, `]`, and a newline or NUL, all numerals below 2^32 |
| CommandTexts.ShowExactly | Exercicio3/p1_base/parser.c:222-231 | SHOW's are accepted iff they are one such numeral, closed likewise |
| CommandTexts.WaitExactly | Exercicio3/p1_base/parser.c:233-261 | WAIT's are accepted iff they are one such numeral, closed likewise, or two; in the client's dialect anything may follow a space behind the first |
| CommandTexts.CleanupExactly | Exercicio3/p1_base/parser.c:41-45 | skipping a line leaves what follows the first newline, or nothing |
| CommandReader.Reader.SkipLine | Exercicio3/p1_base/parser.c:41-45 | skips to just behind the next newline or to the end |
| CommandReader.Reader.ReadNumber | Exercicio3/p1_base/parser.c:10-39 | the digit buffer and strtoul give the number the digits denote, refused iff it exceeds 32 bits, and the byte behind |
| CommandReader.Reader.ParseCreateArguments | Exercicio3/p1_base/parser.c:138-161 | result, arguments and file position are those of the reader's function |
| CommandReader.Reader.ParseReserveArguments | Exercicio3/p1_base/parser.c:163-220 | the loop leaves exactly the request in the arrays, or 0, and the file position of the reader's function |
| CommandReader.Reader.ParseShowArguments | Exercicio3/p1_base/parser.c:222-231 | result, id and file position are those of the reader's function |
| CommandReader.Reader.ParseWaitArguments | Exercicio3/p1_base/parser.c:233-261 | the same for both ways of calling it, with and without a place for the thread id |
| CommandReader.Reader.ReadToken | Exercicio3/p1_base/parser.c:47-136 | get_next recognises what the reader's function does and consumes as much; which words these are says `CommandTexts.WordsExactly` |
| CommandReader.Reader.ReadAll | client/main.c:47-122 | the dispatch loop terminates and reads all commands of the file |
| OrdinaryFiles.OrdinaryFilesSafe | common/io.c:8-40 | in a file of whole lines with no run of 16 digits every number the reader starts on fits its digit buffer and is terminated |
| Decimal.ValueOfDec | common/io.c:42-64 | the number read from a numeral is the number it was printed from |
| Decimal.DecLength | common/io.c:43-48 | a number has at most k digits iff it is below 10^k |
| Decimal.DigitsInOrder | common/io.c:43-52 | the numerals of 0 to 9 are the characters 0 to 9 |
| Printing.OutputFile.PrintStr | common/io.c:66-79 | under short writes all of the string goes out, or a proper prefix and the call reports failure |
| Printing.OutputFile.PrintUint | common/io.c:42-64 | the same for the decimal text of any unsigned int, through the 16-byte buffer filled from the back |
| Printing.FillDigits | common/io.c:43-52 | the buffer's used end is the shortest decimal numeral |
| Grids.ShowFitsExactly | Exercicio3/p1_base/operations.c:238-279 | the buffer guards let the whole grid text through iff the digits of all seats number below four times the seats; otherwise nothing is written |
| Grids.ShowFitsShortIds | Exercicio3/p1_base/operations.c:238-279 | with ids of at most four digits: iff some seat shows fewer than four |
| Grids.ShowPrintsDenseGrid | Exercicio3/p1_base/operations.c:238-279 | dense ids and fewer than 10000 reservations make the guards harmless |
| Grids.FillExactly | Exercicio3/p1_base/operations.c:241-279 | after any number of cells the buffer holds the text of those cells, or a guard has fired, with the exact condition |
| Grids.CellsAreLines | Exercicio3/p1_base/operations.c:241-279 | printing cell by cell, newline at the end of a row, gives the rows joined by spaces |
| Grids.FillsAgree | Exercicio3/p1_base/operations.c:241-279 | filling a bounded buffer cell by cell stops, or ends with the same text, as filling it row by row |
| Shows.PrintGrid | server/operations.c:345-399 | the report on a signal is the grid's text, or a proper prefix of it and failure |
| Shows.ShowThroughBuffer | Exercicio3/p1_base/operations.c:237-286 | nothing is written when a guard fires, otherwise the collected text goes into one write |
| Wire.RequestRoundTrip | server/main.c:161-194 | decoding by running offsets recovers id, count and all coordinates from the client's text |
| Wire.RequestNumbers | client/api.c:133-139 | a request is a line of numbers behind a space: 4, the event, how many seats, then row and column of each |
| Wire.SeatsDecoded | server/main.c:180-194 | the offset kept by printing each value again always stands in front of the next seat |
| Wire.BuildRequest | client/api.c:133-139 | the request collected in the 100-byte buffer is the whole text when that is below 100 bytes |
| Wire.TakeSeats | server/main.c:180-194 | the loop over the seats fills the arrays as the decoding function does, and stops where it fails |
| Wire.TakeRequest | server/main.c:159-194 | head and seats together |
| Wire.ReserveThroughPipe | client/api.c:128-156 | a reservation through the pipe is one atomic lenient reservation of the client's arrays |
| Bytes.BytesBack | server/operations.c:225-229 | little-endian fields wide enough for a value give it back |
| Bytes.LowByteFirst | server/operations.c:225-229 | the low byte of a field comes first |
| Payload.BuildShow | server/operations.c:219-238 | the reply is the answer 0, rows, cols and the seats in row order |
| Payload.PayloadBack | client/api.c:186-219 | whatever lies behind it in the client's buffer, the reply is read back as packed, rows from bytes 4 to 11, cols from 12 to 19 |
| Payload.FormatGrid | client/api.c:211-235 | the loops with sprintf and strcat at a running offset produce the grid's text |
| Payload.ClientBufferFitsExactly | client/api.c:211-213 | the client's buffer holds text and terminator iff the threaded SHOW's guards would not fire |
| Payload.ReceiveShow | client/api.c:174-247 | an answer of 1 is an error, anything else gives the text of the grid in the reply |
| Payload.ShowThroughPipe | server/operations.c:179-260 | SHOW over the pipe yields the text the server itself prints, for dense events whose reply fits 500 bytes |
| Payload.ServedEventsUnderstood | client/api.c:194-235 | for every event of every server run of non-empty requests, size alone guarantees that the reply is understood and fits both client buffers |
| ListPayload.BuildList | server/operations.c:278-329 | both walks from head to tail agree, and the reply is 0, the count and the ids in list order |
| ListPayload.ListBack | client/api.c:267-291 | a reply of at most 100 bytes is read back as packed |
| ListPayload.ListFitsExactly | client/api.c:283-309 | the client's buffer holds text and terminator iff the ids average below four digits |
| ListPayload.FourDigitIdOverflows | client/api.c:283-309 | one event with id 1000 is already too much for it |
| ListPayload.ListThroughPipe | client/api.c:249-325 | LIST over the pipe yields the listing, under that condition |
| SessionRing.SessionBuffer.Enqueue | server/main.c:61-70 | the ring appends to a queue; a full one stays as it is |
| SessionRing.SessionBuffer.Dequeue | server/main.c:73-80 | the ring gives out its oldest session; there is no test for an empty ring, which gives out the slot at the front and a count of -1 |
| Sessions.SessionServer.TakeFreeId | server/main.c:346-352 | the first free id is taken, or none when all are in use |
| Sessions.SessionServer.AdmitSession | server/main.c:337-355 | one admission, as the session machine has it |
| Sessions.SessionServer.TakeSession | server/main.c:96-101 | a worker takes the oldest waiting session, as the session machine has it |
| Sessions.SessionServer.QuitSession | server/main.c:134-240 | one end of a session, as the session machine has it |
| Sessions.SessionsKept | server/main.c:321-358 | in every run live sessions hold different ids below 8, the flags mark exactly those, the counter counts them and is at most 8, an admission always finds an id and room in the ring, a waiting session always finds an idle worker, and sessions are taken in the order of admission |
| Sessions.StepKeepsInv | server/main.c:134-358 | admitting, taking and ending keep ids used once each and no session lost |

## Left out

- Exercicio2, the rest of Exercicio1 and directory scanning with fork and wait: the same operations, parser and list again, and an easy counter.
- Allocation failures and failures of lock calls: assumed not to happen.
- Delays: they change no state and are no-ops.
- A section under the list lock is one step, or two in `RunnerListLock` (entering, and all the rest); what two readers inside it do at once is two such steps one after the other.
- A WAIT with a delay for a thread beyond the thread count writes outside `threadArray`, which is undefined: the model has no step for reading it. Behind a raised barrier flag, or with delay 0, it is read or passed over as the program does.
- RunnerShow.ShowPrintsTheGrid: only while nobody reserves the event, because the threaded SHOW does not take the event mutex and then has no snapshot to print; `RunnerShow.ShowWrites` covers every SHOW.
- GridBuffer.PutSeat: for ids of five digits or more the program reads past a 5-byte local array; the model appends the digits there, and `Shows.ShowThroughBuffer` requires shorter ids.
- SHOW of an event without rows or columns declares an array of size zero, which is undefined: the lemmas about its buffers require a seat.
- CommandReader.Reader.ReadNumber: a number of 16 digits or more, or one cut off by the end of the file, is excluded where the reader starts on it, because the program then reads or writes outside its digit buffer or reads it unterminated; the other methods exclude only arguments, or files, in which that happens (`CommandReader.FileSafe`). `CommandSyntax` gives such text the value of its digits.
- CommandReader.Reader.ReadAll: what the client does with each command between two reads is not part of it.
- Printing.OutputFile.Write: a write that takes no byte at all is excluded; the loops of the program would then repeat it.
- Wire.TakeSeats: where a seat does not parse the program goes on with whatever its arrays held; the model stops there. Signs and numbers wider than their field, which the client never sends, are not modelled in the scanning functions.
- Wire.TakeRequest: ends without a request where `Wire.TakeSeats` stops.
- Wire.BuildRequest: longer requests run over the client's 100-byte buffer and are excluded.
- Payload.ReceiveShow: only replies whose rows, columns and digits the client's buffers hold; larger ones overrun them.
- Payload.ReceiveShow and ListPayload.ListThroughPipe cover one reply read whole: splitting and merging of pipe reads, the size sent in front of the SHOW reply, and the error replies of SHOW and LIST are not part of this model.
- Sessions.SessionsKept: at the grain of one step per admission, dequeue and quit, with waits as guards. The program leaves the counter and the dequeue unlocked, so at a finer grain it can drift.
- Sessions.SessionServer.QuitSession: the flag and the counter are reset in one step.
- Sessions.SessionServer.TakeSession: waits for a session where the program would take the slot at the front of an empty ring.
- Sessions.StepKeepsInv: at the same grain as `Sessions.SessionsKept`.
- Operations of different server sessions are not interleaved; the threaded runner covers interleaving.
- Help text, debugging output, ems_program_status, ems_terminate, and the client's handling of CREATE and RESERVE replies.
