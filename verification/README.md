# Verification of the operating-system labs

Dafny models of five programs of the repository and proofs of what they promise. Each module follows
one program: the functions and datatypes say what an operation does to the whole state, classes and
methods are the loops and in-place updates of the C code proved against them, and lemmas prove what
holds over every input, run or interleaving.

| file | models |
|---|---|
| `common.dfy` | what all parts use |
| `args_page.dfy` | the argument and environment page of a process: filling, relocation, decoding (`lab9/process.c`) |
| `process_model.dfy` | process list, reference-counted pages, fork, exit, waitpid, exec, sbrk as functions, and their invariants over runs (`lab9/process.c`) |
| `process_kernel.dfy` | the same calls on PCB objects, a frame table and an allocator (`lab9/process.c`) |
| `process_wait.dfy` | waitpid in two steps: callers that block in thread_join while everyone else runs (`lab9/process.c`) |
| `process_zombies.dfy` | zombies that were joined while they had children (`lab9/process.c`) |
| `elf_load.dfy` | loading of ELF sections (`lab9/process.c`) |
| `battleship.dfy` | the two-player protocol over two FIFO channels, for any grid size up to 127 and boat count (`lab8/battleship.c`) |
| `battleship_runs.dfy` | what the attacks of a game leave on the grids, how long it lasts, and how it ends (`lab8/battleship.c`) |
| `battleship_player.dfy`, `battleship_socket.dfy` | one player process in place; partial sends and receives (`lab8/battleship.c`) |
| `recency.dfy` | LRU as a list: stack distance and competitiveness, for any number of frames |
| `stamps.dfy` | LRU by time stamps from a wrapping counter, for any number of pages, frames and counter values |
| `memreplace.dfy` | the page-replacement simulator, LRU and WSC (`lab13/memreplace.c`) |
| `memsim.dfy` | the paged memory simulator, both address splits, with and without attributes (`lab12/memsim.c`) |
| `letter_count.dfy` | the parallel letter counter (`lab6/lab6.patch`) |

`dafny verify dfyconfig.toml` checks everything.

## What the code does that its comments do not say

- waitpid joins a child only if it is not in state WAITING (`lab9/process.c:961`). For a childless process
  in that state, without WNOHANG, it removes the PCB of a live process. `ProcessModel.OnlyZombiesRemoved`
  gives the exact condition for that. Reference counts are lost exactly when the process also holds pages,
  in one call (`ProcessModel.WaitKeepsRefsIff`) and over every run, also with callers that block
  (`ProcessModel.RunKeepsRefsIff`, `ProcessWait.JoinRunRefsIff`);
  `ProcessModel.WaitingIsRemoved` is a run from the boot of any system that gets there.
- A caller that blocks in thread_join goes on with a PCB pointer it took before (`lab9/process.c:937-1010`).
  It is left with a freed PCB exactly when somebody else removes that process meanwhile:
  `ProcessWait.RunSafeIff`, with the run `ProcessWait.WaiterIsLeftBehind`.
- waitpid keeps the PCB of a zombie that still has children (`lab9/process.c:977-982`) and does not look at
  it again: find_proc_zombie_to_clean skips it (`lab9/process.c:117-131`). It is kept for a child exactly
  until somebody removes the last one: `ProcessZombies.RunKeptIff`. After that only a call that names it
  removes it (`ProcessZombies.JoinedGoesByName`); `ProcessZombies.ZombieIsStranded` is a run that gets there.
- sbrk does not ask whether a heap was mapped (`lab9/process.c:1042-1051`). After exec the break stays on the
  frames that exec mapped (`ProcessModel.HeapStaysMapped`); the root, before any exec, is granted addresses
  with no page behind them (`ProcessModel.SbrkWithoutHeap`).
- The size check of the argument page follows every string except the process name that stands in for
  missing arguments (`lab9/process.c:450-456`): `ArgsPage.CheckMisses`. A name that is too long reaches the
  program without its end, so its page decodes to nothing: `ArgsPage.SetupArgs`.
- setup_proc_image_replace tests the pointer returned by preserve_args_and_env for being negative
  (`lab9/process.c:555`), which never holds: for refused arguments exec goes on, leaves the argument page
  as it was and returns 0. `ProcessKernel.Kernel.SetupProcImageReplace` ensures this and
  says exactly when the page is right, and `ArgsPage.OversizedIsRefused` gives arguments that are refused.
- The refresh of stamps in the WSC mode masks REF with VALID, two different bits (`lab13/memreplace.c:101`),
  so it never happens: `MemReplace.WscNeverStamps`. The method takes the mask as a parameter.
- The stamp counter of the LRU mode has eight bits (`lab13/memreplace.c:29`). The recency property holds for
  all traces of a length exactly if the length is at most 256: `MemReplace.LruExactLength`; for other
  numbers of pages, frames and counter values see `Stamps.ExactLength`.
- The letter bounds use `<=` (`lab6/lab6.patch:69-73`), so the characters after `Z` and `z` index one past
  the counters: `LetterCount.InBoundsIff`.

## How things are represented

- Addresses and C integers are mathematical integers; where 8-, 16- or 32-bit wrap-around can matter it is
  written out with `%`. In `memsim.dfy` shifts and masks are multiplication, division and remainder by
  the page size, and `|=` with a one-bit constant is `SetBit`; `memreplace.dfy` uses bit vectors.
- A pointer to a process is the PCB object in `process_kernel.dfy` and its pid in `process_model.dfy`; the
  two agree because listed pids are distinct.
- Words are four bytes, little-endian. The buffer of the argument page is as long as all that is written to
  it, because the code copies a string before it checks the size.
- In `battleship.dfy` the bytes in flight carry tags that only the invariant looks at; the processes see bytes.
- Where the kernel would stop in BUG_ON because pages ran out, a method returns `ok == false`.

## Assumptions about code that is not shown

- get_free_page returns a frame that no page list holds; duplicate_user_space adds to the child any
  frames, new or in use; thread_join returns once the joined process is a zombie, with its main
  thread gone, and at once if its main thread is gone already; the scheduler may move a live process
  between its live states, and the process that makes a call is in state RUNNING.
- Pids do not wrap: pid_current is a uint32_t (`lab9/process.c:63`) and `pidCurrent` is unbounded. That
  pids grow along the list, and so are distinct, depends on it.
- A live process whose PCB was removed takes no further step, except that a waitpid in which it is blocked
  goes on.
- The game connection delivers the bytes of a direction in order and without loss.

## Model

| member | source | states |
|---|---|---|
| `ArgsPage.SetupArgs` | lab9/process.c:388-536 | NULL comes back exactly for a missing argv or when a checked copy overflows the page; otherwise the relocated page decodes to exactly the arguments (the process name when there are none) and the environment, or to nothing when that name is too long |
| `ArgsPage.DecodeEncoded` | lab9/process.c:400-536 | decoding is the inverse of the page format: argc, argument strings, environment strings up to NULL |
| `ArgsPage.PointersInPage` | lab9/process.c:526-534 | every relocated pointer lies in the page, at its whole string with its terminator |
| `ArgsPage.PreserveArgsAndEnv` | lab9/process.c:388-505 | EINVAL for a missing argv; ENOMEM exactly when, with arguments or an environment, argc, pointers, NULL and strings need more than 4096 bytes; else a complete encoded page for the buffer address |
| `ArgsPage.TotalIs` | lab9/process.c:406-447 | the encoding takes four bytes for argc, four for each string and NULL, and the strings with their terminators |
| `ArgsPage.CheckMisses` | lab9/process.c:450-475 | the size check misses exactly one family: no arguments, no environment, and a process name longer than the page leaves room for |
| `ArgsPage.WriteHeader` | lab9/process.c:406-447 | after argc and the pointer room, the strings start behind the NULL that ends the environment pointers, and nothing else is written |
| `ArgsPage.PlaceKeeps` | lab9/process.c:458-502 | placing a string and its pointer clobbers no pointer and no earlier string, and leaves the rest of the page zero |
| `ArgsPage.PlaceArgs` | lab9/process.c:446-475 | all argument strings are placed, or the page is left as soon as one ends beyond it |
| `ArgsPage.PlaceEnv` | lab9/process.c:477-502 | all environment strings are placed behind the argc read back from the buffer, or the size check stops it |
| `ArgsPage.PostSetupImage` | lab9/process.c:507-536 | one page of the buffer is copied and relocated: if everything fits, it is the encoding for its final address and decodes to the arguments and the environment, else it decodes to nothing |
| `ArgsPage.MovedMeaning` | lab9/process.c:507-536 | the same of any page with all pointers moved and nothing else changed |
| `ArgsPage.FillArgsPage` | lab9/process.c:610-612 | the argument page changes only if there is a buffer, and then says what was asked for |
| `ArgsPage.PageIsRight` | lab9/process.c:554-612 | a page left alone for refused arguments and filled otherwise is right exactly when they were not refused and the process name was not too long |
| `ArgsPage.OversizedIsRefused` | lab9/process.c:466-475 | one argument as long as a page is refused |
| `ArgsPage.MovedNull` | lab9/process.c:530-534 | the walk over the environment pointers stops at the NULL slot and nowhere before |
| `ArgsPage.MovePointer` | lab9/process.c:526-534 | 32-bit pointer arithmetic moves one pointer by the distance of the two pages and touches no other |
| `ProcessModel.AddPageKeeps` | lab9/process.c:270-286 | a new page-list entry keeps every reference count equal to the number of entries |
| `ProcessModel.DropPageKeeps` | lab9/process.c:367-383 | dropping an entry keeps the counts; the frame was not free before, and is free afterwards exactly when no list holds it |
| `ProcessModel.FreeMeansUnreferenced` | lab9/process.c:270-304 | no frame in any page list is in the hands of the page allocator |
| `ProcessModel.RunKeeps` | lab9/process.c:763-1084 | tree, reference counts, page-less zombies and heap bounds hold over every run in which no waiting process is removed together with its pages |
| `ProcessModel.RunKeepsRefsIff` | lab9/process.c:270-1084 | over any run, every reference count is the number of page-list entries in every state, if and only if no call removes a waiting process together with its pages |
| `ProcessModel.WaitKeepsRefsIff` | lab9/process.c:961-1010 | waitpid keeps the reference counts exactly when it does not remove a waiting process that holds pages |
| `ProcessModel.RunKeepsTree` | lab9/process.c:763-1016 | over every run: pids are distinct, grow along the list and stay below pid_current, and every process but the root has its parent listed before it |
| `ProcessModel.OnlyZombiesRemoved` | lab9/process.c:920-1016 | waitpid removes at most one process, childless; it is a zombie if and only if the call is not one for a single process that is waiting itself |
| `ProcessModel.WaitingIsRemoved` | lab9/process.c:961-1010 | a run from every boot, every step of it possible, in which waitpid removes a live child and reference counts are left that no page list accounts for |
| `ProcessModel.ExitCodeRead` | lab9/process.c:968-1006 | the exit code in the wait status is the low byte of what the zombie left, and 255 for a waiting process that is removed |
| `ProcessModel.WaitKeepsTree` | lab9/process.c:920-1016 | whoever is waited for, no listed process loses its parent and the root stays |
| `ProcessModel.RemoveKeepsTree` | lab9/process.c:977-982 | removing a process without children leaves no dangling parent |
| `ProcessModel.PathToRoot` | lab9/process.c:136-149 | following parents from any listed process reaches the root through listed processes with smaller pids |
| `ProcessModel.ForkKeeps` | lab9/process.c:763-852 | fork keeps tree, counts, zombies and heap bounds |
| `ProcessModel.ForkProcs` | lab9/process.c:763-852 | the child is the last process: next pid, ready, not joined, with page count, stack top, heap and break of its parent |
| `ProcessModel.ForkOwns` | lab9/process.c:270-286 | a new frame of the child belongs to it alone, with reference count 1 |
| `ProcessModel.ExitKeeps` | lab9/process.c:858-902 | exit of a process other than the root keeps them, and gives back all its page entries |
| `ProcessModel.ExecMeaning` | lab9/process.c:541-615 | after exec the page list is exactly the frames of stack, image, heap and arguments, the page count their number, the heap starts one page above stack and image pages; no other process changes and the counts are kept |
| `ProcessModel.ExecOwns` | lab9/process.c:291-304 | a frame nobody else referred to and that exec maps once belongs to the process alone, with reference count 1 |
| `ProcessModel.DropPagesFrees` | lab9/process.c:367-383 | once a process has released its pages, exactly the frames that nobody else refers to are free |
| `ProcessModel.ExecLayout` | lab9/process.c:558-608 | with the image linked at the first page, stack, image, heap and arguments are pairwise disjoint if and only if they fit below the arguments |
| `ProcessModel.BreakExact` | lab9/process.c:1042-1051 | the 32-bit test of sbrk grants an increment exactly when the exact new break stays in the heap |
| `ProcessModel.BreakIsSum` | lab9/process.c:1029-1084 | over any sequence of sbrk calls the break is its start plus the granted increments, and stays within HEAP_SIZE of the heap base |
| `ProcessModel.BreakOverRun` | lab9/process.c:1029-1084 | over any run, between two exec calls of a process, its break is where it started plus the increments granted to it, whatever other processes do, and stays within HEAP_SIZE of the heap base; its page list stays until it exits |
| `ProcessModel.HeapStaysMapped` | lab9/process.c:558-608 | from its exec on, as long as a process lives, its page list is exactly what exec allocated, its break is the heap base plus the increments granted, and the frame mapped at the break is in the list |
| `ProcessModel.SbrkWithoutHeap` | lab9/process.c:1029-1084 | a run from every boot in which the root, without exec, is granted 8 bytes at address 0 and has only its stack pages |
| `ProcessModel.OthersUntouched` | lab9/process.c:763-1084 | no call changes another process, but for the end of its main thread |
| `ProcessModel.BreakStarts` | lab9/process.c:592-599 | exec puts the break at the start of the heap; a forked child starts with heap and break of its parent |
| `ProcessModel.CallMovesBreak` | lab9/process.c:763-1084 | only its own granted sbrk moves the break of a process that does not call exec |
| `ProcessModel.BootInv` | lab9/process.c:316-361 | the state after the creation of the root process satisfies all invariants |
| `ProcessModel.BootProcs` | lab9/process.c:316-361 | the root is alone, with pid 1, no parent, ready, its stack pages and its stack top |
| `ProcessModel.PagesForPositive` | lab9/process.c:249-259 | a size in bytes gets as many pages as it needs, and no more |
| `ProcessModel.WaitedAnswers` | lab9/process.c:920-1016 | what waitpid answers, for every outcome: -1 exactly when no process is wanted, 0 exactly for WNOHANG on a live one, blocked exactly for a live one that is not waiting, else the pid of the first wanted process, its status, and its removal unless it has children |
| `ProcessKernel.Kernel.CreateRootProcess` | lab9/process.c:316-361 | the list holds the root alone, ready, with its stack pages, different free frames |
| `ProcessKernel.Kernel.AddPageToProc` | lab9/process.c:270-286 | refines AddPage on the list of PCBs and the frame table |
| `ProcessKernel.Kernel.AllocatePage` | lab9/process.c:291-304 | every page comes from the allocator, no two are the same, each is entered once and counted once |
| `ProcessKernel.Kernel.ReleaseProcPages` | lab9/process.c:367-383 | the page list empties and each free_page is for a frame that is not free |
| `ProcessKernel.Kernel.ReleaseOne` | lab9/process.c:373-381 | one turn of the release loop: refines DropPage |
| `ProcessKernel.Kernel.DuplicateProcess` | lab9/process.c:763-793 | the child is last in the list, with a new pid, its parent and the copied fields |
| `ProcessKernel.Kernel.DoFork` | lab9/process.c:798-852 | -1 without any change outside the main thread, else the pid of the new child, which is ready and has its parent's fields; its new frames are its own; refines Forked |
| `ProcessKernel.Kernel.DoExit` | lab9/process.c:858-902 | the root panics; everyone else becomes a page-less zombie with its exit status |
| `ProcessKernel.Kernel.FindProcByPid` | lab9/process.c:84-98 | the first process with that pid, or none |
| `ProcessKernel.Kernel.FindProcZombieToClean` | lab9/process.c:117-131 | the first zombie not yet joined, or none |
| `ProcessKernel.Kernel.FindProcByParent` | lab9/process.c:136-149 | none exactly when no listed process has that parent; comparing parent pointers is comparing pids |
| `ProcessKernel.Kernel.RemoveProc` | lab9/process.c:169-184 | exactly that PCB leaves the list |
| `ProcessKernel.Kernel.DoWaitpid` | lab9/process.c:920-1016 | over the listed processes: -1 exactly when none is wanted, 0 exactly for WNOHANG on a live one, blocked with the child's PCB in hand, or the pid of the process answered for, with its status, removed unless it has children; refines Waited |
| `ProcessKernel.Kernel.WaitFor` | lab9/process.c:947-1015 | what waitpid does once it has the child, at once or when a blocked caller goes on; refines WaitedFor |
| `ProcessKernel.OrChangesNothing` | lab9/process.c:1000-1004 | or-ing an exit code to the initial status word changes no bit |
| `ProcessKernel.Kernel.WaitStatus` | lab9/process.c:971-974 | the status word of a zombie holds its exit code; of a process that still lives, none |
| `ProcessKernel.Kernel.SetupProcImageReplace` | lab9/process.c:541-615 | the result is always 0; old pages released, new ones allocated, refines Execed; all frames mapped are different, were referred to by nobody else once the old pages were released, and belong to the process alone afterwards, with reference count 1; the argument page decodes to the arguments and the environment if and only if they were not refused and the process name was not too long, and is left as it was if they were refused |
| `ProcessKernel.Kernel.DoSbrk` | lab9/process.c:1029-1084 | the old break, and the break moved, exactly when the exact new break stays in the heap, else -1 with nothing changed |
| `ProcessWait.RunSafeIff` | lab9/process.c:937-1010 | over any run with callers blocked in waitpid, the PCB that each of them points to is listed in every state, if and only if no step frees a PCB that somebody else is waiting for |
| `ProcessWait.SafeIff` | lab9/process.c:961-1010 | the same for one step |
| `ProcessWait.NextExists` | lab9/process.c:763-1016 | a listed pid stays listed unless the step removes it |
| `ProcessWait.RemovedIsZombie` | lab9/process.c:961-1010 | a join that ends removes only a zombie; a call that does not block removes one exactly when it is not for a waiting process |
| `ProcessWait.ActMeaning` | lab9/process.c:937-1010 | only a waitpid for one pid blocks, and its caller holds that pid and waits; a caller that goes on gets its answer for the zombie it holds and runs again if it is still listed |
| `ProcessWait.JoinRunKeepsTree` | lab9/process.c:763-1016 | pids and parents stay a tree over every run with blocked callers |
| `ProcessWait.JoinRunRefsIff` | lab9/process.c:763-1084 | over any run with blocked callers, every reference count is the number of page-list entries in every state, if and only if no act removes a waiting process together with its pages |
| `ProcessWait.NextKeepsInv` | lab9/process.c:920-1016 | the same for one act, which then keeps tree, zombies and heaps too |
| `ProcessWait.RunCallersWait` | lab9/process.c:961-963 | over any run, a blocked caller that is still listed is in state WAITING: only the end of its join lets it go on |
| `ProcessWait.WaiterIsLeftBehind` | lab9/process.c:920-1016 | a run from every boot in which two processes wait for the same one and the second is left with a freed PCB |
| `ProcessZombies.RunKeptIff` | lab9/process.c:977-982 | over any run, every joined process that is still listed has a listed child in every state, if and only if no act removes the last child of a joined process |
| `ProcessZombies.KeptIff` | lab9/process.c:977-982 | the same for one act |
| `ProcessZombies.JoinedGoesByName` | lab9/process.c:117-131 | a joined process is removed only by a waitpid with its pid, now or begun earlier, never by waitpid(-1) |
| `ProcessZombies.ZombieIsStranded` | lab9/process.c:920-1016 | a run from every boot after which a joined process is listed without a child and waitpid(-1) finds nobody |
| `ElfLoad.LoadProcess` | lab9/process.c:618-668 | memory becomes the image; where offsets do not wrap, every section with contents, one of the six supported names and its bytes inside a segment of type 1 is in memory byte for byte, and every address that no such section covers is unchanged |
| `ElfLoad.LoadMeaning` | lab9/process.c:618-668 | the same of the image function |
| `ElfLoad.LoadedBelongs` | lab9/process.c:634-661 | the tests of the loop select exactly those sections |
| `ElfLoad.ImageMeaning` | lab9/process.c:618-668 | every supported section with contents inside some loadable segment is in memory byte for byte, and everything else is unchanged, whatever the order and however often a section was copied |
| `ElfLoad.LastCopyWins` | lab9/process.c:661-662 | where copies overlap, the last one decides each byte |
| `ElfLoad.OrderIrrelevant` | lab9/process.c:626-664 | images with the same loaded sections give the same memory, in any order of segments and sections |
| `ElfLoad.CopiesAre` | lab9/process.c:626-664 | the sections copied are exactly the qualifying sections of the file |
| `ElfLoad.Supported` | lab9/process.c:644-651 | a section is supported exactly when its name is in the table |
| `Battleship.ReachableInv` | lab8/battleship.c:498-636 | every reachable state of the two processes, with bytes in flight, satisfies the protocol invariant |
| `Battleship.StepKeepsInv` | lab8/battleship.c:526-636 | every step of either process keeps it, and every byte that is read may be used as a cell index |
| `Battleship.ReachableSwap` | lab8/battleship.c:526-636 | exchanging the two processes of a reachable state gives a reachable state, so what is proved of one player holds of the other |
| `Battleship.NeverMisread` | lab8/battleship.c:554-608 | in every reachable state: a result is never read as a cell nor a cell as a result, and a cell received was not attacked before |
| `Battleship.ChannelShapes` | lab8/battleship.c:583-635 | at most two bytes are in flight one way, and two are a result followed by what its sender sent next |
| `Battleship.MapsAgree` | lab8/battleship.c:564-573 | the map of the opponent is its grid with the unhit boats hidden, and the boat counters are the boats left |
| `Battleship.MapsAgreeAfterResult` | lab8/battleship.c:564-573 | with a result on its way, the map agrees once that result is entered |
| `BattleshipRuns.AttacksLand` | lab8/battleship.c:540-619 | over every run and for both players: the marked cells of a grid are exactly the cells the opponent typed in and that were accepted, up to the one attack in flight, SUNKEN_BOAT where a boat was placed and MISSED_SHOT elsewhere |
| `BattleshipRuns.AttackMeaning` | lab8/battleship.c:540-551 | an attack on a fresh cell sends the cell typed in and waits; one on a cell already attacked changes nothing |
| `BattleshipRuns.ForfeitMeaning` | lab8/battleship.c:533-595 | who forfeits, at the prompt or while waiting, has lost by forfeit, and the forfeit byte is the last one it sends |
| `Battleship.CellLeft` | lab8/battleship.c:529-543 | who has to attack always has a cell left |
| `Battleship.NoDeadlock` | lab8/battleship.c:526-636 | in every reachable state in which a player is in the game and nobody forfeited, some process can make a real step |
| `Battleship.ForfeitReachesOpponent` | lab8/battleship.c:533-537 | after a forfeit its byte is on the way, and the opponent can read it or is about to attack |
| `Battleship.Outcomes` | lab8/battleship.c:560-632 | at most one side wins, a win by forfeit needs a forfeit, and without forfeits the end is one winner and one loser |
| `BattleshipRuns.FinishedGame` | lab8/battleship.c:526-636 | a run without forfeits that cannot go on has ended with exactly one winner and one loser |
| `BattleshipRuns.ShotBound` | lab8/battleship.c:526-636 | no run has more than twice the grid size minus one accepted attacks |
| `BattleshipRuns.GameEnds` | lab8/battleship.c:526-636 | every step changes nothing or lowers a bound that is never negative |
| `BattleshipRuns.RunLength` | lab8/battleship.c:526-636 | steps taken and bound left never exceed six times the grid size plus three |
| `Battleship.NoForfeitRun` | lab8/battleship.c:530-537 | nobody has forfeited as long as no step was a forfeit |
| `BattleshipPlayer.PlaceBoatsOnGrid` | lab8/battleship.c:233-250 | boats lie exactly on the different cells entered, up to the number asked for |
| `BattleshipPlayer.PlayerProcess.Prompt` | lab8/battleship.c:529-551 | forfeit, refusal of a cell already attacked, or exactly the cell typed in is sent and waited for; refines Prompted |
| `BattleshipPlayer.PlayerProcess.ReceiveResult` | lab8/battleship.c:553-581 | refines GotResult |
| `BattleshipPlayer.PlayerProcess.ReceiveAttack` | lab8/battleship.c:603-635 | refines GotAttack |
| `BattleshipPlayer.PlayerProcess.Interrupt` | lab8/battleship.c:589-595 | the waiting defender forfeits |
| `BattleshipSocket.SocketSend` | lab8/battleship.c:300-329 | 0 exactly when the whole buffer went out in order, else a proper prefix; -1 for a buffer exactly when its last four calls failed, and never earlier four in a row; at most four calls per byte |
| `BattleshipSocket.SocketRecv` | lab8/battleship.c:260-293 | 0 exactly when the buffer holds the next bytes of the stream, however they were cut; else fewer were taken, and exactly the last call failed or found the connection closed |
| `MemReplace.LruExactLength` | lab13/memreplace.c:32-66 | the valid pages are the last three distinct pages of the history 0, 1, 2, accesses after every trace of a given length, if and only if the length is at most 256 |
| `MemReplace.LruKeepsLastThree` | lab13/memreplace.c:32-66 | after at most 256 accesses the valid pages are exactly the last three distinct pages of the history 0, 1, 2, accesses |
| `MemReplace.LruForgetsAfterWrap` | lab13/memreplace.c:58-66 | for every length above 256 a concrete trace after which the newest page but one has been evicted |
| `MemReplace.LruFaultBound` | lab13/memreplace.c:183-192 | over such a trace the faults are at most three times those of any demand-paging schedule from the same pages, plus three |
| `MemReplace.LruStepRefines` | lab13/memreplace.c:32-66 | one access of the bit-packed table is one access of the time-stamp table with 16 pages, 3 frames and 256 counter values |
| `MemReplace.LruRunRefines` | lab13/memreplace.c:183-192 | the same for whole traces, and for the number of faults |
| `Stamps.AccessRefines` | lab13/memreplace.c:32-66 | for any number of pages, frames and counter values: one access moves the page to the front of the recency list, and the stamps order the list until the counter wraps |
| `Stamps.VictimIsLast` | lab13/memreplace.c:36-46 | the scan for the smallest stamp, ties to the smaller page, finds the least recently used page |
| `Stamps.RunRefines` | lab13/memreplace.c:32-66 | over a trace no longer than the counter has values, memory and faults are those of the list |
| `Stamps.ExactLength` | lab13/memreplace.c:29-66 | time stamps are LRU for all traces of a length if and only if the counter has at least that many values, or there is one frame, or one for every page |
| `Stamps.ForgetsAfterWrap` | lab13/memreplace.c:58-66 | the failing traces, for any number of pages, frames and counter values |
| `Stamps.FaultBound` | lab13/memreplace.c:32-66 | before the wrap, at most k times the faults of any demand-paging schedule, plus k |
| `MemReplace.SweepMeaning` | lab13/memreplace.c:68-97 | the victim is the lowest unreferenced page idle for more than DELTA ticks, else the lowest valid page; REF goes from exactly the valid pages before the exit; the victim is unreferenced; nothing else changes |
| `MemReplace.WscNeverStamps` | lab13/memreplace.c:99-103 | the refresh condition never holds, so a WSC run leaves every stamp as it was |
| `MemReplace.WscStepMeaning` | lab13/memreplace.c:194-205 | one access: the counter ticks, the page is valid and referenced; on a hit nothing else changes, on a fault the page leaves the swap and the others are as the sweep left them |
| `MemReplace.WscRunTicks` | lab13/memreplace.c:194-205 | over any run the counter shows the number of accesses, modulo 256 |
| `MemReplace.WscRunMarks` | lab13/memreplace.c:194-205 | after any run the page accessed last is valid and referenced |
| `MemReplace.CandidateMeaning` | lab13/memreplace.c:76-83 | a candidate is valid, not referenced, and more than 2 ticks old |
| `MemReplace.RunKeepsTable` | lab13/memreplace.c:176-211 | over any run in either mode: three valid pages, VALID and SWAP never both, REF only on valid pages, page numbers in place, every accessed page in memory or swap, and never "no page to replace" |
| `MemReplace.InitTable` | lab13/memreplace.c:105-115 | the initial table satisfies this |
| `MemReplace.EntryBits` | lab13/memreplace.c:15-26 | each update of an entry changes exactly the flags it names and never the page number |
| `MemReplace.LruVictim` | lab13/memreplace.c:36-46 | -1 exactly when no page is valid, else the valid page with the smallest stamp, ties to the smaller number |
| `MemReplace.Simulator.ReplaceLRU` | lab13/memreplace.c:32-56 | exactly that page goes from memory to swap |
| `MemReplace.Simulator.IncCompteur` | lab13/memreplace.c:58-66 | the page is stamped with the incremented 8-bit counter |
| `MemReplace.Simulator.ReplaceWSC` | lab13/memreplace.c:68-97 | the loop with early exit refines WscReplaced |
| `MemReplace.Simulator.UpdateTDU` | lab13/memreplace.c:99-103 | stamps are refreshed exactly where the entry has a bit of the mask |
| `MemReplace.Simulator.InitPageTable` | lab13/memreplace.c:105-115 | page numbers in bits 7..4, pages 0 to 2 valid, page 3 in swap |
| `MemReplace.Simulator.Access` | lab13/memreplace.c:183-205 | refines Step; out-of-range numbers change nothing |
| `Recency.LruListIsRecency` | lab13/memreplace.c:32-56 | a k-frame LRU list after a trace is the head of the recency list of the whole history |
| `Recency.LruHoldsLastDistinct` | lab13/memreplace.c:32-56 | such a list holds exactly the pages since whose last use fewer than k pages were used |
| `Recency.LruIsCompetitive` | lab13/memreplace.c:32-56 | LRU faults at most k times as often as any schedule with k frames from the same pages, plus k |
| `Recency.PhaseStep` | lab13/memreplace.c:32-56 | one access keeps the phase count: a full phase cannot be served by any schedule without a fault |
| `MemSimulator.MemSim.RunOps` | lab12/memsim.c:99-177 | any sequence of reads and writes answers and ends as the flat permission-checked memory: a read answers the last byte successfully stored at its address, or the initial one; read-only and invalid pages keep their bytes |
| `MemSimulator.RepliesMeaning` | lab12/memsim.c:99-177 | the replies of the flat memory, read by read and store by store |
| `MemSimulator.ReadsLastStore` | lab12/memsim.c:99-177 | an address holds the last byte successfully stored there, or its initial byte |
| `MemSimulator.ProtectedForever` | lab12/memsim.c:298-308 | read-only and invalid pages keep their bytes whatever is done |
| `MemSimulator.RunFromStart` | lab12/memsim.c:99-177 | from the start, whatever is read and stored: pages 10 to 12 hold and are read as zero, and pages 5 to 8 answer every access with an error |
| `MemSimulator.TranslationInjective` | lab12/memsim.c:79-88 | no two virtual addresses share a byte |
| `MemSimulator.EntryMeaning` | lab12/memsim.c:291-311 | attribute bits never disturb the page number and grant what the page ranges say |
| `MemSimulator.SetBitMeaning` | lab12/memsim.c:298-308 | setting an attribute bit keeps all bits above and below it |
| `MemSimulator.ComposedAddress` | lab12/memsim.c:248 | page number and offset of a composed address are its parts |
| `MemSimulator.AddressBits` | lab12/memsim.c:79-88 | page number and offset are in range and make up the address |
| `MemSimulator.MemSim.GetByte` | lab12/memsim.c:99-129 | fails exactly on entries that do not allow reading, else the byte of that address; with the initial table, fails exactly on the invalid pages |
| `MemSimulator.MemSim.StoreByte` | lab12/memsim.c:140-177 | fails without any change on entries that do not allow writing; with the initial table a store changes that address and no other |
| `MemSimulator.MemSim.VirtToPte` | lab12/memsim.c:79-88 | never out of range on 16-bit addresses |
| `MemSimulator.MemSim.InitPageTable` | lab12/memsim.c:291-311 | reversed page numbers, pages 10 to 12 read-only, pages 5 to 8 invalid |
| `MemSimulator.MemSim.TestMem` | lab12/memsim.c:209-234 | 0 exactly when every byte can be read and is the low byte of its address |
| `MemSimulator.MemSim.TestMem2` | lab12/memsim.c:240-284 | passes whatever the memory holds, and leaves 1 in exactly the writable bytes |
| `MemSimulator.MemSim.Fill` | lab12/memsim.c:328-331 | every address ends with its own low byte, so no store hits another address |
| `MemSimulator.RunSelfTest` | lab12/memsim.c:313-340 | both self-tests succeed, for both address splits |
| `LetterCount.AnyInterleavingCounts` | lab6/lab6.patch:57-154 | whatever the interleaving of threads and joins, the totals are the sequential case-insensitive counts |
| `LetterCount.Progress` | lab6/lab6.patch:57-154 | until all threads are joined, some step is possible |
| `LetterCount.StepsRunOut` | lab6/lab6.patch:57-154 | every step lowers a bound that is never negative |
| `LetterCount.StepKeepsInv` | lab6/lab6.patch:57-154 | each step keeps every private counter equal to the count of the characters read so far, and the totals equal to the count of the joined chunks |
| `LetterCount.ChunksTile` | lab6/lab6.patch:120-133 | every position of the text is in exactly one chunk |
| `LetterCount.InBoundsIff` | lab6/lab6.patch:68-75 | the counters are indexed in bounds exactly for texts without the characters after Z and z |
| `LetterCount.CountLetters` | lab6/lab6.patch:57-80 | the counters of a thread are the counts of its chunk |
| `LetterCount.CountChunks` | lab6/lab6.patch:120-140 | each thread gets its chunk, the last one with the leftover |
| `LetterCount.CountText` | lab6/lab6.patch:120-154 | aggregating the chunks gives the counts of the text |

## Left out

- ptrace branches, IRQ masking, cache flushes, register and kernel-stack copying, file descriptors, signals and names of processes: not part of the properties proved.
- ElfLoad.LoadProcess: requires that every section it copies lies in the file and in the memory; ELF parsing is not part of this model.
- ArgsPage.PreserveArgsAndEnv: the buffer is as long as all that is written to it, where the code has one page and leaves it before it checks the size; a negative argc, which exec never passes, is not modelled.
- ProcessKernel.Kernel.DoWaitpid: a caller that blocks is back with the child's PCB in hand, and goes on in WaitFor, which requires that this PCB is still listed; ProcessWait.RunSafeIff says when it is.
- The wait status takes char to be unsigned, as it is on ARM.
- LetterCount.CountText: requires a text without the characters after Z and z; with them the code writes outside its counters.
- Failures of malloc and of thread creation, and the cleanup code after them.
- Socket setup, argument parsing, printing, the prompt's conversion of a hexadecimal digit, stale errno, and signals of the game outside its prompt and the defender's wait: these close the connection without a message.
- BattleshipPlayer.PlayerProcess.constructor: takes inputs that place all boats; with fewer the program waits for more input.
- do_renice, the dump functions and the disabled allocation code of sbrk.
- lab11/memsim.c, which is lab12/memsim.c without attributes, the shells of lab5 and lab7, and the file tools of lab14: they would only add easy members.
- Timestamps of the LRU mode after the counter has wrapped, beyond the counterexample.
