# Verification of the Code::Blocks worker pools, layout strings and editor algorithms

This project models parts of the Code::Blocks SDK in Dafny and proves what they are for. Each
component has a specification on values (states, steps, texts, lists) and, where the original
changes objects in place, classes and loops whose methods are proved to compute exactly what the
specification says; the theorems are about the specification, on every input and every run.

| files | what they model |
|---|---|
| `PoolModel` | `cbThreadPool` as a transition system: one step for each call under the pool's lock, each test of the abort flag, the semaphore's `Wait`, publishing, executing and releasing a task, and the end of a thread |
| `PoolCounting`, `PoolInvariant`, `PoolLedger`, `PoolWakeup`, `PoolDeletion` | its invariants: threads and semaphores, the fate of each task, who will wake up, which tasks are deleted |
| `PoolTheorems` | what holds in every reachable state and every run |
| `PoolAllDone`, `PoolAborts`, `PoolBound`, `PoolTokens` | when exactly ALLDONE stays owed, what aborting reaches and misses, how many threads work, and how many are woken |
| `ThreadPool` | the pool, its threads and its counted semaphores as objects, each method equal to its step |
| `BackgroundModel`, `BackgroundThreads` | `BackgroundThreadPool`, with its two-phase destructor |
| `Layout`, `LayoutContents`, `FrameText`, `Strings` | the notebook's layout string, printed and parsed, and what it says character by character |
| `Base64`, `Base64Bits` | the encoder and decoder, against section 4 of RFC 4648 |
| `BlockStore`, `BlockAllocator` | the free-list allocator, with slots as numbers and as linked objects |
| `Lines`, `SaveText`, `SaveTheorems`, `LineEnds`, `EditorText` | texts and their lines, normalisation on save, line end detection |
| `IndentStyle` | the vote on the indentation style |
| `BlockSearch` | the backward search for the start of a block |
| `LinePositions`, `Breakpoints`, `BreakpointEdits`, `Markers` | lines by position, breakpoints that follow insertions, deletions and undo, and their markers |
| `TreeView` | the item above another one in a tree control |
| `Basics`, `Tallies` | options, ranges, and counting the members of a list |

`dafny verify dfyconfig.toml` checks everything.

## Where the code differs from its comments

- `cbthreadpool.h:239-241` takes `m_concurrentThreads` for the maximum of `m_workingThreads`, and
  `:260-262` for the sum of the working and the idle threads. Neither holds: a thread of a replaced
  generation that has passed the abort test still enters the working section
  (`PoolBound.WorkingCanExceedConcurrent`). In every reachable state working + idle + awake threads are
  `m_concurrentThreads` plus the replaced threads that work, which gives the exact condition for
  both claims (`PoolBound.Census`). The maximum is kept in every run whose replacements all happen while
  no thread stands between the abort test and `WorkingThread` (`PoolBound.SafeReplacementsKeepBound`), and
  after any other replacement some continuation exceeds it (`PoolBound.UnsafeReplacementBreaksBound`).
- `cbthreadpool.h:268-272` takes the semaphore's value for the number of idle threads, at first
  `m_concurrentThreads`. It starts at 0, which is then the number of idle threads
  (`PoolBound.ValueAfterReplacement`); in a pool at rest it is 0 while all threads are idle
  (`PoolBound.ValueAtRest`).
- `AbortAllTasks` is documented (`cbthreadpool.h:58-61`) to abort all running tasks. A task that a
  thread has fetched but not yet published in `m_pTask` is missed, and no other
  (`PoolAborts.AbortAllReach`); a run executes such a task (`PoolAborts.MissedTaskIsExecuted`).
- `AddTask` promises (`cbthreadpool.h:54`) that an autodelete task is deleted when it finishes or is
  aborted. A task dropped at the abort test by a replaced thread is not
  (`PoolTheorems.DeletionExact`, `PoolAborts.DroppedForGood`), and runs with such a drop exist
  (`PoolAborts.ReplacedWorkerDrops`).
- A pool at rest still owes ALLDONE for its last tasks exactly when no worker has called `WaitingThread`
  since the last task was added (`PoolAllDone.OwedExactly`), for example when the tasks are added and
  discarded in batch mode (`PoolTheorems.AllDoneCanBeOwed`).
- The layout string does not survive ids and pane names that contain its separators; the exact
  condition is in `Layout.LayoutRoundTrip`.
- Stripping trailing blanks can lose a line and leave blanks behind when a line of blanks ended by LF
  follows a line ended by CR; the exact conditions are in `SaveTheorems.StripKeepsLines` and
  `SaveTheorems.SaveIdempotent`, an example in `SaveTheorems.SaveTwiceCanDiffer`.
- Breakpoints are meant to move with their text. On an insertion each does, except that of a line in
  front of which lines are added at its very start, and that of the line after a CRLF that is split
  (`BreakpointEdits.LineFollowsInsertion`). On a deletion the breakpoint of the line that keeps its start but
  loses its end is lost (`BreakpointEdits.LineFollowsDeletion`). Undoing an edit restores the
  breakpoints exactly when none was on the lines named in `BreakpointEdits.UndoneInsertion` and
  `BreakpointEdits.UndoneDeletion`.
- A line shows a breakpoint marker exactly when an odd number of breakpoints want it there
  (`Markers.MarkersShowBreakpoints`); two of them take it away from each other
  (`Markers.SharedLineShowsNothing`).

## Model

| member | source | states |
|---|---|---|
| `PoolTheorems.NoLostWakeup` | src/sdk/cbthreadpool.cpp:79-159 | In every reachable state with queued tasks and no batch, the current semaphore holds a token, a worker of any generation is between `WorkingThread` and `WaitingThread`, or a current worker is awake before `WorkingThread`, also when `Post` overflows the semaphore's maximum |
| `PoolTokens.EnoughThreads` | src/include/cbthreadpool.h:363-377 | In every reachable state outside batch mode the tokens, the current workers awake before `WorkingThread` and the working threads are together at least as many as the queued tasks, or as `m_concurrentThreads` |
| `PoolTokens.TokensExactly` | src/include/cbthreadpool.h:363-377 | The current semaphore's value after every call, from the value, the queue length and the counts before it: `AddTask` and `BatchEnd` post once for each queued task up to the threads that do not work, a leaving worker once if others work or tasks are queued, never beyond `m_concurrentThreads` |
| `PoolTokens.BatchExactly` | src/sdk/cbthreadpool.cpp:104-110 | In every run the pool is in batch mode exactly from `BatchBegin` to the next `BatchEnd` |
| `PoolTokens.ReplacedCallerLeaves` | src/sdk/cbthreadpool.cpp:133-160 | After its call of `WaitingThread` a worker goes on to `Wait` unless that call has replaced the workers, when it leaves |
| `PoolTheorems.RestMeansDone` | src/sdk/cbthreadpool.cpp:133-160 | A pool that cannot move any more, outside batch mode, has an empty queue, no pending thread count, every task settled, every execution reported, no replaced thread left, and has sent ALLDONE since the last fetched task |
| `PoolAllDone.OwedExactly` | src/sdk/cbthreadpool.cpp:133-160 | In every run that has come to rest, batch or not, a task was added since the last ALLDONE iff `m_taskAdded` is set iff no worker has called `WaitingThread` since the last task was added |
| `PoolAllDone.OwedInRuns` | src/sdk/cbthreadpool.cpp:79-160 | In every run: until a worker calls `WaitingThread` after the last added task, `m_taskAdded` is set; afterwards it is set only while some worker is active or the semaphore has a token |
| `PoolTheorems.AllDoneCanBeOwed` | src/sdk/cbthreadpool.cpp:95-102 | An input for the owing side of `OwedExactly`: one task added and discarded in batch mode while the pool rests |
| `PoolTheorems.TaskConservation` | src/sdk/cbthreadpool.cpp:79-123 | In every run each added task is in exactly one place: queued, held by one worker, executed, dropped, or discarded |
| `PoolTheorems.FirstInFirstOut` | src/sdk/cbthreadpool.cpp:112-123 | The tasks taken out so far followed by the queue are the tasks added, in order |
| `PoolTheorems.DropsAndExecutions` | src/sdk/cbthreadpool.cpp:222-237 | Only a worker of a replaced generation drops a task, and only one of the current generation executes one |
| `PoolTheorems.DeletionExact` | src/include/cbthreadpool.h:219-227 | The pool deletes a task iff it was added with autodelete and has been executed or discarded, and never while it is queued, held or dropped |
| `PoolTheorems.AbortTouchesLiveTasks` | src/sdk/cbthreadpool.cpp:257-263 | What any worker's `m_pTask` points to has not been deleted, so `AbortTask` never reaches a deleted task |
| `PoolAborts.AbortAllReach` | src/sdk/cbthreadpool.cpp:95-102 | In every reachable state `AbortAllTasks` empties the queue, and the task that a current worker has fetched is told to abort iff it has been published: one between `GetNextTask` and `m_pTask` is missed |
| `PoolAborts.ToldExactly` | src/sdk/cbthreadpool.cpp:52-102 | In every reachable state only `AbortAllTasks` calls `Abort` on tasks, and on exactly those that current workers have published; replacing the workers reaches none |
| `PoolAborts.ToldInRuns` | src/sdk/cbthreadpool.cpp:213-231 | In every run a task that has been told to abort was added, has left the queue and is not one that a worker has yet to publish |
| `PoolAborts.MissedTaskIsExecuted` | src/sdk/cbthreadpool.cpp:213-233 | A run in which `AbortAllTasks` is called after a task was fetched, and the task is then executed without having been told |
| `PoolAborts.DroppedForGood` | src/sdk/cbthreadpool.cpp:222-237 | In every run a dropped task is never executed and never deleted |
| `PoolAborts.ReplacedWorkerDrops` | src/sdk/cbthreadpool.cpp:222-237 | A run in which a replaced worker drops an autodelete task, which is neither executed nor deleted |
| `PoolTheorems.AllDoneSound` | src/sdk/cbthreadpool.cpp:133-167 | At every ALLDONE event each task added so far is finished exactly once, the ENDED events equal the executions, and a task was added since the previous ALLDONE |
| `PoolTheorems.CountersExact` | src/sdk/cbthreadpool.cpp:125-160 | `m_workingThreads` is the number of workers of all generations in the working section, never negative, `Done` is exact, and `m_threads` is the unaborted workers, `m_concurrentThreads` of them |
| `PoolBound.Census` | src/include/cbthreadpool.h:260-262 | In every reachable state working + idle + awake threads = `m_concurrentThreads` + replaced threads that work; so working + idle = `m_concurrentThreads` iff as many are awake as replaced ones work, and working <= `m_concurrentThreads` iff no more replaced ones work than current ones do not |
| `PoolBound.SafeReplacementsKeepBound` | src/include/cbthreadpool.h:239-241 | Working threads never exceed `m_concurrentThreads` in a run whose replacements all happen while no thread is between the abort test and `WorkingThread` |
| `PoolBound.UnsafeReplacementBreaksBound` | src/include/cbthreadpool.h:239-241 | Every run with a replacement while a thread is there has a continuation, without another replacement, in which more threads work |
| `PoolBound.WorkingCanExceedConcurrent` | src/include/cbthreadpool.h:239-241 | Such a run exists |
| `PoolBound.ValueAtRest` | src/include/cbthreadpool.h:268-272 | In every pool at rest the semaphore's value is 0 and all `m_concurrentThreads` current threads are idle |
| `PoolBound.ValueAfterReplacement` | src/sdk/cbthreadpool.cpp:52-77 | Right after the threads are replaced both are 0 |
| `PoolTheorems.LastRequestReported` | src/include/cbthreadpool.h:339-343 | `GetConcurrentThreads` returns the last requested count, applied or deferred |
| `PoolTheorems.ReplacedThreadLeaves` | src/sdk/cbthreadpool.cpp:182-244 | In every reachable state an aborted worker that still exists can take a step, each of its steps lowers a measure of at most 8, and none leads back to `Wait` |
| `PoolTheorems.OthersKeep` | src/sdk/cbthreadpool.cpp:52-77 | No step of anyone else changes an aborted worker, so the measure never rises |
| `PoolTheorems.SemaphoresFreedAfterLastUser` | src/include/cbthreadpool.h:95-151 | The reference count of each semaphore is the number of its living workers plus one for the pool's current one; it is zero iff the semaphore is replaced and all its workers are gone |
| `PoolTheorems.FreedStaysFreed` | src/include/cbthreadpool.h:142-150 | No step touches a semaphore whose count is zero |
| `PoolTheorems.RunInv` | src/sdk/cbthreadpool.cpp:52-244 | Every reachable state satisfies the whole invariant |
| `PoolWakeup.WakefulNext` | src/sdk/cbthreadpool.cpp:79-160 | Every step keeps: whoever owes something (tasks, a thread count, ALLDONE) has someone moving |
| `PoolLedger.LedgerNext` | src/sdk/cbthreadpool.cpp:79-263 | Every step keeps the account of tasks and events |
| `PoolDeletion.DeletionNext` | src/include/cbthreadpool.h:219-227 | Every step keeps the account of deleted tasks |
| `ThreadPool.Pool.constructor` | src/include/cbthreadpool.h:324-337 | The new pool is the initial state with the requested number of threads; none or a negative one stands for the number of CPUs |
| `ThreadPool.Pool.SetConcurrentThreads` | src/sdk/cbthreadpool.cpp:32-50 | For every count, zero and negative ones included (then the number of CPUs), the state becomes that of the step, with new threads and semaphore when nobody works |
| `ThreadPool.Pool.SetConcurrentThreadsLocked` | src/sdk/cbthreadpool.cpp:52-77 | Abort, broadcast, clear, new semaphore and new threads, or the count kept for later |
| `ThreadPool.Pool.AddTask` | src/sdk/cbthreadpool.cpp:79-93 | The whole new state, as the step of the model; its tokens are in `PoolTokens.TokensExactly` |
| `ThreadPool.Pool.AbortAllTasks` | src/sdk/cbthreadpool.cpp:95-102 | The whole new state: published tasks told, autodelete tasks deleted, queue empty |
| `ThreadPool.Pool.BatchEnd` | src/sdk/cbthreadpool.cpp:104-110 | The whole new state, as the step of the model; its tokens are in `PoolTokens.TokensExactly` |
| `ThreadPool.Pool.GetNextTask` | src/sdk/cbthreadpool.cpp:112-123 | The first task and the state without it, or nothing |
| `ThreadPool.Pool.WaitingThread` | src/sdk/cbthreadpool.cpp:133-160 | The whole new state and the answer, in all four cases |
| `ThreadPool.Pool.EntryStep` | src/sdk/cbthreadpool.cpp:182-244 | Each step of `Entry` on the objects is the step of the model |
| `BackgroundModel.PopNeverEmpty` | src/include/backgroundthread.h:133-150 | In every run up to the end of the Death loop, the threads at `Pop` never outnumber the queued jobs |
| `BackgroundModel.JobsInOrder` | src/include/backgroundthread.h:45-62 | Jobs are popped in the order pushed, each at most once, and each popped job is being run or has been run |
| `BackgroundModel.RestMeansAllRun` | src/include/backgroundthread.h:188-192 | An open pool with a thread that comes to rest has run every job |
| `BackgroundModel.DestructorStrandsNobody` | src/include/backgroundthread.h:175-181 | After the Death loop the pool rests only when every thread has left `Entry` |
| `BackgroundModel.DyingThreadsStop` | src/include/backgroundthread.h:119-150 | From the start of the Death loop each step of a thread is one of its last four |
| `BackgroundModel.DieAloneIsUnsafe` | src/include/backgroundthread.h:127-130 | Without marking all threads first, a thread can pop an empty queue |
| `BackgroundThreads.BackgroundThreadPool.constructor` | src/include/backgroundthread.h:169-173 | The new pool is the initial state |
| `BackgroundThreads.BackgroundThreadPool.Queue` | src/include/backgroundthread.h:188-192 | Push, then Post |
| `BackgroundThreads.BackgroundThreadPool.Destroy` | src/include/backgroundthread.h:175-181 | The Agony loop marks every thread, then the Death loop lets each die; the state is that reached by these steps of the model |
| `BackgroundThreads.DestroyIsRun` | src/include/backgroundthread.h:175-181 | The state in which `Destroy` leaves an open pool is reached by a run of the model's steps |
| `BackgroundThreads.DestroyStrandsNobody` | src/include/backgroundthread.h:175-181 | From that state, whenever the pool rests every thread has left `Entry` |
| `BackgroundThreads.BackgroundThreadPool.EntryStep` | src/include/backgroundthread.h:133-150 | Each step of `Entry` is the step of the model |
| `Layout.SavePerspective` | src/sdk/cbauibook.cpp:690-779 | The loops print the text of the panes and tabs that are kept, followed by the frame manager's text without the entries of other panes |
| `LayoutContents.KeptExactly` | src/sdk/cbauibook.cpp:717-726 | A page is saved iff its id is a title, a colon and a name without colon, with a title that is not empty and equals the project's if one is given |
| `LayoutContents.KeptPicks` | src/sdk/cbauibook.cpp:710-746 | The tabs of a tab control are its pages with such ids, in order, each as "*" for the notebook's current page or else "+" for the active one, the number, a semicolon and the id |
| `LayoutContents.LayoutSays` | src/sdk/cbauibook.cpp:690-779 | The whole saved text: the panes not named "dummy" with a page to save, in order, as name, "=" and the tabs between commas, with bars between panes, then "@" and the frame manager's entries that stay for these panes |
| `Strings.DecimalStandsFor` | src/sdk/cbauibook.cpp:741 | A page number is printed in decimal digits without leading zeros |
| `Strings.SplitAtLast` | src/sdk/cbauibook.cpp:720 | Before the last separator is what stands before it |
| `FrameText.FilterFrame` | src/sdk/cbauibook.cpp:758-777 | The loop that removes entries in place from the last one down leaves, in order, those that name no pane, "dummy" or a saved pane |
| `FrameText.GetArrayFromString` | src/sdk/globals.cpp:126-156 | The loop yields the parts between bars, trimmed, without the empty ones |
| `FrameText.FilterExact` | src/sdk/cbauibook.cpp:758-777 | For every text of the frame manager, reading the filtered text gives exactly the entries that stay, and filtering it again changes nothing |
| `FrameText.TrimExactly` | src/sdk/globals.cpp:126-156 | Trimming takes exactly the white space at both ends away |
| `FrameText.EntriesExactly` | src/sdk/globals.cpp:126-156 | The entries of any text, part by part |
| `FrameText.StaysExactly` | src/sdk/cbauibook.cpp:762-772 | Of the entries that begin with "name=" those of "dummy" and of the saved panes stay, and all others stay |
| `Layout.LoadPerspective` | src/sdk/cbauibook.cpp:811-961 | Both parsing loops end on every string and yield its panes, tabs, marks and frame part |
| `LayoutContents.TabsRead` | src/sdk/cbauibook.cpp:898-914 | Any list of tabs is read piece by piece up to the first piece with nothing before its semicolon; "*" and "+" at the front are marks |
| `LayoutContents.PanesRead` | src/sdk/cbauibook.cpp:879-899 | Any layout is read part by part up to the first empty part, each as name and tabs around its first equals sign |
| `LayoutContents.LayoutRead` | src/sdk/cbauibook.cpp:811 | The panes are read from before the first at-sign, the frame part from behind it |
| `Layout.LayoutRoundTrip` | src/sdk/cbauibook.cpp:709-756 | Reading a saved layout gives back panes, tab order, ids, page numbers, marks and frame part iff no id has a comma, bar or at-sign and no pane name an equals sign, bar or at-sign |
| `Layout.SavedIsLoadable` | src/sdk/cbauibook.cpp:811-822 | A saved layout is never the empty string that loading refuses |
| `Layout.ReadingIsStable` | src/sdk/cbauibook.cpp:872-961 | For every string, printing what was read and reading again gives the same |
| `Base64.Encode` | src/sdk/base64.cpp:48-89 | The index loop computes the grouped encoding |
| `Base64.Decode` | src/sdk/base64.cpp:91-155 | The index loop computes the decoding, or reports invalid input, on every string |
| `Base64.DecodeEncode` | src/sdk/base64.cpp:48-155 | Decoding an encoding gives the bytes back, for every byte sequence |
| `Base64.EncodedLength` | src/sdk/base64.cpp:48-89 | The encoding of n bytes has 4 * ceil(n / 3) characters |
| `Base64.EncodedIsRfc4648` | src/sdk/base64.cpp:48-89 | The symbols are the bits of the data, six at a time, padded, as in section 4 of RFC 4648 |
| `Base64.EncodedLetters` | src/sdk/base64.cpp:29-89 | The string itself is these bits in the alphabet of RFC 4648, table 1: A to Z, a to z, 0 to 9, "+", "/", and "=" for the fills |
| `Base64.ReadAsLetters` | src/sdk/base64.cpp:29-43 | Characters are read by the same table, and no other character is accepted |
| `Base64Bits.DecodedExactly` | src/sdk/base64.cpp:91-155 | Decoding on every string: it stops at the first "=" in the third or fourth place of a group of four; it is accepted iff all before that are letters and the last group has not just one; the bytes are the first bits of the letters |
| `Base64.EncodeDecode` | src/sdk/base64.cpp:91-155 | Encoding a decoding gives the string back iff the string is canonical |
| `BlockStore.SlotsPartitioned` | src/include/blockallocated.h:44-63 | In every run free and live slots are disjoint, without duplicates, and make up all slots of all blocks; the next slot handed out is not live |
| `BlockStore.BlocksAreCeiling` | src/include/blockallocated.h:86-109 | The number of blocks is the peak of live slots divided by the block size, rounded up, in every run; with debug counters `max_refs` is that peak, `ref_count` the live slots, `total_refs` the calls |
| `BlockStore.LastFreedFirstReused` | src/include/blockallocated.h:86-109 | `New` after `Delete` returns that slot and restores the free list |
| `BlockAllocator.Allocator.AllocBlockPushBack` | src/include/blockallocated.h:44-56 | The new block's slots are linked in order and become the free list; older slots stay |
| `BlockAllocator.Allocator.New` | src/include/blockallocated.h:86-101 | The linked list is popped as in the model; the slot was not live |
| `BlockAllocator.Allocator.Delete` | src/include/blockallocated.h:103-109 | The slot is pushed in front, as in the model |
| `BlockAllocator.Allocator.Write` | src/include/blockallocated.h:34-38 | Writing over the bytes of a live slot leaves the free list intact |
| `Lines.JoinLines` | src/sdk/wxscintilla/src/scintilla/src/CellBuffer.cxx:887-903 | The lines of a text, joined, are the text |
| `Lines.LinesJoin` | src/sdk/wxscintilla/src/scintilla/src/CellBuffer.cxx:887-903 | Every well-formed list of lines is what its text is read back as |
| `LinePositions.LineStart` | src/sdk/wxscintilla/src/scintilla/src/CellBuffer.cxx:887-903 | Each line but the first begins right behind a CR, LF or CRLF, and the line of that position is that line |
| `LinePositions.LineBehind` | src/sdk/wxscintilla/src/scintilla/src/CellBuffer.cxx:861-922 | Inserting text at p adds the same number of lines to the line of every position from p on, also when a CRLF is split or completed |
| `SaveTheorems.StripExactly` | src/sdk/cbeditor.cpp:143-169 | What the strip loop leaves of the lines of any text, including where lines fuse, the loop passes over the next line, and the left-over rounds trim the end |
| `SaveTheorems.StripKeepsLines` | src/sdk/cbeditor.cpp:143-169 | Stripping keeps the number of lines iff no line of blanks ended by LF follows a line ended by CR (always in diff mode); then it trims each line and changes nothing else |
| `SaveTheorems.OneStyleIsSafe` | src/sdk/cbeditor.cpp:143-169 | That condition holds for every text with one style of line ends, and in diff mode |
| `SaveTheorems.SaveLines` | src/sdk/cbeditor.cpp:1766-1775 | What the whole save leaves of every line, for every text and every choice of options |
| `SaveTheorems.SaveIdempotent` | src/sdk/cbeditor.cpp:1766-1775 | A second save leaves the text unchanged iff the strip step, if chosen, passes over no blanks: no line after two fused lines ends in blanks, unless it is the last and lines fuse more than once |
| `SaveTheorems.OneStyleSavesOnce` | src/sdk/cbeditor.cpp:1766-1775 | So a second save changes nothing with one style of line ends, in diff mode, or without stripping |
| `SaveTheorems.SaveTwiceCanDiffer` | src/sdk/cbeditor.cpp:149-150 | A text with fusing lines where the second save still changes something |
| `EditorText.Editor.StripTrailingSpaces` | src/sdk/cbeditor.cpp:143-169 | The loop over positions strips the text in place, with the line count read once |
| `EditorText.Editor.EnsureFinalLineEnd` | src/sdk/cbeditor.cpp:172-180 | A line end is added iff there is one line or the last line is not empty |
| `SaveText.FinalExactly` | src/sdk/cbeditor.cpp:172-180 | A text gets a final line end of the chosen style iff it does not end in CR or LF |
| `SaveText.TrimmedExactly` | src/sdk/cbeditor.cpp:149-166 | A trimmed line loses exactly its spaces and tabs at the end; in diff mode its first character stays |
| `EditorText.Editor.NormaliseForSave` | src/sdk/cbeditor.cpp:1766-1775 | The three steps in order, each only if chosen |
| `LineEnds.CountLineEnds` | src/sdk/cbeditor.cpp:598-629 | The counters are the CR, LF and CRLF line ends of the part that is scanned |
| `LineEnds.DetectLineEnds` | src/sdk/cbeditor.cpp:633-685 | The style with strictly more line ends in the scanned part than each other one, else the initial mode; a warning iff two styles occur |
| `LineEnds.LineEndsConserved` | src/sdk/cbeditor.cpp:598-629 | CR + LF + 2 * CRLF is the number of line end characters |
| `LineEnds.DetectConverted` | src/sdk/cbeditor.cpp:633-685 | After conversion to a mode that mode is detected iff it is the initial mode or a line end lies in the scanned part |
| `LineEnds.DetectConvertedShort` | src/sdk/cbeditor.cpp:606-629 | Up to 1000001 characters any line end is enough |
| `IndentStyle.DetectIndentStyle` | src/sdk/cbeditor.cpp:400-478 | The counting loops, the election by maximum and the switch give the style of the sample |
| `IndentStyle.StyleExactly` | src/sdk/cbeditor.cpp:426-478 | Which style every document gets: for tabs and for each width from 2 to 8 an iff over the nine counters, with the percentages written out |
| `IndentStyle.TallyExactly` | src/sdk/cbeditor.cpp:407-424 | Each counter is the number of sample lines with a tab in the indent, with an indent of spaces only, or with such an indent whose length the width divides |
| `IndentStyle.SampleExactly` | src/sdk/cbeditor.cpp:406-408 | The sample is all of up to 1000 lines, else the 1000 in the middle |
| `IndentStyle.ChooseWidth` | src/sdk/cbeditor.cpp:442-477 | The switch with its falling through gives the width for the elected one |
| `IndentStyle.WhoLeads` | src/sdk/cbeditor.cpp:436-441 | When each of 2, 3, 5, 7 and 8 is elected |
| `IndentStyle.ElectWidth` | src/sdk/cbeditor.cpp:436-441 | The loop elects the width with the most votes, 8 before equals, then the smallest |
| `IndentStyle.ElectedWidths` | src/sdk/cbeditor.cpp:436-441 | Only 2, 3, 5, 7 and 8 are ever elected |
| `IndentStyle.WidthIsSupported` | src/sdk/cbeditor.cpp:426-478 | A returned width has at least ten indented lines, three quarters of them with spaces only, and divides at least its share of those: 65% for 2 and 3, 50% for 4, 70% for 5 and 7, 55% for 6, 60% for 8 |
| `IndentStyle.UnsureExactly` | src/sdk/cbeditor.cpp:443-477 | With enough space indents no width is returned iff the elected one has under 65% (70% for 5 and 7), or 6 or 8 lies between 50% and 60% and keeps the smaller width from winning |
| `IndentStyle.TabsExactly` | src/sdk/cbeditor.cpp:426-434 | Tabs are returned iff the sample has tabs and no space-only indents, or over three quarters tabs of at least ten |
| `IndentStyle.UniformIsDetected` | src/sdk/cbeditor.cpp:446-478 | At least ten lines all indented by w spaces, w from 2 to 8, give w |
| `BlockSearch.FindBlockStart` | src/sdk/cbplugin.cpp:1247-1265 | The result is the nearest opener back to the last NUL behind which the text never has more closers than openers, or -1 iff there is none |
| `BlockSearch.SameDelimiter` | src/sdk/cbplugin.cpp:1253-1260 | With equal delimiters there is never a result |
| `BlockSearch.FindBlockStartWord` | src/sdk/cbplugin.cpp:1267-1294 | The same for words, over the words passed on the way back; an empty opening word is found at the position itself |
| `BlockSearch.PassedTile` | src/sdk/cbplugin.cpp:1277-1290 | The words passed are occurrences, do not overlap, and none that fits is skipped; the opener is passed where both start |
| `Breakpoints.DebuggerPlugin.EditorLinesAddedOrRemoved` | src/sdk/cbplugin.cpp:406-457 | The index vectors and loops over shared breakpoint objects compute exactly the shift and filter map on the list |
| `Breakpoints.OtherFilesUntouched` | src/sdk/cbplugin.cpp:415-426 | Breakpoints of other files stay, in order |
| `Breakpoints.NeverMerged` | src/sdk/cbplugin.cpp:428-455 | Breakpoints on distinct lines stay on distinct lines |
| `Breakpoints.AddThenRemove` | src/sdk/cbplugin.cpp:428-455 | Of the shifts alone: adding k lines after s and removing k lines from s + 1 restores the list |
| `Breakpoints.RemoveThenAdd` | src/sdk/cbplugin.cpp:428-455 | Of the shifts alone: the other way round exactly the breakpoints on the removed lines are lost |
| `Breakpoints.LineFollowsText` | src/sdk/cbplugin.cpp:447-455 | Of the shift alone: lines added at the end of line s leave each breakpoint on its line |
| `Breakpoints.LineFollowsRemoval` | src/sdk/cbplugin.cpp:428-446 | Of the shift alone: when whole lines from s on are removed a breakpoint goes iff it was on one of them, and otherwise stays on its line |
| `BreakpointEdits.LineFollowsInsertion` | src/sdk/cbeditor.cpp:3307-3335 | For every text, place, inserted text and line, as the event reports it: the breakpoint goes where the text of its line goes, except iff lines are added at the very start of that line (and the text does not complete a CRLF there) or inside the CRLF before it; then it stays where it was |
| `BreakpointEdits.BreakpointsFollowInsertion` | src/sdk/cbeditor.cpp:3307-3335 | For every list: all breakpoints follow their text iff none of them is on such a line |
| `BreakpointEdits.LineFollowsDeletion` | src/sdk/cbeditor.cpp:3307-3335 | For every text, deleted part and line: the breakpoint goes iff its line is wholly deleted, or keeps its start but not its end while the number of lines changes; otherwise it follows what is left of its line |
| `BreakpointEdits.BreakpointsFollowDeletion` | src/sdk/cbeditor.cpp:3307-3335 | For every list: the breakpoints of lines not wholly deleted all follow iff none of these lines is cut short like that |
| `BreakpointEdits.UndoneInsertion` | src/sdk/cbeditor.cpp:3311-3334 | For every list: an insertion that adds lines and its undo give the list back iff no breakpoint is on the lines from that of the place before to that of the place after the insertion |
| `BreakpointEdits.PlaceShift` | src/sdk/cbeditor.cpp:3323 | These are one line, two when the insertion splits a CRLF, none when it completes one |
| `BreakpointEdits.LostByUndo` | src/sdk/cbeditor.cpp:3311-3334 | Unless a CRLF was split, exactly the breakpoints on these lines are lost |
| `BreakpointEdits.UndoneDeletion` | src/sdk/cbeditor.cpp:3311-3334 | For every list: a deletion of lines and its undo give the list back iff no breakpoint is on the lines from that of the place to that of the end of the deleted text |
| `Markers.Editor.ClearMarker` | src/sdk/cbeditor.cpp:2292-2302 | Each clearing loop ends, from any markers, with none of that kind left and the other kinds untouched |
| `Markers.Editor.MarkerToggle` | src/sdk/cbeditor.cpp:2496-2504 | One handle less if there is one, else one more, on the effective line only |
| `Markers.Editor.RefreshBreakpointMarkers` | src/sdk/cbeditor.cpp:2288-2333 | Afterwards a line has one handle of a breakpoint kind iff an odd number of breakpoints want it there, else none; other kinds as before |
| `Markers.MarkersShowBreakpoints` | src/sdk/cbeditor.cpp:2304-2332 | For all debuggers and lines: a marker is there iff an odd number of breakpoints want it there (1 for inactive debuggers, 3 for enabled ones of the active debugger, 2 for its disabled ones); so the line shows its breakpoints iff their number is not positive and even |
| `Markers.OtherMarkersStay` | src/sdk/cbeditor.cpp:2288-2302 | Bookmarks and all other markers stay |
| `Markers.SharedLineShowsNothing` | src/sdk/cbeditor.cpp:2323-2332 | Two inactive debuggers with a breakpoint on the same line show no marker, whatever the active one has |
| `Markers.SharedByOneDebugger` | src/sdk/cbeditor.cpp:2308-2322 | Nor do two enabled breakpoints of the active debugger |
| `TreeView.GetPrevVisible` | src/sdk/cbtreectrl.cpp:53-70 | For every tree, expansion state and visible item but the root, the item listed immediately before it from top to bottom; nothing for the root |
| `TreeView.AboveIsJustAbove` | src/sdk/cbtreectrl.cpp:53-70 | The item the loop walks to is listed immediately before the given one |
| `TreeView.IsListed` | src/sdk/cbtreectrl.cpp:53-70 | Every visible item is in the listing |
| `TreeView.ListedIsVisible` | src/sdk/cbtreectrl.cpp:53-70 | Only visible items are in the listing |
| `TreeView.ListingInOrder` | src/sdk/cbtreectrl.cpp:53-70 | The listing is from top to bottom: each item before those of its branches, and these branch by branch |

## Left out

- ThreadPool.Pool.SetConcurrentThreads: the number of CPUs is a parameter of at least 1. When the system cannot tell it, the source goes on with -1 (src/sdk/cbthreadpool.cpp:35-40); that is not modelled. The first test, made outside the lock in the source, is part of the same step here.
- PoolTokens.TokensExactly: thread counts are C++ ints, so more than 0x7fffffff working threads are excluded.
- ThreadPool.Pool.EntryStep: each access to the abort flag, a reference count or a semaphore is one step; data races on them inside a step are not modelled.
- Destruction of a `cbThreadPool` while its threads run, and the `Delete(queue)` at the end of `~BackgroundThreadPool`: the source gives them no protocol.
- BackgroundThreads.BackgroundThreadPool.Queue: jobs are never null, so the test for a null job in `Entry` is not modelled; nor are `BackgroundThread` objects that own their queue or semaphore.
- Layout.SavePerspective: the frame manager's own text is a parameter, and a page's id comes with the page.
- Layout.LoadPerspective: yields what is parsed; moving windows between tab controls and renaming panes on the way are not modelled.
- Base64.Decode: input that fails an assertion of the source is reported as invalid; what a release build makes of it is not modelled. Conversion between wide strings and bytes is left out.
- BlockAllocator.Allocator.Delete: takes live slots only, as C++ `delete` does; the destructor's log is left out.
- EditorText.Editor.NormaliseForSave: the control's `ConvertEOLs` is a function on lines; undo, caret columns and writing the file are left out.
- Lines.JoinLines: characters are the control's bytes, and Unicode line separators end no line, as in the control's default (src/sdk/wxscintilla/src/scintilla/src/CellBuffer.cxx:584), which the editor does not change.
- IndentStyle.DetectIndentStyle: thresholds are exact percentages instead of floating point.
- BlockSearch.FindBlockStartWord: an empty closing word with an opening one makes the source loop for ever and is excluded. Where a word occurs (whole words, letter case) is given as a set of positions.
- Breakpoints.DebuggerPlugin.EditorLinesAddedOrRemoved: the list holds distinct objects. Of the debugger's own `ShiftBreakpoint` and `DeleteBreakpoint` it is assumed that they change the line of, or remove, the named breakpoint only.
- BreakpointEdits.LineFollowsInsertion: the loop over the debuggers (src/sdk/cbeditor.cpp:3325-3334) is one call for each; redrawing is in `Markers`. The debugger's list is given; which line the text control reports is proved from the text.
- TreeView.GetPrevVisible: a hidden root counts as an item.
- Dialogs, painting, menus, configuration and the other managers of the SDK.
