# CS537 projects in Dafny

This project models the sequential core of five operating-systems course projects and proves what their code promises.

- **WFS, a log-structured file system.**
  - The superblock, inode and I-Table bookkeeping of `wfs.h`: inode numbering, `build_itable`'s replay of the log, `lookup_itable`, and the head and `-ENOSPC` rule of `write_to_disk`.
  - Directory entries: `find_file_in_dir`, `add_dentry` and `remove_dentry`.
  - Paths: `simplify_path`, and `parse_path` with `.` and `..`.
  - The FUSE handlers of `mount.wfs.c`: `getattr`, `mknod`/`mkdir` (through `make_inode`), `read`, `write`, `readdir`, `unlink` and `chmod`.
  - The in-place heap sort of `fsck.wfs.c`.
  - The disk is an abstract log (modules `WfsLog`, `WfsPaths`, `WfsPrebuilt` and `WfsMount`, and `FsckHeapSort`).
- **The proxy's job queue.** `safequeue.c` is a bounded binary max-heap over an array: `pq_init`, `pq_enqueue` and `pq_dequeue` with their percolate loops. Module `SafeQueue`.
- **The proxy.**
  - `http_request_parse` over the bytes of one read, including the `Delay:` header.
  - The reason-phrase table.
  - `parse_priority`, `default_settings` and the option loop of `main`.
  - The `/GetJob`-or-enqueue routing of `serve_forever`.
  - Modules `ProxyHttp` and `ProxyServer`.
- **wsh, a shell front end.** Command tokenising, the `&` and `|` handling of `parse_command`, built-in recognition and the effects of built-ins, and the 128-slot job table. Module `Wsh`.
- **wgroff and wman (P1).** The control-sequence rewriting and the padding of `wgroff`, title and section-header parsing, line classification, and `wman`'s section validation and first-match search. Modules `Wgroff` and `Wman`.
- **xv6 `mmap`.**
  - `argfd`, `fdalloc`, `isdirempty` and the descriptor half of `sys_pipe`.
  - `sys_mmap`: checks, first-fit search and the `MAP_FIXED` overlap test.
  - `sys_munmap`.
  - `alloc_mem` and `mmap_alloc`.
  - The page-fault decisions of `trap`: lazy allocation and `MAP_GROWSUP` guard-page growth.
  - The timer tick.
  - Module `Xv6Mmap`.

The C library pieces several projects share live in `CStrings`:

- `isspace` and `toupper` in the "C" locale;
- a C string's extent in its buffer;
- `atoi`;
- `%d` rendering;
- `strtok_r`'s tokens.

`Wrappers` holds `Option`.

Each piece takes the form its source has:

- In-place code is a method over an `array`, or a `class` whose fields the method changes. Examples: the heap sort, the queue, the job table, the mmap table, the I-Table and the mounted file system.
- Each such method is proved against a specification function.
- The properties the code and its tests promise are lemmas about those functions: round trips, first-match and ordering, preserved invariants, and "nothing else changes".

## Model

| member | source | states |
|---|---|---|
| CStrings.ToUpper | P1/wgroff.c:251-257 | toupper never yields a lower-case letter; it changes a character exactly when it is a lower-case letter, and then gives the capital of the same letter |
| CStrings.CStr | P6/starter-code/proxyserver.h:110-111 | the C string of a buffer is its prefix before the first NUL, holds no NUL, and is followed by the NUL when shorter than the buffer |
| CStrings.AtoiDecimal | P6/starter-code/proxyserver.c:330-345 | atoi reads back the `%d` rendering of any non-negative number, whatever non-digit text follows it |
| CStrings.AtoiDigits | P6/starter-code/proxyserver.h:173-178 | atoi of a digit string followed by a non-digit is the value of the digits |
| CStrings.AtoiSingleChar | P1/wman.c:221-235 | a one-character argument has atoi value in 1..9 exactly when it is one of '1'..'9', and then that value is the digit's |
| CStrings.AtoiOfLetters | P6/starter-code/proxyserver.c:139-146 | atoi of a run of capital letters is 0 |
| CStrings.DecimalString | P1/wgroff.c:307 | the `%d` rendering of a number is a non-empty run of digits |
| CStrings.DecimalStringValue | P1/wgroff.c:307 | the value of the `%d` rendering of n is n |
| CStrings.TokensAreTokens | P3/wsh.c:44-60 | every token strtok_r yields is non-empty and free of the delimiter |
| CStrings.TokensSplit | P3/wsh.c:298-310 | a delimiter separates: the tokens of a + d + b are those of a followed by those of b |
| CStrings.TokensOfJoin | P3/wsh.c:44-60 | tokenising a delimiter-join of tokens gives back the tokens |
| CStrings.SplitTokens | P3/wsh.c:44-66 | the strtok_r loop collects exactly the tokens of the string, in order |
| FsckHeapSort.Swap | P7/fsck.wfs.c:8-12 | the two slots are exchanged, every other slot kept, the multiset unchanged |
| FsckHeapSort.RootIsMax | P7/fsck.wfs.c:14-35 | the root of a max-heap is at least every element of the heap |
| FsckHeapSort.Heapify | P7/fsck.wfs.c:14-35 | given heaps below `start`, the subtree at `start` becomes a heap; only slots in [start, len) change, as a permutation |
| FsckHeapSort.SiftStep | P7/fsck.wfs.c:20-33 | swapping with the strictly larger child moves the heap's break down to that child |
| FsckHeapSort.SiftDone | P7/fsck.wfs.c:20-33 | when no child is larger the subtree is a heap |
| FsckHeapSort.BuildMaxHeap | P7/fsck.wfs.c:39-40 | after the first loop `arr[..n]` is a max-heap, a permutation of the input, the rest untouched |
| FsckHeapSort.HeapSort | P7/fsck.wfs.c:37-47 | `arr[..n]` ends sorted non-decreasingly, as a permutation of its old contents; slots past n and arrays of length 0 or 1 are unchanged |
| FsckHeapSort.ExtractMax | P7/fsck.wfs.c:41-46 | one extraction round: the sorted suffix grows by the heap's maximum and the rest stays a heap no larger than it |
| FsckHeapSort.ExtractStep | P7/fsck.wfs.c:41-46 | the maximum joins the front of the sorted suffix and bounds everything still in the heap |
| FsckHeapSort.SwapKeepsHeapExcept | P7/fsck.wfs.c:42-43 | moving the root to the end leaves a heap broken only at the new root |
| FsckHeapSort.ShortSortIsIdentity | P7/fsck.wfs.c:37-47 | a permutation of fewer than two elements is the identity |
| SafeQueue.ParentIdx | P6/starter-code/safequeue.c:84-86 | parent_idx(0) is 0; any other node's parent is smaller and has it as its left or right child |
| SafeQueue.ChildrenHaveParent | P6/starter-code/safequeue.c:84-104 | lchld(i) and rchld(i) both have parent i |
| SafeQueue.RootHasMaxPriority | P6/starter-code/safequeue.c:130-136 | in a max-heap the root's priority is at least every element's |
| SafeQueue.RootIsMaxOf | P6/starter-code/safequeue.c:162-163 | the root of a non-empty heap is an element of greatest priority |
| SafeQueue.DequeueOrderNonIncreasing | P6/starter-code/pq_tester.c:120-127 | two dequeues in a row yield non-increasing priorities |
| SafeQueue.RemoveRootContents | P6/starter-code/safequeue.c:162-166 | moving the last element to the root removes exactly the root from the contents |
| SafeQueue.RemoveRootHeap | P6/starter-code/safequeue.c:162-166 | after that move the heap is broken at most at the root |
| SafeQueue.SiftUpStep | P6/starter-code/safequeue.c:130-136 | swapping a child above its parent moves the break one level up |
| SafeQueue.SiftDownStep | P6/starter-code/safequeue.c:172-189 | swapping a node with its qualifying child moves the break one level down |
| SafeQueue.PriorityQueue.constructor | P6/starter-code/safequeue.c:12-36 | a new queue is empty with the given capacity |
| SafeQueue.PriorityQueue.Enqueue | P6/starter-code/safequeue.c:114-144 | a full queue (is_full) answers -1 and is unchanged; otherwise 0, size + 1, the contents gain exactly the element, and the heap holds |
| SafeQueue.PriorityQueue.PercolateUp | P6/starter-code/safequeue.c:128-136 | the percolate-up loop restores the heap and keeps the contents |
| SafeQueue.PriorityQueue.Dequeue | P6/starter-code/safequeue.c:152-195 | an empty queue (is_empty) yields NULL and is unchanged; otherwise the value of an element of greatest priority, size - 1, the contents lose exactly that element, and the heap holds |
| SafeQueue.PriorityQueue.PercolateDown | P6/starter-code/safequeue.c:168-191 | the percolate-down loop restores the heap and keeps the contents |
| SafeQueue.PriorityQueue.SwapSlots | P6/starter-code/safequeue.c:131 | _PQ_SWAP_ exchanges the two slots and nothing else |
| SafeQueue.Init | P6/starter-code/safequeue.c:12-36 | pq_init(0) is NULL; any other capacity gives an empty queue of that capacity |
| SafeQueue.LadderMax | P6/starter-code/pq_tester.c:114-127 | among priorities 0..j-1 the greatest is only j-1 |
| SafeQueue.FillLadder | P6/starter-code/pq_tester.c:114-118 | enqueuing priorities 0..n-1 into a queue of capacity n answers 0 each time and fills it |
| SafeQueue.DrainLadder | P6/starter-code/pq_tester.c:121-127 | dequeuing that queue returns n-1, n-2, ..., 0 |
| SafeQueue.EnqueueOntoLadder | P6/starter-code/pq_tester.c:114-118 | one tester enqueue of priority i answers 0 and adds exactly that element |
| SafeQueue.DequeueFromLadder | P6/starter-code/pq_tester.c:121-127 | one tester dequeue returns the highest remaining priority and removes exactly it |
| SafeQueue.OrderScenario | P6/starter-code/pq_tester.c:96-133 | the tester's order test: n enqueues each answer 0, and the values come back from the highest priority down |
| ProxyHttp.Run | P6/starter-code/proxyserver.h:119-122 | a scanning loop stops at a character it does not keep, inside the buffer or at its NUL |
| ProxyHttp.RunExact | P6/starter-code/proxyserver.h:137-149 | a run is exactly the stretch of kept characters before the first one not kept |
| ProxyHttp.FindFromFirst | P6/starter-code/proxyserver.h:158 | strstr finds the first occurrence of the header, and none only when there is none |
| ProxyHttp.DelayIsAtoi | P6/starter-code/proxyserver.h:158-181 | the delay is atoi of the digits after the header, 0 without digits or header, and never negative |
| ProxyHttp.SkipWhile | P6/starter-code/proxyserver.h:119-149 | the scanning loop advances exactly over the run of kept characters |
| ProxyHttp.ParseRequest | P6/starter-code/proxyserver.h:101-195 | http_request_parse yields the request line's method and path with the buffer's delay, or NULL |
| ProxyHttp.ReadRequestLine | P6/starter-code/proxyserver.h:116-151 | the request-line loops yield the line the grammar defines, or fail |
| ProxyHttp.ReadDelay | P6/starter-code/proxyserver.h:153-181 | the delay block yields the delay the C string asks for |
| ProxyHttp.SkipDigits | P6/starter-code/proxyserver.h:163-164 | the digit loop advances exactly over the digit run |
| ProxyHttp.ParseSound | P6/starter-code/proxyserver.h:116-151 | a parsed method is a non-empty run of capitals and a parsed path a non-empty run free of NUL, space and newline, read from the front of the buffer with one space between |
| ProxyHttp.ParseRoundTrip | P6/starter-code/proxyserver.h:116-151 | any line of method, space, path, rest of line and newline is read back field for field |
| ProxyHttp.DelayRoundTrip | P6/starter-code/proxyserver.h:158-181 | a buffer whose first delay header is followed by the digits of d asks for delay d |
| ProxyHttp.NoHeaderNoDelay | P6/starter-code/proxyserver.h:104-106 | without the header the delay stays 0 |
| ProxyHttp.ProxyStatusPhrases | P6/starter-code/proxyserver.h:222-247 | 200 and 400 have their own phrases; the proxy's 502, 500, 599 and 598 go out as "Internal Server Error" |
| ProxyHttp.ReasonPhraseDefault | P6/starter-code/proxyserver.h:222-247 | a code gets "Internal Server Error" exactly when it is not one of the ten codes with a phrase of their own |
| ProxyHttp.StatusLineCode | P6/starter-code/proxyserver.h:62-65 | the status line carries the code in decimal right after "HTTP/1.0 " |
| ProxyServer.ToUint | P6/starter-code/proxyserver.c:145 | the (uint) cast is the value modulo 2^32 and keeps values already in range |
| ProxyServer.ParsePriority | P6/starter-code/proxyserver.c:136-149 | the path is the same after the call as before it, and the priority is 0 |
| ProxyServer.Defaults | P6/starter-code/proxyserver.c:279-290 | the default number of listeners matches the default ports |
| ProxyServer.PortsAt | P6/starter-code/proxyserver.c:333-335 | "-l" reads exactly `count` ports, each by atoi, in order |
| ProxyServer.ServerConfig.constructor | P6/starter-code/proxyserver.c:32-41 | the globals start at zero and empty |
| ProxyServer.ServerConfig.DefaultSettings | P6/starter-code/proxyserver.c:279-290 | one listener on 8000, one worker, file server 127.0.0.1:3333, queue size 100 |
| ProxyServer.ServerConfig.ParseOptions | P6/starter-code/proxyserver.c:327-350 | the option loop leaves the settings and ending its specification defines |
| ProxyServer.ReadPorts | P6/starter-code/proxyserver.c:333-335 | the port loop reads the ports the specification names |
| ProxyServer.ListenerOption | P6/starter-code/proxyserver.c:328-337 | "-l n p1 ... pn" sets n listeners and the ports in order, and nothing else |
| ProxyServer.PortsOfDecimals | P6/starter-code/proxyserver.c:333-335 | ports written in decimal are read back |
| ProxyServer.SingleValueOptions | P6/starter-code/proxyserver.c:338-345 | -w, -q and -p each set exactly one number and -i the file server address |
| ProxyServer.UnrecognizedStops | P6/starter-code/proxyserver.c:346-349 | an unknown option stops the loop with usage and no further change |
| ProxyServer.ErrorResponse | P6/starter-code/proxyserver.c:45-56 | the reply ends with the message and a newline |
| ProxyServer.ErrorResponseCode | P6/starter-code/proxyserver.c:45-56 | the reply starts with the status line of its code, which atoi reads back after the version |
| ProxyServer.ToCString | P6/starter-code/proxyserver.h:141-143 | a NUL-terminated copy whose C string is the original |
| ProxyServer.ServeParsed | P6/starter-code/proxyserver.c:235-274 | "/GetJob" is never queued: it dequeues a highest-priority job and answers with its path, or 598 on an empty queue; any other request is offered with priority 0 and a full queue answers 599 |
| Wsh.CommandInit | P3/wsh.c:24-69 | NULL for NULL or empty input; otherwise argv is the space-separated tokens in order and argv[argc] is NULL |
| Wsh.Body | P3/wsh.c:288-291 | the trailing '&' is removed and nothing else |
| Wsh.Commands | P3/wsh.c:296-321 | with a pipe, one command per non-empty '|' segment in order; without one, the whole body, or failure when it is empty |
| Wsh.FirstMatch | P3/wsh.c:447-472 | the first built-in in test order whose name matches, and none only when none does |
| Wsh.CheckBuiltinAsWritten | P3/wsh.c:447-472 | only a single process can match; a match's name is a prefix of argv[0] |
| Wsh.CheckBuiltin | P3/wsh.c:98-118 | a built-in is recognised exactly when job_init keeps the job out of the table: one process whose argv[0] equals the name |
| Wsh.FgrepTakenForFg | P3/wsh.c:447-472 | as written, "fgrep x" is taken for the `fg` built-in although job_init does not treat it as one |
| Wsh.FgrepIsAProgram | P3/wsh.c:98-118 | with the exact comparison, "fgrep x" is a program |
| Wsh.BuiltinEffect | P3/wsh.c:474-511 | cd changes directory exactly when argc is 2, exit exits with 0 exactly when argc is 1, otherwise they only print; jobs prints the table's listing |
| Wsh.FindSlot | P3/wsh.c:107-112 | a found slot holds the job and lies in range |
| Wsh.FindSlotFirst | P3/wsh.c:107-112 | the slot found is the first, and none means there is none |
| Wsh.StoredPlacement | P3/wsh.c:98-118 | job_init puts a new job in exactly the lowest free slot from 1, or nowhere when all are taken, and changes nothing else |
| Wsh.RemovedClears | P3/wsh.c:166-175 | job_destroy clears the job's slot and only it, and the table keeps its shape |
| Wsh.StoreThenRemove | P3/wsh.c:98-118 | destroying a job just created restores the table |
| Wsh.Occupied | P3/wsh.c:504-509 | the slots the jobs loop prints all lie in the table and hold a job |
| Wsh.OccupiedInOrder | P3/wsh.c:502-511 | the occupied slots are taken each once, in increasing order |
| Wsh.ListingIsLines | P3/wsh.c:502-511 | the listing is one "%i: %s" line per occupied slot, in slot order |
| Wsh.StoredNoDuplicates | P3/wsh.c:107-112 | storing a new job keeps every job in at most one slot |
| Wsh.Job.constructor | P3/wsh.c:83-97 | a job starts in the FOREGROUND state with its command, processes and background flag |
| Wsh.JobTable.constructor | P3/wsh.c:18-22 | the job table starts empty |
| Wsh.JobTable.JobInit | P3/wsh.c:83-121 | the new job is FOREGROUND and the table becomes the stored table |
| Wsh.JobTable.JobDestroy | P3/wsh.c:152-178 | the job's slot is cleared and foreground_job is reset if it was that job; NULL changes nothing |
| Wsh.JobTable.ListJobs | P3/wsh.c:502-511 | builtins_jobs prints the listing of slots 1 to 127 |
| Wsh.ParsedProcesses | P3/wsh.c:71-81 | every process parse_command builds through process_init is SCHEDULED, with its command's argv NULL-terminated and made of non-empty words free of spaces |
| Wsh.JobTable.PipedProcesses | P3/wsh.c:296-311 | the pipe branch yields one scheduled process per segment |
| Wsh.JobTable.ParseCommand | P3/wsh.c:277-330 | an empty line is NULL; an empty body fails; otherwise a job of the line, background when it ends in '&', with one process per command, stored as job_init stores it |
| Wsh.JobTable.RunBuiltin | P3/wsh.c:525-529 | a built-in runs with the table's listing and leaves the table unchanged |
| Wsh.JobTable.RunCommand | P3/wsh.c:518-542 | empty lines are ignored and a line with no command exits; a line whose parsed processes form a built-in runs exactly that built-in's effect and leaves the table unchanged; one or more processes that are no built-in are dispatched as the line's job (its command, processes and background flag) and stay in the table; zero processes (a body of only '|' characters) exit with "SOMETHING WENT WRONG"; built-ins are recognised with the corrected exact test `CheckBuiltin` (see Findings, wsh.c:447-472) |
| Wgroff.Next | P1/wgroff.c:146-181 | the piece at the front is a prefix of the line, a plain piece its first character |
| Wgroff.PiecesCover | P1/wgroff.c:146-181 | the left-to-right scan splits the line exactly |
| Wgroff.EmitLength | P1/wgroff.c:146-181 | each style sequence grows by 4 characters and each "//" shrinks by 1 |
| Wgroff.RenderLength | P1/wgroff.c:146-186 | rendered length = line length + 4 per style sequence - 1 per "//" |
| Wgroff.RenderPlain | P1/wgroff.c:146-181 | a line without '/' is copied unchanged |
| Wgroff.WriteLine | P1/wgroff.c:140-187 | write_line writes the indent, the rendered line and a newline |
| Wgroff.Padding | P1/wgroff.c:202-207 | the padding loop fills exactly n spaces |
| Wgroff.HeadingWidth | P1/wgroff.c:196-213 | "cmd(s)" is three characters longer than the command for a one-digit section |
| Wgroff.WriteFirstLine | P1/wgroff.c:196-213 | the heading at both ends, 80 - 2(len+3) spaces between, 81 characters with the newline |
| Wgroff.CDiv | P1/wgroff.c:229 | C division truncates toward zero: q·b lies between 0 and a, less than b away from a, on the side of zero |
| Wgroff.WriteLastLine | P1/wgroff.c:224-244 | the date between the headings with (80 - (10 + 2(len+3)))/2 spaces on each side, 81 characters with the newline |
| Wgroff.UpperEffect | P1/wgroff.c:253-255 | no lower-case letter remains, other characters are kept, and upper-casing twice is upper-casing once |
| Wgroff.WriteSectionHeader | P1/wgroff.c:251-257 | the name is upper-cased in place and written in bold |
| Wgroff.ScanWord | P1/wgroff.c:278 | `%s` reads a non-empty word past its start |
| Wgroff.ScanInt | P1/wgroff.c:278 | `%i` consumes at least one character when it succeeds |
| Wgroff.ParseTitle | P1/wgroff.c:278 | a parsed title line starts with ".TH" and has a non-empty command and date |
| Wgroff.SectionName | P1/wgroff.c:332 | a parsed header line starts with ".SH" and has a non-empty name |
| Wgroff.ScanWordAt | P1/wgroff.c:278 | a word bounded by white space or the end is what `%s` reads |
| Wgroff.ScanIntDigit | P1/wgroff.c:278 | a digit 1-9 followed by white space is what `%i` reads |
| Wgroff.TitleAt | P1/wgroff.c:278 | a title line laid out field by field parses to those fields |
| Wgroff.TitleRoundTrip | P1/wgroff.c:278 | ".TH cmd s date" is read back as (cmd, s, date) |
| Wgroff.OutNameParts | P1/wgroff.c:304-307 | the output name is the command, a dot, and the section that atoi reads back |
| Wgroff.Classify | P1/wgroff.c:325-340 | a line starting with '#' is a comment, exactly; a ".SH" line is a header or an error; other lines are text |
| Wgroff.MisplacedHeader | P1/wgroff.c:328-337 | ".SH" anywhere but at the start is a formatting error |
| Wgroff.CommentsIgnored | P1/wgroff.c:325-327 | inserting a comment line changes neither the text nor whether an error occurs |
| Wgroff.CommentsShift | P1/wgroff.c:324 | line numbering changes only the number reported |
| Wgroff.TitleAccepted | P1/wgroff.c:270-301 | an output file is written exactly when the title reads fully, names section 1-9 and a 10-character date; otherwise "Improper formatting on line 1" and no file |
| Wgroff.BodyStep | P1/wgroff.c:323-343 | one step of the loop: skip a comment, stop at a bad header, or write the line |
| Wgroff.WriteBodyLine | P1/wgroff.c:339-341 | header and text lines are written as the body specification says |
| Wgroff.FormatLines | P1/wgroff.c:323-343 | the loop produces the body its specification defines |
| Wgroff.ParseFile | P1/wgroff.c:259-346 | parse_file produces what the specification of a run defines |
| Wman.FilePathLayout | P1/wman.c:120-125 | "./man_pages/man<s>/<page>.<s>" character by character |
| Wman.FilePathInjective | P1/wman.c:120-125 | different pages or sections never share a path |
| Wman.SearchPageInSection | P1/wman.c:134-149 | a page is found in a section exactly when its file exists, with that file's contents |
| Wman.SearchAllPages | P1/wman.c:157-169 | the lowest section 1-9 that holds the page, or none when no section does |
| Wman.SectionArgIff | P1/wman.c:221-235 | a section argument is accepted exactly when it is one of '1'..'9' |
| Wman.Run | P1/wman.c:192-294 | no arguments print the prompt and too many print usage, both with status 0; with two arguments the status is 0 exactly when the section is accepted, and a bad section prints "invalid section" with status 1; an accepted section prints the page's file when it exists there, else the not-found-in-section message; with one argument the status is 0, and the page of the lowest section 1-9 that holds it is printed, or "No manual entry" when none does |
| Xv6Mmap.RoundDown | Partnered/P5/xv6-public/sysfile.c:628 | PGROUNDDOWN gives the page boundary at or below |
| Xv6Mmap.RoundUp | Partnered/P5/xv6-public/sysfile.c:491 | PGROUNDUP gives the page boundary at or above |
| Xv6Mmap.End | Partnered/P5/xv6-public/sysfile.c:491-494 | the end is page-aligned and is the first page boundary at or past addr + length, plus one guard page for GROWSUP |
| Xv6Mmap.FirstWhere | Partnered/P5/xv6-public/sysfile.c:476-481 | the first slot satisfying the test, and none only when none does |
| Xv6Mmap.ThreeCasesIff | Partnered/P5/xv6-public/sysfile.c:544-556 | the three overlap cases together are exactly overlap |
| Xv6Mmap.EndNotStraddled | Partnered/P5/xv6-public/sysfile.c:503-518 | no region holds another's end strictly inside it |
| Xv6Mmap.WindowFree | Partnered/P5/xv6-public/sysfile.c:503-518 | a window not straddled at its start and without a region starting in it meets no region |
| Xv6Mmap.InsertKeepsOk | Partnered/P5/xv6-public/sysfile.c:575 | a new region that overlaps none keeps the table disjoint |
| Xv6Mmap.FixedWrapAccepted | Partnered/P5/xv6-public/sysfile.c:532-557 | as written, a fixed request at 0x7fffffff of 0x7fffffff bytes wraps its end to 0 and is accepted |
| Xv6Mmap.FixedWrapRefused | Partnered/P5/xv6-public/sysfile.c:532-557 | with the true end that request is refused |
| Xv6Mmap.FixedAcceptsSound | Partnered/P5/xv6-public/sysfile.c:532-557 | an accepted fixed request is a non-empty region in [MMAP_BASE, KERNBASE) that meets no region |
| Xv6Mmap.EndNoWrap | Partnered/P5/xv6-public/sysfile.c:491 | away from the top of memory the 32-bit end is the true end |
| Xv6Mmap.SearchEndNoWrap | Partnered/P5/xv6-public/sysfile.c:489-524 | the first-fit search's ends never wrap |
| Xv6Mmap.FirstFit | Partnered/P5/xv6-public/sysfile.c:489-524 | the first-fit address: a window in which no region starts, reached from MMAP_BASE by retrying at the end of the first region in slot order that starts inside the window; none once the window reaches KERNBASE |
| Xv6Mmap.GuardOverlapAsWritten | P5/xv6-public/trap.c:150-170 | as written, a region one byte past end_addr does not stop growth, and the grown region overlaps it |
| Xv6Mmap.GuardPastKernbaseAsWritten | P5/xv6-public/trap.c:150-170 | as written, a region ending at KERNBASE grows past it |
| Xv6Mmap.GrowthKeepsOk | P5/xv6-public/trap.c:150-170 | growth the intended test allows keeps every region in bounds and all disjoint |
| Xv6Mmap.StepsAt | P5/xv6-public/trap.c:38-54 | the number of pages alloc_mem maps for [start, end) |
| Xv6Mmap.Proc.constructor | Partnered/P5/xv6-public/sysfile.c:22 | a process starts with no files, free slots and no mappings |
| Xv6Mmap.Proc.FdAlloc | Partnered/P5/xv6-public/sysfile.c:45-57 | f goes in the lowest free slot, which is returned and which argfd then resolves to f; -1 exactly when all are taken, then nothing changes |
| Xv6Mmap.Proc.Pipe | Partnered/P5/xv6-public/sysfile.c:427-448 | two distinct descriptors exactly when two slots are free; otherwise -1 with the first slot released |
| Xv6Mmap.Proc.Mmap | Partnered/P5/xv6-public/sysfile.c:450-582 | success exactly when length > 0, exactly one of PRIVATE and SHARED is set, a file mapping names an open descriptor, a slot is free, and the fixed address passes its checks or FirstFit finds a window; the address is then the fixed one or FirstFit's; the region goes in the first free slot, inside [MMAP_BASE, KERNBASE), overlapping no region, and nothing else changes; a failure changes nothing; the MAP_FIXED checks are the corrected true-end test `FixedFree` (see Findings, sysfile.c:532-557) |
| Xv6Mmap.Proc.FindSlot | Partnered/P5/xv6-public/sysfile.c:476-481 | the slot scan finds the first slot satisfying the test |
| Xv6Mmap.Proc.FixedFree | Partnered/P5/xv6-public/sysfile.c:531-557 | the MAP_FIXED checks decide the corrected acceptance test |
| Xv6Mmap.Proc.SearchSpace | Partnered/P5/xv6-public/sysfile.c:489-524 | the search succeeds exactly when FirstFit finds an address, and returns that address; a found window starts at MMAP_BASE or at a region's end, lies below KERNBASE and meets no region |
| Xv6Mmap.Proc.Munmap | Partnered/P5/xv6-public/sysfile.c:584-653 | bad arguments and an unheld address fail with nothing changed; otherwise the first region holding addr has its pages unmapped and its slot cleared; a shared file mapping succeeds only when the write-back does |
| Xv6Mmap.Proc.Release | Partnered/P5/xv6-public/sysfile.c:626-649 | the region's pages are unmapped and its slot cleared |
| Xv6Mmap.Proc.AllocMem | P5/xv6-public/trap.c:38-54 | 0 exactly when every page in [start, end) is mapped within the budget; the pages mapped on failure stay mapped |
| Xv6Mmap.Proc.PageFault | P5/xv6-public/trap.c:121-177 | outside every region: killed; first page unmapped: the whole region allocated lazily, the file read unless anonymous; mapped and not GROWSUP: killed; GROWSUP: grown by one page exactly when the guard checks and the allocation pass; the guard checks are the corrected `GuardAllowed`, with the KERNBASE bound and the overlap test (see Findings, trap.c:150-170 and 156-158) |
| Xv6Mmap.Proc.MmapAlloc | P5/xv6-public/trap.c:56-60 | maps [start, end) without a GROWSUP region's guard page |
| Xv6Mmap.Proc.GrowRegion | P5/xv6-public/trap.c:150-170 | grows exactly when the corrected guard test passes and a page is available; then length and end grow by a page and the faulting page is mapped |
| Xv6Mmap.Proc.GuardFree | P5/xv6-public/trap.c:150-158 | the guard checks decide the corrected growth test |
| Xv6Mmap.Clock.constructor | P5/xv6-public/trap.c:90-97 | ticks start at 0 |
| Xv6Mmap.Clock.TimerInterrupt | P5/xv6-public/trap.c:90-97 | only CPU 0 advances the 32-bit tick counter |
| Xv6Mmap.IsDirEmpty | Partnered/P5/xv6-public/sysfile.c:173-185 | empty exactly when every entry after the first two has inode number 0 |
| WfsLog.SbInit | P7/wfs.h:1320-1323 | magic 0xdeadbeef, and the head just past an empty root entry at the root offset |
| WfsLog.FillAt | P7/wfs.h:452-459 | after fill_itable(i, off) the capacity exceeds i, table[i] is off, and every other entry is kept or zero |
| WfsLog.Latest | P7/wfs.h:561-594 | the last record for inode i: a record of the log for i with no record for i after it; none only when the log has none for i |
| WfsLog.ReplayCovers | P7/wfs.h:528-615 | the rebuilt table has room for every inode in the log |
| WfsLog.ReplayAt | P7/wfs.h:561-594 | entry i of the rebuilt table is the offset of i's last record, 0 if that record is a deletion |
| WfsLog.BoundIsMax | P7/wfs.h:594 | n_inodes is one more than the largest inode number in the log |
| WfsLog.Put | P7/wfs.h:1037-1083 | a write at an offset already in the log replaces the first record at that offset and keeps every other; a write at a new offset is appended |
| WfsLog.LookupPastEndAsWritten | P7/wfs.h:424-444 | as written, inode 10 after a rebuild from inodes 0 and 9 passes the guard but lies past the table |
| WfsLog.LookupInTable | P7/wfs.h:424-444 | every number the intended guard lets through lies inside the rebuilt table |
| WfsLog.AppendKeepsTable | P7/wfs.h:1075-1080 | appending a live entry keeps a table that matched the log matching it |
| WfsLog.PseudoSuperblock.constructor | P7/wfs.h:1339-1384 | the pseudo-superblock starts from the superblock and the log with an empty table |
| WfsLog.PseudoSuperblock.InodeInit | P7/wfs.h:321-335 | the new inode gets n_inodes as its number, intact, empty, one link, stamped now; n_inodes + 1 |
| WfsLog.PseudoSuperblock.InvalidateItable | P7/wfs.h:464-470 | the table is emptied |
| WfsLog.PseudoSuperblock.SetItableCapacity | P7/wfs.h:482-518 | a successful allocation resizes the table; a failed one reports EITWNB or EITWR and keeps it |
| WfsLog.PseudoSuperblock.FillItable | P7/wfs.h:452-459 | the table is filled as the fill specification says |
| WfsLog.PseudoSuperblock.BuildItable | P7/wfs.h:528-615 | the table is the replay of the log, n_inodes its bound and n_log_entries its length; success exactly when table[0] is at or past the root offset |
| WfsLog.PseudoSuperblock.LookupItable | P7/wfs.h:424-444 | a known inode is read from the table without a rebuild; otherwise the table is rebuilt first and a failed rebuild exits; "known" uses the corrected guard `i < n_inodes` (see Findings, wfs.h:427-443) |
| WfsLog.PseudoSuperblock.WriteToDisk | P7/wfs.h:1037-1083 | -ENOSPC with nothing written past 1 MiB; otherwise the entry is recorded, the head becomes max(head, end) and table[inode] the offset |
| WfsLog.PseudoSuperblock.AppendLogEntry | P7/wfs.h:1097-1099 | a write at the head, which moves by the entry's size |
| WfsPaths.GetEntry | P7/wfs.h:856-874 | an entry exactly for inodes the log holds |
| WfsPaths.FirstNamed | P7/wfs.h:711-729 | the first dentry with the name, and none only when there is none |
| WfsPaths.Lookup | P7/wfs.h:700-735 | found exactly when the entry is a directory whose first dentry of that name has an inode below n_inodes |
| WfsPaths.FindFileInDir | P7/wfs.h:700-735 | the loop finds what the lookup specification says |
| WfsPaths.AddDentry | P7/wfs.h:885-911 | a duplicate name fails with no change; otherwise the dentry is appended and the size grows by one dentry |
| WfsPaths.RemoveDentry | P7/wfs.h:921-951 | a missing name fails with no change; otherwise the first match is removed, the others keep their order, and the size shrinks by one dentry |
| WfsPaths.ShiftDown | P7/wfs.h:940-945 | the memmove removes the slot and keeps the rest in order |
| WfsPaths.RemoveAfterAdd | P7/wfs.h:885-951 | removing a dentry just added gives back the directory |
| WfsPaths.SimplifyWrapped | P7/wfs.h:737-746 | simplify_path strips every leading and trailing '/' and keeps the interior |
| WfsPaths.SimplifyAllSlash | P7/wfs.h:737-746 | an all-slash path simplifies to "/" |
| WfsPaths.SimplifyEnds | P7/wfs.h:737-746 | a simplified path with a non-slash character starts and ends with one |
| WfsPaths.Step | P7/wfs.h:802-835 | "." keeps, ".." pops (never below the root), a name pushes its inode |
| WfsPaths.ParsePath | P7/wfs.h:756-847 | parse_path yields the inode the resolution specification defines |
| WfsPaths.TakeStep | P7/wfs.h:802-835 | one pass of the token loop is the step specification |
| WfsPaths.WalkTokens | P7/wfs.h:802-840 | the token loop from the root is the walk specification |
| WfsPaths.RelativeRefused | P7/wfs.h:756-770 | a path not starting with '/' names nothing |
| WfsPaths.RootChild | P7/wfs.h:756-847 | a root-level name, wrapped in slashes, resolves through the root's dentries |
| WfsPaths.ResolveJoined | P7/wfs.h:756-847 | a path of two or more components resolves by walking them from the root |
| WfsPaths.WalkDot | P7/wfs.h:810-812 | a "." component changes nothing |
| WfsPaths.WalkNameThenUp | P7/wfs.h:802-835 | a name followed by ".." comes back to where it started |
| WfsPaths.WalkUpAtRoot | P7/wfs.h:814-824 | ".." at the root stays at the root |
| WfsPaths.WalkMissing | P7/wfs.h:826-831 | a name not found stops the walk with failure |
| WfsPrebuilt.RootNames | P7/mount.wfs.c:571 | on the prebuilt disk "/dir0" is 3 and "/dir1" is 4 |
| WfsPrebuilt.WalkFile0 | P7/mount.wfs.c:571 | "/file0" is 1 |
| WfsPrebuilt.WalkUpAndBack | P7/mount.wfs.c:573 | "/dir0/../file0" is 1 |
| WfsPrebuilt.WalkNested | P7/mount.wfs.c:575 | the components dir0, file00 walk to 5 |
| WfsPrebuilt.ResolveNested | P7/mount.wfs.c:575 | "/dir0/file00" is 5 |
| WfsMount.StatInit | P7/mount.wfs.c:21-33 | the stat carries every inode field but `deleted` and `flags`, field for field |
| WfsMount.AppendKeepsValid | P7/wfs.h:1097-1099 | appending a well-shaped entry keeps the disk well shaped |
| WfsMount.LastSlash | P7/mount.wfs.c:83 | strrchr finds the last '/', and none only when there is none |
| WfsMount.NestedParentAsWritten | P7/mount.wfs.c:81-94 | as written, every parent path names nothing, because simplify_path removed its leading '/' |
| WfsMount.JoinParent | P7/mount.wfs.c:83-88 | strrchr on a join splits it before the last component |
| WfsMount.ParentPathResolves | P7/mount.wfs.c:81-94 | as intended, the parent of a path of two or more components is resolved from the root: the first component's root entry for two, a walk of all components but the last for more; strrchr splits off exactly the last component |
| WfsMount.NewInDir0Parent | P7/mount.wfs.c:81-94 | with the corrected parent path, "/dir0/new" on the test disk has parent "/dir0", inode 3, and last component "new" |
| WfsMount.AddedSized | P7/wfs.h:885-911 | adding a new name keeps a directory's size equal to 40 per dentry |
| WfsMount.CreateSucceeds | P7/mount.wfs.c:103-150 | a successful create needs a directory parent without the name and a name under 32 characters; the parent gains the dentry, the child the next inode number, and nothing else changes |
| WfsMount.CreateKeepsValid | P7/mount.wfs.c:103-162 | any create keeps every entry well shaped and below n_inodes |
| WfsMount.MakeInodeKeepsValid | P7/mount.wfs.c:69-163 | make_inode keeps the disk well shaped |
| WfsMount.MadeMode | P7/mount.wfs.c:69-163 | a successful make_inode leaves the new inode, with the requested mode, at the old n_inodes |
| WfsMount.MknodMkdirTypes | P7/mount.wfs.c:165-177 | mknod makes a regular file and mkdir a directory whatever the permission bits |
| WfsMount.RootLevel | P7/mount.wfs.c:81-97 | a root-level path simplifies to its name, which has no '/' |
| WfsMount.CreateThenResolve | P7/mount.wfs.c:69-163 | a file created in the root resolves under its path to the inode number it was given |
| WfsMount.RemovedSized | P7/wfs.h:921-951 | removing a dentry keeps the size right and leaves no dentry of that name |
| WfsMount.UnlinkAtRoot | P7/mount.wfs.c:374-400 | a successful root-level unlink leaves no dentry of the name in the root |
| WfsMount.UnlinkThenResolve | P7/mount.wfs.c:327-434 | a file unlinked from the root no longer resolves |
| WfsMount.Overwrite | P7/mount.wfs.c:248-262 | the bytes at [offset, offset + size) are the buffer; every other byte is kept, and a gap reads as zeros |
| WfsMount.ReadBytes | P7/mount.wfs.c:198-215 | nothing from at or past the end; otherwise min(size, file size - offset) bytes from offset |
| WfsMount.ReadAfterWrite | P7/mount.wfs.c:179-272 | reading back what was written gives it back |
| WfsMount.WriteKeepsOthers | P7/mount.wfs.c:248-262 | a write keeps every byte outside its range and sizes the file to max(size, offset + len) |
| WfsMount.ChmodMode | P7/mount.wfs.c:453-454 | the permission bits come from the argument, all other bits are kept |
| WfsMount.ChmodKeepsType | P7/mount.wfs.c:453-454 | chmod never changes a file's type |
| WfsMount.ListedIff | P7/mount.wfs.c:296-321 | a name is listed exactly when a dentry of a live inode carries it |
| WfsMount.Mount.constructor | P7/mount.wfs.c:524-560 | the mount starts from the given log state |
| WfsMount.Mount.Append | P7/wfs.h:1097-1099 | append_log_entry changes the state as the append specification says |
| WfsMount.Mount.Getattr | P7/mount.wfs.c:42-67 | 0 with the stat exactly for a path naming a live inode; otherwise -ENOENT |
| WfsMount.Mount.MakeInode | P7/mount.wfs.c:69-163 | make_inode changes the state as its specification says and keeps it well shaped; the parent is resolved from the root with the corrected `ParentPath` (see Findings, mount.wfs.c:81-94), so "/dir0/new" reaches /dir0 where the source answers -ENOENT |
| WfsMount.Mount.Mknod | P7/mount.wfs.c:165-170 | make_inode with FILE_MODE or'ed in |
| WfsMount.Mount.Mkdir | P7/mount.wfs.c:172-177 | make_inode with DIRECTORY_MODE or'ed in |
| WfsMount.Mount.Create | P7/mount.wfs.c:103-162 | make_inode from the parent on, as its specification says; `MakeInode` hands it the parent found with the corrected `ParentPath` (see Findings, mount.wfs.c:81-94) |
| WfsMount.Mount.LinkNew | P7/mount.wfs.c:132-162 | add_dentry and the two appends, as the link specification says |
| WfsMount.Mount.Read | P7/mount.wfs.c:179-223 | 0 for size 0; -ENOENT for nothing; -EACCES for a non-regular file; otherwise the bytes read and their count |
| WfsMount.Mount.Write | P7/mount.wfs.c:225-272 | -ENOENT or -1 with no change; otherwise the written entry is appended and the size returned, or -ENOSPC |
| WfsMount.Mount.Readdir | P7/mount.wfs.c:274-325 | "." and "..", then the names of live inodes in dentry order |
| WfsMount.Mount.Unlink | P7/mount.wfs.c:327-434 | wfs_unlink changes the state as its specification says: -ENOENT, -1 for the root or a non-regular file, otherwise marked deleted and its dentry removed from the parent found with the corrected `ParentPath` (see Findings, mount.wfs.c:81-94); the source fails that removal for a nested path |
| WfsMount.Mount.DropFromParent | P7/mount.wfs.c:364-434 | the second half of unlink, as its specification says, with the parent resolved by the corrected `ParentPath` (see Findings, mount.wfs.c:81-94) |
| WfsMount.Mount.Drop | P7/mount.wfs.c:388-399 | remove_dentry then append_log_entry, as their specification says |
| WfsMount.Mount.Chmod | P7/mount.wfs.c:437-463 | -ENOENT with no change, or the mode's permission bits replaced in place, nothing else changed |

## Left out

- Disk I/O, file locks and process exits in WFS: `read_from_disk`, `write_sb_to_disk`, `validate_disk_file`, `_check`, `begin_op`/`end_op`, FUSE registration and signal handling. The handlers act on an abstract map from inode number to its latest log entry, the head and n_inodes.
- Timestamps, user and group ids, and `time()`, which are parameters (`now`, `uid`, `gid`).
- A directory's `n_entries` (size / 40) is the length of its dentry sequence. A file's bytes and a directory's dentries are kept as two views of the data.
- WfsLog.PseudoSuperblock.WriteToDisk: `read_from_disk` and `pwrite` failures other than `-ENOSPC` are not modelled.
- WfsPaths.Step: `..` at the root stays at the root. The source reads `history[-1]` there, which is undefined behaviour.
- The path-history capacity and its growth in `parse_path` are not modelled: the history is an unbounded stack.
- WfsMount.CreateSpec: a parent that is not a directory gives `-ENOTDIR`. This is the model's choice, since the source only dereferences the parent's dentries there.
- A name whose live entry cannot be read counts as taken (`-EEXIST`); the source dereferences NULL there.
- A missing root entry makes resolution fail. For a root-level name the source passes NULL to `find_file_in_dir` (P7/wfs.h:783-786); for a nested path it exits with `ITOPFL` (P7/wfs.h:797-800).
- `strncpy` truncation of names of 32 characters or more is not modelled; such names are refused before it matters.
- WfsMount.Mount.Read: a read of size 0 returns 0 with no bytes in the model. The source jumps to `done` (P7/mount.wfs.c:183) before `entry` (:193) and `n_bytes` (:208) are initialised, then frees `entry` and returns `n_bytes` while both are still uninitialised.
- WfsMount.Mount.Readdir: on a path naming a regular file the source reads the file's first size / 40 data chunks as dentries and lists their names; the model lists a file's dentry view, which is empty, so only an empty file agrees.
- Unlink's first write marks the inode deleted in place and ignores the write's result, as the source does.
- WfsMount.Overwrite: the bytes between the old end of a file and a write's offset are zero in the model; the source's `realloc` leaves them unspecified.
- WfsMount.WriteKeepsOthers: states those gap bytes as zero, for the same reason.
- `fsck.wfs.c`'s `main` (reading the disk and printing) is left out; only `swap`, `heapify` and `heap_sort` are modelled. `off_t` values are unbounded integers.
- SafeQueue: the mutex and condition variable, and `pq_destroy`'s frees, are left out. `is_full` and `is_empty` appear through the `Enqueue` and `Dequeue` contracts.
- The proxy's sockets and threads: `serve_request`, `do_work`, the worker and listener threads, and `http_send_data`. `serve_forever` is modelled only from the parsed request on (`ServeParsed`).
- ProxyHttp.ParseRequest: the bytes of one `read()` are the input; a failed read or an oversized request is not modelled.
- ProxyHttp.ParseRequest: the delay is the unbounded value of its digits. The source stores `atoi`'s `int` in `uint delay` (P6/starter-code/proxyserver.h:42, 178), A digit run of 2^31 or more overflows atoi's `int`, which C leaves undefined; with glibc the field gets the value modulo 2^32, and 0xffffffff past LONG_MAX, so it holds the delay exactly only below 2^32.
- ProxyHttp.ReadDelay: returns that unbounded delay, for the same reason.
- ProxyHttp.DelayRoundTrip: promises delay d for every d; the source's field holds it exactly only below 2^32 (2^31 by the C standard).
- ProxyServer.ServerConfig.ParseOptions: an option whose value is missing reads past `argv` in C; the model stops with `MissingValue`. `atoi` overflow is not modelled.
- ProxyServer.ParsePriority: requires a non-empty C string in its buffer, as every path the parser yields is.
- wsh: `fork`/`exec`/`pipe`/`waitpid` and signals (`dispatch_job`, `dispatch_piped_jobs`, `sigchld_handler`), reading lines (`get_command`, `run_script_file`, `run_cli`, `main`) and the actual `chdir`/`exit` are left out. Built-ins yield an `Effect` value instead.
- Wsh.JobTable.ParseCommand: requires at most 32 processes (the `procs[32]` buffer); the argv buffer's growth is not modelled.
- A command whose `argv[0]` is missing (a blank segment) is not a built-in; the source passes NULL to `strcmp`/`strncmp` there.
- Wgroff: the output and input files are strings. The body is the sequence of `fgets` chunks and the date is a parameter.
- Wgroff.ParseFile: requires that a title passing the section and date checks have a command of at most 32 characters. Such a title with a longer command makes the source pad with a negative count; titles that fail the checks are handled in full.
- Wgroff.ParseFile: a date longer than 10 characters overflows `char date[11]` in the source before its length is checked; the model reads it whole and refuses it.
- Wgroff.WriteLine: the 256-byte buffer overflow of `write_line` is not modelled.
- Wman: file existence and contents are a map from path to contents. Printing a file is producing its contents.
- Wman.Run: the not-found messages are formatted into `char msg[256]` and then printed with `_PRINTF_(msg)`, which takes msg as its format; a page name holding '%' or long enough to overflow the buffer prints otherwise than the model's verbatim message.
- Wman.SearchPageInSection: the path is formatted into `char filename[256]` (P1/wman.c:135); a page name over 236 characters overflows it, while the model looks the full path up.
- xv6: `kalloc`, `mappages`, `kfree` and `walkpgdir` are abstracted. The page table is the set of mapped page addresses, and a `budget` parameter says how many page allocations succeed.
- Xv6Mmap.Proc.PageFault: a region's first page counts as unmapped when it is not in the mapped set. The source tests `walkpgdir(pgdir, va, 0) == 0`, which in xv6 holds only when the whole page-table page is absent, so a fault in a fresh region that shares a page-directory entry with a mapped region is not lazily allocated there.
- Xv6Mmap.Proc.Munmap: frees only pages in the mapped set. With the same `walkpgdir` test the source can reach `kfree(P2V(0))` for an untouched page under a present page-directory entry.
- `mmap_read` and `filewrite` are abstract; `writeBackOk` says whether the write-back succeeds.
- `filedup`/`fileclose` reference counts are not modelled.
- Spinlocks and interrupt dispatch other than page faults and the timer are left out.
- Xv6Mmap.Proc.Mmap: requires `length` to fit a signed 32-bit int, as `argint` gives it.
- Xv6Mmap.Proc.Mmap: reads `!(IS_MMAP_PRIVATE(flags) ^ IS_MMAP_SHARED(flags))` (Partnered/P5/xv6-public/sysfile.c:466) as "exactly one of MAP_PRIVATE and MAP_SHARED is set". Those two macros are defined in no file of this model; mmap.h defines only the MAP_* bits. If they are bit masks, 1 ^ 2 == 3 passes the test, so a request with both flags set would be accepted where the model refuses it.
- Xv6Mmap.Proc.Munmap: walks `PGROUNDUP(PGROUNDDOWN(start) + length)` as the source does; `mmaps` slot clearing follows the source's `memset` of the whole slot.

## Findings

| source | as written | input that shows it | evidently intended | confidence | as-written member | corrected member |
|---|---|---|---|---|---|---|
| P3/wsh.c:447-472 | `check_builtin` compares `argv[0]` with `strncmp(argv[0], name, strlen(name))`, a prefix test | `fgrep x`: taken for `fg`, prints its message, and the program never runs | an exact match, as `job_init` uses | not executed | Wsh.FgrepTakenForFg | Wsh.FgrepIsAProgram |
| Partnered/P5/xv6-public/sysfile.c:532-557 | the MAP_FIXED end `PGROUNDUP(addr + length)` is computed in 32 bits and wraps | addr 0x7fffffff, length 0x7fffffff, when no region is mapped at or below addr: end becomes 0, every check passes, and the region [0x7fffffff, 0) is recorded | the true end, refused past KERNBASE | not executed | Xv6Mmap.FixedWrapAccepted | Xv6Mmap.FixedAcceptsSound |
| P5/xv6-public/trap.c:156-158 | guard growth checks only for a region starting exactly at `end_addr` | a GROWSUP region ending at 0x60002000 and a region starting at 0x60002001: growth is allowed and the two overlap | no region may meet the new guard page | not executed | Xv6Mmap.GuardOverlapAsWritten | Xv6Mmap.GrowthKeepsOk |
| P5/xv6-public/trap.c:150-170 | guard growth has no KERNBASE bound | a GROWSUP region ending at KERNBASE with a fault in its guard page: it grows to KERNBASE + 4096 | growth stays below KERNBASE | not executed | Xv6Mmap.GuardPastKernbaseAsWritten | Xv6Mmap.GrowthKeepsOk |
| P7/wfs.h:427-443 | `lookup_itable` refuses only numbers above `n_inodes` | after a rebuild from inodes 0 and 9, inode 10 passes the guard and reads `table[10]` of a 10-entry table | refuse numbers at or above `n_inodes` | not executed | WfsLog.LookupPastEndAsWritten | WfsLog.LookupInTable |
| P7/mount.wfs.c:81-94 | `make_inode` (and `wfs_unlink` at 402-413) cut the simplified path at its last '/' and hand the front to `parse_path`; `simplify_path` has already removed the leading '/', so `parse_path` refuses it | creating "/dir0/new" fails with -ENOENT, and unlinking "/dir0/file00" fails after marking it deleted | resolve the parent from the root | not executed | WfsMount.NestedParentAsWritten | WfsMount.ParentPathResolves |
