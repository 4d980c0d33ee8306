// The wsh shell front end: splitting a command line into processes and
// arguments, the global job table, and the built-in commands.  Forking,
// exec, pipes, waiting and signals are outside this model.

module Wsh {
  import opened Wrappers
  import opened CStrings

  const MAX_JOBS: nat := 128
  const JOB_START_IDX: nat := 1
  /** Most processes one command line may hold (the `procs[32]` buffer). */
  const MAX_PROCS: nat := 32

  const DELIMITER: char := ' '
  const PIPE: char := '|'
  const AMPERSAND: char := '&'

  const CD_USAGE: string := "`cd` takes exactly 1 argument, the path to a directory to switch to\n"
  const EXIT_USAGE: string := "`exit` does not accept any arguments\n"
  const BG_MISSING: string := "builtins_bg has not been implemented yet!\n"
  const FG_MISSING: string := "builtins_fg has not been implemented yet!\n"
  const COMMAND_INIT_FAILED: string := "Command init failed!\n"
  const NO_PROCESSES: string := "SOMETHING WENT WRONG\n"
  const EXIT_SUCCESS: int := 0

  // ---------------------------------------------------------------------
  // Commands, processes and jobs.
  // ---------------------------------------------------------------------

  datatype JobState = Foreground | Background | Stopped
  datatype ProcessState = Scheduled | Running | Paused | Done

  /** A command's arguments; `argc` is their number. */
  datatype Command = Command(argv: seq<string>)
  {
    function Argc(): nat { |argv| }

    /** `argv[k]` of the NULL-terminated argument vector. */
    function Arg(k: nat): Option<string>
    {
      if k < |argv| then Some(argv[k]) else None
    }
  }

  /** A process; its pid is given by fork and is not modelled. */
  datatype Process = Process(cmd: Command, state: ProcessState)

  /** A job is compared by identity in the job table, so it is an object. */
  class Job {
    const cmd: string
    const processes: seq<Process>
    const bg: bool
    const pState: JobState

    constructor (cmd: string, processes: seq<Process>, bg: bool)
      ensures this.cmd == cmd && this.processes == processes && this.bg == bg
      ensures pState == Foreground
    {
      this.cmd := cmd;
      this.processes := processes;
      this.bg := bg;
      pState := Foreground;
    }
  }

  /** command_init: the tokens of a non-empty C string, or NULL. */
  method CommandInit(cmd: Option<string>) returns (c: Option<Command>)
    ensures c.None? <==> cmd.None? || |cmd.value| == 0
    ensures c.Some? ==> c.value.argv == Tokens(cmd.value, DELIMITER)
    ensures c.Some? ==> c.value.Arg(c.value.Argc()) == None
  {
    if cmd.None? || |cmd.value| == 0 {
      return None;
    }
    var argv := SplitTokens(cmd.value, DELIMITER);
    c := Some(Command(argv));
  }

  /** process_init: a scheduled process for a command, or NULL. */
  function ProcessInit(cmd: Option<Command>): Option<Process>
  {
    if cmd.None? then None else Some(Process(cmd.value, Scheduled))
  }

  // ---------------------------------------------------------------------
  // parse_command, as a specification.
  // ---------------------------------------------------------------------

  /** The line is run in the background when its last character is '&'. */
  predicate RunsInBackground(input: string)
  {
    |input| > 0 && input[|input| - 1] == AMPERSAND
  }

  /** The line with a trailing '&' removed. */
  function Body(input: string): (body: string)
    ensures RunsInBackground(input) ==> body + [AMPERSAND] == input
    ensures !RunsInBackground(input) ==> body == input
  {
    if RunsInBackground(input) then input[..|input| - 1] else input
  }

  /** The commands of a line body: one per '|'-separated segment when there is a pipe,
      else the whole body; None when the body is empty (command_init fails). */
  function Commands(body: string): (cs: Option<seq<Command>>)
    ensures PIPE in body ==> cs.Some? && |cs.value| == |Tokens(body, PIPE)|
    ensures PIPE in body ==> forall k :: 0 <= k < |cs.value| ==>
      cs.value[k].argv == Tokens(Tokens(body, PIPE)[k], DELIMITER)
    ensures PIPE !in body ==> (cs.None? <==> |body| == 0)
    ensures PIPE !in body && cs.Some? ==> cs.value == [Command(Tokens(body, DELIMITER))]
  {
    if PIPE in body then
      var segs := Tokens(body, PIPE);
      Some(seq(|segs|, k requires 0 <= k < |segs| => Command(Tokens(segs[k], DELIMITER))))
    else if |body| == 0 then None
    else Some([Command(Tokens(body, DELIMITER))])
  }

  /** Every command becomes a process through process_init. */
  function ScheduleAll(cs: seq<Command>): seq<Process>
  {
    seq(|cs|, k requires 0 <= k < |cs| => ProcessInit(Some(cs[k])).value)
  }

  /** Every process parse_command builds is scheduled, and its NULL-terminated argv holds
      the non-empty, space-free words of its command. */
  lemma ParsedProcesses(input: string)
    requires Commands(Body(input)).Some?
    ensures var procs := ScheduleAll(Commands(Body(input)).value);
      forall k :: 0 <= k < |procs| ==>
        procs[k].state == Scheduled
        && procs[k].cmd.Arg(procs[k].cmd.Argc()).None?
        && forall j :: 0 <= j < procs[k].cmd.Argc() ==> IsToken(procs[k].cmd.argv[j], DELIMITER)
  {
    var body := Body(input);
    var cs := Commands(body).value;
    forall k | 0 <= k < |cs|
      ensures forall j :: 0 <= j < |cs[k].argv| ==> IsToken(cs[k].argv[j], DELIMITER)
    {
      if PIPE in body {
        TokensAreTokens(Tokens(body, PIPE)[k], DELIMITER);
      } else {
        TokensAreTokens(body, DELIMITER);
      }
    }
  }

  /** How many processes a line would produce (at most one when it has no pipe). */
  function ProcessCount(input: string): nat
  {
    var body := Body(input);
    if PIPE in body then |Tokens(body, PIPE)| else 1
  }

  // ---------------------------------------------------------------------
  // Built-in commands.
  // ---------------------------------------------------------------------

  datatype Builtin = Bg | Cd | Exit | Fg | Jobs

  /** The built-ins in the order check_builtin compares them. */
  const BUILTINS: seq<Builtin> := [Bg, Cd, Exit, Fg, Jobs]

  function Name(b: Builtin): string
  {
    match b
    case Bg => "bg"
    case Cd => "cd"
    case Exit => "exit"
    case Fg => "fg"
    case Jobs => "jobs"
  }

  /** The first built-in from index `i` on whose name matches `arg` under `matches`. */
  function FirstMatch(arg: string, i: nat, prefixOnly: bool): (r: Option<Builtin>)
    requires i <= |BUILTINS|
    ensures r.Some? ==> exists k :: (i <= k < |BUILTINS| && BUILTINS[k] == r.value && NameMatches(arg, BUILTINS[k], prefixOnly)
      && forall m :: i <= m < k ==> !NameMatches(arg, BUILTINS[m], prefixOnly))
    ensures r.None? ==> forall m :: i <= m < |BUILTINS| ==> !NameMatches(arg, BUILTINS[m], prefixOnly)
    decreases |BUILTINS| - i
  {
    if i == |BUILTINS| then None
    else if NameMatches(arg, BUILTINS[i], prefixOnly) then Some(BUILTINS[i])
    else FirstMatch(arg, i + 1, prefixOnly)
  }

  /** strcmp(arg, name) == 0, or, with `prefixOnly`, strncmp(arg, name, strlen(name)) == 0. */
  predicate NameMatches(arg: string, b: Builtin, prefixOnly: bool)
  {
    if prefixOnly then Name(b) <= arg else arg == Name(b)
  }

  /** The first argument of a single-process job; NULL otherwise. */
  function SoleArg0(procs: seq<Process>): Option<string>
  {
    if |procs| == 1 then procs[0].cmd.Arg(0) else None
  }

  /** job_init's test: a single process whose argv[0] is exactly a built-in's name. */
  predicate IsBuiltinJob(procs: seq<Process>)
  {
    var a := SoleArg0(procs);
    a.Some? && FirstMatch(a.value, 0, false).Some?
  }

  /** check_builtin as written: a single process whose argv[0] starts with a built-in's name. */
  function CheckBuiltinAsWritten(procs: seq<Process>): (r: Option<Builtin>)
    ensures |procs| != 1 ==> r.None?
    ensures r.Some? ==> |procs| == 1 && procs[0].cmd.Argc() >= 1 && Name(r.value) <= procs[0].cmd.argv[0]
  {
    var a := SoleArg0(procs);
    if a.None? then None else FirstMatch(a.value, 0, true)
  }

  /** check_builtin with the exact comparison job_init uses. */
  function CheckBuiltin(procs: seq<Process>): (r: Option<Builtin>)
    ensures r.Some? <==> IsBuiltinJob(procs)
    ensures r.Some? ==> |procs| == 1 && procs[0].cmd.Argc() >= 1 && procs[0].cmd.argv[0] == Name(r.value)
  {
    var a := SoleArg0(procs);
    if a.None? then None else FirstMatch(a.value, 0, false)
  }

  /** As written, a program whose name merely starts with "fg" is taken for the `fg` built-in. */
  lemma FgrepTakenForFg()
    ensures CheckBuiltinAsWritten([Process(Command(["fgrep", "x"]), ProcessState.Scheduled)]) == Some(Fg)
    ensures !IsBuiltinJob([Process(Command(["fgrep", "x"]), ProcessState.Scheduled)])
  {
    var arg := "fgrep";
    assert arg[0] == 'f';
    assert Name(Bg)[0] == 'b' && Name(Cd)[0] == 'c' && Name(Exit)[0] == 'e';
    assert NameMatches(arg, Fg, true);
    assert FirstMatch(arg, 3, true) == Some(Fg);
  }

  /** Corrected, `fgrep` is not a built-in: it is run as a program. */
  lemma FgrepIsAProgram()
    ensures CheckBuiltin([Process(Command(["fgrep", "x"]), ProcessState.Scheduled)]) == None
  {
  }

  /** What a built-in does. */
  datatype Effect =
    | Say(text: string)                      // a message, and nothing else
    | ChangeDirectory(path: string)          // chdir(path)
    | ExitShell(status: int)                 // exit(status)
    | SayThenExit(text: string, status: int)

  /** The effect of built-in `b` run on command `c`, with `listing` the jobs table's listing. */
  function BuiltinEffect(b: Builtin, c: Command, listing: string): (e: Effect)
    ensures b == Cd ==> (e.ChangeDirectory? <==> c.Argc() == 2)
    ensures b == Cd && e.ChangeDirectory? ==> c.Arg(1) == Some(e.path)
    ensures b == Exit ==> (e.ExitShell? <==> c.Argc() == 1)
    ensures e.ExitShell? ==> e.status == EXIT_SUCCESS
    ensures (b == Cd && c.Argc() != 2) || (b == Exit && c.Argc() != 1) ==> e.Say?
    ensures b == Jobs ==> e == Say(listing)
  {
    match b
    case Bg => SayThenExit(BG_MISSING, EXIT_SUCCESS)
    case Fg => SayThenExit(FG_MISSING, EXIT_SUCCESS)
    case Cd => if c.Argc() != 2 then Say(CD_USAGE) else ChangeDirectory(c.argv[1])
    case Exit => if c.Argc() != 1 then Say(EXIT_USAGE) else ExitShell(EXIT_SUCCESS)
    case Jobs => Say(listing)
  }

  // ---------------------------------------------------------------------
  // The job table, as a sequence of slots.
  // ---------------------------------------------------------------------

  /** The first slot at index `i` or later that holds `x`. */
  function FindSlot(s: seq<Job?>, x: Job?, i: nat): (r: Option<nat>)
    ensures r.Some? ==> i <= r.value < |s| && s[r.value] == x
    decreases |s| - i
  {
    if i >= |s| then None else if s[i] == x then Some(i) else FindSlot(s, x, i + 1)
  }

  /** FindSlot finds the first occurrence, and None means there is none. */
  lemma {:induction false} FindSlotFirst(s: seq<Job?>, x: Job?, i: nat)
    ensures FindSlot(s, x, i).Some? ==> forall m :: i <= m < FindSlot(s, x, i).value ==> s[m] != x
    ensures FindSlot(s, x, i).None? ==> forall m :: i <= m < |s| ==> s[m] != x
    decreases |s| - i
  {
    if i < |s| && s[i] != x {
      FindSlotFirst(s, x, i + 1);
    }
  }

  /** Conversely, a first occurrence is what FindSlot finds. */
  lemma {:induction false} FindSlotAt(s: seq<Job?>, x: Job?, i: nat, k: nat)
    requires i <= k < |s| && s[k] == x
    requires forall m :: i <= m < k ==> s[m] != x
    ensures FindSlot(s, x, i) == Some(k)
    decreases k - i
  {
    if i < k {
      FindSlotAt(s, x, i + 1, k);
    }
  }

  /** No occurrence at `i` or later: FindSlot finds nothing. */
  lemma {:induction false} FindSlotNone(s: seq<Job?>, x: Job?, i: nat)
    requires forall m :: i <= m < |s| ==> s[m] != x
    ensures FindSlot(s, x, i) == None
    decreases |s| - i
  {
    if i < |s| {
      FindSlotNone(s, x, i + 1);
    }
  }

  function Put(s: seq<Job?>, at: Option<nat>, x: Job?): (t: seq<Job?>)
    requires at.Some? ==> at.value < |s|
    ensures |t| == |s|
  {
    if at.None? then s else s[at.value := x]
  }

  /** The table after job_init: unchanged for a built-in, else the job in the first free slot from 1. */
  function Stored(s: seq<Job?>, job: Job, procs: seq<Process>): (t: seq<Job?>)
    ensures |t| == |s|
  {
    if IsBuiltinJob(procs) then s else Put(s, FindSlot(s, null, JOB_START_IDX), job)
  }

  /** The table after job_destroy: the first slot from 1 holding the job is cleared. */
  function Removed(s: seq<Job?>, job: Job): (t: seq<Job?>)
    ensures |t| == |s|
  {
    Put(s, FindSlot(s, job, JOB_START_IDX), null)
  }

  /** Each job occupies at most one slot. */
  predicate NoDuplicates(s: seq<Job?>)
  {
    forall i, j :: 0 <= i < j < |s| && s[i] != null ==> s[i] != s[j]
  }

  /** The table's shape: 128 slots, slot 0 never used, no job twice. */
  predicate TableShape(s: seq<Job?>)
  {
    |s| == MAX_JOBS && s[0] == null && NoDuplicates(s)
  }

  /** job_init places a new job in exactly one slot, the lowest free one from 1, and changes nothing else. */
  lemma StoredPlacement(s: seq<Job?>, job: Job, procs: seq<Process>)
    requires job !in s && !IsBuiltinJob(procs)
    ensures FindSlot(s, null, JOB_START_IDX).Some? ==> forall m :: 0 <= m < |s| ==>
      (Stored(s, job, procs)[m] == job <==> m == FindSlot(s, null, JOB_START_IDX).value)
    ensures FindSlot(s, null, JOB_START_IDX).Some? ==> forall m :: JOB_START_IDX <= m < FindSlot(s, null, JOB_START_IDX).value ==> s[m] != null
    ensures FindSlot(s, null, JOB_START_IDX).None? ==> (Stored(s, job, procs) == s
      && forall m :: JOB_START_IDX <= m < |s| ==> s[m] != null)
    ensures forall m :: 0 <= m < |s| && Stored(s, job, procs)[m] != job ==> Stored(s, job, procs)[m] == s[m]
  {
    FindSlotFirst(s, null, JOB_START_IDX);
  }

  /** job_destroy clears exactly the job's slot, and afterwards the job is gone from the table. */
  lemma RemovedClears(s: seq<Job?>, job: Job)
    requires TableShape(s)
    ensures job !in Removed(s, job)
    ensures forall m :: 0 <= m < |s| && s[m] != job ==> Removed(s, job)[m] == s[m]
    ensures TableShape(Removed(s, job))
  {
    FindSlotFirst(s, job, JOB_START_IDX);
  }

  /** Destroying a job just created restores the table it was stored into. */
  lemma {:induction false} StoreThenRemove(s: seq<Job?>, job: Job, procs: seq<Process>)
    requires job !in s
    ensures Removed(Stored(s, job, procs), job) == s
  {
    var t := Stored(s, job, procs);
    var free := FindSlot(s, null, JOB_START_IDX);
    if IsBuiltinJob(procs) || free.None? {
      FindSlotNone(s, job, JOB_START_IDX);
    } else {
      var k := free.value;
      FindSlotFirst(s, null, JOB_START_IDX);
      FindSlotAt(t, job, JOB_START_IDX, k);
      assert t[k := null] == s;
    }
  }

  // ---------------------------------------------------------------------
  // The jobs listing.
  // ---------------------------------------------------------------------

  /** One line of the listing: "%i: %s\n". */
  function JobLine(i: nat, cmd: string): string
  {
    DecimalString(i) + ": " + cmd + "\n"
  }

  /** The listing of the occupied slots from `i` on, in slot order. */
  function Listing(s: seq<Job?>, i: nat): string
    decreases |s| - i
  {
    if i >= |s| then ""
    else (if s[i] == null then "" else JobLine(i, s[i].cmd)) + Listing(s, i + 1)
  }

  /** One step of the listing loop. */
  lemma ListingStep(s: seq<Job?>, i: nat, out: string, whole: string)
    requires i < |s| && out + Listing(s, i) == whole
    ensures (if s[i] == null then out else out + JobLine(i, s[i].cmd)) + Listing(s, i + 1) == whole
  {
    if s[i] != null {
      var line, rest := JobLine(i, s[i].cmd), Listing(s, i + 1);
      assert Listing(s, i) == line + rest;
      ConcatAssoc(out, line, rest);
    }
  }

  lemma ConcatAssoc<T>(a: seq<T>, b: seq<T>, c: seq<T>)
    ensures (a + b) + c == a + (b + c)
  {
  }

  /** The occupied slots from `i` on, in increasing order. */
  function Occupied(s: seq<Job?>, i: nat): (ks: seq<nat>)
    ensures forall k :: 0 <= k < |ks| ==> i <= ks[k] < |s| && s[ks[k]] != null
    decreases |s| - i
  {
    if i >= |s| then []
    else (if s[i] == null then [] else [i]) + Occupied(s, i + 1)
  }

  /** The lines for the given slots, one after the other. */
  function Lines(s: seq<Job?>, ks: seq<nat>): string
    requires forall k :: 0 <= k < |ks| ==> ks[k] < |s| && s[ks[k]] != null
  {
    if |ks| == 0 then "" else JobLine(ks[0], s[ks[0]].cmd) + Lines(s, ks[1..])
  }

  /** The occupied slots are listed each once, in increasing order, and no other. */
  lemma {:induction false} OccupiedInOrder(s: seq<Job?>, i: nat)
    ensures forall a, b :: 0 <= a < b < |Occupied(s, i)| ==> Occupied(s, i)[a] < Occupied(s, i)[b]
    ensures forall k :: i <= k < |s| && s[k] != null ==> k in Occupied(s, i)
    decreases |s| - i
  {
    if i < |s| {
      OccupiedInOrder(s, i + 1);
      var rest := Occupied(s, i + 1);
      if s[i] == null {
        assert Occupied(s, i) == rest;
      } else {
        var ks := Occupied(s, i);
        assert ks == [i] + rest;
        assert forall a :: 0 < a < |ks| ==> ks[a] == rest[a - 1];
      }
    }
  }

  /** The listing is exactly one line per occupied slot, taken in slot order. */
  lemma {:induction false} ListingIsLines(s: seq<Job?>, i: nat)
    ensures Listing(s, i) == Lines(s, Occupied(s, i))
    decreases |s| - i
  {
    if i < |s| {
      ListingIsLines(s, i + 1);
      var ks := Occupied(s, i);
      if s[i] != null {
        assert ks == [i] + Occupied(s, i + 1);
        assert ks[1..] == Occupied(s, i + 1);
        assert Lines(s, ks) == JobLine(i, s[i].cmd) + Lines(s, Occupied(s, i + 1));
      } else {
        assert ks == Occupied(s, i + 1);
      }
    }
  }

  // ---------------------------------------------------------------------
  // The global table and the operations that change it.
  // ---------------------------------------------------------------------

  datatype ParseResult = NoInput | InitFailed | Parsed(job: Job)

  datatype Outcome =
    | Ignored                          // the empty line
    | Failed(message: string)          // _FAILURE_EXIT_: the shell prints and exits with 1
    | BuiltinRan(builtin: Builtin, effect: Effect)
    | Dispatched(job: Job)             // handed to dispatch_job or dispatch_piped_jobs

  /** `all_jobs` and `foreground_job`. */
  class JobTable {
    var slots: array<Job?>
    var foreground: Job?

    ghost predicate Valid()
      reads this, slots
    {
      TableShape(slots[..])
    }

    /** The static table starts out empty. */
    constructor ()
      ensures Valid() && fresh(slots)
      ensures forall k :: 0 <= k < slots.Length ==> slots[k] == null
      ensures foreground == null
    {
      slots := new Job?[MAX_JOBS](_ => null);
      foreground := null;
    }

    /** job_init: a new job, kept in the table unless it is a built-in. */
    method JobInit(cmd: string, procs: seq<Process>, bg: bool) returns (job: Job)
      requires Valid()
      modifies slots
      ensures Valid()
      ensures fresh(job) && job.cmd == cmd && job.processes == procs && job.bg == bg
      ensures job.pState == Foreground
      ensures slots[..] == Stored(old(slots[..]), job, procs)
    {
      job := new Job(cmd, procs, bg);
      ghost var s := slots[..];
      assert job !in s;
      if |procs| == 1 {
        var arg0 := procs[0].cmd.Arg(0);
        var b := 0;
        while b < |BUILTINS|
          invariant b <= |BUILTINS|
          invariant arg0.Some? ==> FirstMatch(arg0.value, 0, false) == FirstMatch(arg0.value, b, false)
        {
          if arg0.Some? && arg0.value == Name(BUILTINS[b]) {
            return;
          }
          b := b + 1;
        }
      }
      assert !IsBuiltinJob(procs);
      var i := JOB_START_IDX;
      while i < MAX_JOBS
        invariant JOB_START_IDX <= i <= MAX_JOBS
        invariant slots[..] == s
        invariant forall m :: JOB_START_IDX <= m < i ==> s[m] != null
      {
        if slots[i] == null {
          FindSlotAt(s, null, JOB_START_IDX, i);
          slots[i] := job;
          StoredNoDuplicates(s, job, i);
          return;
        }
        i := i + 1;
      }
      FindSlotNone(s, null, JOB_START_IDX);
    }

    /** job_destroy: clears the job's slot and forgets it as the foreground job. */
    method JobDestroy(job: Job?)
      requires Valid()
      modifies this, slots
      ensures Valid() && slots == old(slots)
      ensures job == null ==> slots[..] == old(slots[..]) && foreground == old(foreground)
      ensures job != null ==> slots[..] == Removed(old(slots[..]), job)
      ensures job != null ==> foreground == (if old(foreground) == job then null else old(foreground))
    {
      if job == null {
        return;
      }
      ghost var s := slots[..];
      var i := JOB_START_IDX;
      while i < MAX_JOBS
        invariant JOB_START_IDX <= i <= MAX_JOBS
        invariant slots[..] == s
        invariant forall m :: JOB_START_IDX <= m < i ==> s[m] != job
      {
        if slots[i] == job {
          FindSlotAt(s, job, JOB_START_IDX, i);
          slots[i] := null;
          break;
        }
        i := i + 1;
      }
      if i == MAX_JOBS {
        FindSlotNone(s, job, JOB_START_IDX);
      }
      RemovedClears(s, job);
      if job == foreground {
        foreground := null;
      }
    }

    /** builtins_jobs: one line per occupied slot from 1, in slot order. */
    method ListJobs() returns (out: string)
      requires Valid()
      ensures out == Listing(slots[..], JOB_START_IDX)
    {
      ghost var s := slots[..];
      out := "";
      var i := JOB_START_IDX;
      while i < MAX_JOBS
        invariant JOB_START_IDX <= i <= MAX_JOBS
        invariant out + Listing(s, i) == Listing(s, JOB_START_IDX)
      {
        ListingStep(s, i, out, Listing(s, JOB_START_IDX));
        var job := slots[i];
        if job != null {
          out := out + JobLine(i, job.cmd);
        }
        i := i + 1;
      }
    }

    /** The pipe branch of parse_command: one process per '|'-separated segment, in order. */
    method PipedProcesses(body: string) returns (procs: seq<Process>)
      requires PIPE in body
      ensures procs == ScheduleAll(Commands(body).value)
    {
      procs := [];
      var segs := SplitTokens(body, PIPE);
      TokensAreTokens(body, PIPE);
      var k := 0;
      while k < |segs|
        invariant k <= |segs|
        invariant procs == ScheduleAll(Commands(body).value[..k])
      {
        var c := CommandInit(Some(segs[k]));
        var p := ProcessInit(c);
        procs := procs + [p.value];
        k := k + 1;
      }
      assert Commands(body).value[..k] == Commands(body).value;
    }

    /** parse_command: splits the line into processes and creates its job. */
    method ParseCommand(input: string) returns (r: ParseResult)
      requires Valid() && ProcessCount(input) <= MAX_PROCS
      modifies slots
      ensures Valid()
      ensures |input| == 0 ==> r == NoInput
      ensures |input| > 0 && Commands(Body(input)).None? ==> r == InitFailed
      ensures r.NoInput? || r.InitFailed? ==> slots[..] == old(slots[..])
      ensures |input| > 0 && Commands(Body(input)).Some? ==> r.Parsed?
      ensures r.Parsed? ==> (fresh(r.job) && r.job.cmd == input && r.job.bg == RunsInBackground(input)
        && r.job.pState == Foreground
        && r.job.processes == ScheduleAll(Commands(Body(input)).value)
        && slots[..] == Stored(old(slots[..]), r.job, r.job.processes))
    {
      if |input| == 0 {
        return NoInput;
      }
      var bg := false;
      var body := input;
      if input[|input| - 1] == AMPERSAND {
        bg := true;
        body := input[..|input| - 1];
      }
      var procs: seq<Process> := [];
      if PIPE in body {
        procs := PipedProcesses(body);
      } else {
        var c := CommandInit(Some(body));
        if c.None? {
          return InitFailed;
        }
        assert Commands(Body(input)).value == [c.value];
        procs := [ProcessInit(c).value];
        assert procs == ScheduleAll([c.value]);
      }
      assert slots[..] == old(slots[..]);
      var job := JobInit(input, procs, bg);
      assert slots[..] == Stored(old(slots[..]), job, procs);
      r := Parsed(job);
    }

    /** The built-in branch of run_command: runs it, then job_destroy finds nothing to clear. */
    method RunBuiltin(job: Job, b: Builtin) returns (outcome: Outcome)
      requires Valid() && job !in slots[..] && CheckBuiltin(job.processes) == Some(b)
      modifies this, slots
      ensures Valid() && slots == old(slots) && slots[..] == old(slots[..])
      ensures outcome == BuiltinRan(b, BuiltinEffect(b, job.processes[0].cmd, Listing(old(slots[..]), JOB_START_IDX)))
    {
      ghost var s := slots[..];
      var listing := ListJobs();
      var effect := BuiltinEffect(b, job.processes[0].cmd, listing);
      JobDestroy(job);
      FindSlotNone(s, job, JOB_START_IDX);
      return BuiltinRan(b, effect);
    }

    /** run_command: parses a line, runs a built-in or hands the job on. */
    method RunCommand(input: string) returns (outcome: Outcome)
      requires Valid() && ProcessCount(input) <= MAX_PROCS
      modifies this, slots
      ensures Valid() && slots == old(slots)
      ensures |input| == 0 ==> outcome == Ignored
      ensures |input| > 0 && Commands(Body(input)).None? ==> outcome == Failed(COMMAND_INIT_FAILED)
      ensures outcome.Ignored? || outcome == Failed(COMMAND_INIT_FAILED) || outcome.BuiltinRan? ==> slots[..] == old(slots[..])
      ensures outcome.BuiltinRan? ==> (|input| > 0 && Commands(Body(input)).Some?
        && var procs := ScheduleAll(Commands(Body(input)).value);
           CheckBuiltin(procs) == Some(outcome.builtin)
           && outcome.effect == BuiltinEffect(outcome.builtin, procs[0].cmd, Listing(old(slots[..]), JOB_START_IDX)))
      ensures |input| > 0 && Commands(Body(input)).Some? ==>
        var procs := ScheduleAll(Commands(Body(input)).value);
        (CheckBuiltin(procs).Some? ==> outcome.BuiltinRan? && outcome.builtin == CheckBuiltin(procs).value)
        && (CheckBuiltin(procs).None? && |procs| > 0 ==>
              outcome.Dispatched? && outcome.job.processes == procs
              && outcome.job.cmd == input && outcome.job.bg == RunsInBackground(input))
        && (|procs| == 0 ==> outcome == Failed(NO_PROCESSES))
      ensures outcome.Dispatched? ==> (fresh(outcome.job) && |outcome.job.processes| > 0
        && CheckBuiltin(outcome.job.processes).None?
        && slots[..] == Stored(old(slots[..]), outcome.job, outcome.job.processes))
    {
      if |input| == 0 {
        return Ignored;
      }
      ghost var s := slots[..];
      var parsed := ParseCommand(input);
      if parsed.InitFailed? {
        return Failed(COMMAND_INIT_FAILED);
      }
      var job := parsed.job;
      ghost var procs := ScheduleAll(Commands(Body(input)).value);
      assert job.processes == procs;
      var b := CheckBuiltin(job.processes);
      if b.Some? {
        assert slots[..] == s;
        outcome := RunBuiltin(job, b.value);
        return;
      }
      if |job.processes| == 0 {
        return Failed(NO_PROCESSES);
      }
      outcome := Dispatched(job);
    }
  }

  /** Storing a fresh job keeps each job in at most one slot. */
  lemma StoredNoDuplicates(s: seq<Job?>, job: Job, k: nat)
    requires TableShape(s) && job !in s && 0 < k < |s|
    ensures TableShape(s[k := job])
  {
  }
}
