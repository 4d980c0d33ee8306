// The scheduling proxy's own logic (proxyserver.c): the priority it gives a
// request, its settings and command-line options, and what a listener does
// with a parsed request -- hand out a job for "/GetJob", queue anything
// else.  Sockets, threads and the forwarding to the file server are not
// part of this model; a reply is the text the listener would write back.

module ProxyServer {

  import opened Wrappers
  import opened CStrings
  import opened ProxyHttp
  import opened SafeQueue

  /** (uint) of a C int: the value modulo 2^32. */
  function ToUint(v: int): (r: nat)
    ensures r < 0x1_0000_0000
    ensures 0 <= v < 0x1_0000_0000 ==> r == v
  {
    v % 0x1_0000_0000
  }

  /** parse_priority(path): scans the capital letters after the leading
      '/', cuts the string there with a NUL for a moment, reads the text
      between with atoi and puts the cut character back.  Since that text
      holds only letters, the priority is always 0, and the path is left
      as it was. */
  method ParsePriority(path: array<char>) returns (num: nat)
    requires 1 <= |CStr(path[..])| < path.Length
    modifies path
    ensures path[..] == old(path[..])
    ensures num == 0
  {
    var len := |CStr(path[..])|;
    var i := 1;
    while i < len && IsUpper(path[i])
      invariant 1 <= i <= len
      invariant forall k :: 1 <= k < i ==> IsUpper(path[k])
    {
      i := i + 1;
    }
    ghost var s0 := path[..];
    var orig := path[i];
    path[i] := '\0';
    var text := path[1..];
    CStrAt(text, i - 1);
    AtoiOfLetters(text[..i - 1]);
    num := ToUint(Atoi(CStr(text)));
    path[i] := orig;
    assert path[..] == s0;
  }

  /** The global configuration of the proxy. */
  datatype Settings = Settings(
    numListener: int,
    listenerPorts: seq<int>,
    numWorkers: int,
    fileserverIpaddr: string,
    fileserverPort: int,
    maxQueueSize: int)

  /** The values default_settings installs. */
  function Defaults(): (s: Settings)
    ensures s.numListener == |s.listenerPorts|
  {
    Settings(1, [8000], 1, "127.0.0.1", 3333, 100)
  }

  const USAGE: string := "Usage: ./proxyserver [-l 1 8000] [-n 1] [-i 127.0.0.1 -p 3333] [-q 100]\n"

  /** How the option loop of main ends: with the options applied, at an
      option it does not know (usage is printed and the process exits with
      status 0), or at an option whose value is missing (the code reads past
      the end of argv). */
  datatype OptionsOutcome = Configured | Unrecognized(option: string) | MissingValue

  /** The number of ports "-l n" reads: n, or none when n is negative. */
  function PortCount(n: int): nat
  {
    if n < 0 then 0 else n
  }

  /** The ports of "-l n p1 ... pn", the first at `from`, each read with
      atoi. */
  function PortsAt(argv: seq<string>, from: nat, count: nat): (ports: seq<int>)
    requires from + count <= |argv|
    ensures |ports| == count
    ensures forall k :: 0 <= k < count ==> ports[k] == Atoi(argv[from + k])
  {
    if count == 0 then [] else PortsAt(argv, from, count - 1) + [Atoi(argv[from + count - 1])]
  }

  /** The option loop of main from argument `i` on, starting from settings
      `s`: the settings it leaves and how it ends. */
  function ApplyOptions(argv: seq<string>, i: nat, s: Settings): (Settings, OptionsOutcome)
    decreases |argv| - i
  {
    if i >= |argv| then (s, Configured)
    else
      var opt := argv[i];
      if opt == "-l" then
        if i + 1 >= |argv| then (s, MissingValue)
        else
          var n := Atoi(argv[i + 1]);
          var count := PortCount(n);
          if i + 2 + count > |argv| then (s, MissingValue)
          else
            ApplyOptions(argv, i + 2 + count,
              s.(numListener := n, listenerPorts := PortsAt(argv, i + 2, count)))
      else if opt == "-w" || opt == "-q" || opt == "-i" || opt == "-p" then
        if i + 1 >= |argv| then (s, MissingValue)
        else
          var v := argv[i + 1];
          var s' :=
            if opt == "-w" then s.(numWorkers := Atoi(v))
            else if opt == "-q" then s.(maxQueueSize := Atoi(v))
            else if opt == "-i" then s.(fileserverIpaddr := v)
            else s.(fileserverPort := Atoi(v));
          ApplyOptions(argv, i + 2, s')
      else (s, Unrecognized(opt))
  }

  /** The proxy's global configuration variables. */
  class ServerConfig {
    var numListener: int
    var listenerPorts: seq<int>
    var numWorkers: int
    var fileserverIpaddr: string
    var fileserverPort: int
    var maxQueueSize: int

    function Current(): Settings
      reads this
    {
      Settings(numListener, listenerPorts, numWorkers, fileserverIpaddr, fileserverPort, maxQueueSize)
    }

    /** The globals before main runs: zero, empty. */
    constructor ()
      ensures Current() == Settings(0, [], 0, "", 0, 0)
    {
      numListener := 0;
      listenerPorts := [];
      numWorkers := 0;
      fileserverIpaddr := "";
      fileserverPort := 0;
      maxQueueSize := 0;
    }

    /** default_settings: one listener on port 8000, one worker, the file
        server at 127.0.0.1:3333 and a queue of 100. */
    method DefaultSettings()
      modifies this
      ensures Current() == Defaults()
    {
      numListener := 1;
      listenerPorts := [8000];
      numWorkers := 1;
      fileserverIpaddr := "127.0.0.1";
      fileserverPort := 3333;
      maxQueueSize := 100;
    }

    /** The option loop of main over `argv` (argv[0] is the program name). */
    method ParseOptions(argv: seq<string>) returns (outcome: OptionsOutcome)
      modifies this
      ensures (Current(), outcome) == ApplyOptions(argv, 1, old(Current()))
    {
      var i := 1;
      while i < |argv|
        invariant 1 <= i
        invariant ApplyOptions(argv, i, Current()) == ApplyOptions(argv, 1, old(Current()))
        decreases |argv| - i
      {
        var opt := argv[i];
        if opt == "-l" {
          if i + 1 >= |argv| {
            return MissingValue;
          }
          var n := Atoi(argv[i + 1]);
          var count := PortCount(n);
          if i + 2 + count > |argv| {
            return MissingValue;
          }
          numListener := n;
          var ports := ReadPorts(argv, i + 2, count);
          listenerPorts := ports;
          i := i + 2 + count;
        } else if opt == "-w" || opt == "-q" || opt == "-i" || opt == "-p" {
          if i + 1 >= |argv| {
            return MissingValue;
          }
          if opt == "-w" {
            numWorkers := Atoi(argv[i + 1]);
          } else if opt == "-q" {
            maxQueueSize := Atoi(argv[i + 1]);
          } else if opt == "-i" {
            fileserverIpaddr := argv[i + 1];
          } else {
            fileserverPort := Atoi(argv[i + 1]);
          }
          i := i + 2;
        } else {
          return Unrecognized(opt);
        }
      }
      return Configured;
    }
  }

  /** The port loop of "-l": reads `count` ports starting at `from`. */
  method ReadPorts(argv: seq<string>, from: nat, count: nat) returns (ports: seq<int>)
    requires from + count <= |argv|
    ensures ports == PortsAt(argv, from, count)
  {
    ports := [];
    var j := 0;
    while j < count
      invariant 0 <= j <= count
      invariant ports == PortsAt(argv, from, j)
    {
      ports := ports + [Atoi(argv[from + j])];
      j := j + 1;
    }
  }

  /** The decimal renderings of a list of numbers. */
  function Decimals(ns: seq<nat>): (ds: seq<string>)
    ensures |ds| == |ns|
    ensures forall k :: 0 <= k < |ns| ==> ds[k] == DecimalString(ns[k])
  {
    seq(|ns|, k requires 0 <= k < |ns| => DecimalString(ns[k]))
  }

  /** "-l n p1 ... pn" sets the number of listeners to n and the ports to
      p1 ... pn in order, and leaves every other setting alone. */
  lemma ListenerOption(prog: string, ports: seq<nat>, s: Settings)
    ensures var argv := [prog, "-l", DecimalString(|ports|)] + Decimals(ports);
      ApplyOptions(argv, 1, s) ==
        (s.(numListener := |ports|, listenerPorts := ports), Configured)
  {
    var argv := [prog, "-l", DecimalString(|ports|)] + Decimals(ports);
    var n := |ports|;
    AtoiOfDecimal(n);
    assert argv[1] == "-l" && argv[2] == DecimalString(n);
    assert argv[3..] == Decimals(ports);
    PortsOfDecimals(argv, 3, ports);
  }

  /** atoi reads back a decimal rendering on its own. */
  lemma AtoiOfDecimal(n: nat)
    ensures Atoi(DecimalString(n)) == n
  {
    AtoiDecimal(n, []);
    assert DecimalString(n) + [] == DecimalString(n);
  }

  /** The port loop reads back ports written in decimal. */
  lemma PortsOfDecimals(argv: seq<string>, from: nat, ports: seq<nat>)
    requires from + |ports| <= |argv| && argv[from..from + |ports|] == Decimals(ports)
    ensures PortsAt(argv, from, |ports|) == ports
  {
    var read := PortsAt(argv, from, |ports|);
    forall k | 0 <= k < |ports|
      ensures read[k] == ports[k]
    {
      assert argv[from + k] == argv[from..from + |ports|][k];
      AtoiOfDecimal(ports[k]);
    }
  }

  /** "-w v", "-q v" and "-p v" each set exactly one number, and "-i a"
      the file server address. */
  lemma SingleValueOptions(prog: string, v: nat, addr: string, s: Settings)
    ensures ApplyOptions([prog, "-w", DecimalString(v)], 1, s) == (s.(numWorkers := v), Configured)
    ensures ApplyOptions([prog, "-q", DecimalString(v)], 1, s) == (s.(maxQueueSize := v), Configured)
    ensures ApplyOptions([prog, "-p", DecimalString(v)], 1, s) == (s.(fileserverPort := v), Configured)
    ensures ApplyOptions([prog, "-i", addr], 1, s) == (s.(fileserverIpaddr := addr), Configured)
  {
    AtoiOfDecimal(v);
  }

  /** An option the loop does not know stops it with the usage message
      and no further change. */
  lemma UnrecognizedStops(argv: seq<string>, i: nat, s: Settings)
    requires i < |argv|
    requires argv[i] !in {"-l", "-w", "-q", "-i", "-p"}
    ensures ApplyOptions(argv, i, s) == (s, Unrecognized(argv[i]))
  {
  }

  /** What a listener keeps about a queued request. */
  datatype ProxyRequest = ProxyRequest(request: Request, clientFd: int, port: int)

  /** The one header of an error response and the blank line after it. */
  const RESPONSE_HEADERS: string := "Content-Type: text/html\r\n" + "\r\n"

  /** The bytes send_error_response writes: the status line, a Content-Type
      header, the blank line, then the message and a newline. */
  function ErrorResponse(code: nat, msg: string): (reply: string)
    ensures |reply| >= |msg| + 1 && reply[|reply| - |msg| - 1..] == msg + "\n"
  {
    StatusLine(code) + (RESPONSE_HEADERS + msg + "\n")
  }

  /** The reply begins with the status line of its code, which carries the
      code in decimal. */
  lemma ErrorResponseCode(code: nat, msg: string)
    ensures var reply := ErrorResponse(code, msg);
      reply[..|StatusLine(code)|] == StatusLine(code) &&
      Atoi(reply[9..]) == code
  {
    var rest := RESPONSE_HEADERS + msg + "\n";
    assert ErrorResponse(code, msg) == StatusLine(code) + rest;
    StatusLineCode(code, rest);
  }

  /** The message of the reply to "/GetJob" on an empty queue: the code
      formats the NULL job with %p, which the C library prints as
      "(nil)". */
  const NO_JOBS_MESSAGE: string := "Elem: (nil) | NO JOBS IN QUEUE!"
  const QUEUE_FULL_MESSAGE: string := "QUEUE IS FULL!"

  /** A NUL-terminated copy of a string, as the request's path is held. */
  method ToCString(s: string) returns (a: array<char>)
    requires '\0' !in s
    ensures fresh(a) && a[..] == s + ['\0']
    ensures CStr(a[..]) == s
  {
    a := new char[|s| + 1](k => if 0 <= k < |s| then s[k] else '\0');
    assert a[..] == s + ['\0'];
    CStrAt(a[..], |s|);
    assert a[..][..|s|] == s;
  }

  /** One round of the accept loop of serve_forever, after the request has
      been parsed: "/GetJob" takes the highest-priority job off the queue
      without blocking and answers with its path (or 598 when there is
      none); any other request is queued with parse_priority's priority, and
      a full queue answers 599.  `reply` is what goes back to this client
      now; `job` is the element dequeued or offered to the queue. */
  method ServeParsed(pq: PriorityQueue<ProxyRequest>, req: Request, clientFd: int, port: int)
    returns (reply: Option<string>, ghost job: Element<ProxyRequest>)
    requires pq.Valid()
    requires |req.path| > 0 && '\0' !in req.path
    modifies pq, pq.queue
    ensures pq.Valid() && pq.queue == old(pq.queue) && pq.capacity == old(pq.capacity)
    ensures req.path == GET_JOB_CMD && old(pq.size) == 0 ==>
      reply == Some(ErrorResponse(QUEUE_EMPTY, NO_JOBS_MESSAGE)) &&
      pq.size == 0 && pq.queue[..] == old(pq.queue[..])
    ensures req.path == GET_JOB_CMD && old(pq.size) > 0 ==>
      IsMaxOf(job, old(pq.Contents())) &&
      pq.Contents() == old(pq.Contents()) - multiset{job} &&
      reply == Some(ErrorResponse(OK, job.value.request.path))
    ensures req.path != GET_JOB_CMD ==>
      job == Element(0, ProxyRequest(req, clientFd, port)) &&
      (old(pq.size) == old(pq.capacity) ==>
        reply == Some(ErrorResponse(QUEUE_FULL, QUEUE_FULL_MESSAGE)) &&
        pq.size == old(pq.size) && pq.queue[..] == old(pq.queue[..])) &&
      (old(pq.size) < old(pq.capacity) ==>
        reply == None && pq.Contents() == old(pq.Contents()) + multiset{job})
  {
    if req.path == GET_JOB_CMD {
      var v;
      v, job := pq.Dequeue();
      if v.None? {
        reply := Some(ErrorResponse(QUEUE_EMPTY, NO_JOBS_MESSAGE));
      } else {
        reply := Some(ErrorResponse(OK, v.value.request.path));
      }
      return;
    }
    var pr := ProxyRequest(req, clientFd, port);
    var cpath := ToCString(req.path);
    var priority := ParsePriority(cpath);
    var elem := Element(priority, pr);
    job := elem;
    var r := pq.Enqueue(elem);
    if r < 0 {
      reply := Some(ErrorResponse(QUEUE_FULL, QUEUE_FULL_MESSAGE));
    } else {
      reply := None;
    }
  }
}
