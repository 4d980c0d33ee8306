// The small HTTP library of the scheduling proxy (proxyserver.h): parsing of
// a request line plus the proxy's own "Delay" header, and the reason phrase
// that goes with a status code.  The bytes a single read() returned are the
// input; everything the parser scans stops at the NUL that terminates them.

module ProxyHttp {

  import opened Wrappers
  import opened CStrings

  /** status_code_t */
  const OK: int := 200
  const BAD_REQUEST: int := 400
  const BAD_GATEWAY: int := 502
  const SERVER_ERROR: int := 500
  const QUEUE_FULL: int := 599
  const QUEUE_EMPTY: int := 598

  const GET_JOB_CMD: string := "/GetJob"
  const DELAY_HEADER: string := "\r\nDelay: "
  const LEN_DELAY_HEADER: nat := 9
  const LIBHTTP_REQUEST_MAX_SIZE: nat := 8192

  /** struct http_request */
  datatype Request = Request(httpMethod: string, path: string, delay: int)

  /** Characters a request path may hold: anything but NUL, space and
      newline. */
  predicate IsPathChar(c: char)
  {
    c != '\0' && c != ' ' && c != '\n'
  }

  /** Characters of the rest of a request line: anything but NUL and
      newline. */
  predicate IsLineChar(c: char)
  {
    c != '\0' && c != '\n'
  }

  /** The length of the run of characters satisfying `keep` that starts at
      `i` in the NUL-terminated buffer `buf`. */
  function Run(buf: string, i: nat, keep: char -> bool): (n: nat)
    requires !keep('\0')
    ensures i + n <= |buf| || n == 0
    ensures !keep(At(buf, i + n))
    decreases |buf| - i
  {
    if keep(At(buf, i)) then 1 + Run(buf, i + 1, keep) else 0
  }

  /** Every character of a run is kept. */
  lemma {:induction false} RunKept(buf: string, i: nat, keep: char -> bool)
    requires !keep('\0')
    ensures forall k :: i <= k < i + Run(buf, i, keep) ==> keep(At(buf, k))
    decreases |buf| - i
  {
    if keep(At(buf, i)) {
      RunKept(buf, i + 1, keep);
    }
  }

  /** A run is exactly as long as the stretch of kept characters before the
      first character that is not kept. */
  lemma {:induction false} RunExact(buf: string, i: nat, n: nat, keep: char -> bool)
    requires !keep('\0')
    requires forall k :: i <= k < i + n ==> keep(At(buf, k))
    requires !keep(At(buf, i + n))
    ensures Run(buf, i, keep) == n
    decreases n
  {
    if n > 0 {
      RunExact(buf, i + 1, n - 1, keep);
    }
  }

  /** `pat` occurs in `s` at position `k`. */
  predicate MatchAt(s: string, pat: string, k: nat)
  {
    k + |pat| <= |s| && s[k..k + |pat|] == pat
  }

  /** strstr: the first position at or after `from` where `pat` occurs. */
  function FindFrom(s: string, pat: string, from: nat): (r: Option<nat>)
    ensures r.Some? ==> from <= r.value && MatchAt(s, pat, r.value)
    decreases |s| - from
  {
    if from + |pat| > |s| then None
    else if s[from..from + |pat|] == pat then Some(from)
    else FindFrom(s, pat, from + 1)
  }

  /** strstr finds the first occurrence, and finds nothing only when there
      is no occurrence at all. */
  lemma {:induction false} FindFromFirst(s: string, pat: string, from: nat)
    ensures var r := FindFrom(s, pat, from);
      (r.Some? ==> forall k :: from <= k < r.value ==> !MatchAt(s, pat, k)) &&
      (r.None? ==> forall k :: from <= k ==> !MatchAt(s, pat, k))
    decreases |s| - from
  {
    if from + |pat| <= |s| && s[from..from + |pat|] != pat {
      FindFromFirst(s, pat, from + 1);
    }
  }

  /** The digits the delay block reads from the C string `cs`: the run of
      decimal digits right after the first "\r\nDelay: ", or nothing when
      the header is missing. */
  function DelayDigits(cs: string): (ds: string)
    ensures forall k :: 0 <= k < |ds| ==> IsDigit(ds[k])
  {
    match FindFrom(cs, DELAY_HEADER, 0)
    case None => []
    case Some(j) =>
      var start := j + LEN_DELAY_HEADER;
      DigitRunDigits(cs[start..]);
      cs[start..][..DigitRun(cs[start..])]
  }

  /** The delay the C string `cs` asks for: the value of its delay digits,
      0 when there are none. */
  function DelayIn(cs: string): int
  {
    DigitsValue(DelayDigits(cs))
  }

  /** The delay of a request buffer, searched for in its C string. */
  function DelayOf(buf: string): int
  {
    DelayIn(CStr(buf))
  }

  /** The delay is what atoi makes of the delay digits when there are any,
      0 otherwise, and it is never negative.  The request's `uint` field holds
      it exactly only below 2^32 (below 2^31 atoi cannot overflow); the model
      keeps larger values unbounded. */
  lemma DelayIsAtoi(cs: string)
    ensures DelayIn(cs) >= 0
    ensures |DelayDigits(cs)| > 0 ==> DelayIn(cs) == Atoi(DelayDigits(cs))
    ensures |DelayDigits(cs)| == 0 ==> DelayIn(cs) == 0
  {
    var ds := DelayDigits(cs);
    DigitsValueNonNegative(ds);
    if |ds| > 0 {
      AtoiOfDigits(ds);
    }
  }

  /** The request line http_request_parse accepts: its method and path. */
  datatype RequestLine = RequestLine(httpMethod: string, path: string)

  /** The request line of a buffer: a method of capital letters, one space,
      a path, and the rest of a line that must end in a newline; otherwise
      none. */
  function LineSpec(buf: string): Option<RequestLine>
  {
    var m := Run(buf, 0, IsUpper);
    if m == 0 then None
    else if At(buf, m) != ' ' then None
    else
      var p := Run(buf, m + 1, IsPathChar);
      if p == 0 then None
      else
        var e := m + 1 + p + Run(buf, m + 1 + p, IsLineChar);
        if At(buf, e) != '\n' then None
        else Some(RequestLine(buf[..m], buf[m + 1..m + 1 + p]))
  }

  /** What http_request_parse makes of a buffer: the request line, with the
      delay of the whole buffer. */
  function ParseSpec(buf: string): Option<Request>
  {
    match LineSpec(buf)
    case None => None
    case Some(line) => Some(Request(line.httpMethod, line.path, DelayOf(buf)))
  }

  /** The scanning loops of http_request_parse: advance `read_end` while
      the character under it is kept. */
  method SkipWhile(buf: string, i: nat, keep: char -> bool) returns (j: nat)
    requires !keep('\0')
    ensures j == i + Run(buf, i, keep)
  {
    j := i;
    while keep(At(buf, j))
      invariant i <= j
      invariant j + Run(buf, j, keep) == i + Run(buf, i, keep)
      decreases |buf| - j
    {
      j := j + 1;
    }
  }

  /** http_request_parse over the bytes one read() returned. */
  method ParseRequest(buf: string) returns (r: Option<Request>)
    ensures r == ParseSpec(buf)
  {
    var line := ReadRequestLine(buf);
    if line.None? {
      return None;
    }
    var delay := ReadDelay(CStr(buf));
    r := Some(Request(line.value.httpMethod, line.value.path, delay));
  }

  /** The request-line part of http_request_parse. */
  method ReadRequestLine(buf: string) returns (line: Option<RequestLine>)
    ensures line == LineSpec(buf)
  {
    // Method: "[A-Z]*"
    var m := SkipWhile(buf, 0, IsUpper);
    if m == 0 {
      return None;
    }
    // One space.
    if At(buf, m) != ' ' {
      return None;
    }
    // Path: "[^ \n]*"
    var pEnd := SkipWhile(buf, m + 1, IsPathChar);
    if pEnd == m + 1 {
      return None;
    }
    // The rest of the request line.
    var e := SkipWhile(buf, pEnd, IsLineChar);
    if At(buf, e) != '\n' {
      return None;
    }
    line := Some(RequestLine(buf[..m], buf[m + 1..pEnd]));
  }

  /** The delay-header block of http_request_parse, over the C string of
      the buffer: strstr for the header, the digit loop, then atoi. */
  method ReadDelay(cs: string) returns (delay: int)
    ensures delay == DelayIn(cs)
  {
    delay := 0;
    var found := FindFrom(cs, DELAY_HEADER, 0);
    if found.Some? {
      var start := found.value + LEN_DELAY_HEADER;
      var e := SkipDigits(cs, start);
      if e != start {
        delay := Atoi(cs[start..e]);
        assert cs[start..e] == DelayDigits(cs);
        DelayIsAtoi(cs);
      }
    }
  }

  /** The digit-reading loop of the delay block: advances over the decimal
      digits that start at `start`. */
  method SkipDigits(cs: string, start: nat) returns (e: nat)
    requires start <= |cs|
    ensures e == start + DigitRun(cs[start..])
  {
    e := start;
    while e < |cs| && IsDigit(cs[e])
      invariant start <= e <= |cs|
      invariant (e - start) + DigitRun(cs[e..]) == DigitRun(cs[start..])
    {
      assert cs[e..][1..] == cs[e + 1..];
      e := e + 1;
    }
  }

  /** A parsed request has a non-empty method of capital letters and a
      non-empty path free of NUL, space and newline, both read from the
      front of the buffer and separated by one space. */
  lemma ParseSound(buf: string)
    requires LineSpec(buf).Some?
    ensures var r := LineSpec(buf).value;
      |r.httpMethod| > 0 && (forall k :: 0 <= k < |r.httpMethod| ==> IsUpper(r.httpMethod[k])) &&
      |r.path| > 0 && (forall k :: 0 <= k < |r.path| ==> IsPathChar(r.path[k])) &&
      |r.httpMethod| + 1 + |r.path| <= |buf| &&
      buf[..|r.httpMethod| + 1 + |r.path|] == r.httpMethod + " " + r.path
  {
    var r := LineSpec(buf).value;
    var m := |r.httpMethod|;
    var p := |r.path|;
    assert m == Run(buf, 0, IsUpper);
    RunKept(buf, 0, IsUpper);
    RunKept(buf, m + 1, IsPathChar);
    forall k | 0 <= k < m
      ensures IsUpper(r.httpMethod[k])
    {
      assert IsUpper(At(buf, k));
    }
    forall k | 0 <= k < p
      ensures IsPathChar(r.path[k])
    {
      assert IsPathChar(At(buf, m + 1 + k));
    }
    assert buf[..m + 1 + p] == buf[..m] + [buf[m]] + buf[m + 1..m + 1 + p];
  }

  /** Any request line the parser's grammar allows is read back field for
      field: a method of capital letters, a space, a path, the rest of the
      line (empty or starting with a space) and a newline, followed by
      anything. */
  lemma ParseRoundTrip(meth: string, path: string, rest: string, tail: string)
    requires |meth| > 0 && forall k :: 0 <= k < |meth| ==> IsUpper(meth[k])
    requires |path| > 0 && forall k :: 0 <= k < |path| ==> IsPathChar(path[k])
    requires forall k :: 0 <= k < |rest| ==> IsLineChar(rest[k])
    requires |rest| == 0 || rest[0] == ' '
    ensures LineSpec(meth + " " + path + rest + "\n" + tail) == Some(RequestLine(meth, path))
  {
    var buf := meth + " " + path + rest + "\n" + tail;
    var m := |meth|;
    var p := |path|;
    var e := m + 1 + p;
    forall k | 0 <= k < m ensures At(buf, k) == meth[k] { }
    forall k | m + 1 <= k < e ensures At(buf, k) == path[k - m - 1] { }
    forall k | e <= k < e + |rest| ensures At(buf, k) == rest[k - e] { }
    assert buf[..m] == meth;
    assert buf[m + 1..e] == path;
    LineSpecAt(buf, m, p, |rest|);
  }

  /** The request line is read off a buffer whose characters have the
      right classes at the right offsets. */
  lemma LineSpecAt(buf: string, m: nat, p: nat, l: nat)
    requires m > 0 && forall k :: 0 <= k < m ==> IsUpper(At(buf, k))
    requires !IsUpper(At(buf, m)) && At(buf, m) == ' '
    requires p > 0 && forall k :: m + 1 <= k < m + 1 + p ==> IsPathChar(At(buf, k))
    requires !IsPathChar(At(buf, m + 1 + p))
    requires forall k :: m + 1 + p <= k < m + 1 + p + l ==> IsLineChar(At(buf, k))
    requires At(buf, m + 1 + p + l) == '\n'
    ensures m + 1 + p <= |buf|
    ensures LineSpec(buf) == Some(RequestLine(buf[..m], buf[m + 1..m + 1 + p]))
  {
    RunExact(buf, 0, m, IsUpper);
    RunExact(buf, m + 1, p, IsPathChar);
    RunExact(buf, m + 1 + p, l, IsLineChar);
  }

  /** A request whose first delay header is followed by the decimal digits
      of `d` has delay `d`. */
  lemma DelayRoundTrip(buf: string, d: nat, post: string)
    requires FindFrom(CStr(buf), DELAY_HEADER, 0).Some?
    requires var j := FindFrom(CStr(buf), DELAY_HEADER, 0).value;
      CStr(buf)[j + LEN_DELAY_HEADER..] == DecimalString(d) + post
    requires |post| == 0 || !IsDigit(post[0])
    ensures DelayOf(buf) == d
  {
    var cs := CStr(buf);
    var j := FindFrom(cs, DELAY_HEADER, 0).value;
    var ds := DecimalString(d);
    DigitRunOfDigits(ds, post);
    assert cs[j + LEN_DELAY_HEADER..][..|ds|] == ds;
    assert cs[j + LEN_DELAY_HEADER..j + LEN_DELAY_HEADER + |ds|] == ds;
    DecimalStringValue(d);
  }

  /** A buffer without the delay header asks for no delay. */
  lemma NoHeaderNoDelay(buf: string)
    requires forall k :: !MatchAt(CStr(buf), DELAY_HEADER, k)
    ensures DelayOf(buf) == 0
  {
  }

  /** http_get_response_message */
  function ReasonPhrase(code: int): string
  {
    match code
    case 100 => "Continue"
    case 200 => "OK"
    case 301 => "Moved Permanently"
    case 302 => "Found"
    case 304 => "Not Modified"
    case 400 => "Bad Request"
    case 401 => "Unauthorized"
    case 403 => "Forbidden"
    case 404 => "Not Found"
    case 405 => "Method Not Allowed"
    case _ => "Internal Server Error"
  }

  /** The proxy's own statuses other than 200 and 400 (502, 500, 599, 598)
      have no phrase of their own and go out as "Internal Server Error". */
  lemma ProxyStatusPhrases()
    ensures ReasonPhrase(OK) == "OK" && ReasonPhrase(BAD_REQUEST) == "Bad Request"
    ensures forall c :: c in {BAD_GATEWAY, SERVER_ERROR, QUEUE_FULL, QUEUE_EMPTY} ==>
      ReasonPhrase(c) == "Internal Server Error"
  {
  }

  /** The codes http_get_response_message has a phrase of its own for. */
  const PHRASED_CODES: set<int> := {100, 200, 301, 302, 304, 400, 401, 403, 404, 405}

  /** Exactly the codes outside the table go out as "Internal Server Error";
      no code in the table shares that phrase. */
  lemma ReasonPhraseDefault(code: int)
    ensures ReasonPhrase(code) == "Internal Server Error" <==> code !in PHRASED_CODES
    ensures code in PHRASED_CODES ==> |ReasonPhrase(code)| > 0
  {
  }

  const HTTP_VERSION: string := "HTTP/1.0 "

  /** What follows the code in a status line: a space, the reason phrase
      and CRLF. */
  function StatusTail(code: int): (t: string)
    ensures |t| >= 3 && t[0] == ' '
  {
    " " + ReasonPhrase(code) + "\r\n"
  }

  /** http_start_response: the status line "HTTP/1.0 <code> <phrase>\r\n". */
  function StatusLine(code: nat): string
  {
    HTTP_VERSION + DecimalString(code) + StatusTail(code)
  }

  /** The status line carries the code in decimal right after the version,
      whatever follows the line. */
  lemma StatusLineCode(code: nat, rest: string)
    ensures |StatusLine(code)| > |HTTP_VERSION| == 9
    ensures Atoi((StatusLine(code) + rest)[9..]) == code
  {
    StatusLineAfterVersion(code, rest);
    AtoiDecimal(code, StatusTail(code) + rest);
  }

  /** After the version, a status line and whatever follows it read as the
      code's digits, then the tail. */
  lemma StatusLineAfterVersion(code: nat, rest: string)
    ensures |StatusLine(code)| > |HTTP_VERSION| == 9
    ensures (StatusLine(code) + rest)[9..] == DecimalString(code) + (StatusTail(code) + rest)
  {
    assert |HTTP_VERSION| == 9;
    DropFront(HTTP_VERSION, DecimalString(code), StatusTail(code), rest);
  }

  /** Dropping the first part of a four-part concatenation. */
  lemma DropFront(a: string, b: string, c: string, d: string)
    ensures (a + b + c + d)[|a|..] == b + (c + d)
  {
  }
}
