// wgroff: turns a small troff-like source file into a formatted manual
// page.  The source arrives as the sequence of chunks `fgets` returns; the
// result is what is printed and what is written to "<command>.<section>".
// Opening and reading files is outside this model.

module Wgroff {
  import opened Wrappers
  import opened CStrings

  const OUTPUT_LENGTH: nat := 80
  const DATE_STR_LENGTH: nat := 10
  const COMMENT: char := '#'
  const SPACE: char := ' '

  const INDENT: string := "       "
  const ANSI_BOLD: string := "/033[1m"
  const ANSI_ITALIC: string := "/033[3m"
  const ANSI_UNDERLINE: string := "/033[4m"
  const ANSI_NORMAL: string := "/033[0m"

  const RETURN_1: string := "\nReturn `1`\n"
  const RETURN_3: string := "\nReturn `3`\n"

  // ---------------------------------------------------------------------
  // write_line: the in-file control sequences and their rendering.
  // ---------------------------------------------------------------------

  /** One unit of a text line, as the left-to-right scan recognises it. */
  datatype Piece = Bold | Italic | Underline | Normal | Slash | Plain(c: char)

  /** The in-file text of a piece. */
  function InText(p: Piece): string
  {
    match p
    case Bold => "/fB"
    case Italic => "/fI"
    case Underline => "/fU"
    case Normal => "/fP"
    case Slash => "//"
    case Plain(c) => [c]
  }

  /** The text a piece is written as. */
  function OutText(p: Piece): string
  {
    match p
    case Bold => ANSI_BOLD
    case Italic => ANSI_ITALIC
    case Underline => ANSI_UNDERLINE
    case Normal => ANSI_NORMAL
    case Slash => "/"
    case Plain(c) => [c]
  }

  predicate IsStyle(p: Piece)
  {
    p.Bold? || p.Italic? || p.Underline? || p.Normal?
  }

  /** The piece at the front of `u`: the control sequences are tried in order, else one character. */
  function Next(u: string): (p: Piece)
    requires |u| > 0
    ensures InText(p) <= u
    ensures p.Plain? ==> p.c == u[0]
  {
    if "/fB" <= u then Bold
    else if "/fI" <= u then Italic
    else if "/fU" <= u then Underline
    else if "/fP" <= u then Normal
    else if "//" <= u then Slash
    else Plain(u[0])
  }

  /** The pieces of a line, left to right. */
  function Pieces(u: string): seq<Piece>
    decreases |u|
  {
    if |u| == 0 then []
    else
      var p := Next(u);
      [p] + Pieces(u[|InText(p)|..])
  }

  function Source(ps: seq<Piece>): string
  {
    if |ps| == 0 then "" else InText(ps[0]) + Source(ps[1..])
  }

  function Emit(ps: seq<Piece>): string
  {
    if |ps| == 0 then "" else OutText(ps[0]) + Emit(ps[1..])
  }

  function Styles(ps: seq<Piece>): nat
  {
    if |ps| == 0 then 0 else (if IsStyle(ps[0]) then 1 else 0) + Styles(ps[1..])
  }

  function Slashes(ps: seq<Piece>): nat
  {
    if |ps| == 0 then 0 else (if ps[0] == Slash then 1 else 0) + Slashes(ps[1..])
  }

  /** The rendered line (without indent). */
  function Render(line: string): string
  {
    Emit(Pieces(line))
  }

  /** The scan splits the line exactly: its pieces put together are the line. */
  lemma {:induction false} PiecesCover(u: string)
    ensures Source(Pieces(u)) == u
    decreases |u|
  {
    if |u| > 0 {
      var p := Next(u);
      var n := |InText(p)|;
      PiecesCover(u[n..]);
      assert Pieces(u)[1..] == Pieces(u[n..]);
      assert u == u[..n] + u[n..];
    }
  }

  /** Each style sequence grows by 4 characters and each "//" shrinks by 1. */
  lemma {:induction false} EmitLength(ps: seq<Piece>)
    ensures |Emit(ps)| == |Source(ps)| + 4 * Styles(ps) - Slashes(ps)
  {
    if |ps| > 0 {
      EmitLength(ps[1..]);
    }
  }

  /** The rendered length: the line's length, plus 4 per style sequence, minus 1 per "//". */
  lemma RenderLength(line: string)
    ensures |Render(line)| == |line| + 4 * Styles(Pieces(line)) - Slashes(Pieces(line))
  {
    PiecesCover(line);
    EmitLength(Pieces(line));
  }

  /** A line without '/' is copied unchanged. */
  lemma {:induction false} RenderPlain(u: string)
    requires '/' !in u
    ensures Render(u) == u
    decreases |u|
  {
    if |u| > 0 {
      assert Next(u) == Plain(u[0]);
      RenderPlain(u[1..]);
      assert Pieces(u)[1..] == Pieces(u[1..]);
      assert u == [u[0]] + u[1..];
    }
  }

  lemma ConcatAssoc<T>(a: seq<T>, b: seq<T>, c: seq<T>)
    ensures (a + b) + c == a + (b + c)
  {
  }

  /** One step of the write_line loop. */
  lemma RenderStep(line: string, i: nat, buffer: string)
    requires i < |line| && buffer + Emit(Pieces(line[i..])) == Render(line)
    ensures (buffer + OutText(Next(line[i..]))) + Emit(Pieces(line[i + |InText(Next(line[i..]))|..])) == Render(line)
  {
    var u := line[i..];
    var p := Next(u);
    var n := |InText(p)|;
    assert u[n..] == line[i + n..];
    assert Emit(Pieces(u)) == OutText(p) + Emit(Pieces(u[n..]));
    ConcatAssoc(buffer, OutText(p), Emit(Pieces(u[n..])));
  }

  /** write_line: the line, rendered, after a 7-space indent. */
  method WriteLine(line: string) returns (out: string)
    ensures out == INDENT + Render(line) + "\n"
  {
    var buffer := "";
    var i := 0;
    while i < |line|
      invariant i <= |line|
      invariant buffer + Emit(Pieces(line[i..])) == Render(line)
    {
      RenderStep(line, i, buffer);
      var p := Next(line[i..]);
      buffer := buffer + OutText(p);
      i := i + |InText(p)|;
    }
    assert line[i..] == [];
    out := INDENT + buffer + "\n";
  }

  // ---------------------------------------------------------------------
  // The first and last lines, and section headers.
  // ---------------------------------------------------------------------

  function Spaces(n: nat): string
  {
    seq(n, _ => SPACE)
  }

  /** The padding loop: `n` spaces and a terminator, read back as a C string. */
  method Padding(n: nat) returns (spaces: string)
    ensures spaces == Spaces(n)
  {
    var buf := new char[n + 1];
    var i := 0;
    while i <= n
      invariant i <= n + 1
      invariant forall k :: 0 <= k < i ==> buf[k] == SPACE
    {
      buf[i] := SPACE;
      i := i + 1;
    }
    buf[n] := '\0';
    CStrAt(buf[..], n);
    spaces := CStr(buf[..]);
    assert spaces == buf[..n];
  }

  /** "<command>(<section>)". */
  function Heading(command: string, section: nat): string
  {
    command + "(" + DecimalString(section) + ")"
  }

  /** The width write_first_line and write_last_line assume for the heading. */
  lemma HeadingWidth(command: string, section: nat)
    requires 1 <= section <= 9
    ensures |Heading(command, section)| == |command| + 3
  {
  }

  /** write_first_line: the heading at both ends of an 80-column line. */
  method WriteFirstLine(command: string, section: nat) returns (line: string)
    requires 1 <= section <= 9 && 2 * (|command| + 3) <= OUTPUT_LENGTH
    ensures |line| == OUTPUT_LENGTH + 1
    ensures line == Heading(command, section) + Spaces(OUTPUT_LENGTH - 2 * (|command| + 3))
      + Heading(command, section) + "\n"
  {
    var nSpaces := OUTPUT_LENGTH - 2 * (|command| + 3);
    var spaces := Padding(nSpaces);
    HeadingWidth(command, section);
    line := Heading(command, section) + spaces + Heading(command, section) + "\n";
  }

  /** C's `/`, which truncates toward zero. */
  function CDiv(a: int, b: int): (q: int)
    requires b > 0
    ensures a >= 0 ==> 0 <= q * b <= a < q * b + b
    ensures a < 0 ==> q * b - b < a <= q * b <= 0
  {
    if a >= 0 then DivBounds(a, b); a / b
    else DivBounds(-a, b); NegTimes((-a) / b, b); -((-a) / b)
  }

  /** Euclidean division on a non-negative dividend brackets it between two multiples of b. */
  lemma DivBounds(a: nat, b: int)
    requires b > 0
    ensures 0 <= (a / b) * b <= a < (a / b) * b + b
  {
  }

  lemma NegTimes(x: int, b: int)
    ensures (-x) * b == -(x * b)
  {
  }

  /** write_last_line: the date centred between the two headings on an 80-column line. */
  method WriteLastLine(command: string, section: nat, date: string) returns (line: string)
    requires 1 <= section <= 9 && |date| == DATE_STR_LENGTH
    requires DATE_STR_LENGTH + 2 * (|command| + 3) <= OUTPUT_LENGTH
    ensures |line| == OUTPUT_LENGTH + 1
    ensures line == Heading(command, section) + Spaces(32 - |command|) + date
      + Spaces(32 - |command|) + Heading(command, section) + "\n"
  {
    var nSpaces := CDiv(OUTPUT_LENGTH - (DATE_STR_LENGTH + 2 * (|command| + 3)), 2);
    var spaces := Padding(nSpaces);
    HeadingWidth(command, section);
    line := Heading(command, section) + spaces + date + spaces + Heading(command, section) + "\n";
  }

  function Upper(s: string): string
  {
    seq(|s|, k requires 0 <= k < |s| => ToUpper(s[k]))
  }

  /** Upper-casing leaves no lower-case letter and changes nothing that is not one. */
  lemma UpperEffect(s: string)
    ensures forall k :: 0 <= k < |s| ==> !IsLower(Upper(s)[k])
    ensures forall k :: 0 <= k < |s| && !IsLower(s[k]) ==> Upper(s)[k] == s[k]
    ensures Upper(Upper(s)) == Upper(s)
  {
  }

  function HeaderText(name: string): string
  {
    "\n" + ANSI_BOLD + name + ANSI_NORMAL + "\n"
  }

  /** write_section_header: upper-cases the name in place, then writes it in bold. */
  method WriteSectionHeader(name: array<char>) returns (out: string)
    modifies name
    ensures name[..] == Upper(old(name[..]))
    ensures out == HeaderText(name[..])
  {
    var i := 0;
    while i < name.Length
      invariant i <= name.Length
      invariant forall k :: 0 <= k < i ==> name[k] == ToUpper(old(name[k]))
      invariant forall k :: i <= k < name.Length ==> name[k] == old(name[k])
    {
      name[i] := ToUpper(name[i]);
      i := i + 1;
    }
    out := HeaderText(name[..]);
  }

  // ---------------------------------------------------------------------
  // The sscanf conversions the title and section lines are read with.
  // ---------------------------------------------------------------------

  /** Index of the first non-white-space character at or after `i`. */
  function SkipWs(s: string, i: nat): (j: nat)
    requires i <= |s|
    ensures i <= j <= |s|
    ensures forall k :: i <= k < j ==> IsSpace(s[k])
    ensures j < |s| ==> !IsSpace(s[j])
    decreases |s| - i
  {
    if i < |s| && IsSpace(s[i]) then SkipWs(s, i + 1) else i
  }

  /** Index of the first white-space character at or after `i`. */
  function WordEnd(s: string, i: nat): (j: nat)
    requires i <= |s|
    ensures i <= j <= |s|
    ensures forall k :: i <= k < j ==> !IsSpace(s[k])
    ensures j < |s| ==> IsSpace(s[j])
    decreases |s| - i
  {
    if i < |s| && !IsSpace(s[i]) then WordEnd(s, i + 1) else i
  }

  /** `%s`: skips white space, then takes the longest non-empty run of other characters. */
  function ScanWord(s: string, i: nat): (r: Option<(string, nat)>)
    requires i <= |s|
    ensures r.Some? ==> i < r.value.1 <= |s| && |r.value.0| > 0
  {
    var j := SkipWs(s, i);
    var k := WordEnd(s, j);
    if k == j then None else Some((s[j..k], k))
  }

  /** The value of `c` as a digit in `base` (8, 10 or 16), if it is one. */
  function DigitIn(c: char, base: nat): Option<nat>
  {
    if '0' <= c <= '9' && (c as int - '0' as int) < base then Some((c as int - '0' as int) as nat)
    else if base == 16 && 'a' <= c <= 'f' then Some((c as int - 'a' as int + 10) as nat)
    else if base == 16 && 'A' <= c <= 'F' then Some((c as int - 'A' as int + 10) as nat)
    else None
  }

  /** End of the run of `base` digits starting at `i`. */
  function DigitsEnd(s: string, i: nat, base: nat): (j: nat)
    requires i <= |s|
    ensures i <= j <= |s|
    ensures forall k :: i <= k < j ==> DigitIn(s[k], base).Some?
    decreases |s| - i
  {
    if i < |s| && DigitIn(s[i], base).Some? then DigitsEnd(s, i + 1, base) else i
  }

  /** The value of the `base` digits `s[i..j]`. */
  function ValueIn(s: string, i: nat, j: nat, base: nat): nat
    requires i <= j <= |s|
    requires forall k :: i <= k < j ==> DigitIn(s[k], base).Some?
    decreases j - i
  {
    if j == i then 0 else ValueIn(s, i, j - 1, base) * base + DigitIn(s[j - 1], base).value
  }

  /** `%i`: skips white space, takes a sign, then a hexadecimal ("0x"), octal ("0") or decimal number. */
  function ScanInt(s: string, i: nat): (r: Option<(int, nat)>)
    requires i <= |s|
    ensures r.Some? ==> i < r.value.1 <= |s|
  {
    var j := SkipWs(s, i);
    var neg := j < |s| && s[j] == '-';
    var k := if j < |s| && (s[j] == '-' || s[j] == '+') then j + 1 else j;
    var (base, from) :=
      if k + 2 < |s| && s[k] == '0' && (s[k + 1] == 'x' || s[k + 1] == 'X') && DigitIn(s[k + 2], 16).Some? then (16, k + 2)
      else if k < |s| && s[k] == '0' then (8, k)
      else (10, k);
    var e := DigitsEnd(s, from, base);
    if e == from then None
    else
      var v: int := ValueIn(s, from, e, base);
      Some((if neg then -v else v, e))
  }

  /** The fields of the title line ".TH <command> <section> <date>". */
  datatype Title = Title(command: string, section: int, date: string)

  /** `sscanf(line, ".TH %s %i %s\n", ...)` filling all three fields. */
  function ParseTitle(line: string): (t: Option<Title>)
    ensures t.Some? ==> ".TH" <= line && |t.value.command| > 0 && |t.value.date| > 0
  {
    if !(".TH" <= line) then None
    else match ScanWord(line, 3)
      case None => None
      case Some((command, i)) =>
        match ScanInt(line, i)
        case None => None
        case Some((section, j)) =>
          match ScanWord(line, j)
          case None => None
          case Some((date, _)) => Some(Title(command, section, date))
  }

  /** `sscanf(line, ".SH %s\n", name)` filling the name: the first word after ".SH". */
  function SectionName(line: string): (name: Option<string>)
    ensures name.Some? ==> ".SH" <= line && |name.value| > 0
  {
    if ".SH" <= line then
      match ScanWord(line, 3)
      case None => None
      case Some((w, _)) => Some(w)
    else None
  }

  predicate AllSpace(s: string, i: nat, j: nat)
    requires i <= j <= |s|
  {
    forall m :: i <= m < j ==> IsSpace(s[m])
  }

  predicate NoSpace(s: string, i: nat, j: nat)
    requires i <= j <= |s|
  {
    forall m :: i <= m < j ==> !IsSpace(s[m])
  }

  /** A word followed by white space or the end is what `%s` reads. */
  lemma ScanWordAt(s: string, i: nat, j: nat, k: nat)
    requires i <= j < k <= |s|
    requires AllSpace(s, i, j) && NoSpace(s, j, k)
    requires k == |s| || IsSpace(s[k])
    ensures ScanWord(s, i) == Some((s[j..k], k))
  {
    SkipWsAt(s, i, j);
    WordEndAt(s, j, k);
  }

  lemma {:induction false} SkipWsAt(s: string, i: nat, j: nat)
    requires i <= j <= |s|
    requires forall m :: i <= m < j ==> IsSpace(s[m])
    requires j == |s| || !IsSpace(s[j])
    ensures SkipWs(s, i) == j
    decreases j - i
  {
    if i < j {
      SkipWsAt(s, i + 1, j);
    }
  }

  lemma {:induction false} WordEndAt(s: string, j: nat, k: nat)
    requires j <= k <= |s|
    requires forall m :: j <= m < k ==> !IsSpace(s[m])
    requires k == |s| || IsSpace(s[k])
    ensures WordEnd(s, j) == k
    decreases k - j
  {
    if j < k {
      WordEndAt(s, j + 1, k);
    }
  }

  /** A single digit 1-9 followed by white space is what `%i` reads. */
  lemma ScanIntDigit(s: string, i: nat, j: nat)
    requires i <= j && j + 1 < |s|
    requires AllSpace(s, i, j)
    requires '1' <= s[j] <= '9' && IsSpace(s[j + 1])
    ensures ScanInt(s, i) == Some((DigitValue(s[j]), j + 1))
  {
    SkipWsAt(s, i, j);
    assert DigitIn(s[j + 1], 10).None?;
    assert DigitsEnd(s, j + 1, 10) == j + 1;
    assert DigitsEnd(s, j, 10) == j + 1;
    assert ValueIn(s, j, j + 1, 10) == DigitValue(s[j]);
  }

  /** A title line laid out as ".TH", a space, a word, a space, a digit 1-9, a space and a word. */
  lemma TitleAt(line: string, a: nat, e: nat)
    requires 4 < a && a + 3 < e < |line|
    requires line[..3] == ".TH" && line[3] == ' ' && line[a] == ' ' && line[a + 2] == ' ' && IsSpace(line[e])
    requires '1' <= line[a + 1] <= '9'
    requires NoSpace(line, 4, a) && NoSpace(line, a + 3, e)
    ensures ParseTitle(line) == Some(Title(line[4..a], DigitValue(line[a + 1]), line[a + 3..e]))
  {
    assert AllSpace(line, 3, 4) && AllSpace(line, a, a + 1) && AllSpace(line, a + 2, a + 3);
    ScanWordAt(line, 3, 4, a);
    ScanIntDigit(line, a, a + 1);
    ScanWordAt(line, a + 2, a + 3, e);
  }

  /** A well-formed title line is read back field by field. */
  lemma TitleRoundTrip(command: string, section: nat, date: string)
    requires 1 <= section <= 9
    requires |command| > 0 && forall m :: 0 <= m < |command| ==> !IsSpace(command[m])
    requires |date| > 0 && forall m :: 0 <= m < |date| ==> !IsSpace(date[m])
    ensures ParseTitle(".TH " + command + " " + [DigitChar(section)] + " " + date + "\n")
      == Some(Title(command, section, date))
  {
    var c := DigitChar(section);
    var tail := [c] + " " + date + "\n";
    var line := ".TH " + command + " " + tail;
    var a := 4 + |command|;
    var e := a + 3 + |date|;
    assert line == ".TH " + command + " " + [DigitChar(section)] + " " + date + "\n";
    LayoutHead(command, tail);
    LayoutTail(c, date);
    assert line[a + 1..] == tail;
    assert NoSpace(line, 4, a) && NoSpace(line, a + 3, e);
    TitleAt(line, a, e);
  }

  /** The front of the title line: ".TH ", the command, a space. */
  lemma LayoutHead(command: string, tail: string)
    ensures var line := ".TH " + command + " " + tail;
      line[..3] == ".TH" && line[3] == ' ' && line[4..4 + |command|] == command
      && line[4 + |command|] == ' ' && line[5 + |command|..] == tail
  {
  }

  /** The back of the title line: the digit, a space, the date, a newline. */
  lemma LayoutTail(c: char, date: string)
    ensures var tail := [c] + " " + date + "\n";
      tail[0] == c && tail[1] == ' ' && tail[2..2 + |date|] == date && tail[2 + |date|] == '\n'
  {
  }

  // ---------------------------------------------------------------------
  // parse_file.
  // ---------------------------------------------------------------------

  /** "Improper formatting on line %i\n". */
  function Improper(lineNo: nat): string
  {
    "Improper formatting on line " + DecimalString(lineNo) + "\n"
  }

  /** OUT_FILE, "%s.%i". */
  function OutName(command: string, section: nat): string
  {
    command + "." + DecimalString(section)
  }

  /** The output name holds the command, a dot, and the section number read back by atoi. */
  lemma OutNameParts(command: string, section: nat)
    ensures OutName(command, section)[..|command|] == command
    ensures OutName(command, section)[|command|] == '.'
    ensures Atoi(OutName(command, section)[|command| + 1..]) == section
  {
    var name := OutName(command, section);
    assert name[|command| + 1..] == DecimalString(section) + "";
    AtoiDecimal(section, "");
  }

  /** How a body line is handled. */
  datatype LineKind = Comment | Header(name: string) | BadHeader | Text

  predicate SHAt(line: string, k: nat)
  {
    k + 3 <= |line| && line[k..k + 3] == ".SH"
  }

  /** strstr(line, ".SH") != NULL. */
  predicate HasSH(line: string)
  {
    exists k: nat :: k < |line| && SHAt(line, k)
  }

  /** A line starting with '#' is a comment; one containing ".SH" must be a section header. */
  function Classify(line: string): (kind: LineKind)
    ensures kind.Comment? <==> |line| > 0 && line[0] == COMMENT
    ensures kind.Header? ==> ".SH" <= line && |kind.name| > 0
    ensures kind.BadHeader? ==> HasSH(line)
    ensures kind.Text? ==> !HasSH(line)
  {
    if |line| > 0 && line[0] == COMMENT then Comment
    else if HasSH(line) then
      match SectionName(line)
      case None => BadHeader
      case Some(name) => Header(name)
    else Text
  }

  /** A ".SH" anywhere but at the start of a line is a formatting error. */
  lemma MisplacedHeader(line: string)
    requires |line| > 0 && line[0] != COMMENT && HasSH(line) && !(".SH" <= line)
    ensures Classify(line) == BadHeader
  {
  }

  /** What the body lines produce: the text written, and the first badly formatted line. */
  datatype Body = Body(text: string, badLine: Option<nat>)

  function Prepend(t: string, b: Body): Body
  {
    Body(t + b.text, b.badLine)
  }

  /** The output for a body line other than a comment or a bad header. */
  function LineText(kind: LineKind, line: string): string
  {
    if kind.Header? then HeaderText(Upper(kind.name)) else INDENT + Render(line) + "\n"
  }

  /** The body, from line number `lineNo` on; processing stops at the first bad header. */
  function FormatBody(lines: seq<string>, lineNo: nat): Body
    decreases |lines|
  {
    if |lines| == 0 then Body("", None)
    else
      var kind := Classify(lines[0]);
      if kind.Comment? then FormatBody(lines[1..], lineNo + 1)
      else if kind.BadHeader? then Body("", Some(lineNo))
      else Prepend(LineText(kind, lines[0]), FormatBody(lines[1..], lineNo + 1))
  }

  /** Comment lines add nothing to the text. */
  lemma {:induction false} CommentsIgnored(lines: seq<string>, k: nat, comment: string, lineNo: nat)
    requires k <= |lines| && |comment| > 0 && comment[0] == COMMENT
    ensures FormatBody(lines[..k] + [comment] + lines[k..], lineNo).text == FormatBody(lines, lineNo).text
    ensures FormatBody(lines[..k] + [comment] + lines[k..], lineNo).badLine.None?
      <==> FormatBody(lines, lineNo).badLine.None?
    decreases k
  {
    var with := lines[..k] + [comment] + lines[k..];
    if k == 0 {
      assert with[0] == comment && with[1..] == lines;
      CommentsShift(lines, lineNo);
    } else {
      assert with[0] == lines[0];
      assert with[1..] == lines[1..][..k - 1] + [comment] + lines[1..][k - 1..];
      CommentsIgnored(lines[1..], k - 1, comment, lineNo + 1);
    }
  }

  /** Shifting the line numbers changes only the number reported. */
  lemma {:induction false} CommentsShift(lines: seq<string>, lineNo: nat)
    ensures FormatBody(lines, lineNo + 1).text == FormatBody(lines, lineNo).text
    ensures FormatBody(lines, lineNo + 1).badLine.None? <==> FormatBody(lines, lineNo).badLine.None?
    decreases |lines|
  {
    if |lines| > 0 {
      CommentsShift(lines[1..], lineNo + 1);
    }
  }

  /** What a run prints, and the name and contents of the file it writes. */
  datatype Output = Output(printed: string, fileName: Option<string>, fileText: string)

  /** The title's command fits the 80-column first and last lines. */
  predicate Fits(title: Title)
  {
    DATE_STR_LENGTH + 2 * (|title.command| + 3) <= OUTPUT_LENGTH
  }

  /** A title that passes parse_file's checks has a command short enough to pad;
      titles the checks refuse are printed as errors before any padding. */
  predicate TitleFits(lines: seq<string>)
  {
    |lines| > 0 && ParseTitle(lines[0]).Some? && 1 <= ParseTitle(lines[0]).value.section <= 9
    && |ParseTitle(lines[0]).value.date| == DATE_STR_LENGTH
    ==> Fits(ParseTitle(lines[0]).value)
  }

  /** parse_file: the title is validated, then the body is formatted between the first and last lines. */
  function Wgroff(lines: seq<string>): Output
    requires TitleFits(lines)
  {
    if |lines| == 0 then Output(Improper(1) + RETURN_1, None, "")
    else match ParseTitle(lines[0])
      case None => Output(Improper(1), None, "")
      case Some(t) =>
        if t.section < 1 || t.section > 9 then Output(Improper(1) + RETURN_3, None, "")
        else if |t.date| != DATE_STR_LENGTH then Output(Improper(1), None, "")
        else
          var section := t.section as nat;
          var heading := Heading(t.command, section);
          var pad := 32 - |t.command|;
          var first := heading + Spaces(OUTPUT_LENGTH - 2 * (|t.command| + 3)) + heading + "\n";
          var last := heading + Spaces(pad) + t.date + Spaces(pad) + heading + "\n";
          var body := FormatBody(lines[1..], 2);
          if body.badLine.None? then Output("", Some(OutName(t.command, section)), first + body.text + last)
          else Output(Improper(body.badLine.value), Some(OutName(t.command, section)), first + body.text)
  }

  /** A title line is accepted exactly when it reads fully, names a section 1-9 and a 10-character date. */
  lemma TitleAccepted(lines: seq<string>)
    requires TitleFits(lines)
    ensures Wgroff(lines).fileName.Some? <==>
      |lines| > 0 && ParseTitle(lines[0]).Some? && 1 <= ParseTitle(lines[0]).value.section <= 9
      && |ParseTitle(lines[0]).value.date| == DATE_STR_LENGTH
    ensures Wgroff(lines).fileName.None? ==> (Wgroff(lines).fileText == ""
      && Improper(1) <= Wgroff(lines).printed)
  {
  }

  /** One step of the parse_file loop. */
  lemma BodyStep(lines: seq<string>, i: nat)
    requires i < |lines|
    ensures FormatBody(lines[i..], i + 1) ==
      var kind := Classify(lines[i]);
      if kind.Comment? then FormatBody(lines[i + 1..], i + 2)
      else if kind.BadHeader? then Body("", Some(i + 1))
      else Prepend(LineText(kind, lines[i]), FormatBody(lines[i + 1..], i + 2))
  {
    assert lines[i..][0] == lines[i];
    assert lines[i..][1..] == lines[i + 1..];
  }

  /** Text accumulated before a step, plus what the step adds, keeps the loop's total. */
  lemma TextStep(text: string, t: string, b: Body, whole: string)
    requires text + (t + b.text) == whole
    ensures (text + t) + b.text == whole
  {
    ConcatAssoc(text, t, b.text);
  }

  /** The output for one header or text line. */
  method WriteBodyLine(kind: LineKind, line: string) returns (written: string)
    requires kind == Classify(line) && (kind.Header? || kind.Text?)
    ensures written == LineText(kind, line)
  {
    if kind.Header? {
      var name := new char[|kind.name|](k requires 0 <= k < |kind.name| => kind.name[k]);
      assert name[..] == kind.name;
      written := WriteSectionHeader(name);
    } else {
      written := WriteLine(line);
    }
  }

  /** The loop of parse_file over the lines after the title. */
  method FormatLines(lines: seq<string>) returns (body: Body)
    requires |lines| > 0
    ensures body == FormatBody(lines[1..], 2)
  {
    ghost var whole := FormatBody(lines[1..], 2);
    var text := "";
    var bad: Option<nat> := None;
    var i := 1;
    while i < |lines| && bad.None?
      invariant 1 <= i <= |lines|
      invariant bad.None? ==> (text + FormatBody(lines[i..], i + 1).text == whole.text
        && FormatBody(lines[i..], i + 1).badLine == whole.badLine)
      invariant bad.Some? ==> text == whole.text && bad == whole.badLine
      decreases |lines| - i, bad.None?
    {
      BodyStep(lines, i);
      var kind := Classify(lines[i]);
      if kind.BadHeader? {
        bad := Some(i + 1);
      } else if !kind.Comment? {
        var written := WriteBodyLine(kind, lines[i]);
        TextStep(text, written, FormatBody(lines[i + 1..], i + 2), whole.text);
        text := text + written;
      }
      i := i + 1;
    }
    if bad.None? {
      assert lines[i..] == [];
    }
    body := Body(text, bad);
  }

  /** parse_file over the fgets chunks of the source file. */
  method ParseFile(lines: seq<string>) returns (out: Output)
    requires TitleFits(lines)
    ensures out == Wgroff(lines)
  {
    if |lines| == 0 {
      return Output(Improper(1) + RETURN_1, None, "");
    }
    var title := ParseTitle(lines[0]);
    if title.None? {
      return Output(Improper(1), None, "");
    }
    var t := title.value;
    if t.section < 1 || t.section > 9 {
      return Output(Improper(1) + RETURN_3, None, "");
    }
    if |t.date| != DATE_STR_LENGTH {
      return Output(Improper(1), None, "");
    }
    var section := t.section as nat;
    var fileName := OutName(t.command, section);
    var first := WriteFirstLine(t.command, section);
    var body := FormatLines(lines);
    if body.badLine.None? {
      var last := WriteLastLine(t.command, section, t.date);
      out := Output("", Some(fileName), first + body.text + last);
    } else {
      out := Output(Improper(body.badLine.value), Some(fileName), first + body.text);
    }
  }
}
