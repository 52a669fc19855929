/**
 * CLP(ShaderContext)::report_shader_errors: the info log of a compiled
 * shader module is split into lines, and each line whose prefix names a
 * source index and line number, in one of four compiler formats, is
 * reported with the source index replaced by the file it stands for.
 */
module InfoLog {
  import opened Wrappers
  import opened Names

  // ---------------------------------------------------------------------
  // Lines, as std::getline reads them

  /** The position of the first newline at or after i, or |s|. */
  function LineEnd(s: string, i: nat): (k: nat)
    requires i <= |s|
    ensures i <= k <= |s|
    ensures forall j :: i <= j < k ==> s[j] != '\n'
    ensures k < |s| ==> s[k] == '\n'
    decreases |s| - i
  {
    if i == |s| || s[i] == '\n' then i else LineEnd(s, i + 1)
  }

  /** The lines std::getline reads from s: text between newlines; a final newline ends the last line, it does not start an empty one. */
  function SplitLines(s: string): (r: seq<string>)
    ensures forall j :: 0 <= j < |r| ==> '\n' !in r[j]
    decreases |s|
  {
    if s == [] then []
    else
      var k := LineEnd(s, 0);
      assert '\n' !in s[..k] by {
        forall c | c in s[..k] ensures c != '\n' {
          var j :| 0 <= j < k && s[..k][j] == c;
        }
      }
      if k == |s| then [s] else [s[..k]] + SplitLines(s[k + 1..])
  }

  /** Lines written one after the other, each ended by a newline. */
  function JoinLines(ls: seq<string>): string {
    if ls == [] then [] else ls[0] + "\n" + JoinLines(ls[1..])
  }

  /** Reading back lines that were written out gives the same lines. */
  lemma {:induction false} SplitJoinLines(ls: seq<string>)
    requires forall j :: 0 <= j < |ls| ==> '\n' !in ls[j]
    ensures SplitLines(JoinLines(ls)) == ls
  {
    if ls != [] {
      var s := JoinLines(ls);
      var l := ls[0];
      assert s == l + ("\n" + JoinLines(ls[1..]));
      LineEndOf(s, l);
      assert s[..|l|] == l;
      assert s[|l| + 1..] == JoinLines(ls[1..]);
      SplitJoinLines(ls[1..]);
    }
  }

  lemma LineEndOf(s: string, l: string)
    requires '\n' !in l && |l| < |s| && s[..|l|] == l && s[|l|] == '\n'
    ensures LineEnd(s, 0) == |l|
  {
  }

  // ---------------------------------------------------------------------
  // The four line formats

  /** "ERROR: %d:%d: %n", the format of most compilers. */
  const ErrorFormat: seq<Directive> := [Text("ERROR:"), Space, IntConv, Text(":"), IntConv, Text(":"), Space, CharsRead]

  /** "WARNING: %d:%d: %n" */
  const WarningFormat: seq<Directive> := [Text("WARNING:"), Space, IntConv, Text(":"), IntConv, Text(":"), Space, CharsRead]

  /** "%d(%d) : %n", the format NVIDIA uses. */
  const NvidiaFormat: seq<Directive> := [IntConv, Text("("), IntConv, Text(")"), Space, Text(":"), Space, CharsRead]

  /** "%d:%d(%d): %n", the format of Mesa's OpenGL ES 2 implementation. */
  const MesaFormat: seq<Directive> := [IntConv, Text(":"), IntConv, Text("("), IntConv, Text("):"), Space, CharsRead]

  /** The values a format read from a line and the number of characters it consumed. */
  datatype Match = Match(values: seq<int>, prefixLen: nat)

  /** A format matches when sscanf stores exactly `count` values and reaches its %n past the start of the line. */
  function MatchFormat(fmt: seq<Directive>, count: nat, line: string): (r: Option<Match>)
    ensures r.Some? ==> |r.value.values| == count && 0 < r.value.prefixLen <= |line|
  {
    var res := Scan(fmt, line, 0);
    if res.Count() == count && res.strs == [] && res.charsRead.Some? && res.charsRead.value > 0 then
      Some(Match(res.ints, res.charsRead.value))
    else None
  }

  datatype Severity = Error | Warning

  /** Where a reported line points: nowhere, or a source index and line (and column) in one of the four forms. */
  datatype Location =
    | Unlocated
    | ErrorAt(file: int, line: int)
    | WarningAt(file: int, line: int)
    | NvidiaAt(file: int, line: int)
    | MesaAt(file: int, line: int, column: int)

  /** One reported line: its severity, where it points, and the message after the prefix. */
  datatype Report = Report(severity: Severity, location: Location, message: string)

  /**
   * A line of the log, as reported: the first format that matches wins;
   * a line that matches none is passed on whole, as an error when the
   * failure was fatal and a warning otherwise.
   */
  function ParseLine(line: string, fatal: bool): (r: Report)
    ensures r.location.Unlocated? ==> r.message == line && (r.severity == Error <==> fatal)
    ensures !r.location.Unlocated? ==> |r.message| < |line| && r.message == line[|line| - |r.message|..]
    ensures r.location.ErrorAt? || r.location.NvidiaAt? || r.location.MesaAt? ==> r.severity == Error
    ensures r.location.WarningAt? ==> r.severity == Warning
  {
    match MatchFormat(ErrorFormat, 2, line)
    case Some(m) => Report(Error, ErrorAt(m.values[0], m.values[1]), line[m.prefixLen..])
    case None =>
      match MatchFormat(WarningFormat, 2, line)
      case Some(m) => Report(Warning, WarningAt(m.values[0], m.values[1]), line[m.prefixLen..])
      case None =>
        match MatchFormat(NvidiaFormat, 2, line)
        case Some(m) => Report(Error, NvidiaAt(m.values[0], m.values[1]), line[m.prefixLen..])
        case None =>
          match MatchFormat(MesaFormat, 3, line)
          case Some(m) => Report(Error, MesaAt(m.values[0], m.values[1], m.values[2]), line[m.prefixLen..])
          case None => Report(if fatal then Error else Warning, Unlocated, line)
  }

  /** What the log is an info log of. */
  datatype ModuleKind = GlslModule | OtherModule

  /**
   * The reports for an info log: none for an empty log or the drivers'
   * "Success." and "No errors." logs; the log whole, as one error, for a
   * module that is not GLSL source; otherwise one report per line.
   */
  function ReportShaderErrors(log: string, kind: ModuleKind, fatal: bool): (r: seq<Report>)
    ensures log == [] || log == "Success.\n" || log == "No errors.\n" ==> r == []
    ensures log != [] && log != "Success.\n" && log != "No errors.\n" && kind == OtherModule ==>
      r == [Report(Error, Unlocated, log)]
    ensures log != [] && log != "Success.\n" && log != "No errors.\n" && kind == GlslModule ==>
      |r| == |SplitLines(log)| &&
      forall j :: 0 <= j < |r| ==> r[j] == ParseLine(SplitLines(log)[j], fatal)
  {
    if log == [] || log == "Success.\n" || log == "No errors.\n" then []
    else if kind == OtherModule then [Report(Error, Unlocated, log)]
    else
      var lines := SplitLines(log);
      seq(|lines|, j requires 0 <= j < |lines| => ParseLine(lines[j], fatal))
  }

  /** The text printed for a report, with `fileName` giving the file a source index stands for. */
  function Render(r: Report, fileName: int -> string): string {
    match r.location
    case Unlocated => r.message + "\n"
    case ErrorAt(f, l) => "ERROR: " + fileName(f) + ":" + IntToString(l) + ": " + r.message + "\n"
    case WarningAt(f, l) => "WARNING: " + fileName(f) + ":" + IntToString(l) + ": " + r.message + "\n"
    case NvidiaAt(f, l) => fileName(f) + "(" + IntToString(l) + ") : " + r.message + "\n"
    case MesaAt(f, l, c) => fileName(f) + ":" + IntToString(l) + "(" + IntToString(c) + "): " + r.message + "\n"
  }

  // ---------------------------------------------------------------------
  // Properties

  /** A message that does not start with whitespace: the trailing space of each format does not eat into it. */
  predicate Unpadded(msg: string) {
    msg == [] || !IsSpace(msg[0])
  }

  /**
   * A line in the majority format is reported as an error at that source
   * index and line, with the message after the prefix; rendered with the
   * index printed as a number, the line comes back unchanged.
   */
  lemma ParseErrorLine(file: int, lineNo: int, msg: string, fatal: bool)
    requires Unpadded(msg)
    ensures var line := "ERROR: " + IntToString(file) + ":" + IntToString(lineNo) + ": " + msg;
      ParseLine(line, fatal) == Report(Error, ErrorAt(file, lineNo), msg) &&
      Render(ParseLine(line, fatal), IntToString) == line + "\n"
  {
    var line := "ERROR: " + IntToString(file) + ":" + IntToString(lineNo) + ": " + msg;
    var pos := KeywordPair(ErrorFormat, "ERROR: ", file, lineNo, msg, line);
    ErrorMatch(line, file, lineNo, pos);
    ErrorReport(line, fatal, file, lineNo, pos);
  }

  /** The error keyword followed by what " %d:%d: %n" reads is an error-format match. */
  lemma ErrorMatch(line: string, file: int, lineNo: int, pos: nat)
    requires 6 <= |line| && line[..6] == "ERROR:" && 0 < pos
    requires ScanFrom(ErrorFormat, 1, line, 6) == ScanResult([file, lineNo], [], Some(pos))
    ensures MatchFormat(ErrorFormat, 2, line) == Some(Match([file, lineNo], pos))
  {
    ScanText(ErrorFormat, 0, "ERROR:", line, 0);
  }

  /** An error-format match is reported as an error at its source index and line. */
  lemma ErrorReport(line: string, fatal: bool, file: int, lineNo: int, pos: nat)
    requires MatchFormat(ErrorFormat, 2, line) == Some(Match([file, lineNo], pos))
    ensures ParseLine(line, fatal) == Report(Error, ErrorAt(file, lineNo), line[pos..])
  {
  }

  /** A warning-format match that is not an error-format one is reported as a warning. */
  lemma WarningReport(line: string, fatal: bool, file: int, lineNo: int, pos: nat)
    requires MatchFormat(ErrorFormat, 2, line) == None
    requires MatchFormat(WarningFormat, 2, line) == Some(Match([file, lineNo], pos))
    ensures ParseLine(line, fatal) == Report(Warning, WarningAt(file, lineNo), line[pos..])
  {
  }

  /** Every line in the warning format is reported as a warning at that source index and line. */
  lemma ParseWarningLine(file: int, lineNo: int, msg: string, fatal: bool)
    requires Unpadded(msg)
    ensures var line := "WARNING: " + IntToString(file) + ":" + IntToString(lineNo) + ": " + msg;
      ParseLine(line, fatal) == Report(Warning, WarningAt(file, lineNo), msg)
  {
    var line := "WARNING: " + IntToString(file) + ":" + IntToString(lineNo) + ": " + msg;
    var pos := KeywordPair(WarningFormat, "WARNING: ", file, lineNo, msg, line);
    WarningMatch(line, file, lineNo, pos);
    ErrorFormatMisses(line);
    WarningReport(line, fatal, file, lineNo, pos);
  }

  /** The warning keyword followed by what " %d:%d: %n" reads is a warning-format match. */
  lemma WarningMatch(line: string, file: int, lineNo: int, pos: nat)
    requires 8 <= |line| && line[..8] == "WARNING:" && 0 < pos
    requires ScanFrom(WarningFormat, 1, line, 8) == ScanResult([file, lineNo], [], Some(pos))
    ensures MatchFormat(WarningFormat, 2, line) == Some(Match([file, lineNo], pos))
  {
    ScanText(WarningFormat, 0, "WARNING:", line, 0);
  }

  /** A line that does not start with 'E' is not in the error format. */
  lemma ErrorFormatMisses(line: string)
    requires |line| > 0 && line[0] != 'E'
    ensures MatchFormat(ErrorFormat, 2, line) == None
  {
    if |line| >= 6 {
      assert line[0..6][0] == line[0];
      assert line[0..6] != "ERROR:";
    }
    assert Scan(ErrorFormat, line, 0) == ScanResult([], [], None);
  }

  /**
   * A keyword, a space, two numbers and a message: the keyword is in
   * place, and " %d:%d: %n" after it reads the two numbers and stops where
   * the message starts.
   */
  lemma KeywordPair(fmt: seq<Directive>, head: string, file: int, lineNo: int, msg: string, line: string) returns (pos: nat)
    requires PairAfterKeyword(fmt)
    requires Unpadded(msg) && |head| > 0 && head[|head| - 1] == ' '
    requires line == head + IntToString(file) + ":" + IntToString(lineNo) + ": " + msg
    ensures 0 < pos <= |line| && line[pos..] == msg && line[..|head| - 1] == head[..|head| - 1]
    ensures ScanFrom(fmt, 1, line, |head| - 1) == ScanResult([file, lineNo], [], Some(pos))
  {
    var fs := IntToString(file);
    var ls := IntToString(lineNo);
    var a := |head|;
    var b := a + |fs|;
    var c := b + 1 + |ls|;
    pos := c + 2;
    PairLayout(head, fs, ls, msg, line);
    PairFromLayout(fmt, line, a, b, c, file, lineNo, msg);
  }

  /** " %d:%d: %n" over a line whose two numbers, colons and message lie at a, b and c. */
  lemma PairFromLayout(fmt: seq<Directive>, line: string, a: nat, b: nat, c: nat, file: int, lineNo: int, msg: string)
    requires PairAfterKeyword(fmt) && Unpadded(msg)
    requires 0 < a && b == a + |IntToString(file)| && c == b + 1 + |IntToString(lineNo)| && c + 2 <= |line|
    requires line[a - 1] == ' ' && line[a..b] == IntToString(file) && line[b] == ':'
    requires line[b + 1..c] == IntToString(lineNo) && line[c] == ':' && line[c + 1] == ' ' && line[c + 2..] == msg
    ensures ScanFrom(fmt, 1, line, a - 1) == ScanResult([file, lineNo], [], Some(c + 2))
  {
    var pos := c + 2;
    assert SkipSpaces(line, a - 1) == a by {
      assert line[a] == IntToString(file)[0];
      NotSpaceStart(file);
    }
    assert SkipSpaces(line, c + 1) == pos by {
      if pos < |line| {
        assert line[pos] == msg[0];
      }
    }
    assert ScanFrom(fmt, 5, line, c) == ScanResult([], [], Some(pos)) by { PairScanEnd(fmt, line, c, pos); }
    assert ScanFrom(fmt, 3, line, b) == ScanResult([lineNo], [], Some(pos)) by { PairScanTail(fmt, line, b, c, pos, lineNo); }
    PairScan(fmt, line, a - 1, a, b, c, pos, file, lineNo);
  }

  /** A number printed between position i and a ':' at e is read back by %d. */
  lemma NumberAt(s: string, i: nat, e: nat, v: int)
    requires e == i + |IntToString(v)| && e < |s|
    requires s[i..e] == IntToString(v) && s[e] == ':'
    ensures ScanInt(s, i) == Some(IntScan(v, e))
  {
    ScanIntOfString(v, s, i);
  }

  /** Where the pieces of "<head><file>:<line>: <message>" lie. */
  lemma PairLayout(head: string, fs: string, ls: string, msg: string, line: string)
    requires |head| > 0 && head[|head| - 1] == ' '
    requires line == head + fs + ":" + ls + ": " + msg
    ensures var a := |head|; var b := a + |fs|; var c := b + 1 + |ls|;
      line[..a] == head && line[a - 1] == ' ' && line[a..b] == fs && line[b] == ':' &&
      line[b + 1..c] == ls && line[c] == ':' && line[c + 1] == ' ' && line[c + 2..] == msg
  {
    var a := |head|;
    var b := a + |fs|;
    var c := b + 1 + |ls|;
    PieceAt(head, fs, ":" + ls + ": " + msg, line);
    PieceAt(head + fs + ":", ls, ": " + msg, line);
    assert line[..c + 2] == head + fs + ":" + ls + ": ";
  }

  /** The middle piece of a concatenation is found where the first piece ends. */
  lemma PieceAt(p: string, q: string, r: string, s: string)
    requires s == p + q + r
    ensures s[|p|..|p| + |q|] == q && s[..|p|] == p
  {
  }

  /** A format whose directives after the first are " %d:%d: %n". */
  predicate PairAfterKeyword(fmt: seq<Directive>) {
    |fmt| == 8 && fmt[1] == Space && fmt[2] == IntConv && fmt[3] == Text(":") &&
    fmt[4] == IntConv && fmt[5] == Text(":") && fmt[6] == Space && fmt[7] == CharsRead
  }

  /** " %d:%d: %n" run over a line whose pieces are where the format expects them. */
  lemma PairScan(fmt: seq<Directive>, s: string, start: nat, a: nat, b: nat, c: nat, pos: nat, file: int, lineNo: int)
    requires PairAfterKeyword(fmt)
    requires start <= |s| && SkipSpaces(s, start) == a
    requires b == a + |IntToString(file)| && b < |s| && s[a..b] == IntToString(file) && s[b] == ':'
    requires ScanFrom(fmt, 3, s, b) == ScanResult([lineNo], [], Some(pos))
    ensures ScanFrom(fmt, 1, s, start) == ScanResult([file, lineNo], [], Some(pos))
  {
    assert ScanInt(s, a) == Some(IntScan(file, b)) by { NumberAt(s, a, b, file); }
    ScanIntConv(fmt, 2, s, a, file, b);
    ScanSpace(fmt, 1, s, start);
  }

  /** ":%d: %n" run over the rest of such a line. */
  lemma PairScanTail(fmt: seq<Directive>, s: string, b: nat, c: nat, pos: nat, lineNo: int)
    requires PairAfterKeyword(fmt)
    requires b < |s| && s[b] == ':'
    requires c == b + 1 + |IntToString(lineNo)| && c < |s| && s[b + 1..c] == IntToString(lineNo) && s[c] == ':'
    requires ScanFrom(fmt, 5, s, c) == ScanResult([], [], Some(pos))
    ensures ScanFrom(fmt, 3, s, b) == ScanResult([lineNo], [], Some(pos))
  {
    assert ScanInt(s, b + 1) == Some(IntScan(lineNo, c)) by { NumberAt(s, b + 1, c, lineNo); }
    ScanIntConv(fmt, 4, s, b + 1, lineNo, c);
    ScanChar(fmt, 3, ':', s, b);
  }

  /** ": %n" run over the end of such a line. */
  lemma PairScanEnd(fmt: seq<Directive>, s: string, c: nat, pos: nat)
    requires PairAfterKeyword(fmt)
    requires c < |s| && s[c] == ':' && SkipSpaces(s, c + 1) == pos
    ensures ScanFrom(fmt, 5, s, c) == ScanResult([], [], Some(pos))
  {
    ScanCharsRead(fmt, 7, s, pos);
    ScanSpace(fmt, 6, s, c + 1);
    ScanChar(fmt, 5, ':', s, c);
  }

  lemma NotSpaceStart(v: int)
    ensures !IsSpace(IntToString(v)[0])
  {
    if v < 0 {
      assert IntToString(v)[0] == '-';
    } else {
      NatToStringDigits(v);
    }
  }

  /** A line in which no character is a digit matches no format and is passed on whole. */
  lemma ParseLineWithoutDigits(line: string, fatal: bool)
    requires forall k :: 0 <= k < |line| ==> !IsDigit(line[k])
    ensures ParseLine(line, fatal) == Report(if fatal then Error else Warning, Unlocated, line)
  {
    NoIntWithoutDigits(line);
    KeywordThenInt(ErrorFormat, "ERROR:", line);
    KeywordThenInt(WarningFormat, "WARNING:", line);
    ScanIntConvFails(NvidiaFormat, 0, line, 0);
    ScanIntConvFails(MesaFormat, 0, line, 0);
  }

  lemma NoIntWithoutDigits(line: string)
    requires forall k :: 0 <= k < |line| ==> !IsDigit(line[k])
    ensures forall i :: 0 <= i <= |line| ==> ScanInt(line, i).None?
  {
    forall i | 0 <= i <= |line| ensures ScanInt(line, i).None? {
      var j := SkipSpaces(line, i);
      var k := if j < |line| && (line[j] == '-' || line[j] == '+') then j + 1 else j;
      assert DigitsEnd(line, k) == k;
    }
  }

  /** A keyword followed by " %d" reads nothing from a line where no number can be read. */
  lemma KeywordThenInt(fmt: seq<Directive>, word: string, line: string)
    requires |fmt| >= 3 && fmt[0] == Text(word) && fmt[1] == Space && fmt[2] == IntConv
    requires forall i :: 0 <= i <= |line| ==> ScanInt(line, i).None?
    ensures Scan(fmt, line, 0).Count() == 0
  {
    if |word| <= |line| && line[..|word|] == word {
      ScanText(fmt, 0, word, line, 0);
      ScanSpace(fmt, 1, line, |word|);
      ScanIntConvFails(fmt, 2, line, SkipSpaces(line, |word|));
    }
  }

  // ---------------------------------------------------------------------
  // The NVIDIA and Mesa formats

  /** A printed number starts with a digit or a minus sign. */
  lemma NumberStart(v: int)
    ensures IntToString(v)[0] == '-' || IsDigit(IntToString(v)[0])
  {
    if v >= 0 {
      NatToStringDigits(v);
    }
  }

  /** A line that does not start with 'W' is not in the warning format. */
  lemma WarningFormatMisses(line: string)
    requires |line| > 0 && line[0] != 'W'
    ensures MatchFormat(WarningFormat, 2, line) == None
  {
    if |line| >= 8 {
      assert line[0..8][0] == line[0];
      assert line[0..8] != "WARNING:";
    }
    assert Scan(WarningFormat, line, 0) == ScanResult([], [], None);
  }

  /** A line that starts with a printed number is in neither the error nor the warning format. */
  lemma KeywordFormatsMiss(line: string, v: int)
    requires |IntToString(v)| <= |line| && line[..|IntToString(v)|] == IntToString(v)
    ensures MatchFormat(ErrorFormat, 2, line) == None && MatchFormat(WarningFormat, 2, line) == None
  {
    NumberStart(v);
    assert line[0] == IntToString(v)[0];
    ErrorFormatMisses(line);
    WarningFormatMisses(line);
  }

  /** A format whose directives are "%d(%d) : %n". */
  predicate NvidiaShaped(fmt: seq<Directive>) {
    |fmt| == 8 && fmt[0] == IntConv && fmt[1] == Text("(") && fmt[2] == IntConv && fmt[3] == Text(")") &&
    fmt[4] == Space && fmt[5] == Text(":") && fmt[6] == Space && fmt[7] == CharsRead
  }

  /** A format whose directives are "%d:%d(%d): %n". */
  predicate MesaShaped(fmt: seq<Directive>) {
    |fmt| == 8 && fmt[0] == IntConv && fmt[1] == Text(":") && fmt[2] == IntConv && fmt[3] == Text("(") &&
    fmt[4] == IntConv && fmt[5] == Text("):") && fmt[6] == Space && fmt[7] == CharsRead
  }

  /** A scan that stores exactly its values and reaches %n past the start is a match of that many values. */
  lemma ScanMatches(fmt: seq<Directive>, line: string, values: seq<int>, pos: nat)
    requires 0 < pos && Scan(fmt, line, 0) == ScanResult(values, [], Some(pos))
    ensures MatchFormat(fmt, |values|, line) == Some(Match(values, pos))
  {
  }

  /** Where the pieces of "<file>(<line>) : <message>" lie. */
  lemma NvidiaLayout(fs: string, ls: string, msg: string, line: string)
    requires line == fs + "(" + ls + ") : " + msg
    ensures var b := |fs|; var c := b + 1 + |ls|;
      c + 4 <= |line| && line[..b] == fs && line[b] == '(' && line[b + 1..c] == ls && line[c] == ')' &&
      line[c + 1] == ' ' && line[c + 2] == ':' && line[c + 3] == ' ' && line[c + 4..] == msg
  {
    var c := |fs| + 1 + |ls|;
    PieceAt(fs + "(", ls, ") : " + msg, line);
    assert line[..c + 4] == fs + "(" + ls + ") : ";
  }

  /** "%d(%d) : %n" over a line whose first number is followed by the rest of the format. */
  lemma NvidiaScan(fmt: seq<Directive>, line: string, b: nat, pos: nat, file: int, lineNo: int)
    requires NvidiaShaped(fmt)
    requires b == |IntToString(file)| && b < |line| && line[..b] == IntToString(file) && line[b] == '('
    requires ScanFrom(fmt, 1, line, b) == ScanResult([lineNo], [], Some(pos))
    ensures Scan(fmt, line, 0) == ScanResult([file, lineNo], [], Some(pos))
  {
    assert ScanInt(line, 0) == Some(IntScan(file, b)) by { ScanIntOfString(file, line, 0); }
    ScanIntConv(fmt, 0, line, 0, file, b);
  }

  /** "(%d) : %n" over the rest of an NVIDIA line. */
  lemma NvidiaScanMid(fmt: seq<Directive>, line: string, b: nat, c: nat, pos: nat, lineNo: int)
    requires NvidiaShaped(fmt)
    requires b < |line| && line[b] == '('
    requires c == b + 1 + |IntToString(lineNo)| && c < |line| && line[b + 1..c] == IntToString(lineNo) && line[c] == ')'
    requires ScanFrom(fmt, 3, line, c) == ScanResult([], [], Some(pos))
    ensures ScanFrom(fmt, 1, line, b) == ScanResult([lineNo], [], Some(pos))
  {
    assert ScanInt(line, b + 1) == Some(IntScan(lineNo, c)) by { ScanIntOfString(lineNo, line, b + 1); }
    ScanIntConv(fmt, 2, line, b + 1, lineNo, c);
    ScanChar(fmt, 1, '(', line, b);
  }

  /** ") : %n" over the end of an NVIDIA line. */
  lemma NvidiaScanEnd(fmt: seq<Directive>, line: string, c: nat)
    requires NvidiaShaped(fmt)
    requires c + 4 <= |line| && line[c] == ')' && line[c + 1] == ' ' && line[c + 2] == ':' && line[c + 3] == ' '
    requires c + 4 == |line| || !IsSpace(line[c + 4])
    ensures ScanFrom(fmt, 3, line, c) == ScanResult([], [], Some(c + 4))
  {
    assert SkipSpaces(line, c + 3) == c + 4;
    ScanCharsRead(fmt, 7, line, c + 4);
    ScanSpace(fmt, 6, line, c + 3);
    ScanChar(fmt, 5, ':', line, c + 2);
    assert SkipSpaces(line, c + 1) == c + 2;
    ScanSpace(fmt, 4, line, c + 1);
    ScanChar(fmt, 3, ')', line, c);
  }

  /** "%d(%d) : %n" reads both numbers of "<file>(<line>) : <message>" and stops where the message starts. */
  lemma NvidiaPair(fmt: seq<Directive>, file: int, lineNo: int, msg: string, line: string) returns (pos: nat)
    requires NvidiaShaped(fmt) && Unpadded(msg)
    requires line == IntToString(file) + "(" + IntToString(lineNo) + ") : " + msg
    ensures 0 < pos <= |line| && line[pos..] == msg
    ensures Scan(fmt, line, 0) == ScanResult([file, lineNo], [], Some(pos))
    ensures MatchFormat(ErrorFormat, 2, line) == None && MatchFormat(WarningFormat, 2, line) == None
  {
    var b := |IntToString(file)|;
    var c := b + 1 + |IntToString(lineNo)|;
    pos := c + 4;
    NvidiaLayout(IntToString(file), IntToString(lineNo), msg, line);
    assert pos == |line| || !IsSpace(line[pos]) by {
      if pos < |line| {
        assert line[pos] == msg[0];
      }
    }
    NvidiaScanEnd(fmt, line, c);
    NvidiaScanMid(fmt, line, b, c, pos, lineNo);
    NvidiaScan(fmt, line, b, pos, file, lineNo);
    KeywordFormatsMiss(line, file);
  }

  /**
   * A line in NVIDIA's format is reported as an error at that source index
   * and line, with the message after the prefix; rendered with the index
   * printed as a number, the line comes back unchanged.
   */
  lemma ParseNvidiaLine(file: int, lineNo: int, msg: string, fatal: bool)
    requires Unpadded(msg)
    ensures var line := IntToString(file) + "(" + IntToString(lineNo) + ") : " + msg;
      ParseLine(line, fatal) == Report(Error, NvidiaAt(file, lineNo), msg) &&
      Render(ParseLine(line, fatal), IntToString) == line + "\n"
  {
    var line := IntToString(file) + "(" + IntToString(lineNo) + ") : " + msg;
    var pos := NvidiaPair(NvidiaFormat, file, lineNo, msg, line);
    NvidiaReport(line, fatal, file, lineNo, pos);
  }

  /** An NVIDIA-format match, after the error and warning formats missed, is reported as an error there. */
  lemma NvidiaReport(line: string, fatal: bool, file: int, lineNo: int, pos: nat)
    requires MatchFormat(ErrorFormat, 2, line) == None && MatchFormat(WarningFormat, 2, line) == None
    requires 0 < pos && Scan(NvidiaFormat, line, 0) == ScanResult([file, lineNo], [], Some(pos))
    ensures ParseLine(line, fatal) == Report(Error, NvidiaAt(file, lineNo), line[pos..])
  {
    ScanMatches(NvidiaFormat, line, [file, lineNo], pos);
  }

  /** Where the pieces of "<file>:<line>(<column>): <message>" lie. */
  lemma MesaLayout(fs: string, ls: string, cs: string, msg: string, line: string)
    requires line == fs + ":" + ls + "(" + cs + "): " + msg
    ensures var b := |fs|; var c := b + 1 + |ls|; var d := c + 1 + |cs|;
      d + 3 <= |line| && line[..b] == fs && line[b] == ':' && line[b + 1..c] == ls && line[c] == '(' &&
      line[c + 1..d] == cs && line[d] == ')' && line[d + 1] == ':' && line[d + 2] == ' ' && line[d + 3..] == msg
  {
    var c := |fs| + 1 + |ls|;
    var d := c + 1 + |cs|;
    var head := fs + ":" + ls + "(";
    var tail := "): " + msg;
    assert line == head + cs + tail;
    PieceAt(fs + ":", ls, "(" + cs + tail, line);
    PieceAt(head, cs, tail, line);
    assert line[d..] == tail;
  }

  /** "%d:%d(%d): %n" over a line whose first number is followed by the rest of the format. */
  lemma MesaScan(fmt: seq<Directive>, line: string, b: nat, pos: nat, file: int, lineNo: int, column: int)
    requires MesaShaped(fmt)
    requires b == |IntToString(file)| && b < |line| && line[..b] == IntToString(file) && line[b] == ':'
    requires ScanFrom(fmt, 1, line, b) == ScanResult([lineNo, column], [], Some(pos))
    ensures Scan(fmt, line, 0) == ScanResult([file, lineNo, column], [], Some(pos))
  {
    var rest := ScanFrom(fmt, 1, line, b);
    assert ScanInt(line, 0) == Some(IntScan(file, b)) by { ScanIntOfString(file, line, 0); }
    assert Scan(fmt, line, 0) == rest.(ints := [file] + rest.ints) by { ScanIntConv(fmt, 0, line, 0, file, b); }
    assert [file] + rest.ints == [file, lineNo, column];
  }

  /** ":%d(%d): %n" over the rest of a Mesa line. */
  lemma MesaScanLine(fmt: seq<Directive>, line: string, b: nat, c: nat, pos: nat, lineNo: int, column: int)
    requires MesaShaped(fmt)
    requires b < |line| && line[b] == ':'
    requires c == b + 1 + |IntToString(lineNo)| && c < |line| && line[b + 1..c] == IntToString(lineNo) && line[c] == '('
    requires ScanFrom(fmt, 3, line, c) == ScanResult([column], [], Some(pos))
    ensures ScanFrom(fmt, 1, line, b) == ScanResult([lineNo, column], [], Some(pos))
  {
    var rest := ScanFrom(fmt, 3, line, c);
    assert ScanInt(line, b + 1) == Some(IntScan(lineNo, c)) by { ScanIntOfString(lineNo, line, b + 1); }
    assert ScanFrom(fmt, 2, line, b + 1) == rest.(ints := [lineNo] + rest.ints) by { ScanIntConv(fmt, 2, line, b + 1, lineNo, c); }
    assert [lineNo] + rest.ints == [lineNo, column];
    ScanChar(fmt, 1, ':', line, b);
  }

  /** "(%d): %n" over the rest of a Mesa line. */
  lemma MesaScanColumn(fmt: seq<Directive>, line: string, c: nat, d: nat, pos: nat, column: int)
    requires MesaShaped(fmt)
    requires c < |line| && line[c] == '('
    requires d == c + 1 + |IntToString(column)| && d < |line| && line[c + 1..d] == IntToString(column) && line[d] == ')'
    requires ScanFrom(fmt, 5, line, d) == ScanResult([], [], Some(pos))
    ensures ScanFrom(fmt, 3, line, c) == ScanResult([column], [], Some(pos))
  {
    var rest := ScanFrom(fmt, 5, line, d);
    assert ScanInt(line, c + 1) == Some(IntScan(column, d)) by { ScanIntOfString(column, line, c + 1); }
    assert ScanFrom(fmt, 4, line, c + 1) == rest.(ints := [column] + rest.ints) by { ScanIntConv(fmt, 4, line, c + 1, column, d); }
    assert [column] + rest.ints == [column];
    ScanChar(fmt, 3, '(', line, c);
  }

  /** "): %n" over the end of a Mesa line. */
  lemma MesaScanEnd(fmt: seq<Directive>, line: string, d: nat)
    requires MesaShaped(fmt)
    requires d + 3 <= |line| && line[d] == ')' && line[d + 1] == ':' && line[d + 2] == ' '
    requires d + 3 == |line| || !IsSpace(line[d + 3])
    ensures ScanFrom(fmt, 5, line, d) == ScanResult([], [], Some(d + 3))
  {
    assert SkipSpaces(line, d + 2) == d + 3;
    ScanCharsRead(fmt, 7, line, d + 3);
    ScanSpace(fmt, 6, line, d + 2);
    assert line[d..d + 2] == "):";
    ScanText(fmt, 5, "):", line, d);
  }

  /**
   * "%d:%d(%d): %n" reads the three numbers of "<file>:<line>(<column>): <message>"
   * and stops where the message starts; the keyword formats and "%d(%d) : %n" miss.
   */
  lemma MesaTriple(fmt: seq<Directive>, nvidia: seq<Directive>, file: int, lineNo: int, column: int, msg: string, line: string) returns (pos: nat)
    requires MesaShaped(fmt) && NvidiaShaped(nvidia) && Unpadded(msg)
    requires line == IntToString(file) + ":" + IntToString(lineNo) + "(" + IntToString(column) + "): " + msg
    ensures 0 < pos <= |line| && line[pos..] == msg
    ensures Scan(fmt, line, 0) == ScanResult([file, lineNo, column], [], Some(pos))
    ensures MatchFormat(ErrorFormat, 2, line) == None && MatchFormat(WarningFormat, 2, line) == None
    ensures MatchFormat(nvidia, 2, line) == None
  {
    var b := |IntToString(file)|;
    var c := b + 1 + |IntToString(lineNo)|;
    var d := c + 1 + |IntToString(column)|;
    pos := d + 3;
    MesaLayout(IntToString(file), IntToString(lineNo), IntToString(column), msg, line);
    assert pos == |line| || !IsSpace(line[pos]) by {
      if pos < |line| {
        assert line[pos] == msg[0];
      }
    }
    MesaScanEnd(fmt, line, d);
    MesaScanColumn(fmt, line, c, d, pos, column);
    MesaScanLine(fmt, line, b, c, pos, lineNo, column);
    MesaScan(fmt, line, b, pos, file, lineNo, column);
    KeywordFormatsMiss(line, file);
    NvidiaMisses(nvidia, line, file);
  }

  /** A line whose first number is followed by ':' is not in a format that wants '(' there. */
  lemma NvidiaMisses(fmt: seq<Directive>, line: string, file: int)
    requires NvidiaShaped(fmt)
    requires |IntToString(file)| < |line| && line[..|IntToString(file)|] == IntToString(file)
    requires line[|IntToString(file)|] == ':'
    ensures MatchFormat(fmt, 2, line) == None
  {
    var b := |IntToString(file)|;
    assert ScanInt(line, 0) == Some(IntScan(file, b)) by { ScanIntOfString(file, line, 0); }
    assert line[b..b + 1][0] == ':';
    assert ScanFrom(fmt, 1, line, b) == ScanResult([], [], None);
    ScanIntConv(fmt, 0, line, 0, file, b);
  }

  /**
   * A line in Mesa's format is reported as an error at that source index,
   * line and column, with the message after the prefix; rendered with the
   * index printed as a number, the line comes back unchanged.
   */
  lemma ParseMesaLine(file: int, lineNo: int, column: int, msg: string, fatal: bool)
    requires Unpadded(msg)
    ensures var line := IntToString(file) + ":" + IntToString(lineNo) + "(" + IntToString(column) + "): " + msg;
      ParseLine(line, fatal) == Report(Error, MesaAt(file, lineNo, column), msg) &&
      Render(ParseLine(line, fatal), IntToString) == line + "\n"
  {
    var line := IntToString(file) + ":" + IntToString(lineNo) + "(" + IntToString(column) + "): " + msg;
    var pos := MesaTriple(MesaFormat, NvidiaFormat, file, lineNo, column, msg, line);
    MesaReport(line, fatal, file, lineNo, column, pos);
    RenderMesa(file, lineNo, column, msg);
  }

  /** A Mesa-located report is rendered in Mesa's own format. */
  lemma RenderMesa(file: int, lineNo: int, column: int, msg: string)
    ensures Render(Report(Error, MesaAt(file, lineNo, column), msg), IntToString) ==
      IntToString(file) + ":" + IntToString(lineNo) + "(" + IntToString(column) + "): " + msg + "\n"
  {
  }

  /** A Mesa-format match, after the other three formats missed, is reported as an error there. */
  lemma MesaReport(line: string, fatal: bool, file: int, lineNo: int, column: int, pos: nat)
    requires MatchFormat(ErrorFormat, 2, line) == None && MatchFormat(WarningFormat, 2, line) == None
    requires MatchFormat(NvidiaFormat, 2, line) == None
    requires 0 < pos && Scan(MesaFormat, line, 0) == ScanResult([file, lineNo, column], [], Some(pos))
    ensures ParseLine(line, fatal) == Report(Error, MesaAt(file, lineNo, column), line[pos..])
  {
    ScanMatches(MesaFormat, line, [file, lineNo, column], pos);
  }
}
