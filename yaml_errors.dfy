/**
 * YamlParseError::deriveFromError: turning the parser's generic error into
 * one that names the YAML file being parsed and the line in it.
 */
module YamlErrors {
  import opened Wrappers
  import opened PhpStrings

  /** One frame of an exception's trace: the called function and its arguments. */
  datatype Frame = Frame(func: string, args: seq<string>)

  datatype ExceptionClass = ErrorException | YamlParseError | RuntimeException

  /** A PHP exception, as the record of the fields the remapping reads and writes. */
  datatype Exception = Exception(
    kind: ExceptionClass,
    message: string,
    code: int,
    file: string,
    line: int,
    trace: seq<Frame>,
    previous: Option<Exception>)

  const YamlFunction: string := "yaml_parse_file"

  const MessagePrefix: string := "yaml_parse_file(): "

  /** What the remapping pattern captures: the reason and the digits of line and column. */
  datatype MessageMatch = MessageMatch(reason: string, line: string, column: string)

  predicate NoNewline(s: string) { forall i :: 0 <= i < |s| ==> s[i] != '\n' }

  predicate EndsWith(s: string, x: string) { |x| <= |s| && s[|s| - |x|..] == x }

  /** The message the parser raises for a syntax error. */
  function Format(reason: string, line: string, column: string): string {
    MessagePrefix + reason + " (line " + line + ", column " + column + ")"
  }

  /**
   * The pattern `^yaml_parse_file\(\): (.*?) \(line (\d+), column (\d+)\)$`:
   * `.` stops at a newline and `$` also matches before one final newline.
   */
  function MatchMessage(m: string): (r: Option<MessageMatch>)
    ensures r.Some? ==>
              MessagePrefix <= m && NoNewline(r.value.reason) && |r.value.line| > 0 && |r.value.column| > 0
  {
    if |m| < |MessagePrefix| || m[..|MessagePrefix|] != MessagePrefix then None
    else MatchBody(DropFinalNewline(m[|MessagePrefix|..]))
  }

  function DropFinalNewline(s: string): (r: string)
    ensures s == r || s == r + "\n"
  {
    if |s| > 0 && s[|s| - 1] == '\n' then s[..|s| - 1] else s
  }

  /** The part after the prefix, read from its end: ")", column digits, ", column ", line digits, " (line ". */
  function MatchBody(b: string): (r: Option<MessageMatch>)
    ensures r.Some? ==> NoNewline(r.value.reason) && |r.value.line| > 0 && |r.value.column| > 0
  {
    if |b| == 0 || b[|b| - 1] != ')' then None
    else
      var b1 := b[..|b| - 1];
      var nc := CountTrailing(b1, IsDigit);
      var b2 := b1[..|b1| - nc];
      if nc == 0 || !EndsWith(b2, ", column ") then None
      else
        var b3 := b2[..|b2| - 9];
        var nl := CountTrailing(b3, IsDigit);
        var b4 := b3[..|b3| - nl];
        if nl == 0 || !EndsWith(b4, " (line ") then None
        else
          var reason := b4[..|b4| - 7];
          if NoNewline(reason) then Some(MessageMatch(reason, b3[|b3| - nl..], b1[|b1| - nc..])) else None
  }

  lemma MatchBodyOfFormat(reason: string, line: string, column: string)
    requires NoNewline(reason)
    requires |line| > 0 && AllDigits(line) && |column| > 0 && AllDigits(column)
    ensures MatchBody(reason + " (line " + line + ", column " + column + ")") == Some(MessageMatch(reason, line, column))
  {
    var b := reason + " (line " + line + ", column " + column + ")";
    var b1 := b[..|b| - 1];
    assert b1 == reason + " (line " + line + ", column " + column;
    TrailingAfterBoundary(reason + " (line " + line + ", column ", column, IsDigit);
    var b2 := b1[..|b1| - |column|];
    assert b2 == reason + " (line " + line + ", column ";
    assert EndsWith(b2, ", column ");
    var b3 := b2[..|b2| - 9];
    assert b3 == reason + " (line " + line;
    TrailingAfterBoundary(reason + " (line ", line, IsDigit);
    var b4 := b3[..|b3| - |line|];
    assert b4 == reason + " (line ";
    assert EndsWith(b4, " (line ");
    assert b4[..|b4| - 7] == reason;
    assert b3[|b3| - |line|..] == line;
    assert b1[|b1| - |column|..] == column;
  }

  lemma DropNewlineOf(body: string)
    requires |body| > 0 && body[|body| - 1] == ')'
    ensures DropFinalNewline(body) == body
    ensures DropFinalNewline(body + "\n") == body
  {
    assert (body + "\n")[..|body|] == body;
  }

  lemma MatchAfterPrefix(body: string)
    requires |body| > 0 && body[|body| - 1] == ')'
    ensures MatchMessage(MessagePrefix + body) == MatchBody(body)
    ensures MatchMessage(MessagePrefix + body + "\n") == MatchBody(body)
  {
    DropNewlineOf(body);
    var m := MessagePrefix + body;
    assert m[..|MessagePrefix|] == MessagePrefix;
    assert m[|MessagePrefix|..] == body;
    var m' := m + "\n";
    assert m'[..|MessagePrefix|] == MessagePrefix;
    assert m'[|MessagePrefix|..] == body + "\n";
  }

  lemma FormatSplit(reason: string, line: string, column: string)
    ensures Format(reason, line, column) == MessagePrefix + (reason + " (line " + line + ", column " + column + ")")
  {
  }

  /**
   * The pattern accepts the parser's syntax-error messages, with or without
   * one final newline, and gives back their reason, line and column.
   */
  lemma MatchFormatted(reason: string, line: string, column: string)
    requires NoNewline(reason)
    requires |line| > 0 && AllDigits(line) && |column| > 0 && AllDigits(column)
    ensures MatchMessage(Format(reason, line, column)) == Some(MessageMatch(reason, line, column))
    ensures MatchMessage(Format(reason, line, column) + "\n") == Some(MessageMatch(reason, line, column))
  {
    var body := reason + " (line " + line + ", column " + column + ")";
    MatchBodyOfFormat(reason, line, column);
    MatchAfterPrefix(body);
    FormatSplit(reason, line, column);
  }

  lemma {:induction false} MatchedBodyIsFormatted(b: string)
    requires MatchBody(b).Some?
    ensures var mt := MatchBody(b).value;
      && b == mt.reason + " (line " + mt.line + ", column " + mt.column + ")"
      && NoNewline(mt.reason) && |mt.line| > 0 && AllDigits(mt.line) && |mt.column| > 0 && AllDigits(mt.column)
  {
    var mt := MatchBody(b).value;
    var b1 := b[..|b| - 1];
    Unslice(b, 1);
    var nc := CountTrailing(b1, IsDigit);
    var b2 := b1[..|b1| - nc];
    Unslice(b1, nc);
    assert b1[|b1| - nc..] == mt.column;
    var b3 := b2[..|b2| - 9];
    Unslice(b2, 9);
    var nl := CountTrailing(b3, IsDigit);
    var b4 := b3[..|b3| - nl];
    Unslice(b3, nl);
    assert b3[|b3| - nl..] == mt.line;
    Unslice(b4, 7);
    assert b4[..|b4| - 7] == mt.reason;
    DigitRun(b1, nc);
    DigitRun(b3, nl);
  }

  /** A string is its head followed by its last `n` characters. */
  lemma Unslice(s: string, n: nat)
    requires n <= |s|
    ensures s == s[..|s| - n] + s[|s| - n..]
  {
  }

  /** The trailing digit run of a string is all digits. */
  lemma DigitRun(s: string, n: nat)
    requires n == CountTrailing(s, IsDigit)
    ensures AllDigits(s[|s| - n..])
  {
    var t := s[|s| - n..];
    forall i | 0 <= i < |t| ensures IsDigit(t[i]) {
      assert t[i] == s[|s| - n + i];
    }
  }

  /** Conversely, a message the pattern accepts is a formatted syntax-error message. */
  lemma MatchedIsFormatted(m: string)
    requires MatchMessage(m).Some?
    ensures var mt := MatchMessage(m).value;
      && (m == Format(mt.reason, mt.line, mt.column) || m == Format(mt.reason, mt.line, mt.column) + "\n")
      && NoNewline(mt.reason) && |mt.line| > 0 && AllDigits(mt.line) && |mt.column| > 0 && AllDigits(mt.column)
  {
    var mt := MatchMessage(m).value;
    var rest := m[|MessagePrefix|..];
    assert m == MessagePrefix + rest by {
      Unslice(m, |rest|);
    }
    var body := DropFinalNewline(rest);
    assert MatchBody(body) == Some(mt);
    MatchedBodyIsFormatted(body);
    FormatSplit(mt.reason, mt.line, mt.column);
    if rest != body {
      assert rest == body + "\n";
      assert m == MessagePrefix + body + "\n";
    }
  }

  /** The position of the first frame of a yaml_parse_file call, or |trace| when there is none. */
  function FirstYamlFrame(trace: seq<Frame>): (i: nat)
    ensures i <= |trace|
    ensures forall j :: 0 <= j < i ==> trace[j].func != YamlFunction
    ensures i < |trace| ==> trace[i].func == YamlFunction
  {
    if trace == [] || trace[0].func == YamlFunction then 0 else 1 + FirstYamlFrame(trace[1..])
  }

  /** Any position with the properties of the first yaml_parse_file frame is that position. */
  lemma FirstYamlFrameIs(trace: seq<Frame>, i: nat)
    requires i <= |trace|
    requires forall j :: 0 <= j < i ==> trace[j].func != YamlFunction
    requires i < |trace| ==> trace[i].func == YamlFunction
    ensures FirstYamlFrame(trace) == i
  {
  }

  /** The outcome of the remapping: a new error, or the original one unchanged. */
  datatype Derivation = Remapped(error: Exception) | Unchanged(original: Exception)

  /**
   * What deriveFromError computes. A message the pattern does not accept
   * leaves the captured reason and line empty: the message becomes "" and
   * the line 0.
   */
  function Derive(e: Exception): (d: Derivation)
    ensures d.Unchanged? ==> d.original == e
    ensures d.Unchanged? <==> FirstYamlFrame(e.trace) == |e.trace| || |e.trace[FirstYamlFrame(e.trace)].args| == 0
    ensures d.Remapped? ==>
              && d.error.kind == YamlParseError && d.error.code == 0 && d.error.previous == Some(e)
              && d.error.file == e.trace[FirstYamlFrame(e.trace)].args[0] && d.error.trace == e.trace[1..]
  {
    var i := FirstYamlFrame(e.trace);
    if i == |e.trace| || |e.trace[i].args| == 0 then Unchanged(e)
    else
      var mt := MatchMessage(e.message);
      var reason := if mt.Some? then mt.value.reason else "";
      var line := if mt.Some? then DigitsValue(mt.value.line) else 0;
      Remapped(Exception(YamlParseError, reason, 0, e.trace[i].args[0], line, e.trace[1..], Some(e)))
  }

  /**
   * deriveFromError: parse the message, scan the trace for the first
   * yaml_parse_file frame, and build the new error from that frame's file.
   */
  method DeriveFromError(e: Exception) returns (d: Derivation)
    ensures d == Derive(e)
  {
    var mt := MatchMessage(e.message);
    var message, line := "", 0;
    if mt.Some? {
      message, line := mt.value.reason, DigitsValue(mt.value.line);
    }
    var yamlFile := ScanTrace(e.trace);
    if yamlFile.None? {
      return Unchanged(e);
    }
    var trace := e.trace[1..];
    var self := Exception(YamlParseError, message, 0, "", 0, [], Some(e));
    self := self.(file := yamlFile.value, line := line, trace := trace);
    d := Remapped(self);
  }

  /** The `foreach` with `break`: the file argument of the first yaml_parse_file frame, if it has one. */
  method ScanTrace(trace: seq<Frame>) returns (yamlFile: Option<string>)
    ensures var i := FirstYamlFrame(trace);
      && (yamlFile.Some? <==> i < |trace| && |trace[i].args| > 0)
      && (yamlFile.Some? ==> yamlFile.value == trace[i].args[0])
  {
    yamlFile := None;
    var i := 0;
    while i < |trace|
      invariant 0 <= i <= |trace|
      invariant forall j :: 0 <= j < i ==> trace[j].func != YamlFunction
      invariant yamlFile == None
    {
      if trace[i].func == YamlFunction {
        if |trace[i].args| > 0 {
          yamlFile := Some(trace[i].args[0]);
        }
        break;
      }
      i := i + 1;
    }
    FirstYamlFrameIs(trace, i);
  }

  /**
   * A syntax error raised under a yaml_parse_file frame is remapped to that
   * frame's file, the line of the message and the bare reason; the original
   * error is chained as previous and the trace loses its first frame.
   */
  lemma DeriveRemaps(e: Exception, reason: string, line: string, column: string, i: nat)
    requires e.message == Format(reason, line, column)
    requires NoNewline(reason) && |line| > 0 && AllDigits(line) && |column| > 0 && AllDigits(column)
    requires i < |e.trace| && e.trace[i].func == YamlFunction && |e.trace[i].args| > 0
    requires forall j :: 0 <= j < i ==> e.trace[j].func != YamlFunction
    ensures Derive(e) == Remapped(Exception(YamlParseError, reason, 0, e.trace[i].args[0],
                                            DigitsValue(line), e.trace[1..], Some(e)))
  {
    MatchFormatted(reason, line, column);
    DeriveMatched(e, MessageMatch(reason, line, column), i);
  }

  lemma DeriveMatched(e: Exception, mt: MessageMatch, i: nat)
    requires MatchMessage(e.message) == Some(mt) && AllDigits(mt.line)
    requires i < |e.trace| && e.trace[i].func == YamlFunction && |e.trace[i].args| > 0
    requires forall j :: 0 <= j < i ==> e.trace[j].func != YamlFunction
    ensures Derive(e) == Remapped(Exception(YamlParseError, mt.reason, 0, e.trace[i].args[0],
                                            DigitsValue(mt.line), e.trace[1..], Some(e)))
  {
    assert FirstYamlFrame(e.trace) == i;
  }

  /** Without a yaml_parse_file frame the original error comes back unchanged. */
  lemma DeriveFallback(e: Exception)
    requires forall j :: 0 <= j < |e.trace| ==> e.trace[j].func != YamlFunction
    ensures Derive(e) == Unchanged(e)
  {
    assert FirstYamlFrame(e.trace) == |e.trace|;
  }

  /**
   * Only the first yaml_parse_file frame is consulted: when it carries no
   * arguments the original error comes back, whatever later frames hold.
   */
  lemma DeriveFirstFrameOnly(e: Exception, i: nat)
    requires i < |e.trace| && e.trace[i].func == YamlFunction && |e.trace[i].args| == 0
    requires forall j :: 0 <= j < i ==> e.trace[j].func != YamlFunction
    ensures Derive(e) == Unchanged(e)
  {
    assert FirstYamlFrame(e.trace) == i;
  }

  // ----- the declared return type, as written -----

  /** What returning an exception from a method declared `: self` gives. */
  datatype Returned = Returns(error: Exception) | ReturnTypeError(returned: Exception)

  function DeclaredReturn(x: Exception): Returned {
    if x.kind == YamlParseError then Returns(x) else ReturnTypeError(x)
  }

  /** deriveFromError as written, its result checked against the declared `: self` return type. */
  function DeriveAsWritten(e: Exception): (r: Returned)
    requires e.kind == ErrorException
    ensures r.ReturnTypeError? <==> Derive(e).Unchanged?
  {
    match Derive(e)
    case Remapped(x) => DeclaredReturn(x)
    case Unchanged(x) => DeclaredReturn(x)
  }

  /** As written, the fallback branch raises a TypeError instead of returning the original error. */
  lemma AsWrittenFallbackRaises(e: Exception)
    requires e.kind == ErrorException
    requires forall j :: 0 <= j < |e.trace| ==> e.trace[j].func != YamlFunction
    ensures DeriveAsWritten(e) == ReturnTypeError(e)
  {
    DeriveFallback(e);
  }

  /** A concrete input: a parser error whose trace is empty. */
  lemma AsWrittenCounterexample()
    ensures var e := Exception(ErrorException, Format("mapping values are not allowed", "4", "7"), 0, "", 0, [], None);
      DeriveAsWritten(e).ReturnTypeError? && Derive(e) == Unchanged(e)
  {
  }

  /** The remapping branch is unaffected by the return type: it returns a YamlParseError. */
  lemma AsWrittenRemapAgrees(e: Exception)
    requires e.kind == ErrorException && Derive(e).Remapped?
    ensures DeriveAsWritten(e) == Returns(Derive(e).error)
  {
  }
}
