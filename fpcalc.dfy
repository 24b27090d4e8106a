/**
 * The wrapper around the `fpcalc` fingerprinting tool (server/src/fpcalc.ts): the command line
 * it builds, the parser that turns the tool's `NAME=value` output lines into one record, and
 * the test that decides whether a run failed. Spawning the process and piping streams are
 * not modelled; the tool's output arrives here as the stdout chunks, the stderr text and
 * the exit code.
 */
module Fpcalc {
  import opened Wrappers
  import opened JsBuiltins

  // ---------------------------------------------------------------- command line

  /** What `fpcalc` is asked to fingerprint: a file path, or a readable stream piped to its stdin. */
  datatype Input = FilePath(path: string) | Stream

  /**
   * `Options`. `length` is a number (0 is falsy); `ts` is false when absent; `chunk` is None
   * when absent. The `stdin` field is what `BuildArgs` reports as `pipesStdin`.
   */
  datatype Options = Options(length: int, ts: bool, chunk: Option<int>)

  /** An element of the argument array: the source pushes strings and numbers. */
  datatype Arg = Str(s: string) | Num(n: int)

  /** `isStream(file)`: whether `file` has a `pipe` method, which only the stream alternative has. */
  predicate IsStream(file: Input) {
    match file
    case FilePath(_) => false
    case Stream => true
  }

  /** The input argument: "-" (read stdin) for a stream, the path otherwise. */
  function InputArg(file: Input): (a: Arg)
    ensures a == Str("-") <==> IsStream(file) || file.path == "-"
  {
    if IsStream(file) then Str("-") else Str(file.path)
  }

  /** What a command line asks of the tool: the optional `-length`, `-ts`, the optional `-chunk`, and the input. */
  datatype Request = Request(length: Option<int>, ts: bool, chunk: Option<int>, input: Arg)

  /** The request `options` stands for: a falsy `length` or `chunk` asks for nothing. */
  function Requested(file: Input, options: Options): Request {
    Request(if options.length != 0 then Some(options.length) else None,
            options.ts,
            if options.chunk.Some? && options.chunk.value != 0 then options.chunk else None,
            InputArg(file))
  }

  /** The optional `-length n` at the head of `flags`, and what follows it. */
  function TakeLength(flags: seq<Arg>): (Option<int>, seq<Arg>) {
    if |flags| >= 2 && flags[0] == Str("-length") && flags[1].Num? then (Some(flags[1].n), flags[2..])
    else (None, flags)
  }

  /** The optional `-ts` at the head of `flags`, and what follows it. */
  function TakeTs(flags: seq<Arg>): (bool, seq<Arg>) {
    if |flags| >= 1 && flags[0] == Str("-ts") then (true, flags[1..]) else (false, flags)
  }

  /** The optional `-chunk n` at the head of `flags`, and what follows it. */
  function TakeChunk(flags: seq<Arg>): (Option<int>, seq<Arg>) {
    if |flags| >= 2 && flags[0] == Str("-chunk") && flags[1].Num? then (Some(flags[1].n), flags[2..])
    else (None, flags)
  }

  /**
   * Reads a command line in the order the wrapper writes it: `-length n`, `-ts`, `-chunk n`,
   * each optional, then exactly one input argument. Anything else is None.
   */
  function DecodeArgs(args: seq<Arg>): (r: Option<Request>)
    ensures r.Some? ==> |args| >= 1 && r.value.input == args[|args| - 1]
  {
    if args == [] then None
    else
      var (length, afterLength) := TakeLength(args[..|args| - 1]);
      var (ts, afterTs) := TakeTs(afterLength);
      var (chunk, afterChunk) := TakeChunk(afterTs);
      if afterChunk != [] then None else Some(Request(length, ts, chunk, args[|args| - 1]))
  }

  /** The arguments the `length` option adds. */
  function LengthArgs(options: Options): seq<Arg> {
    if options.length != 0 then [Str("-length"), Num(options.length)] else []
  }

  /** The arguments the `ts` option adds. */
  function TsArgs(options: Options): seq<Arg> {
    if options.ts then [Str("-ts")] else []
  }

  /** The arguments the `chunk` option adds. */
  function ChunkArgs(options: Options): seq<Arg> {
    if options.chunk.Some? && options.chunk.value != 0 then [Str("-chunk"), Num(options.chunk.value)] else []
  }

  /** The three option names differ. */
  lemma FlagNamesDistinct()
    ensures "-length" != "-ts" && "-length" != "-chunk" && "-ts" != "-chunk"
  {
    assert |"-length"| == 7 && |"-ts"| == 3 && |"-chunk"| == 6;
  }

  /** `-length n` is read off the front, and nothing is read where the options put no length. */
  lemma TakeLengthArgs(options: Options, rest: seq<Arg>)
    requires rest == [] || rest[0] == Str("-ts") || rest[0] == Str("-chunk")
    ensures TakeLength(LengthArgs(options) + rest) == (if options.length != 0 then Some(options.length) else None, rest)
  {
    FlagNamesDistinct();
    var l := LengthArgs(options);
    if l != [] {
      assert (l + rest)[2..] == rest;
    } else {
      assert l + rest == rest;
    }
  }

  /** `-ts` is read off the front, and nothing is read where the options put no `-ts`. */
  lemma TakeTsArgs(options: Options, rest: seq<Arg>)
    requires rest == [] || rest[0] == Str("-chunk")
    ensures TakeTs(TsArgs(options) + rest) == (options.ts, rest)
  {
    FlagNamesDistinct();
    var t := TsArgs(options);
    if t != [] {
      assert (t + rest)[1..] == rest;
    } else {
      assert t + rest == rest;
    }
  }

  /** The option arguments, followed by an input, read back as the request the options stand for. */
  lemma DecodeRequested(file: Input, options: Options)
    ensures DecodeArgs(LengthArgs(options) + TsArgs(options) + ChunkArgs(options) + [InputArg(file)])
              == Some(Requested(file, options))
  {
    var l, t, c := LengthArgs(options), TsArgs(options), ChunkArgs(options);
    var args := l + t + c + [InputArg(file)];
    assert args[..|args| - 1] == l + (t + c);
    TakeLengthArgs(options, t + c);
    TakeTsArgs(options, c);
    if c != [] {
      assert c[2..] == [];
    }
  }

  /**
   * The argument array `fpcalc(file, options, callback)` builds by successive pushes, and
   * whether it sets `options.stdin` to pipe the stream into the tool.
   */
  method BuildArgs(file: Input, options: Options) returns (args: seq<Arg>, pipesStdin: bool)
    ensures DecodeArgs(args) == Some(Requested(file, options))
    ensures 1 <= |args| <= 6 && args[|args| - 1] == InputArg(file)
    ensures pipesStdin <==> IsStream(file)
  {
    args := [];
    if options.length != 0 {
      args := args + [Str("-length"), Num(options.length)];
    }
    if options.ts {
      args := args + [Str("-ts")];
    }
    if options.chunk.Some? && options.chunk.value != 0 {
      args := args + [Str("-chunk"), Num(options.chunk.value)];
    }
    assert args == LengthArgs(options) + TsArgs(options) + ChunkArgs(options);
    if IsStream(file) {
      args := args + [Str("-")];
      pipesStdin := true;
    } else {
      args := args + [Str(file.path)];
      pipesStdin := false;
    }
    DecodeRequested(file, options);
  }

  // ---------------------------------------------------------------- output lines

  /** One parsed output line. */
  datatype Field = Field(name: string, value: string)

  /**
   * `parseData(line)`: split at the first "=", the name lower-cased. Without an "=" `indexOf`
   * is -1, so the name is the line without its last character and the value the whole line.
   */
  function ParseData(line: string): (f: Field)
    ensures '=' in line ==>
              var i := IndexOf(line, '=');
              '=' !in line[..i] && f.name == ToLowerCase(line[..i]) && f.value == line[i + 1..]
    ensures '=' !in line && |line| > 0 ==> f == Field(ToLowerCase(line[..|line| - 1]), line)
    ensures line == [] ==> f == Field("", "")
  {
    var index := IndexOf(line, '=');
    Field(ToLowerCase(Slice(line, 0, index)), Slice(line, index + 1, |line|))
  }

  /** A name with no "=" and no capital letter, followed by "=" and any value, parses back to itself. */
  lemma ParseDataRoundTrip(name: string, value: string)
    requires '=' !in name && IsLowerCase(name)
    ensures ParseData(name + "=" + value) == Field(name, value)
  {
    var line := name + "=" + value;
    assert line[|name|] == '=' && line[..|name|] == name;
    assert IndexOf(line, '=') == |name|;
    assert line[|name| + 1..] == value;
    assert ToLowerCase(name) == name;
  }

  /** One trailing carriage return removed, as the `\r?\n` separator of `es.split()` does. */
  function DropCR(piece: string): (p: string)
    ensures p == piece || (piece == p + "\r")
  {
    if |piece| > 0 && piece[|piece| - 1] == '\r' then piece[..|piece| - 1] else piece
  }

  /** `es.split()`: the text cut at every "\n", a "\r" just before a "\n" going with it. */
  function Lines(text: string): (lines: seq<string>)
    ensures |lines| >= 1
    ensures forall i :: 0 <= i < |lines| ==> '\n' !in lines[i]
  {
    var pieces := Split(text, '\n');
    seq(|pieces|, i requires 0 <= i < |pieces| => if i < |pieces| - 1 then DropCR(pieces[i]) else pieces[i])
  }

  /** One line per piece of `text` between newlines; every line but the last loses a final "\r". */
  lemma LinesOfSplit(text: string)
    ensures |Lines(text)| == |Split(text, '\n')|
    ensures forall i :: 0 <= i < |Lines(text)| - 1 ==> Lines(text)[i] == DropCR(Split(text, '\n')[i])
    ensures Lines(text)[|Lines(text)| - 1] == Split(text, '\n')[|Lines(text)| - 1]
  {
  }

  /** `filter(Boolean)` then `mapSync(parseData)`: the fields of the non-empty lines, in order. */
  function Fields(lines: seq<string>): (fs: seq<Field>)
    ensures |fs| <= |lines|
  {
    if lines == [] then []
    else
      var last := lines[|lines| - 1];
      Fields(lines[..|lines| - 1]) + if last == [] then [] else [ParseData(last)]
  }

  /** With no empty line, every line gives its field, in order. */
  lemma {:induction false} FieldsOfNonEmptyLines(lines: seq<string>)
    requires forall i :: 0 <= i < |lines| ==> lines[i] != []
    ensures |Fields(lines)| == |lines|
    ensures forall i :: 0 <= i < |lines| ==> Fields(lines)[i] == ParseData(lines[i])
    decreases |lines|
  {
    if lines != [] {
      var init := lines[..|lines| - 1];
      assert forall i :: 0 <= i < |init| ==> init[i] == lines[i];
      FieldsOfNonEmptyLines(init);
      var fs, last := Fields(init), ParseData(lines[|lines| - 1]);
      assert Fields(lines) == fs + [last];
      forall i | 0 <= i < |lines|
        ensures Fields(lines)[i] == ParseData(lines[i])
      {
        if i < |init| {
          assert (fs + [last])[i] == fs[i];
        }
      }
    }
  }

  /** Empty lines give no field. */
  lemma {:induction false} FieldsOfEmptyLines(lines: seq<string>)
    requires forall i :: 0 <= i < |lines| ==> lines[i] == []
    ensures Fields(lines) == []
    decreases |lines|
  {
    if lines != [] {
      FieldsOfEmptyLines(lines[..|lines| - 1]);
    }
  }

  /** `reduce((result, data) => { result[data.name] = data.value; ... }, {})`: later fields overwrite earlier ones. */
  function Record(fs: seq<Field>): (r: map<string, string>)
    ensures forall k :: k in r <==> exists i :: 0 <= i < |fs| && fs[i].name == k
  {
    if fs == [] then map[]
    else
      var prior := Record(fs[..|fs| - 1]);
      var f := fs[|fs| - 1];
      assert forall i :: 0 <= i < |fs| - 1 ==> fs[..|fs| - 1][i] == fs[i];
      prior[f.name := f.value]
  }

  /** A name maps to the value of the last field that has it. */
  lemma {:induction false} RecordLastWins(fs: seq<Field>, i: nat)
    requires i < |fs| && forall j :: i < j < |fs| ==> fs[j].name != fs[i].name
    ensures fs[i].name in Record(fs) && Record(fs)[fs[i].name] == fs[i].value
    decreases |fs|
  {
    if i < |fs| - 1 {
      var init := fs[..|fs| - 1];
      assert init[i] == fs[i];
      assert forall j :: i < j < |init| ==> init[j] == fs[j];
      RecordLastWins(init, i);
    }
  }

  /** `parse()`: the output cut into lines, the empty ones dropped, each parsed and folded into one record. */
  method Parse(text: string) returns (record: map<string, string>)
    ensures record == Record(Fields(Lines(text)))
  {
    var lines := Lines(text);
    record := map[];
    for i := 0 to |lines|
      invariant record == Record(Fields(lines[..i]))
    {
      FieldsStep(lines, i);
      if lines[i] != [] {
        var f := ParseData(lines[i]);
        record := record[f.name := f.value];
      }
    }
    assert lines[..|lines|] == lines;
  }

  /** Extending the lines by one adds that line's field, if it is not empty. */
  lemma FieldsStep(lines: seq<string>, i: nat)
    requires i < |lines|
    ensures Fields(lines[..i + 1]) == Fields(lines[..i]) + if lines[i] == [] then [] else [ParseData(lines[i])]
    ensures Record(Fields(lines[..i + 1])) ==
              if lines[i] == [] then Record(Fields(lines[..i]))
              else Record(Fields(lines[..i]))[ParseData(lines[i]).name := ParseData(lines[i]).value]
  {
    assert lines[..i + 1][..i] == lines[..i];
    var fs := Fields(lines[..i]);
    if lines[i] != [] {
      assert (fs + [ParseData(lines[i])])[..|fs|] == fs;
    } else {
      assert fs + [] == fs;
    }
  }

  /** The output line `name=value`. */
  function Render(f: Field): string {
    f.name + "=" + f.value
  }

  /** The lines printing `fields` gives, one per field. */
  function RenderLines(fields: seq<Field>): (lines: seq<string>)
    ensures |lines| == |fields|
  {
    if fields == [] then [] else RenderLines(fields[..|fields| - 1]) + [Render(fields[|fields| - 1])]
  }

  /** The output of a run that prints `fields`, one per line, each line ended by "\n". */
  function Output(fields: seq<Field>): string {
    if fields == [] then "" else Output(fields[..|fields| - 1]) + Render(fields[|fields| - 1]) + "\n"
  }

  /** Names without "=", capitals or line breaks, and values without line breaks, as `fpcalc` prints them. */
  predicate Printable(f: Field) {
    && '=' !in f.name && IsLowerCase(f.name) && '\n' !in f.name && '\r' !in f.name
    && '\n' !in f.value && '\r' !in f.value
  }

  /** Joining `ps + [p, ""]` puts `p` and a "\n" after the join of `ps + [""]`. */
  lemma {:induction false} JoinSnoc(ps: seq<string>, p: string)
    ensures Join(ps + [p] + [""], '\n') == Join(ps + [""], '\n') + p + "\n"
    decreases |ps|
  {
    if ps == [] {
      assert [p] + [""] == [p, ""];
      assert Join([""], '\n') == "";
      assert Join([p, ""], '\n') == p + "\n" + Join([""], '\n');
    } else {
      var rest := ps[1..];
      assert (ps + [p] + [""])[1..] == rest + [p] + [""];
      assert (ps + [""])[1..] == rest + [""];
      JoinSnoc(rest, p);
    }
  }

  /** The text of `fields` is their lines joined by "\n", with an empty piece after the last "\n". */
  lemma {:induction false} OutputIsJoin(fields: seq<Field>)
    ensures Output(fields) == Join(RenderLines(fields) + [""], '\n')
    decreases |fields|
  {
    if fields != [] {
      var init := fields[..|fields| - 1];
      OutputIsJoin(init);
      JoinSnoc(RenderLines(init), Render(fields[|fields| - 1]));
    }
  }

  /** Printable fields render to lines with no line break and no trailing carriage return. */
  lemma {:induction false} RenderedLinesClean(fields: seq<Field>)
    requires forall i :: 0 <= i < |fields| ==> Printable(fields[i])
    ensures forall i :: 0 <= i < |fields| ==>
              var line := RenderLines(fields)[i];
              '\n' !in line && DropCR(line) == line && line != []
    decreases |fields|
  {
    if fields != [] {
      var n := |fields| - 1;
      RenderedLinesClean(fields[..n]);
      var f := fields[n];
      var r := Render(f);
      assert r == f.name + "=" + f.value;
      assert r[|f.name|] == '=';
      assert r[|r| - 1] != '\r' by {
        if |f.value| > 0 {
          assert r[|r| - 1] == f.value[|f.value| - 1];
        }
      }
      assert '\n' !in r;
    }
  }

  /** The fields of the rendered lines of printable fields are those fields. */
  lemma {:induction false} FieldsOfRendered(fields: seq<Field>)
    requires forall i :: 0 <= i < |fields| ==> Printable(fields[i])
    ensures Fields(RenderLines(fields)) == fields
    decreases |fields|
  {
    if fields != [] {
      var n := |fields| - 1;
      var f := fields[n];
      var lines := RenderLines(fields);
      assert Fields(lines[..n]) == fields[..n] by {
        assert lines[..n] == RenderLines(fields[..n]);
        FieldsOfRendered(fields[..n]);
      }
      assert lines[n] != [] && ParseData(lines[n]) == f by {
        ParseDataRoundTrip(f.name, f.value);
      }
      assert fields == fields[..n] + [f];
    }
  }

  /** Cutting the join of lines without line breaks or carriage returns before a break gives the lines back. */
  lemma LinesOfJoin(pieces: seq<string>)
    requires |pieces| >= 1
    requires forall i :: 0 <= i < |pieces| ==> '\n' !in pieces[i]
    requires forall i :: 0 <= i < |pieces| - 1 ==> DropCR(pieces[i]) == pieces[i]
    ensures Lines(Join(pieces, '\n')) == pieces
  {
    SplitJoin(pieces, '\n');
  }

  /** The printed output splits back into the printed lines, then one empty line after the final "\n". */
  lemma LinesOfOutput(fields: seq<Field>)
    requires forall i :: 0 <= i < |fields| ==> Printable(fields[i])
    ensures Lines(Output(fields)) == RenderLines(fields) + [""]
  {
    var rendered := RenderLines(fields);
    var pieces := rendered + [""];
    OutputIsJoin(fields);
    RenderedLinesClean(fields);
    forall i | 0 <= i < |pieces|
      ensures '\n' !in pieces[i] && (i < |pieces| - 1 ==> DropCR(pieces[i]) == pieces[i])
    {
      if i < |rendered| {
        assert pieces[i] == rendered[i];
      }
    }
    LinesOfJoin(pieces);
  }

  /** Printing `fields` one per line and parsing the output gives back the record the fields make. */
  lemma ParseOutputRoundTrip(fields: seq<Field>)
    requires forall i :: 0 <= i < |fields| ==> Printable(fields[i])
    ensures Fields(Lines(Output(fields))) == fields
    ensures Record(Fields(Lines(Output(fields)))) == Record(fields)
  {
    var rendered := RenderLines(fields);
    LinesOfOutput(fields);
    FieldsOfRendered(fields);
    assert (rendered + [""])[..|rendered|] == rendered;
  }

  // ---------------------------------------------------------------- errors and outcome

  /** The stderr test of `run`: the first six characters are "ERROR:". */
  predicate StderrReportsError(stderr: string) {
    Slice(stderr, 0, 6) == "ERROR:"
  }

  /** The error `run` reports first, if any: the stderr test, then a non-zero (or null) exit code. */
  function RunError(stderr: string, exitCode: Option<int>): (e: Option<string>)
    ensures e.None? <==> !(|stderr| >= 6 && stderr[..6] == "ERROR:") && exitCode == Some(0)
    ensures |stderr| >= 6 && stderr[..6] == "ERROR:" ==> e == Some("something went wrong")
    ensures !(|stderr| >= 6 && stderr[..6] == "ERROR:") && exitCode != Some(0) ==> e == Some("fpcalc failed")
  {
    if StderrReportsError(stderr) then Some("something went wrong")
    else if exitCode != Some(0) then Some("fpcalc failed")
    else None
  }

  /** What the callback receives first (`once` drops the rest): an error message, or the parsed record. */
  datatype Outcome = Failed(message: string) | Parsed(record: map<string, string>)

  /** `es.mapSync(f)`: each chunk mapped by `f`; a chunk mapped to `undefined` is not passed on. */
  function MapSync(chunks: seq<string>, f: string -> Option<string>): (out: seq<string>)
    ensures |out| <= |chunks|
    // a function that maps every chunk to undefined passes nothing on; one that returns each chunk passes all
    ensures (forall i :: 0 <= i < |chunks| ==> f(chunks[i]).None?) ==> out == []
    ensures (forall i :: 0 <= i < |chunks| ==> f(chunks[i]) == Some(chunks[i])) ==> out == chunks
    decreases |chunks|
  {
    if chunks == [] then []
    else
      var rest := MapSync(chunks[1..], f);
      match f(chunks[0])
      case None => rest
      case Some(c) => [c] + rest
  }

  /** `function () {}`: returns `undefined` whatever the chunk. */
  function Discard(chunk: string): Option<string> {
    None
  }

  /** The pass-through `run` intends: every chunk unchanged. */
  function Keep(chunk: string): Option<string> {
    Some(chunk)
  }

  /** The stdout text the chunks make. */
  function Text(chunks: seq<string>): (t: string)
    ensures chunks == [] ==> t == ""
    ensures |chunks| == 1 ==> t == chunks[0]
    ensures forall i :: 0 <= i < |chunks| ==> |chunks[i]| <= |t|
    ensures chunks != [] ==> chunks[0] <= t
    decreases |chunks|
  {
    if chunks == [] then "" else chunks[0] + Text(chunks[1..])
  }

  /** Where stdout was cut into chunks does not matter: the text of two runs of chunks is the two texts joined. */
  lemma {:induction false} TextAppend(a: seq<string>, b: seq<string>)
    ensures Text(a + b) == Text(a) + Text(b)
    decreases |a|
  {
    if a != [] {
      assert (a + b)[0] == a[0] && (a + b)[1..] == a[1..] + b;
      TextAppend(a[1..], b);
      calc {
        Text(a + b);
        (a + b)[0] + Text((a + b)[1..]);
        a[0] + (Text(a[1..]) + Text(b));
        (a[0] + Text(a[1..])) + Text(b);
      }
    } else {
      assert a + b == b;
    }
  }

  /** `mapSync(function () {})` passes nothing on. */
  lemma {:induction false} DiscardPassesNothing(chunks: seq<string>)
    ensures MapSync(chunks, Discard) == []
    decreases |chunks|
  {
    if chunks != [] {
      DiscardPassesNothing(chunks[1..]);
    }
  }

  /** A pass-through that keeps every chunk passes on exactly the chunks. */
  lemma {:induction false} KeepPassesAll(chunks: seq<string>)
    ensures MapSync(chunks, Keep) == chunks
    decreases |chunks|
  {
    if chunks != [] {
      KeepPassesAll(chunks[1..]);
    }
  }

  /**
   * A run as written. stdout is piped into the `mapSync(function () {})` stream with the default
   * `end`, so that stream ends when stdout does, which is before `close`, and `parse()` then hands
   * the callback the record of what passed through: nothing. `stderrFirst` says whether stderr's
   * `concat` callback ran before stdout ended; only then does its error reach the callback first.
   * The exit code is reported in `close`, after stdout's end, and `once` drops it.
   */
  function RunAsWritten(stdout: seq<string>, stderr: string, exitCode: Option<int>, stderrFirst: bool): (r: Outcome)
    ensures r.Failed? <==> stderrFirst && StderrReportsError(stderr)
    ensures r.Failed? ==> r.message == "something went wrong"
    ensures r.Parsed? ==> r.record == map[]
  {
    if stderrFirst && StderrReportsError(stderr) then Failed("something went wrong")
    else
      DiscardPassesNothing(stdout);
      assert Lines("") == [""];
      assert Fields([""]) == Fields([]) + [];
      Parsed(Record(Fields(Lines(Text(MapSync(stdout, Discard))))))
  }

  /**
   * A run with the stream the comment in `run` describes, which passes every chunk through and
   * ends only when `close` queues its end: stderr's error and then the exit code are reported
   * before any record, and a clean run yields the record parsed from everything the tool printed.
   */
  function Run(stdout: seq<string>, stderr: string, exitCode: Option<int>): (r: Outcome)
    ensures r.Failed? <==> RunError(stderr, exitCode).Some?
    ensures r.Failed? ==> r.message == RunError(stderr, exitCode).value
    ensures r.Parsed? ==> r.record == Record(Fields(Lines(Text(stdout))))
  {
    KeepPassesAll(stdout);
    match RunError(stderr, exitCode)
    case Some(message) => Failed(message)
    case None => Parsed(Record(Fields(Lines(Text(MapSync(stdout, Keep))))))
  }

  /** As written, a run whose stderr reports no error hands the callback an empty record, whatever it printed and however it exited. */
  lemma AsWrittenDropsOutput(stdout: seq<string>, stderr: string, exitCode: Option<int>, stderrFirst: bool)
    requires !StderrReportsError(stderr)
    ensures RunAsWritten(stdout, stderr, exitCode, stderrFirst) == Parsed(map[])
  {
  }

  /** The one-field output `duration=10`. */
  const DurationOutput := Output([Field("duration", "10")])

  /** A clean run that prints `duration=10`: as written the record is empty. */
  lemma DurationAsWritten()
    ensures RunAsWritten([DurationOutput], "", Some(0), false) == Parsed(map[])
  {
    AsWrittenDropsOutput([DurationOutput], "", Some(0), false);
  }

  /** The same run with the intended pass-through: the record holds the duration. */
  lemma DurationIntended()
    ensures Run([DurationOutput], "", Some(0)) == Parsed(map["duration" := "10"])
  {
    var f := Field("duration", "10");
    assert Printable(f);
    ParseOutputRoundTrip([f]);
    assert Text([DurationOutput]) == DurationOutput + Text([]) == DurationOutput;
    assert [f][..0] == [];
    var record := Record([f]);
    assert record == map["duration" := "10"];
    assert RunError("", Some(0)) == None;
    var r := Run([DurationOutput], "", Some(0));
    assert r.Parsed? && r.record == Record(Fields(Lines(DurationOutput)));
  }

  /** A run that exits with code 1 and prints nothing on stderr: as written, the callback gets an empty record and no error. */
  lemma ExitFailureAsWritten(stdout: seq<string>, stderrFirst: bool)
    ensures RunAsWritten(stdout, "", Some(1), stderrFirst) == Parsed(map[])
  {
    AsWrittenDropsOutput(stdout, "", Some(1), stderrFirst);
  }

  /** The same run with the stream ended only in `close`: the callback gets "fpcalc failed". */
  lemma ExitFailureIntended(stdout: seq<string>)
    ensures Run(stdout, "", Some(1)) == Failed("fpcalc failed")
  {
    assert !StderrReportsError("");
  }
}
