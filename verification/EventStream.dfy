/** The streamed answer of the model: lines of server-sent events (section 9.2.6 of the WHATWG HTML Living Standard),
    read under a byte limit and assembled into one message. */
module EventStream {
  import opened Common
  import opened ToolCallStream

  const MAX_RESPONSE_BYTES: nat := 2 * 1024 * 1024

  const DONE: string := "[DONE]"

  datatype Choice = Choice(index: int, finish: Option<string>, content: Option<string>, calls: seq<Delta>)

  datatype Event = Event(usage: Option<string>, choices: seq<Choice>)

  /** What has been received: the data lines of the event in progress and everything assembled from earlier events. */
  datatype Assembly = Assembly(data: seq<string>, content: seq<string>, calls: Calls, finish: Option<string>,
                               usage: Option<string>, sawChoice: bool)

  datatype Response = Response(content: Option<string>, calls: seq<ToolCall>, finish: string, usage: Option<string>)

  const NOTHING: Assembly := Assembly([], [], map[], None, None, false)

  /** JSON text of an event; `None` for anything that is not an event of the expected shape. */
  type Parser = string -> Option<Event>

  // ----- events

  function ApplyChoice(a: Assembly, c: Choice): Result<Assembly, StreamError> {
    if c.index != 0 then Err(UnexpectedChoice)
    else if c.finish.Some? && a.finish.Some? && a.finish != c.finish then Err(ConflictingFinish)
    else
      var calls := MergeAll(a.calls, c.calls);
      if calls.Err? then Err(calls.error)
      else Ok(a.(sawChoice := true, finish := if c.finish.Some? then c.finish else a.finish, calls := calls.value,
                 content := a.content + if c.content.Some? then [c.content.value] else []))
  }

  function ApplyChoices(a: Assembly, choices: seq<Choice>): Result<Assembly, StreamError>
    decreases |choices|
  {
    if choices == [] then Ok(a)
    else
      var b := ApplyChoice(a, choices[0]);
      if b.Err? then b else ApplyChoices(b.value, choices[1..])
  }

  function ApplyEvent(a: Assembly, e: Event): Result<Assembly, StreamError> {
    ApplyChoices(a.(usage := if e.usage.Some? then e.usage else a.usage), e.choices)
  }

  // ----- lines

  function Join(lines: seq<string>): string {
    if lines == [] then "" else if |lines| == 1 then lines[0] else lines[0] + "\n" + Join(lines[1..])
  }

  /** The input up to and including its first newline, all of it if it has none. */
  function FirstLine(s: string): (line: string)
    ensures |line| <= |s| && (s != "" ==> line != "")
  {
    if s == "" then "" else if s[0] == '\n' then [s[0]] else [s[0]] + FirstLine(s[1..])
  }

  lemma {:induction false} FirstLineEndsAtNewline(s: string)
    ensures var line := FirstLine(s);
            line <= s && (line == s || line[|line| - 1] == '\n') && forall i | 0 <= i < |line| - 1 :: line[i] != '\n'
  {
    if s != "" && s[0] != '\n' {
      FirstLineEndsAtNewline(s[1..]);
      assert s == [s[0]] + s[1..];
    }
  }

  /** Without the carriage returns and newlines it ends with. */
  function Strip(line: string): string {
    if line != "" && (line[|line| - 1] == '\r' || line[|line| - 1] == '\n') then Strip(line[..|line| - 1]) else line
  }

  /** The position of the first colon, the length of the line if it has none. */
  function ColonAt(line: string): (k: nat)
    ensures k <= |line|
  {
    if line == "" || line[0] == ':' then 0 else 1 + ColonAt(line[1..])
  }

  lemma {:induction false} FirstColon(line: string, k: nat)
    requires k <= |line| && (k < |line| ==> line[k] == ':') && forall i | 0 <= i < k :: line[i] != ':'
    ensures ColonAt(line) == k
  {
    if k > 0 {
      FirstColon(line[1..], k - 1);
    }
  }

  /** The part behind the colon, without the one space that may follow it. */
  function FieldValue(line: string): string {
    var k := ColonAt(line);
    if k == |line| then ""
    else if k + 1 < |line| && line[k + 1] == ' ' then line[k + 2..]
    else line[k + 1..]
  }

  /** What a line means: the end of an event, a data line, or a comment or another field. */
  datatype Meaning = Blank | Data(value: string) | Ignored

  function MeaningOf(line: string): Meaning {
    if line == "" then Blank
    else if line[0] != ':' && line[..ColonAt(line)] == "data" then Data(FieldValue(line))
    else Ignored
  }

  lemma {:induction false} NoEarlierColon(line: string, k: nat)
    requires k <= ColonAt(line)
    ensures forall i | 0 <= i < k :: line[i] != ':'
    ensures ColonAt(line) < |line| ==> line[ColonAt(line)] == ':'
  {
    if k > 0 || (line != "" && line[0] != ':') {
      NoEarlierColon(line[1..], if k > 0 then k - 1 else 0);
    }
  }

  predicate BeginsWith(line: string, field: string) {
    |field| <= |line| && line[..|field|] == field
  }

  /** A line ends an event if it is empty. It carries data if it is the word `data` alone or before a colon, and the
      data is what follows the colon, without one leading space. Everything else, comments included, is ignored. */
  lemma MeaningIsField(line: string)
    ensures MeaningOf(line).Blank? <==> line == ""
    ensures MeaningOf(line).Data? <==> line == "data" || BeginsWith(line, "data:")
    ensures line == "data" ==> MeaningOf(line) == Data("")
    ensures BeginsWith(line, "data:") ==>
              MeaningOf(line) == Data(if BeginsWith(line, "data: ") then line[6..] else line[5..])
  {
    if line == "data" || BeginsWith(line, "data:") {
      DataFieldColon(line);
    } else if MeaningOf(line).Data? {
      NoEarlierColon(line, ColonAt(line));
      ShortDataField(line);
    }
  }

  lemma DataFieldColon(line: string)
    requires line == "data" || BeginsWith(line, "data:")
    ensures ColonAt(line) == 4 && line[..4] == "data"
  {
    assert line[0] == 'd' && line[1] == 'a' && line[2] == 't' && line[3] == 'a';
    if line != "data" {
      assert line[4] == line[..5][4] == ':';
    }
    assert line[..4] == "data";
    FirstColon(line, 4);
  }

  lemma ShortDataField(line: string)
    requires line[..ColonAt(line)] == "data" && (ColonAt(line) < |line| ==> line[ColonAt(line)] == ':')
    ensures line == "data" || BeginsWith(line, "data:")
  {
    assert ColonAt(line) == |line[..ColonAt(line)]| == 4;
    if |line| == 4 {
      assert line[..4] == line;
    } else {
      assert line[..5] == line[..4] + [line[4]];
    }
  }

  datatype Line = Line(meaning: Meaning, bytes: nat)

  function LinesOf(s: string): seq<Line>
    decreases |s|
  {
    if s == "" then []
    else var line := FirstLine(s); [Line(MeaningOf(Strip(line)), |line|)] + LinesOf(s[|line|..])
  }

  lemma LinesBegin(s: string)
    ensures s == "" <==> FirstLine(s) == ""
    ensures var line := FirstLine(s);
            LinesOf(s) == if s == "" then [] else [Line(MeaningOf(Strip(line)), |line|)] + LinesOf(s[|line|..])
  {
  }

  // ----- the stream as lines

  datatype Step = More(a: Assembly) | Done(a: Assembly) | Failed(e: StreamError)

  function Dispatch(parse: Parser, a: Assembly): Step {
    if a.data == [] then More(a)
    else
      var raw := Join(a.data);
      var b := a.(data := []);
      if raw == DONE then Done(b)
      else if parse(raw).None? then Failed(Malformed)
      else
        match ApplyEvent(b, parse(raw).value)
        case Ok(c) => More(c)
        case Err(e) => Failed(e)
  }

  function HandleLine(parse: Parser, a: Assembly, line: Meaning): Step {
    match line
    case Blank => Dispatch(parse, a)
    case Data(value) => More(a.(data := a.data + [value]))
    case Ignored => More(a)
  }

  /** The event in progress ends with the input, and it must be the end mark. */
  function AtEnd(parse: Parser, a: Assembly): Result<Assembly, StreamError> {
    match Dispatch(parse, a)
    case Done(b) => Ok(b)
    case Failed(e) => Err(e)
    case More(_) => Err(EndedBeforeDone)
  }

  /** All lines in turn, after `total` bytes; the limit is checked before a line is looked at. */
  function ReadAll(parse: Parser, lines: seq<Line>, total: nat, a: Assembly): Result<Assembly, StreamError>
    decreases |lines|
  {
    if lines == [] then AtEnd(parse, a)
    else if total + lines[0].bytes > MAX_RESPONSE_BYTES then Err(TooLarge)
    else
      match HandleLine(parse, a, lines[0].meaning)
      case More(b) => ReadAll(parse, lines[1..], total + lines[0].bytes, b)
      case Done(b) => Ok(b)
      case Failed(e) => Err(e)
  }

  function ContentOf(a: Assembly): Option<string> {
    if a.content == [] then None else Some(Concat(a.content))
  }

  function Concat(pieces: seq<string>): string {
    if pieces == [] then "" else pieces[0] + Concat(pieces[1..])
  }

  ghost predicate Answered(a: Assembly, r: Result<Response, StreamError>) {
    if !a.sawChoice then r == Err(NoChoice)
    else if a.finish.None? then r == Err(NoFinishReason)
    else
      match r
      case Ok(m) =>
        && FinishedAs(a.calls, Ok(m.calls))
        && m.content == ContentOf(a) && m.finish == a.finish.value && m.usage == a.usage
      case Err(e) => FinishedAs(a.calls, Err(e))
  }

  ghost predicate Outcome(parse: Parser, s: string, r: Result<Response, StreamError>) {
    match ReadAll(parse, LinesOf(s), 0, NOTHING)
    case Ok(a) => Answered(a, r)
    case Err(e) => r == Err(e)
  }

  // ----- the program

  /** The response body: `count` bytes of it have been read, `rest` have not. */
  class ByteSource {
    var rest: string
    var count: nat

    constructor (bytes: string)
      ensures rest == bytes && count == 0
    {
      rest, count := bytes, 0;
    }

    /** The rest of the current line, but no more than `size` bytes. */
    method ReadLine(size: nat) returns (line: string)
      modifies this
      ensures line == if |FirstLine(old(rest))| <= size then FirstLine(old(rest)) else FirstLine(old(rest))[..size]
      ensures rest == old(rest)[|line|..] && count == old(count) + |line|
    {
      var first := FirstLine(rest);
      line := if |first| <= size then first else first[..size];
      rest, count := rest[|line|..], count + |line|;
    }
  }

  class StreamReader {
    const parse: Parser
    var data: seq<string>
    var content: seq<string>
    var calls: Calls
    var finish: Option<string>
    var usage: Option<string>
    var sawChoice: bool

    ghost function State(): Assembly
      reads this
    {
      Assembly(data, content, calls, finish, usage, sawChoice)
    }

    constructor (parse: Parser)
      ensures this.parse == parse && State() == NOTHING
    {
      this.parse := parse;
      data, content, calls, finish, usage, sawChoice := [], [], map[], None, None, false;
    }

    /** One fragment of one tool call is merged into the table. */
    method MergeCall(d: Delta) returns (error: Option<StreamError>)
      modifies this`calls
      ensures error == if Merge(old(calls), d).Err? then Some(Merge(old(calls), d).error) else None
      ensures error.None? ==> Ok(calls) == Merge(old(calls), d)
    {
      if d.index < 0 {
        return Some(BadIndex);
      }
      if d.index !in calls {
        calls := calls[d.index := NOTHING_YET];
      }
      var call := calls[d.index];
      if d.id.Some? && d.id.value != call.id {
        var merged := if call.id <= d.id.value then d.id.value else call.id + d.id.value;
        if |merged| > MAX_ID_CHARS {
          return Some(OversizedId);
        }
        call := call.(id := merged);
      }
      if d.kind.Some? {
        if call.kind.Some? && call.kind != d.kind {
          return Some(ConflictingKinds);
        }
        call := call.(kind := d.kind);
      }
      call := call.(name := call.name + Text(d.name));
      call := call.(arguments := call.arguments + Text(d.arguments));
      calls := calls[d.index := call];
      assert calls == old(calls)[d.index := call];
      return None;
    }

    method MergeCalls(deltas: seq<Delta>) returns (error: Option<StreamError>)
      modifies this`calls
      ensures var merged := MergeAll(old(calls), deltas);
              if merged.Ok? then error.None? && calls == merged.value else error == Some(merged.error)
    {
      for k := 0 to |deltas|
        invariant MergeAll(old(calls), deltas[..k]) == Ok(calls)
      {
        assert deltas[..k + 1][..k] == deltas[..k];
        error := MergeCall(deltas[k]);
        if error.Some? {
          MergeFails(old(calls), deltas, k + 1);
          return;
        }
      }
      assert deltas[..|deltas|] == deltas;
      return None;
    }

    method TakeChoice(c: Choice) returns (error: Option<StreamError>)
      modifies this
      ensures var applied := ApplyChoice(old(State()), c);
              if applied.Ok? then error.None? && State() == applied.value else error == Some(applied.error)
    {
      if c.index != 0 {
        return Some(UnexpectedChoice);
      }
      sawChoice := true;
      if c.finish.Some? {
        if finish.Some? && finish != c.finish {
          return Some(ConflictingFinish);
        }
        finish := c.finish;
      }
      if c.content.Some? {
        content := content + [c.content.value];
      }
      error := MergeCalls(c.calls);
    }

    method ConsumeEvent() returns (done: bool, error: Option<StreamError>)
      modifies this
      ensures match Dispatch(parse, old(State()))
              case More(a) => !done && error.None? && State() == a
              case Done(a) => done && error.None? && State() == a
              case Failed(e) => error == Some(e)
    {
      if data == [] {
        return false, None;
      }
      var raw := Join(data);
      data := [];
      if raw == DONE {
        return true, None;
      }
      var event := parse(raw);
      if event.None? {
        return false, Some(Malformed);
      }
      if event.value.usage.Some? {
        usage := event.value.usage;
      }
      var choices := event.value.choices;
      ghost var start := State();
      for k := 0 to |choices|
        invariant ApplyChoices(start, choices) == ApplyChoices(State(), choices[k..])
      {
        assert choices[k..][1..] == choices[k + 1..];
        error := TakeChoice(choices[k]);
        if error.Some? {
          return false, error;
        }
      }
      return false, None;
    }

    method TakeLine(line: Meaning) returns (done: bool, error: Option<StreamError>)
      modifies this
      ensures match HandleLine(parse, old(State()), line)
              case More(a) => !done && error.None? && State() == a
              case Done(a) => done && error.None? && State() == a
              case Failed(e) => error == Some(e)
    {
      if line.Blank? {
        done, error := ConsumeEvent();
        return;
      }
      if line.Data? {
        data := data + [line.value];
      }
      return false, None;
    }

    /** The next line, cut off one byte beyond the limit: its length and what it means. */
    method NextLine(source: ByteSource, total: nat) returns (line: Line)
      requires total <= MAX_RESPONSE_BYTES
      modifies source
      ensures source.count == old(source.count) + line.bytes && |source.rest| == |old(source.rest)| - line.bytes
      ensures total + line.bytes <= MAX_RESPONSE_BYTES + 1
      ensures var lines := LinesOf(old(source.rest));
              if line.bytes == 0 then lines == []
              else if total + line.bytes > MAX_RESPONSE_BYTES
              then ReadAll(parse, lines, total, State()) == Err(TooLarge)
              else lines == [line] + LinesOf(source.rest)
    {
      LinesBegin(source.rest);
      var text := source.ReadLine(MAX_RESPONSE_BYTES - total + 1);
      line := Line(MeaningOf(Strip(text)), |text|);
    }

    /** A line within the limit takes effect before the rest. */
    method TakeWithin(line: Line, total: nat, ghost rest: seq<Line>) returns (done: bool, error: Option<StreamError>)
      requires total + line.bytes <= MAX_RESPONSE_BYTES
      modifies this
      ensures var r := ReadAll(parse, [line] + rest, total, old(State()));
              if error.Some? then r == Err(error.value)
              else if done then r == Ok(State())
              else r == ReadAll(parse, rest, total + line.bytes, State())
    {
      assert ([line] + rest)[1..] == rest;
      done, error := TakeLine(line.meaning);
    }

    method TakeEnd() returns (error: Option<StreamError>)
      modifies this
      ensures var r := ReadAll(parse, [], 0, old(State()));
              if r.Ok? then error.None? && State() == r.value else error == Some(r.error)
    {
      var done;
      done, error := ConsumeEvent();
      if error.None? && !done {
        error := Some(EndedBeforeDone);
      }
    }

    /** The lines are read until `[DONE]`, the end or an error; at most one byte beyond the limit is ever read. */
    method ReadEvents(source: ByteSource) returns (error: Option<StreamError>)
      modifies this, source
      ensures source.count - old(source.count) <= MAX_RESPONSE_BYTES + 1
      ensures var r := ReadAll(parse, LinesOf(old(source.rest)), 0, old(State()));
              if r.Ok? then error.None? && State() == r.value else error == Some(r.error)
    {
      var total: nat := 0;
      ghost var goal := ReadAll(parse, LinesOf(source.rest), 0, State());
      while true
        invariant total <= MAX_RESPONSE_BYTES && total == source.count - old(source.count)
        invariant goal == ReadAll(parse, LinesOf(source.rest), total, State())
        decreases |source.rest|
      {
        var line := NextLine(source, total);
        if line.bytes == 0 {
          break;
        }
        if total + line.bytes > MAX_RESPONSE_BYTES {
          return Some(TooLarge);
        }
        var done;
        done, error := TakeWithin(line, total, LinesOf(source.rest));
        if done || error.Some? {
          return;
        }
        total := total + line.bytes;
      }
      error := TakeEnd();
    }

    method FinishCalls() returns (r: Result<seq<ToolCall>, StreamError>)
      ensures FinishedAs(calls, r)
    {
      if calls.Keys != Range(|calls|) {
        return Err(IndicesNotContiguous);
      }
      var list := [];
      for i := 0 to |calls|
        invariant |list| == i
        invariant forall k | 0 <= k < i :: k in calls && Complete(calls[k]) && list[k] == Finish(calls[k])
      {
        assert i in Range(|calls|);
        if !Complete(calls[i]) {
          return Err(IncompleteCall);
        }
        list := list + [Finish(calls[i])];
      }
      return Ok(list);
    }

    method Read(source: ByteSource) returns (r: Result<Response, StreamError>)
      requires State() == NOTHING
      modifies this, source
      ensures source.count - old(source.count) <= 2_097_153
      ensures Outcome(parse, old(source.rest), r)
    {
      var error := ReadEvents(source);
      if error.Some? {
        return Err(error.value);
      }
      if !sawChoice {
        return Err(NoChoice);
      }
      if finish.None? {
        return Err(NoFinishReason);
      }
      var text := if content == [] then None else Some(Concat(content));
      var list := FinishCalls();
      if list.Err? {
        return Err(list.error);
      }
      return Ok(Response(text, list.value, finish.value, usage));
    }
  }

  lemma {:induction false} MergeFails(calls: Calls, deltas: seq<Delta>, n: nat)
    requires n <= |deltas| && MergeAll(calls, deltas[..n]).Err?
    ensures MergeAll(calls, deltas) == MergeAll(calls, deltas[..n])
    decreases |deltas|
  {
    if n < |deltas| {
      assert deltas[..|deltas| - 1][..n] == deltas[..n];
      MergeFails(calls, deltas[..|deltas| - 1], n);
    } else {
      assert deltas[..n] == deltas;
    }
  }

  // ----- what the lines say

  function Bytes(lines: seq<Line>): nat {
    if lines == [] then 0 else lines[0].bytes + Bytes(lines[1..])
  }

  lemma {:induction false} LinesTakeAllBytes(s: string)
    ensures Bytes(LinesOf(s)) == |s|
    decreases |s|
  {
    LinesBegin(s);
    if s != "" {
      LinesTakeAllBytes(s[|FirstLine(s)|..]);
    }
  }

  /** What the lines mean, without the ignored ones. */
  function Said(lines: seq<Line>): seq<Meaning> {
    if lines == [] then []
    else if lines[0].meaning.Ignored? then Said(lines[1..])
    else [lines[0].meaning] + Said(lines[1..])
  }

  /** What is said, taken in turn; `More` if the end mark is still to come. */
  function Steps(parse: Parser, said: seq<Meaning>, a: Assembly): Step
    decreases |said|
  {
    if said == [] then More(a)
    else
      match HandleLine(parse, a, said[0])
      case More(b) => Steps(parse, said[1..], b)
      case Done(b) => Done(b)
      case Failed(e) => Failed(e)
  }

  /** What a step leads to when this is left to take. */
  function Continue(parse: Parser, step: Step, rest: seq<Meaning>): Step {
    match step
    case More(b) => Steps(parse, rest, b)
    case Done(b) => Done(b)
    case Failed(e) => Failed(e)
  }

  lemma FirstStep(parse: Parser, first: Meaning, rest: seq<Meaning>, a: Assembly)
    ensures Steps(parse, [first] + rest, a) == Continue(parse, HandleLine(parse, a, first), rest)
  {
    assert ([first] + rest)[1..] == rest;
  }

  /** The first `n` lines are within the limit and no further one is. */
  ghost predicate Within(lines: seq<Line>, n: nat, total: nat) {
    && n <= |lines| && total + Bytes(lines[..n]) <= 2_097_152
    && (n < |lines| ==> total + Bytes(lines[..n + 1]) > 2_097_152)
  }

  lemma {:induction false} BytesUpTo(lines: seq<Line>, n: nat)
    requires n <= |lines|
    ensures Bytes(lines[..n]) <= Bytes(lines)
  {
    if n > 0 {
      assert lines[..n][1..] == lines[1..][..n - 1];
      BytesUpTo(lines[1..], n - 1);
    }
  }

  lemma {:induction false} LimitIsSomewhere(lines: seq<Line>, total: nat) returns (n: nat)
    requires total <= MAX_RESPONSE_BYTES
    ensures Within(lines, n, total)
  {
    n := 0;
    assert lines[..0] == [];
    if lines != [] {
      if total + lines[0].bytes <= MAX_RESPONSE_BYTES {
        var m := LimitIsSomewhere(lines[1..], total + lines[0].bytes);
        WithinStep(lines, m, total);
        n := m + 1;
      } else {
        assert lines[..1] == [lines[0]];
      }
    }
  }

  lemma WithinStep(lines: seq<Line>, m: nat, total: nat)
    requires lines != [] && m < |lines|
    ensures Within(lines, m + 1, total) <==> Within(lines[1..], m, total + lines[0].bytes)
  {
    assert lines[..m + 1][1..] == lines[1..][..m];
    if m + 1 < |lines| {
      assert lines[..m + 2][1..] == lines[1..][..m + 1];
    }
  }

  lemma NothingWithin(lines: seq<Line>, total: nat)
    requires Within(lines, 0, total)
    ensures lines == [] || total + lines[0].bytes > MAX_RESPONSE_BYTES
  {
    if lines != [] {
      assert lines[..1] == [lines[0]] && lines[..1][1..] == [];
    }
  }

  /** What the lines within the limit say; the end of the input closes an event like an empty line. */
  function SaidWithin(lines: seq<Line>, n: nat): seq<Meaning>
    requires n <= |lines|
  {
    Said(lines[..n]) + if n == |lines| then [Blank] else []
  }

  function SaidBy(s: string): seq<Meaning> {
    Said(LinesOf(s)) + [Blank]
  }

  /** What becomes of a stream; `missing` is the error if no end mark was among what is said. */
  function EndOf(step: Step, missing: StreamError): Result<Assembly, StreamError> {
    match step
    case Done(b) => Ok(b)
    case Failed(e) => Err(e)
    case More(_) => Err(missing)
  }

  lemma EndIsBlank(parse: Parser, a: Assembly)
    ensures AtEnd(parse, a) == EndOf(Steps(parse, [Blank], a), EndedBeforeDone)
  {
    assert [Blank][1..] == [];
  }

  lemma SaidWithinStep(lines: seq<Line>, n: nat)
    requires 0 < n <= |lines|
    ensures SaidWithin(lines, n) ==
            (if lines[0].meaning.Ignored? then [] else [lines[0].meaning]) + SaidWithin(lines[1..], n - 1)
  {
    assert lines[..n][1..] == lines[1..][..n - 1];
  }

  lemma FirstByteFits(lines: seq<Line>, n: nat, total: nat)
    requires Within(lines, n, total) && n > 0
    ensures total + lines[0].bytes <= MAX_RESPONSE_BYTES
  {
    BytesUpTo(lines[..n], 1);
    assert lines[..n][..1] == [lines[0]] && [lines[0]][1..] == [];
  }

  lemma {:induction false} LinesAreTaken(parse: Parser, lines: seq<Line>, n: nat, total: nat, a: Assembly)
    requires Within(lines, n, total)
    ensures ReadAll(parse, lines, total, a) ==
            EndOf(Steps(parse, SaidWithin(lines, n), a), if n == |lines| then EndedBeforeDone else TooLarge)
    decreases |lines|
  {
    if n == 0 {
      NothingWithin(lines, total);
      assert lines[..0] == [] && [] + [Blank] == [Blank];
      EndIsBlank(parse, a);
    } else {
      WithinStep(lines, n - 1, total);
      FirstByteFits(lines, n, total);
      SaidWithinStep(lines, n);
      var step := HandleLine(parse, a, lines[0].meaning);
      if step.More? {
        LinesAreTaken(parse, lines[1..], n - 1, total + lines[0].bytes, step.a);
      }
      if lines[0].meaning.Ignored? {
        assert [] + SaidWithin(lines[1..], n - 1) == SaidWithin(lines[1..], n - 1);
      } else {
        FirstStep(parse, lines[0].meaning, SaidWithin(lines[1..], n - 1), a);
      }
    }
  }

  lemma ShortIsWithin(s: string)
    requires |s| <= MAX_RESPONSE_BYTES
    ensures Within(LinesOf(s), |LinesOf(s)|, 0) && SaidWithin(LinesOf(s), |LinesOf(s)|) == SaidBy(s)
  {
    LinesTakeAllBytes(s);
    assert LinesOf(s)[..|LinesOf(s)|] == LinesOf(s);
  }

  lemma StreamIsSaid(parse: Parser, s: string, a: Assembly)
    requires |s| <= MAX_RESPONSE_BYTES
    ensures ReadAll(parse, LinesOf(s), 0, a) == EndOf(Steps(parse, SaidBy(s), a), EndedBeforeDone)
  {
    ShortIsWithin(s);
    LinesAreTaken(parse, LinesOf(s), |LinesOf(s)|, 0, a);
  }

  /** Two streams within the limit that say the same have the same outcome: comments, other fields, line ends and the
      space behind a colon change nothing. */
  lemma OnlyMeaningsMatter(parse: Parser, s: string, t: string, r: Result<Response, StreamError>)
    requires |s| <= MAX_RESPONSE_BYTES && |t| <= MAX_RESPONSE_BYTES && SaidBy(s) == SaidBy(t)
    ensures Outcome(parse, s, r) <==> Outcome(parse, t, r)
  {
    StreamIsSaid(parse, s, NOTHING);
    StreamIsSaid(parse, t, NOTHING);
  }

  /** Data lines with these values, and then an empty line. */
  predicate SaysEvent(said: seq<Meaning>, values: seq<string>) {
    |values| < |said| && said[|values|].Blank? && forall k | 0 <= k < |values| :: said[k] == Data(values[k])
  }

  /** Data lines with these values and nothing else. */
  predicate SaysData(said: seq<Meaning>, values: seq<string>) {
    |values| == |said| && forall k | 0 <= k < |values| :: said[k] == Data(values[k])
  }

  lemma JoinData(data: seq<string>, values: seq<string>)
    requires values != []
    ensures data + [values[0]] + values[1..] == data + values
  {
  }

  /** An event on several data lines is dispatched once, as the lines joined by newlines. */
  lemma {:induction false} DataLinesAreJoined(parse: Parser, said: seq<Meaning>, values: seq<string>, a: Assembly)
    requires SaysEvent(said, values)
    ensures Steps(parse, said, a) ==
            Continue(parse, Dispatch(parse, a.(data := a.data + values)), said[|values| + 1..])
    decreases |values|
  {
    if values == [] {
      assert a.data + values == a.data;
    } else {
      DataLinesAreJoined(parse, said[1..], values[1..], a.(data := a.data + [values[0]]));
      JoinData(a.data, values);
      assert said[1..][|values|..] == said[|values| + 1..];
    }
  }

  lemma {:induction false} OpenDataIsKept(parse: Parser, said: seq<Meaning>, values: seq<string>, a: Assembly)
    requires SaysData(said, values)
    ensures Steps(parse, said, a) == More(a.(data := a.data + values))
    decreases |values|
  {
    if values == [] {
      assert a.data + values == a.data;
    } else {
      OpenDataIsKept(parse, said[1..], values[1..], a.(data := a.data + [values[0]]));
      JoinData(a.data, values);
    }
  }

  // ----- events are read back

  /** The events take effect one after the other. */
  function ApplyEvents(a: Assembly, events: seq<Event>): Result<Assembly, StreamError>
    decreases |events|
  {
    if events == [] then Ok(a)
    else
      var b := ApplyEvent(a, events[0]);
      if b.Err? then b else ApplyEvents(b.value, events[1..])
  }

  /** What is said are these events, each given by the values of its data lines and closed by an empty line, and then
      the data lines of an event that is not closed. There may be more empty lines anywhere between. */
  ghost predicate Says(said: seq<Meaning>, parts: seq<seq<string>>, open: seq<string>)
    decreases |said|
  {
    if said != [] && said[0].Blank? then Says(said[1..], parts, open)
    else if parts == [] then SaysData(said, open)
    else parts[0] != [] && SaysEvent(said, parts[0]) && Says(said[|parts[0]| + 1..], parts[1..], open)
  }

  function DataBefore(said: seq<Meaning>): (values: seq<string>)
    ensures |values| <= |said| && forall k | 0 <= k < |values| :: said[k] == Data(values[k])
    ensures |values| < |said| ==> !said[|values|].Data?
  {
    if said == [] || !said[0].Data? then [] else [said[0].value] + DataBefore(said[1..])
  }

  /** Every stream says some events. */
  lemma {:induction false} EverythingSaysEvents(said: seq<Meaning>) returns (parts: seq<seq<string>>, open: seq<string>)
    requires Ignored !in said
    ensures Says(said, parts, open)
    decreases |said|
  {
    if said == [] {
      parts, open := [], [];
    } else if said[0].Blank? {
      parts, open := EverythingSaysEvents(said[1..]);
    } else {
      var values := DataBefore(said);
      if |values| == |said| {
        parts, open := [], values;
      } else {
        assert said[|values|] in said;
        parts, open := EverythingSaysEvents(said[|values| + 1..]);
        assert ([values] + parts)[1..] == parts;
        parts := [values] + parts;
      }
    }
  }

  lemma {:induction false} NothingIgnoredIsSaid(lines: seq<Line>)
    ensures Ignored !in Said(lines)
  {
    if lines != [] {
      NothingIgnoredIsSaid(lines[1..]);
    }
  }

  /** Each part is the text of its event, and none is the end mark. */
  ghost predicate Written(parse: Parser, parts: seq<seq<string>>, events: seq<Event>)
    decreases |parts|
  {
    if parts == [] || events == [] then parts == [] && events == []
    else
      && Join(parts[0]) != DONE && parse(Join(parts[0])) == Some(events[0])
      && Written(parse, parts[1..], events[1..])
  }

  lemma {:induction false} ChoicesKeepData(a: Assembly, choices: seq<Choice>)
    ensures ApplyChoices(a, choices).Ok? ==> ApplyChoices(a, choices).value.data == a.data
    decreases |choices|
  {
    if choices != [] && ApplyChoice(a, choices[0]).Ok? {
      ChoicesKeepData(ApplyChoice(a, choices[0]).value, choices[1..]);
    }
  }

  lemma EventKeepsData(a: Assembly, e: Event)
    ensures ApplyEvent(a, e).Ok? ==> ApplyEvent(a, e).value.data == a.data
  {
    ChoicesKeepData(a.(usage := if e.usage.Some? then e.usage else a.usage), e.choices);
  }

  /** What the text of one event leads to. */
  ghost predicate TextLeadsTo(parse: Parser, text: string, a: Assembly, step: Step) {
    if text == "[DONE]" then step == Done(a)
    else if parse(text).None? then step == Failed(Malformed)
    else
      match ApplyEvent(a, parse(text).value)
      case Ok(b) => step == More(b) && b.data == []
      case Err(e) => step == Failed(e)
  }

  lemma EventIsDispatched(parse: Parser, values: seq<string>, a: Assembly)
    requires values != [] && a.data == []
    ensures TextLeadsTo(parse, Join(values), a, Dispatch(parse, a.(data := a.data + values)))
  {
    assert a.data + values == values && a.(data := values).(data := []) == a;
    if parse(Join(values)).Some? {
      EventKeepsData(a, parse(Join(values)).value);
    }
  }

  /** What becomes of what is said, when the first of its events can be read as `events`. */
  ghost predicate LeadsTo(parse: Parser, parts: seq<seq<string>>, events: seq<Event>, a: Assembly, step: Step)
    requires |events| <= |parts|
  {
    match ApplyEvents(a, events)
    case Err(e) => step == Failed(e)
    case Ok(b) =>
      if |events| == |parts| then step.More?
      else if Join(parts[|events|]) == "[DONE]" then step == Done(b)
      else parse(Join(parts[|events|])).None? ==> step == Failed(Malformed)
  }

  lemma NoEventsLead(parse: Parser, said: seq<Meaning>, parts: seq<seq<string>>, open: seq<string>, a: Assembly)
    requires Says(said, parts, open) && a.data == [] && (said != [] ==> !said[0].Blank?)
    ensures LeadsTo(parse, parts, [], a, Steps(parse, said, a))
  {
    if parts == [] {
      OpenDataIsKept(parse, said, open, a);
    } else {
      DataLinesAreJoined(parse, said, parts[0], a);
      EventIsDispatched(parse, parts[0], a);
    }
  }

  lemma FirstEventLeads(parse: Parser, said: seq<Meaning>, values: seq<string>, event: Event, a: Assembly)
    requires values != [] && SaysEvent(said, values) && a.data == []
    requires Join(values) != DONE && parse(Join(values)) == Some(event)
    ensures var b := ApplyEvent(a, event);
            && (b.Err? ==> Steps(parse, said, a) == Failed(b.error))
            && (b.Ok? ==> b.value.data == [] && Steps(parse, said, a) == Steps(parse, said[|values| + 1..], b.value))
  {
    DataLinesAreJoined(parse, said, values, a);
    EventIsDispatched(parse, values, a);
  }

  lemma LeadsStep(parse: Parser, parts: seq<seq<string>>, events: seq<Event>, a: Assembly, b: Assembly, step: Step)
    requires 0 < |events| <= |parts| && ApplyEvent(a, events[0]) == Ok(b)
    requires LeadsTo(parse, parts[1..], events[1..], b, step)
    ensures LeadsTo(parse, parts, events, a, step)
  {
  }

  lemma {:induction false} SaidIsRead(parse: Parser, said: seq<Meaning>, parts: seq<seq<string>>, open: seq<string>,
                                      events: seq<Event>, a: Assembly)
    requires Says(said, parts, open) && |events| <= |parts| && Written(parse, parts[..|events|], events) && a.data == []
    ensures LeadsTo(parse, parts, events, a, Steps(parse, said, a))
    decreases |said|
  {
    if said != [] && said[0].Blank? {
      SaidIsRead(parse, said[1..], parts, open, events, a);
    } else if events == [] {
      NoEventsLead(parse, said, parts, open, a);
    } else {
      assert parts[..|events|][0] == parts[0] && parts[..|events|][1..] == parts[1..][..|events| - 1];
      FirstEventLeads(parse, said, parts[0], events[0], a);
      var b := ApplyEvent(a, events[0]);
      if b.Ok? {
        SaidIsRead(parse, said[|parts[0]| + 1..], parts[1..], open, events[1..], b.value);
        LeadsStep(parse, parts, events, a, b.value, Steps(parse, said, a));
      }
    }
  }

  /** As many of the first events as can be read: then comes the end mark, a text that cannot be parsed, or nothing. */
  lemma {:induction false} ReadableEvents(parse: Parser, parts: seq<seq<string>>) returns (events: seq<Event>)
    ensures |events| <= |parts| && Written(parse, parts[..|events|], events)
    ensures |events| < |parts| ==> Join(parts[|events|]) == DONE || parse(Join(parts[|events|])).None?
  {
    if parts == [] || Join(parts[0]) == DONE || parse(Join(parts[0])).None? {
      events := [];
      assert parts[..0] == [];
    } else {
      var rest := ReadableEvents(parse, parts[1..]);
      events := [parse(Join(parts[0])).value] + rest;
      assert parts[..|events|][1..] == parts[1..][..|rest|] && events[1..] == rest;
    }
  }

  /** The answer to a stream whose first events are `events`; `missing` is the error if no end mark follows them. */
  ghost predicate EndsAs(parse: Parser, parts: seq<seq<string>>, events: seq<Event>, missing: StreamError,
                         r: Result<Response, StreamError>)
    requires |events| <= |parts|
  {
    match ApplyEvents(NOTHING, events)
    case Err(e) => r == Err(e)
    case Ok(a) =>
      if |events| == |parts| then r == Err(missing)
      else if Join(parts[|events|]) == "[DONE]" then Answered(a, r)
      else parse(Join(parts[|events|])).None? ==> r == Err(Malformed)
  }

  /** Any stream within the limit is answered by its events: by the first that fails or cannot be parsed, by the end
      mark if the events before it can be read, and with an error if all can be read and there is no end mark. */
  lemma EventsAreRead(parse: Parser, s: string, parts: seq<seq<string>>, open: seq<string>, events: seq<Event>,
                      r: Result<Response, StreamError>)
    requires |s| <= MAX_RESPONSE_BYTES && Says(SaidBy(s), parts, open) && Outcome(parse, s, r)
    requires |events| <= |parts| && Written(parse, parts[..|events|], events)
    ensures EndsAs(parse, parts, events, EndedBeforeDone, r)
  {
    StreamIsSaid(parse, s, NOTHING);
    SaidIsRead(parse, SaidBy(s), parts, open, events, NOTHING);
  }

  /** The same for every stream at all, with the events that close within the limit: what lies beyond is an error unless
      the stream has ended before. */
  lemma EveryStream(parse: Parser, s: string, r: Result<Response, StreamError>)
    returns (n: nat, parts: seq<seq<string>>, open: seq<string>, events: seq<Event>)
    requires Outcome(parse, s, r)
    ensures Within(LinesOf(s), n, 0) && Says(SaidWithin(LinesOf(s), n), parts, open)
    ensures |events| <= |parts| && Written(parse, parts[..|events|], events)
    ensures |events| < |parts| ==> Join(parts[|events|]) == "[DONE]" || parse(Join(parts[|events|])).None?
    ensures EndsAs(parse, parts, events, if n == |LinesOf(s)| then EndedBeforeDone else TooLarge, r)
  {
    n := LimitIsSomewhere(LinesOf(s), 0);
    LinesAreTaken(parse, LinesOf(s), n, 0, NOTHING);
    NothingIgnoredIsSaid(LinesOf(s)[..n]);
    parts, open := EverythingSaysEvents(SaidWithin(LinesOf(s), n));
    events := ReadableEvents(parse, parts);
    SaidIsRead(parse, SaidWithin(LinesOf(s), n), parts, open, events, NOTHING);
  }

  /** Nothing is answered without the end mark: it is among the events that close within the limit. */
  lemma EndMarkIsNeeded(parse: Parser, s: string, r: Result<Response, StreamError>)
    requires Outcome(parse, s, r) && r.Ok?
    ensures exists n, parts, open ::
              Within(LinesOf(s), n, 0) && Says(SaidWithin(LinesOf(s), n), parts, open) &&
              exists k :: 0 <= k < |parts| && Join(parts[k]) == "[DONE]"
  {
    var n, parts, open, events := EveryStream(parse, s, r);
    assert |events| < |parts| && Join(parts[|events|]) == "[DONE]";
  }

  /** A stream of events that can all be read, cut off before the end mark, is an error of its own. */
  lemma TruncatedStreamFails(parse: Parser, s: string, parts: seq<seq<string>>, open: seq<string>, events: seq<Event>,
                             r: Result<Response, StreamError>)
    requires |s| <= MAX_RESPONSE_BYTES && Says(SaidBy(s), parts, open) && Outcome(parse, s, r)
    requires Written(parse, parts, events) && ApplyEvents(NOTHING, events).Ok?
    ensures r == Err(EndedBeforeDone)
  {
    WrittenIsComplete(parse, parts, events);
    assert parts[..|parts|] == parts;
    EventsAreRead(parse, s, parts, open, events, r);
  }

  lemma {:induction false} WrittenIsComplete(parse: Parser, parts: seq<seq<string>>, events: seq<Event>)
    requires Written(parse, parts, events)
    ensures |parts| == |events|
    decreases |parts|
  {
    if parts != [] {
      WrittenIsComplete(parse, parts[1..], events[1..]);
    }
  }

  // ----- what a server writes

  const LINE_ENDS: set<string> := {"\n", "\r\n"}

  /** One event as a server writes it: its data lines and an empty line. */
  function Frame(values: seq<string>, end: string): string {
    if values == [] then end else "data: " + values[0] + end + Frame(values[1..], end)
  }

  function Encode(parts: seq<seq<string>>, end: string): string {
    if parts == [] then Frame([DONE], end) else Frame(parts[0], end) + Encode(parts[1..], end)
  }

  /** Text for one data line: no newline, no carriage return at its end. */
  predicate OneLine(text: string) {
    (forall i | 0 <= i < |text| :: text[i] != '\n') && (text == "" || text[|text| - 1] != '\r')
  }

  lemma {:induction false} FirstLineOf(text: string, rest: string)
    requires forall i | 0 <= i < |text| :: text[i] != '\n'
    ensures FirstLine(text + "\n" + rest) == text + "\n"
  {
    if text == "" {
      assert text + "\n" + rest == "\n" + rest;
    } else {
      FirstLineOf(text[1..], rest);
      assert (text + "\n" + rest)[1..] == text[1..] + "\n" + rest;
    }
  }

  lemma StripsEnd(text: string, end: string)
    requires OneLine(text) && end in LINE_ENDS
    ensures Strip(text + end) == text
  {
    assert Strip(text) == text;
    assert (text + "\n")[..|text|] == text && Strip(text + "\n") == text;
    if end == "\r\n" {
      var line := text + "\r";
      assert line[..|text|] == text && Strip(line) == text;
      assert text + end == line + "\n" && (line + "\n")[..|line|] == line;
    }
  }

  lemma NewlineEndsLine(line: string, rest: string)
    requires forall i | 0 <= i < |line| :: line[i] != '\n'
    ensures LinesOf(line + "\n" + rest) == [Line(MeaningOf(Strip(line + "\n")), |line| + 1)] + LinesOf(rest)
  {
    FirstLineOf(line, rest);
    assert (line + "\n" + rest)[|line| + 1..] == rest;
  }

  lemma LinesStep(text: string, end: string, rest: string)
    requires OneLine(text) && end in LINE_ENDS
    ensures LinesOf(text + end + rest) == [Line(MeaningOf(text), |text| + |end|)] + LinesOf(rest)
  {
    StripsEnd(text, end);
    var line := if end == "\n" then text else text + "\r";
    assert text + end == line + "\n";
    NewlineEndsLine(line, rest);
  }

  lemma DataLineStep(value: string, end: string, rest: string)
    requires OneLine(value) && end in LINE_ENDS
    ensures Said(LinesOf("data: " + value + end + rest)) == [Data(value)] + Said(LinesOf(rest))
  {
    var line := "data: " + value;
    assert line[..6] == "data: " && line[..5] == "data:" && line[6..] == value;
    assert line[|line| - 1] == if value == "" then ' ' else value[|value| - 1];
    MeaningIsField(line);
    LinesStep(line, end, rest);
  }

  lemma BlankLineStep(end: string, rest: string)
    requires end in LINE_ENDS
    ensures Said(LinesOf(end + rest)) == [Blank] + Said(LinesOf(rest))
  {
    assert "" + end + rest == end + rest;
    LinesStep("", end, rest);
  }

  lemma FrameStep(values: seq<string>, end: string, rest: string)
    requires values != []
    ensures Frame(values, end) + rest == "data: " + values[0] + end + (Frame(values[1..], end) + rest)
  {
  }

  lemma EventStep(said: seq<Meaning>, values: seq<string>, rest: seq<Meaning>)
    requires values != [] && SaysEvent(said, values[1..]) && said[|values|..] == rest
    ensures var more := [Data(values[0])] + said; SaysEvent(more, values) && more[|values| + 1..] == rest
  {
  }

  lemma {:induction false} FrameSaysEvent(values: seq<string>, end: string, rest: string)
    requires (forall k | 0 <= k < |values| :: OneLine(values[k])) && end in LINE_ENDS
    ensures var said := Said(LinesOf(Frame(values, end) + rest));
            SaysEvent(said, values) && said[|values| + 1..] == Said(LinesOf(rest))
  {
    if values == [] {
      BlankLineStep(end, rest);
    } else {
      var tail := Frame(values[1..], end) + rest;
      FrameSaysEvent(values[1..], end, rest);
      FrameStep(values, end, rest);
      DataLineStep(values[0], end, tail);
      EventStep(Said(LinesOf(tail)), values, Said(LinesOf(rest)));
    }
  }

  lemma FrameIsSaid(values: seq<string>, end: string, rest: string, parts: seq<seq<string>>)
    requires values != [] && (forall k | 0 <= k < |values| :: OneLine(values[k])) && end in LINE_ENDS
    requires Says(SaidBy(rest), parts, [])
    ensures Says(SaidBy(Frame(values, end) + rest), [values] + parts, [])
  {
    FrameSaysEvent(values, end, rest);
    var said := Said(LinesOf(Frame(values, end) + rest));
    assert SaysEvent(said + [Blank], values);
    assert (said + [Blank])[|values| + 1..] == SaidBy(rest);
    assert said[0] == Data(values[0]);
    assert ([values] + parts)[1..] == parts;
  }

  /** What a server writes, with either line end and any number of data lines for an event, says its events and then the
      end mark. */
  lemma {:induction false} EncodingSaysEvents(parts: seq<seq<string>>, end: string)
    requires end in LINE_ENDS && forall k | 0 <= k < |parts| :: parts[k] != [] && forall v | v in parts[k] :: OneLine(v)
    ensures Says(SaidBy(Encode(parts, end)), parts + [[DONE]], [])
  {
    if parts == [] {
      assert Frame([DONE], end) + "" == Encode(parts, end) && [] + [[DONE]] == [[DONE]] + [];
      assert SaidBy("") == [Blank] && [Blank][1..] == [];
      FrameIsSaid([DONE], end, "", []);
    } else {
      EncodingSaysEvents(parts[1..], end);
      FrameIsSaid(parts[0], end, Encode(parts[1..], end), parts[1..] + [[DONE]]);
      assert [parts[0]] + (parts[1..] + [[DONE]]) == parts + [[DONE]];
    }
  }

  // ----- the whole stream

  function DeltasOf(choices: seq<Choice>): seq<Delta> {
    if choices == [] then [] else choices[0].calls + DeltasOf(choices[1..])
  }

  function PieceOf(c: Choice): seq<string> {
    if c.content.Some? then [c.content.value] else []
  }

  function PiecesOf(choices: seq<Choice>): seq<string> {
    if choices == [] then [] else PieceOf(choices[0]) + PiecesOf(choices[1..])
  }

  function ChoicesOf(events: seq<Event>): seq<Choice> {
    if events == [] then [] else events[0].choices + ChoicesOf(events[1..])
  }

  lemma {:induction false} MergeAllAppend(calls: Calls, a: seq<Delta>, b: seq<Delta>)
    ensures MergeAll(calls, a + b) ==
            if MergeAll(calls, a).Ok? then MergeAll(MergeAll(calls, a).value, b) else MergeAll(calls, a)
    decreases |b|
  {
    if b == [] {
      assert a + b == a;
    } else {
      assert (a + b)[..|a + b| - 1] == a + b[..|b| - 1];
      MergeAllAppend(calls, a, b[..|b| - 1]);
    }
  }

  /** Every choice is the first one and none names a finish reason other than `finish`. */
  ghost predicate OneFinish(choices: seq<Choice>, finish: string) {
    forall k | 0 <= k < |choices| ::
      choices[k].index == 0 && (choices[k].finish.None? || choices[k].finish == Some(finish))
  }

  predicate SomeFinish(choices: seq<Choice>) {
    choices != [] && (choices[0].finish.Some? || SomeFinish(choices[1..]))
  }

  lemma {:induction false} DeltasAppend(a: seq<Choice>, b: seq<Choice>)
    ensures DeltasOf(a + b) == DeltasOf(a) + DeltasOf(b)
    ensures SomeFinish(a + b) <==> SomeFinish(a) || SomeFinish(b)
  {
    if a == [] {
      assert a + b == b;
    } else {
      assert (a + b)[1..] == a[1..] + b;
      DeltasAppend(a[1..], b);
    }
  }

  lemma {:induction false} PiecesAppend(a: seq<Choice>, b: seq<Choice>)
    ensures PiecesOf(a + b) == PiecesOf(a) + PiecesOf(b)
  {
    if a == [] {
      assert a + b == b;
    } else {
      assert (a + b)[1..] == a[1..] + b;
      PiecesAppend(a[1..], b);
    }
  }

  lemma ChoiceAddsPiece(a: Assembly, c: Choice)
    ensures ApplyChoice(a, c).Ok? ==> ApplyChoice(a, c).value.content == a.content + PieceOf(c)
  {
  }

  lemma {:induction false} ChoicesAddPieces(a: Assembly, choices: seq<Choice>)
    ensures ApplyChoices(a, choices).Ok? ==> ApplyChoices(a, choices).value.content == a.content + PiecesOf(choices)
    decreases |choices|
  {
    if choices != [] {
      ChoiceAddsPiece(a, choices[0]);
      var b := ApplyChoice(a, choices[0]);
      if b.Ok? {
        ChoicesAddPieces(b.value, choices[1..]);
        assert a.content + PieceOf(choices[0]) + PiecesOf(choices[1..]) == a.content + PiecesOf(choices);
      }
    }
  }

  lemma EventAddsPieces(a: Assembly, e: Event)
    ensures ApplyEvent(a, e).Ok? ==> ApplyEvent(a, e).value.content == a.content + PiecesOf(e.choices)
  {
    ChoicesAddPieces(a.(usage := if e.usage.Some? then e.usage else a.usage), e.choices);
  }

  lemma {:induction false} EventsAddPieces(a: Assembly, events: seq<Event>)
    ensures ApplyEvents(a, events).Ok? ==>
            ApplyEvents(a, events).value.content == a.content + PiecesOf(ChoicesOf(events))
    decreases |events|
  {
    if events == [] {
      assert a.content + [] == a.content;
    } else {
      var b, first, rest := ApplyEvent(a, events[0]), PiecesOf(events[0].choices), PiecesOf(ChoicesOf(events[1..]));
      EventAddsPieces(a, events[0]);
      PiecesAppend(events[0].choices, ChoicesOf(events[1..]));
      if b.Ok? {
        EventsAddPieces(b.value, events[1..]);
        assert a.content + first + rest == a.content + (first + rest);
      }
    }
  }

  /** The usage of the last event that carries one. */
  function LastUsage(events: seq<Event>): Option<string> {
    if events == [] then None
    else if events[|events| - 1].usage.Some? then events[|events| - 1].usage
    else LastUsage(events[..|events| - 1])
  }

  lemma {:induction false} LastUsageFromFront(events: seq<Event>)
    requires events != []
    ensures LastUsage(events) == if LastUsage(events[1..]).Some? then LastUsage(events[1..]) else events[0].usage
  {
    if |events| > 1 {
      LastUsageFromFront(events[..|events| - 1]);
      assert events[..|events| - 1][1..] == events[1..][..|events[1..]| - 1];
      assert events[1..][|events[1..]| - 1] == events[|events| - 1];
    } else {
      assert events[1..] == [] && events[..0] == [];
    }
  }

  lemma {:induction false} ChoicesKeepUsage(a: Assembly, choices: seq<Choice>)
    ensures ApplyChoices(a, choices).Ok? ==> ApplyChoices(a, choices).value.usage == a.usage
    decreases |choices|
  {
    if choices != [] && ApplyChoice(a, choices[0]).Ok? {
      ChoicesKeepUsage(ApplyChoice(a, choices[0]).value, choices[1..]);
    }
  }

  lemma {:induction false} EventsKeepUsage(a: Assembly, events: seq<Event>)
    ensures ApplyEvents(a, events).Ok? ==>
              ApplyEvents(a, events).value.usage == if LastUsage(events).Some? then LastUsage(events) else a.usage
    decreases |events|
  {
    if events != [] && ApplyEvent(a, events[0]).Ok? {
      ChoicesKeepUsage(a.(usage := if events[0].usage.Some? then events[0].usage else a.usage), events[0].choices);
      LastUsageFromFront(events);
      EventsKeepUsage(ApplyEvent(a, events[0]).value, events[1..]);
    }
  }

  lemma AnswerIsUnique(a: Assembly, calls: seq<ToolCall>, r: Result<Response, StreamError>)
    requires a.sawChoice && a.finish.Some? && FinishedAs(a.calls, Ok(calls)) && Answered(a, r)
    ensures r == Ok(Response(ContentOf(a), calls, a.finish.value, a.usage))
  {
    if r.Ok? {
      FinishedIsUnique(a.calls, Ok(r.value.calls), Ok(calls));
    } else {
      FinishedIsUnique(a.calls, Err(r.error), Ok(calls));
    }
  }

  function FinishAfter(known: Option<string>, c: Choice): Option<string> {
    if c.finish.Some? then c.finish else known
  }

  /** No choice but the first is used, and no two finish reasons differ; `known` is the one from before, if any. */
  predicate Agree(known: Option<string>, choices: seq<Choice>)
    decreases choices
  {
    choices == [] ||
    (&& choices[0].index == 0 && (choices[0].finish.None? || known.None? || choices[0].finish == known)
     && Agree(FinishAfter(known, choices[0]), choices[1..]))
  }

  /** The finish reason of the last choice that has one. */
  function LastFinish(known: Option<string>, choices: seq<Choice>): Option<string>
    decreases choices
  {
    if choices == [] then known else LastFinish(FinishAfter(known, choices[0]), choices[1..])
  }

  lemma {:induction false} ChoicesApplyIff(a: Assembly, choices: seq<Choice>)
    ensures ApplyChoices(a, choices).Ok? <==> Agree(a.finish, choices) && MergeAll(a.calls, DeltasOf(choices)).Ok?
    ensures ApplyChoices(a, choices).Ok? ==>
              var b := ApplyChoices(a, choices).value;
              && Ok(b.calls) == MergeAll(a.calls, DeltasOf(choices)) && b.finish == LastFinish(a.finish, choices)
              && (b.sawChoice <==> a.sawChoice || choices != [])
    decreases |choices|
  {
    if choices != [] {
      MergeAllAppend(a.calls, choices[0].calls, DeltasOf(choices[1..]));
      if ApplyChoice(a, choices[0]).Ok? {
        ChoicesApplyIff(ApplyChoice(a, choices[0]).value, choices[1..]);
      }
    }
  }

  lemma {:induction false} AgreeAppends(known: Option<string>, a: seq<Choice>, b: seq<Choice>)
    ensures Agree(known, a + b) <==> Agree(known, a) && Agree(LastFinish(known, a), b)
    ensures LastFinish(known, a + b) == LastFinish(LastFinish(known, a), b)
    decreases a
  {
    if a == [] {
      assert a + b == b;
    } else {
      assert (a + b)[1..] == a[1..] + b;
      AgreeAppends(FinishAfter(known, a[0]), a[1..], b);
    }
  }

  /** Events can be applied exactly if all their choices are the first one, agree on the finish reason and carry pieces
      of calls that can be merged. */
  lemma {:induction false} EventsApplyIff(a: Assembly, events: seq<Event>)
    ensures ApplyEvents(a, events).Ok? <==>
              Agree(a.finish, ChoicesOf(events)) && MergeAll(a.calls, DeltasOf(ChoicesOf(events))).Ok?
    ensures ApplyEvents(a, events).Ok? ==>
              var b := ApplyEvents(a, events).value;
              && Ok(b.calls) == MergeAll(a.calls, DeltasOf(ChoicesOf(events)))
              && b.finish == LastFinish(a.finish, ChoicesOf(events))
              && (b.sawChoice <==> a.sawChoice || ChoicesOf(events) != [])
    decreases |events|
  {
    if events != [] {
      var first, rest := events[0].choices, ChoicesOf(events[1..]);
      var start := a.(usage := if events[0].usage.Some? then events[0].usage else a.usage);
      DeltasAppend(first, rest);
      MergeAllAppend(a.calls, DeltasOf(first), DeltasOf(rest));
      AgreeAppends(a.finish, first, rest);
      ChoicesApplyIff(start, first);
      if ApplyEvent(a, events[0]).Ok? {
        EventsApplyIff(ApplyEvent(a, events[0]).value, events[1..]);
      }
    }
  }

  lemma {:induction false} OneFinishAgrees(known: Option<string>, choices: seq<Choice>, finish: string)
    requires OneFinish(choices, finish) && (known.None? || known == Some(finish))
    ensures Agree(known, choices)
    ensures LastFinish(known, choices) == if SomeFinish(choices) then Some(finish) else known
    decreases choices
  {
    if choices != [] {
      OneFinishAgrees(FinishAfter(known, choices[0]), choices[1..], finish);
    }
  }

  lemma EventsYieldCalls(events: seq<Event>, calls: seq<ToolCall>, finish: string)
    requires OneFinish(ChoicesOf(events), finish) && SomeFinish(ChoicesOf(events))
    requires Fragments(DeltasOf(ChoicesOf(events)), calls)
    ensures ApplyEvents(NOTHING, events).Ok?
    ensures var a := ApplyEvents(NOTHING, events).value;
            a.sawChoice && a.finish == Some(finish) && FinishedAs(a.calls, Ok(calls))
  {
    ReassemblyRoundTrip(DeltasOf(ChoicesOf(events)), calls);
    OneFinishAgrees(None, ChoicesOf(events), finish);
    EventsApplyIff(NOTHING, events);
    assert ChoicesOf(events) != [];
  }

  lemma {:induction false} FinishIsCommon(known: Option<string>, choices: seq<Choice>)
    requires Agree(known, choices) && LastFinish(known, choices).Some?
    ensures forall k | 0 <= k < |choices| ::
              choices[k].index == 0 && (choices[k].finish.None? || choices[k].finish == LastFinish(known, choices))
    ensures known.Some? ==> LastFinish(known, choices) == known
    ensures known.None? ==> exists k :: 0 <= k < |choices| && choices[k].finish == LastFinish(known, choices)
    decreases choices
  {
    if choices != [] {
      var next := FinishAfter(known, choices[0]);
      FinishIsCommon(next, choices[1..]);
      forall k | 0 <= k < |choices|
        ensures choices[k].index == 0 && (choices[k].finish.None? || choices[k].finish == LastFinish(known, choices))
      {
        assert k > 0 ==> choices[k] == choices[1..][k - 1];
      }
      if known.None? {
        if choices[0].finish.None? {
          var k :| 0 <= k < |choices[1..]| && choices[1..][k].finish == LastFinish(next, choices[1..]);
          assert choices[k + 1].finish == LastFinish(known, choices);
        }
      }
    }
  }

  /** Whatever the stream: an answer is made of events that were sent before the end mark. Its calls, its text, its
      usage and its finish reason are theirs, and they name no other finish reason and no second choice. */
  lemma AnswerWasSent(parse: Parser, s: string, r: Result<Response, StreamError>) returns (events: seq<Event>)
    requires Outcome(parse, s, r) && r.Ok?
    ensures exists n, parts, open ::
              && Within(LinesOf(s), n, 0) && Says(SaidWithin(LinesOf(s), n), parts, open)
              && |events| < |parts| && Written(parse, parts[..|events|], events) && Join(parts[|events|]) == "[DONE]"
    ensures var choices, deltas, calls := ChoicesOf(events), DeltasOf(ChoicesOf(events)), r.value.calls;
            && (forall k | 0 <= k < |choices| ::
                  choices[k].index == 0 && (choices[k].finish.None? || choices[k].finish == Some(r.value.finish)))
            && (exists k :: 0 <= k < |choices| && choices[k].finish == Some(r.value.finish))
            && r.value.content == (if PiecesOf(choices) == [] then None else Some(Concat(PiecesOf(choices))))
            && r.value.usage == LastUsage(events)
            && MergeAll(map[], deltas).Ok? && FinishedAs(MergeAll(map[], deltas).value, Ok(calls))
  {
    var n, parts, open;
    n, parts, open, events := EveryStream(parse, s, r);
    EventsApplyIff(NOTHING, events);
    FinishIsCommon(None, ChoicesOf(events));
    EventsAddPieces(NOTHING, events);
    EventsKeepUsage(NOTHING, events);
    assert NOTHING.content + PiecesOf(ChoicesOf(events)) == PiecesOf(ChoicesOf(events));
  }

  /** From bytes to tool calls: if a stream says events and then the end mark, and the events carry the pieces of
      `calls`, fragmented and interleaved in any way over any number of events, then reading it yields exactly `calls`,
      the finish reason, the text pieces joined and the usage that was sent last. */
  lemma StreamRoundTrip(parse: Parser, s: string, parts: seq<seq<string>>, open: seq<string>, events: seq<Event>,
                        calls: seq<ToolCall>, finish: string, r: Result<Response, StreamError>)
    requires |s| <= MAX_RESPONSE_BYTES && Says(SaidBy(s), parts, open) && Outcome(parse, s, r)
    requires |events| < |parts| && Written(parse, parts[..|events|], events) && Join(parts[|events|]) == DONE
    requires OneFinish(ChoicesOf(events), finish) && SomeFinish(ChoicesOf(events))
    requires Fragments(DeltasOf(ChoicesOf(events)), calls)
    ensures r.Ok? && r.value.calls == calls && r.value.finish == finish && r.value.usage == LastUsage(events)
    ensures var pieces := PiecesOf(ChoicesOf(events));
            r.value.content == if pieces == [] then None else Some(Concat(pieces))
  {
    EventsAreRead(parse, s, parts, open, events, r);
    EventsYieldCalls(events, calls, finish);
    AnswerIsUnique(ApplyEvents(NOTHING, events).value, calls, r);
    EventsAddPieces(NOTHING, events);
    EventsKeepUsage(NOTHING, events);
    assert NOTHING.content + PiecesOf(ChoicesOf(events)) == PiecesOf(ChoicesOf(events));
  }
}
