/** The read loop of one chat completion (crates/c0mpute-cli/src/ai_chat.rs): chunks in, lines out, answer printed. */
module EventStream {
  import opened Text

  /** What the JSON of one data event says; parsing it is a parameter of the model. */
  datatype Event = Ignored | Failure(message: string) | Content(text: string)

  /** What one line makes the reader do. */
  datatype Action = Skip | Say(text: string) | Finish | Fail(message: string)

  /** Why the reader stopped: done marker, error event, end of the body, connection lost. */
  datatype Stop = DoneMarker | ErrorEvent(message: string) | EndOfBody | CutOff

  datatype Outcome = Outcome(answer: string, stop: Stop)

  const DATA := "data:"
  const DONE := "[DONE]"

  function Handle(parse: string -> Event, line: string): Action {
    var trimmed := Trim(line);
    if !(DATA <= trimmed) then Skip else
      var data := Trim(trimmed[|DATA|..]);
      if data == DONE then Finish else
        match parse(data)
        case Ignored => Skip
        case Failure(message) => Fail(message)
        case Content(text) => Say(text)
  }

  lemma DoneField(b: string)
    ensures Trimmed(DATA + b + DONE) && DATA + b + DONE != []
    ensures DATA <= DATA + b + DONE && (DATA + b + DONE)[|DATA|..] == b + DONE
  {
    var field := DATA + b + DONE;
    assert field[0] == 'd' && field[|field| - 1] == ']';
  }

  lemma DoneTrims(b: string)
    requires Blank(b)
    ensures Trim(b + DONE) == DONE
  {
    assert b + DONE + "" == b + DONE && DONE[0] == '[' && DONE[|DONE| - 1] == ']';
    TrimOfPadded(b, DONE, "");
  }

  /** The done marker stops the reader whatever white space surrounds it and its field name. */
  lemma DoneLineStops(parse: string -> Event, a: string, b: string, c: string)
    requires Blank(a) && Blank(b) && Blank(c)
    ensures Handle(parse, a + (DATA + b + DONE) + c) == Finish
  {
    DoneField(b);
    TrimOfPadded(a, DATA + b + DONE, c);
    DoneTrims(b);
  }

  /** The place of the first line feed, or the length. */
  function LineEnd(s: string): (n: nat)
    ensures n <= |s| && '\n' !in s[..n] && (n < |s| ==> s[n] == '\n')
  {
    if s == [] || s[0] == '\n' then 0 else
      var n := LineEnd(s[1..]);
      assert s[..1 + n] == [s[0]] + s[1..][..n];
      1 + n
  }

  function Prepend(text: string, rest: Outcome): Outcome {
    Outcome(text + rest.answer, rest.stop)
  }

  /** A line's action, and what comes of the lines after it unless it stops the reader. */
  function Act(action: Action, rest: Outcome): Outcome {
    match action
    case Skip => rest
    case Say(text) => Prepend(text, rest)
    case Finish => Outcome("", DoneMarker)
    case Fail(message) => Outcome("", ErrorEvent(message))
  }

  /** The whole body at once, line by line; what follows the last line feed is not a line. */
  function Process(parse: string -> Event, body: string): Outcome
    decreases |body|
  {
    var n := LineEnd(body);
    if n == |body| then Outcome("", EndOfBody) else Act(Handle(parse, body[..n]), Process(parse, body[n + 1..]))
  }

  function Concat(chunks: seq<string>): string {
    if chunks == [] then "" else chunks[0] + Concat(chunks[1..])
  }

  lemma {:induction false} ConcatSplit(chunks: seq<string>, i: nat)
    requires i <= |chunks|
    ensures Concat(chunks) == Concat(chunks[..i]) + Concat(chunks[i..])
  {
    if i > 0 {
      ConcatSplit(chunks[1..], i - 1);
      assert chunks[..i][1..] == chunks[1..][..i - 1] && chunks[i..] == chunks[1..][i - 1..];
    } else {
      assert chunks[0..] == chunks;
    }
  }

  /** A line complete in the buffer is the first line of all that is still to come. */
  lemma LineEndInBuffer(buf: string, later: string)
    requires LineEnd(buf) < |buf|
    ensures LineEnd(buf + later) == LineEnd(buf)
    decreases |buf|
  {
    if buf[0] != '\n' {
      assert (buf + later)[1..] == buf[1..] + later;
      LineEndInBuffer(buf[1..], later);
    }
  }

  lemma FirstLineOfBuffer(parse: string -> Event, buf: string, later: string)
    requires LineEnd(buf) < |buf|
    ensures Process(parse, buf + later)
         == Act(Handle(parse, buf[..LineEnd(buf)]), Process(parse, buf[LineEnd(buf) + 1..] + later))
  {
    var n := LineEnd(buf);
    LineEndInBuffer(buf, later);
    assert (buf + later)[..n] == buf[..n] && (buf + later)[n + 1..] == buf[n + 1..] + later;
  }

  lemma PrependTwice(a: string, b: string, o: Outcome)
    ensures Prepend(a, Prepend(b, o)) == Prepend(a + b, o)
  {
    assert a + (b + o.answer) == (a + b) + o.answer;
  }

  lemma {:induction false} NoLineNoEvent(parse: string -> Event, s: string)
    requires '\n' !in s
    ensures Process(parse, s) == Outcome("", EndOfBody)
  {
    assert LineEnd(s) == |s|;
  }

  lemma LastIsLineFeed(body: string)
    requires body != "" && body[|body| - 1] == '\n'
    ensures LineEnd(body) < |body|
  {
    assert body[|body| - 1] in body && body[..|body|] == body;
  }

  lemma LastOfRest(body: string, n: nat)
    requires n < |body| && body[|body| - 1] == '\n'
    ensures body[n + 1..] == "" || body[n + 1..][|body[n + 1..]| - 1] == '\n'
  {
  }

  /** An unterminated last line is ignored, whatever it holds. */
  lemma {:induction false} UnterminatedLineIsIgnored(parse: string -> Event, body: string, tail: string)
    requires '\n' !in tail && (body == "" || body[|body| - 1] == '\n')
    ensures Process(parse, body + tail) == Process(parse, body)
    decreases |body|
  {
    if body == "" {
      assert body + tail == tail;
      NoLineNoEvent(parse, tail);
    } else {
      var n := LineEnd(body);
      LastIsLineFeed(body);
      FirstLineOfBuffer(parse, body, tail);
      LastOfRest(body, n);
      UnterminatedLineIsIgnored(parse, body[n + 1..], tail);
    }
  }

  // ---- what a body says, line by line ----------------------------------

  /** The line is the data field with `data` in it, whatever white space stands around the name and the data. */
  ghost predicate Carries(line: string, data: string) {
    Trimmed(data) && exists a, b, c :: Blank(a) && Blank(b) && Blank(c) && line == a + "data:" + b + data + c
  }

  /** The line does not start with the field's name, nor does it after white space. */
  ghost predicate NoField(line: string) {
    forall a, rest :: Blank(a) ==> line != a + "data:" + rest
  }

  lemma FieldTrims(a: string, b: string, data: string, c: string)
    requires Blank(a) && Blank(b) && Blank(c) && Trimmed(data) && data != ""
    ensures Trim(a + "data:" + b + data + c) == "data:" + b + data && Trim(b + data) == data
  {
    var field := "data:" + b + data;
    assert field[0] == 'd' && field[|field| - 1] == data[|data| - 1];
    TrimOfPadded(a, field, c);
    assert a + field + c == a + "data:" + b + data + c;
    TrimOfPadded(b, data, "");
    assert b + data + "" == b + data;
  }

  lemma EmptyFieldTrims(a: string, b: string, c: string)
    requires Blank(a) && Blank(b) && Blank(c)
    ensures Trim(a + "data:" + b + "" + c) == "data:"
  {
    var name := "data:";
    assert name[0] == 'd' && name[4] == ':';
    TrimOfPadded(a, name, b + c);
    assert a + name + (b + c) == a + "data:" + b + "" + c;
  }

  lemma CarriedData(line: string, data: string)
    requires Carries(line, data)
    ensures DATA <= Trim(line) && Trim(Trim(line)[|DATA|..]) == data
  {
    var a, b, c :| Blank(a) && Blank(b) && Blank(c) && line == a + "data:" + b + data + c;
    if data == "" {
      EmptyFieldTrims(a, b, c);
    } else {
      FieldTrims(a, b, data, c);
      assert ("data:" + b + data)[5..] == b + data && ("data:" + b + data)[..5] == "data:";
    }
  }

  lemma FieldIsCarried(line: string)
    requires DATA <= Trim(line)
    ensures Carries(line, Trim(Trim(line)[|DATA|..])) && !NoField(line)
  {
    var a, c := TrimSplits(line);
    var rest := Trim(line)[|DATA|..] + c;
    FieldAfterBlank(line, a, Trim(line), c);
    SomethingIsCarried(line, a, rest);
    CarriedData(line, Trim(rest));
  }

  lemma FieldAfterBlank(line: string, a: string, field: string, c: string)
    requires line == a + field + c && DATA <= field
    ensures line == a + "data:" + (field[|DATA|..] + c)
  {
    assert field == "data:" + field[|DATA|..];
  }

  /** Every line either carries exactly one piece of data or has no field. */
  lemma EveryLineCarriesDataOrNot(line: string)
    ensures NoField(line) <==> forall data :: !Carries(line, data)
    ensures forall data, data' | Carries(line, data) && Carries(line, data') :: data == data'
  {
    if NoField(line) {
      forall data ensures !Carries(line, data) {
        if Carries(line, data) {
          CarriedData(line, data);
          FieldIsCarried(line);
        }
      }
    } else {
      var a, rest :| Blank(a) && line == a + "data:" + rest;
      SomethingIsCarried(line, a, rest);
    }
    forall data, data' | Carries(line, data) && Carries(line, data') ensures data == data' {
      CarriedData(line, data);
      CarriedData(line, data');
    }
  }

  lemma SomethingIsCarried(line: string, a: string, rest: string)
    requires Blank(a) && line == a + "data:" + rest
    ensures Carries(line, Trim(rest))
  {
    var b, c := TrimSplits(rest);
    TrimIsTrimmed(rest);
    assert line == a + "data:" + b + Trim(rest) + c;
  }

  /** The line prints `text`: it carries data whose content that is, or nothing the reader minds. */
  ghost predicate Prints(parse: string -> Event, line: string, text: string) {
    || (text == "" && NoField(line))
    || exists data :: Carries(line, data) && data != "[DONE]"
         && (parse(data) == Content(text) || (text == "" && parse(data) == Ignored))
  }

  lemma LinePrints(parse: string -> Event, line: string, text: string, rest: Outcome)
    requires Prints(parse, line, text)
    ensures Act(Handle(parse, line), rest) == Prepend(text, rest)
  {
    assert "" + rest.answer == rest.answer;
    if text == "" && NoField(line) {
      if DATA <= Trim(line) { FieldIsCarried(line); }
    } else {
      var data :| Carries(line, data) && data != "[DONE]"
                  && (parse(data) == Content(text) || (text == "" && parse(data) == Ignored));
      CarriedData(line, data);
    }
  }

  /** A body of whole lines. */
  function Body(lines: seq<string>): string {
    if lines == [] then "" else lines[0] + "\n" + Body(lines[1..])
  }

  lemma FirstLine(parse: string -> Event, line: string, rest: string)
    requires '\n' !in line
    ensures Process(parse, line + "\n" + rest) == Act(Handle(parse, line), Process(parse, rest))
  {
    var body := line + "\n" + rest;
    LineEndIs(line, rest);
    assert body[..|line|] == line && body[|line| + 1..] == rest;
  }

  lemma {:induction false} LineEndIs(line: string, rest: string)
    requires '\n' !in line
    ensures LineEnd(line + "\n" + rest) == |line|
  {
    if line != "" {
      assert (line + "\n" + rest)[1..] == line[1..] + "\n" + rest;
      LineEndIs(line[1..], rest);
    }
  }

  /**
   * The answer is what the lines print, one after the other: the contents of their data, in order, and nothing
   * for lines without the field or with data to ignore. What follows goes on from there.
   */
  lemma {:induction false} AnswerIsWhatTheLinesPrint(
    parse: string -> Event, lines: seq<string>, texts: seq<string>, rest: string)
    requires |lines| == |texts|
    requires forall i | 0 <= i < |lines| :: '\n' !in lines[i] && Prints(parse, lines[i], texts[i])
    ensures Process(parse, Body(lines) + rest) == Prepend(Concat(texts), Process(parse, rest))
  {
    if lines == [] {
      assert "" + rest == rest && "" + Process(parse, rest).answer == Process(parse, rest).answer;
    } else {
      var later := Process(parse, Body(lines[1..]) + rest);
      AnswerIsWhatTheLinesPrint(parse, lines[1..], texts[1..], rest);
      assert Body(lines) + rest == lines[0] + "\n" + (Body(lines[1..]) + rest);
      FirstLine(parse, lines[0], Body(lines[1..]) + rest);
      LinePrints(parse, lines[0], texts[0], later);
      PrependTwice(texts[0], Concat(texts[1..]), Process(parse, rest));
    }
  }

  /**
   * How a body ends, whatever follows its last line here: the done marker ends the answer, an error event too, with
   * its message, and both keep what was printed before; without either the answer ends with the body.
   */
  lemma AnswerEnds(parse: string -> Event, lines: seq<string>, texts: seq<string>, last: string, rest: string)
    requires |lines| == |texts| && '\n' !in last
    requires forall i | 0 <= i < |lines| :: '\n' !in lines[i] && Prints(parse, lines[i], texts[i])
    ensures Carries(last, "[DONE]") ==>
              Process(parse, Body(lines) + (last + "\n" + rest)) == Outcome(Concat(texts), DoneMarker)
    ensures forall data | Carries(last, data) && data != "[DONE]" && parse(data).Failure? ::
              Process(parse, Body(lines) + (last + "\n" + rest))
              == Outcome(Concat(texts), ErrorEvent(parse(data).message))
    ensures Process(parse, Body(lines) + last) == Outcome(Concat(texts), EndOfBody)
  {
    AnswerIsWhatTheLinesPrint(parse, lines, texts, last + "\n" + rest);
    AnswerIsWhatTheLinesPrint(parse, lines, texts, last);
    FirstLine(parse, last, rest);
    NoLineNoEvent(parse, last);
    assert Concat(texts) + "" == Concat(texts);
    if Carries(last, "[DONE]") { CarriedData(last, "[DONE]"); }
    forall data | Carries(last, data) && data != "[DONE]" && parse(data).Failure?
      ensures Handle(parse, last) == Fail(parse(data).message)
    {
      CarriedData(last, data);
    }
  }

  /** The reader's outcome when the transport fails after the last chunk: only an unfinished answer is cut off. */
  function Ending(whole: Outcome, broken: bool): Outcome {
    if whole.stop == EndOfBody && broken then whole.(stop := CutOff) else whole
  }

  /** Having read `read` and printed `said`, the reader with `buf` left is where the whole body would be. */
  ghost predicate Continues(parse: string -> Event, read: string, said: string, buf: string) {
    forall later: string :: Resumes(parse, read, said, buf, later)
  }

  predicate Resumes(parse: string -> Event, read: string, said: string, buf: string, later: string) {
    Process(parse, read + later) == Prepend(said, Process(parse, buf + later))
  }

  /** Whatever follows, the answer is `said` and the reason to stop is `stop`. */
  ghost predicate Stops(parse: string -> Event, read: string, said: string, stop: Stop) {
    forall later: string :: StopsAt(parse, read, said, stop, later)
  }

  predicate StopsAt(parse: string -> Event, read: string, said: string, stop: Stop, later: string) {
    Process(parse, read + later) == Outcome(said, stop)
  }

  /** One complete line of the buffer is worked off, with `later` still to come. */
  lemma LineResumes(parse: string -> Event, read: string, said: string, buf: string, later: string)
    requires Resumes(parse, read, said, buf, later) && LineEnd(buf) < |buf|
    ensures var rest, action := buf[LineEnd(buf) + 1..], Handle(parse, buf[..LineEnd(buf)]);
            && (action.Skip? ==> Resumes(parse, read, said, rest, later))
            && (action.Say? ==> Resumes(parse, read, said + action.text, rest, later))
            && (action.Finish? ==> StopsAt(parse, read, said, DoneMarker, later))
            && (action.Fail? ==> StopsAt(parse, read, said, ErrorEvent(action.message), later))
  {
    var action := Handle(parse, buf[..LineEnd(buf)]);
    FirstLineOfBuffer(parse, buf, later);
    if action.Say? { PrependTwice(said, action.text, Process(parse, buf[LineEnd(buf) + 1..] + later)); }
    assert said + "" == said;
  }

  /** And so for whatever is still to come. */
  lemma LineContinues(parse: string -> Event, read: string, said: string, buf: string)
    requires Continues(parse, read, said, buf) && LineEnd(buf) < |buf|
    ensures var rest, action := buf[LineEnd(buf) + 1..], Handle(parse, buf[..LineEnd(buf)]);
            && (action.Skip? ==> Continues(parse, read, said, rest))
            && (action.Say? ==> Continues(parse, read, said + action.text, rest))
            && (action.Finish? ==> Stops(parse, read, said, DoneMarker))
            && (action.Fail? ==> Stops(parse, read, said, ErrorEvent(action.message)))
  {
    var rest, action := buf[LineEnd(buf) + 1..], Handle(parse, buf[..LineEnd(buf)]);
    forall later: string
      ensures action.Skip? ==> Resumes(parse, read, said, rest, later)
      ensures action.Say? ==> Resumes(parse, read, said + action.text, rest, later)
      ensures action.Finish? ==> StopsAt(parse, read, said, DoneMarker, later)
      ensures action.Fail? ==> StopsAt(parse, read, said, ErrorEvent(action.message), later)
    {
      assert Resumes(parse, read, said, buf, later);
      LineResumes(parse, read, said, buf, later);
    }
  }

  /** Works off the complete lines in the buffer; `EndOfBody` means that no line asked to stop. */
  method DrainLines(parse: string -> Event, buffered: string) returns (said: string, buf: string, stop: Stop)
    ensures stop == EndOfBody ==> '\n' !in buf && Continues(parse, buffered, said, buf)
    ensures stop != EndOfBody ==> stop != CutOff && Stops(parse, buffered, said, stop)
  {
    said, buf, stop := "", buffered, EndOfBody;
    assert forall later: string :: Resumes(parse, buffered, said, buf, later);
    while LineEnd(buf) < |buf|
      invariant Continues(parse, buffered, said, buf)
      decreases |buf|
    {
      var n := LineEnd(buf);
      LineContinues(parse, buffered, said, buf);
      var action := Handle(parse, buf[..n]);
      buf := buf[n + 1..];
      match action {
        case Skip =>
        case Finish => return said, buf, DoneMarker;
        case Fail(message) => return said, buf, ErrorEvent(message);
        case Say(text) => said := said + text;
      }
    }
    assert buf[..|buf|] == buf;
  }

  /** The reader goes on from what it has with the next chunk. */
  lemma ChunkContinues(
    parse: string -> Event, read: string, answer: string, buf: string, chunk: string, said: string, rest: string)
    requires Continues(parse, read, answer, buf) && Continues(parse, buf + chunk, said, rest)
    ensures Continues(parse, read + chunk, answer + said, rest)
  {
    forall later: string
      ensures Resumes(parse, read + chunk, answer + said, rest, later)
    {
      assert Resumes(parse, read, answer, buf, chunk + later) && Resumes(parse, buf + chunk, said, rest, later);
      assert read + (chunk + later) == (read + chunk) + later && buf + (chunk + later) == (buf + chunk) + later;
      PrependTwice(answer, said, Process(parse, rest + later));
    }
  }

  lemma ChunkStops(
    parse: string -> Event, read: string, answer: string, buf: string, chunk: string, said: string, stop: Stop)
    requires Continues(parse, read, answer, buf) && Stops(parse, buf + chunk, said, stop)
    ensures Stops(parse, read + chunk, answer + said, stop)
  {
    forall later: string
      ensures StopsAt(parse, read + chunk, answer + said, stop, later)
    {
      assert Resumes(parse, read, answer, buf, chunk + later) && StopsAt(parse, buf + chunk, said, stop, later);
      assert read + (chunk + later) == (read + chunk) + later && buf + (chunk + later) == (buf + chunk) + later;
    }
  }

  /** With no line left in the buffer, what was read so far gives what was printed, and nothing to stop for. */
  lemma NothingPending(parse: string -> Event, read: string, answer: string, buf: string)
    requires Continues(parse, read, answer, buf) && '\n' !in buf
    ensures Process(parse, read) == Outcome(answer, EndOfBody)
  {
    assert Resumes(parse, read, answer, buf, "");
    assert read + "" == read && buf + "" == buf && answer + "" == answer;
    NoLineNoEvent(parse, buf);
  }

  lemma ConcatNext(chunks: seq<string>, i: nat)
    requires i < |chunks|
    ensures Concat(chunks[..i + 1]) == Concat(chunks[..i]) + chunks[i]
  {
    ConcatSplit(chunks[..i + 1], i);
    assert chunks[..i + 1][..i] == chunks[..i] && chunks[..i + 1][i..] == [chunks[i]];
    assert Concat([chunks[i]]) == chunks[i] + "";
  }

  lemma StopsForTheWhole(parse: string -> Event, chunks: seq<string>, i: nat, answer: string, stop: Stop)
    requires i <= |chunks| && Stops(parse, Concat(chunks[..i]), answer, stop)
    ensures Process(parse, Concat(chunks)) == Process(parse, Concat(chunks[..i])) == Outcome(answer, stop)
  {
    ConcatSplit(chunks, i);
    assert StopsAt(parse, Concat(chunks[..i]), answer, stop, Concat(chunks[i..]));
    assert StopsAt(parse, Concat(chunks[..i]), answer, stop, "");
    assert Concat(chunks[..i]) + "" == Concat(chunks[..i]);
  }

  lemma StopsHere(
    parse: string -> Event, chunks: seq<string>, i: nat, answer: string, buf: string, said: string, stop: Stop)
    requires i < |chunks| && Continues(parse, Concat(chunks[..i]), answer, buf)
    requires Stops(parse, buf + chunks[i], said, stop)
    ensures Stops(parse, Concat(chunks[..i + 1]), answer + said, stop)
  {
    ConcatNext(chunks, i);
    ChunkStops(parse, Concat(chunks[..i]), answer, buf, chunks[i], said, stop);
  }

  lemma GoesOn(
    parse: string -> Event, chunks: seq<string>, i: nat, answer: string, buf: string, said: string, rest: string)
    requires i < |chunks| && Continues(parse, Concat(chunks[..i]), answer, buf)
    requires Continues(parse, buf + chunks[i], said, rest)
    ensures Continues(parse, Concat(chunks[..i + 1]), answer + said, rest)
  {
    ConcatNext(chunks, i);
    ChunkContinues(parse, Concat(chunks[..i]), answer, buf, chunks[i], said, rest);
  }

  lemma Starts(parse: string -> Event)
    ensures Continues(parse, "", "", "")
  {
    forall later: string
      ensures Resumes(parse, "", "", "", later)
    {
      assert "" + later == later && "" + Process(parse, later).answer == Process(parse, later).answer;
    }
  }

  /**
   * The printed answer and the reason to stop are those of the whole body, and the reader stopped at
   * the first chunk that completes a stopping line.
   */
  ghost predicate Faithful(
    parse: string -> Event, chunks: seq<string>, broken: bool, answer: string, stop: Stop, read: nat) {
    && read <= |chunks|
    && Outcome(answer, stop) == Ending(Process(parse, Concat(chunks)), broken)
    && (stop.EndOfBody? || stop.CutOff? ==> read == |chunks|)
    && (stop.DoneMarker? || stop.ErrorEvent? ==>
          && read > 0 && Process(parse, Concat(chunks[..read])) == Outcome(answer, stop)
          && Process(parse, Concat(chunks[..read - 1])).stop == EndOfBody)
  }

  lemma FaithfulAtStop(
    parse: string -> Event, chunks: seq<string>, i: nat, broken: bool, answer: string, buf: string,
    all: string, stop: Stop)
    requires i < |chunks| && Continues(parse, Concat(chunks[..i]), answer, buf) && '\n' !in buf
    requires Stops(parse, Concat(chunks[..i + 1]), all, stop) && stop != EndOfBody && stop != CutOff
    ensures Faithful(parse, chunks, broken, all, stop, i + 1)
  {
    NothingPending(parse, Concat(chunks[..i]), answer, buf);
    StopsForTheWhole(parse, chunks, i + 1, all, stop);
  }

  lemma FaithfulAtEnd(parse: string -> Event, chunks: seq<string>, broken: bool, answer: string, buf: string)
    requires Continues(parse, Concat(chunks[..|chunks|]), answer, buf) && '\n' !in buf
    ensures Faithful(parse, chunks, broken, answer, if broken then CutOff else EndOfBody, |chunks|)
  {
    assert chunks[..|chunks|] == chunks;
    NothingPending(parse, Concat(chunks), answer, buf);
  }

  /** Reading chunk by chunk, for every way of cutting a body. */
  method Complete(parse: string -> Event, chunks: seq<string>, broken: bool)
    returns (answer: string, stop: Stop, read: nat)
    ensures Faithful(parse, chunks, broken, answer, stop, read)
  {
    answer, read := "", 0;
    var buf := "";
    Starts(parse);
    while read < |chunks|
      invariant read <= |chunks| && '\n' !in buf
      invariant Continues(parse, Concat(chunks[..read]), answer, buf)
    {
      var said, rest, stopped := DrainLines(parse, buf + chunks[read]);
      if stopped != EndOfBody {
        StopsHere(parse, chunks, read, answer, buf, said, stopped);
        FaithfulAtStop(parse, chunks, read, broken, answer, buf, answer + said, stopped);
        return answer + said, stopped, read + 1;
      }
      GoesOn(parse, chunks, read, answer, buf, said, rest);
      answer, buf, read := answer + said, rest, read + 1;
    }
    FaithfulAtEnd(parse, chunks, broken, answer, buf);
    stop := if broken then CutOff else EndOfBody;
  }
}
