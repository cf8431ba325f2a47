/** What the client makes of its whole input, however it is cut into chunks and whatever happens between them. */
module AcpText {
  import opened Sequences
  import opened AcpClient
  import Text

  /** Everything the subprocess has written. */
  function TextOf(events: seq<Event>): string {
    if events == [] then ""
    else
      var last := events[|events| - 1];
      TextOf(events[..|events| - 1]) + if last.Data? then last.chunk else ""
  }

  /** What follows the last newline. */
  function Rest(text: string): string
    decreases |text|
  {
    var i := Newline(text);
    if i == |text| then text else Rest(text[i + 1..])
  }

  ghost predicate HasNull(lines: seq<string>, parse: Parser) { exists l :: l in lines && parse(l) == NullLine }

  lemma SplitFirst(text: string, line: string, rest: string)
    requires Newline(text) < |text| && line == text[..Newline(text)] && rest == text[Newline(text) + 1..]
    ensures Lines(text) == [line] + Lines(rest) && Rest(text) == Rest(rest)
  {
    LinesCons(text, line, rest);
  }

  /** A longer text has the lines of its first part, and then those that the unread rest goes on with. */
  lemma {:induction false} LinesAppend(a: string, b: string)
    ensures Lines(a + b) == Lines(a) + Lines(Rest(a) + b)
    ensures Rest(a + b) == Rest(Rest(a) + b)
    decreases |a|
  {
    var i := Newline(a);
    Text.FirstIndexConcat(IsNewline(), a, b);
    if i < |a| {
      var tail := a[i + 1..];
      assert (a + b)[..i] == a[..i] && (a + b)[i + 1..] == tail + b;
      LinesAppend(tail, b);
      SplitFirst(a, a[..i], tail);
      SplitFirst(a + b, a[..i], tail + b);
      AppendAssociates([a[..i]], Lines(tail), Lines(Rest(tail) + b));
    } else {
      assert Lines(a) == [] && Rest(a) == a;
    }
  }

  lemma {:induction false} MessagesAppend(a: seq<string>, b: seq<string>, parse: Parser)
    ensures Messages(a + b, parse)
      == if HasNull(a, parse) then Messages(a, parse) else Messages(a, parse) + Messages(b, parse)
    decreases |a|
  {
    if a == [] {
      assert a + b == b;
    } else {
      var line, rest := a[0], a[1..];
      assert a == [line] + rest;
      AppendAssociates([line], rest, b);
      MessagesCons(line, rest, parse);
      MessagesCons(line, rest + b, parse);
      MessagesAppend(rest, b, parse);
      NullCons(line, rest, parse);
      AppendAssociates(MessageOn(parse(line)), Messages(rest, parse), Messages(b, parse));
    }
  }

  /** Draining ends at the rest of the buffer, or at a null line. */
  lemma {:induction false} DrainEnds(s: State, parse: Parser)
    requires !s.crashed
    ensures var t := Drain(s, parse);
      (t.crashed <==> HasNull(Lines(s.buffer), parse)) && (!t.crashed ==> t.buffer == Rest(s.buffer))
    decreases |s.buffer|
  {
    var i := Newline(s.buffer);
    if i == |s.buffer| {
      NothingToDrain(s, parse);
    } else {
      var line, rest := s.buffer[..i], s.buffer[i + 1..];
      var t := TakeLine(s.(buffer := rest), parse(line));
      TakeLineHandles(s.(buffer := rest), parse(line));
      LinesCons(s.buffer, line, rest);
      DrainCons(s, t, parse);
      NullCons(line, Lines(rest), parse);
      if !t.crashed { DrainEnds(t, parse); }
    }
  }

  lemma NullCons(line: string, lines: seq<string>, parse: Parser)
    ensures HasNull([line] + lines, parse) <==> parse(line) == NullLine || HasNull(lines, parse)
  {
  }

  lemma NullAppend(a: seq<string>, b: seq<string>, parse: Parser)
    ensures HasNull(a + b, parse) <==> HasNull(a, parse) || HasNull(b, parse)
  {
  }

  /** The state is the one that reading the text leaves, as far as reading goes. */
  ghost predicate HasRead(s: State, text: string, parse: Parser) {
    && s.handled == Messages(Lines(text), parse)
    && (s.crashed <==> HasNull(Lines(text), parse))
    && (!s.crashed ==> s.buffer == Rest(text))
  }

  lemma ChunkRead(s: State, text: string, chunk: string, parse: Parser)
    requires HasRead(s, text, parse)
    ensures HasRead(Step(s, Data(chunk), parse), text + chunk, parse)
  {
    LinesAppend(text, chunk);
    MessagesAppend(Lines(text), Lines(Rest(text) + chunk), parse);
    NullAppend(Lines(text), Lines(Rest(text) + chunk), parse);
    if !s.crashed {
      var fed := s.(buffer := s.buffer + chunk);
      DrainHandles(fed, parse);
      DrainEnds(fed, parse);
    }
  }

  lemma OtherRead(s: State, text: string, e: Event, parse: Parser)
    requires HasRead(s, text, parse) && !e.Data?
    ensures HasRead(Step(s, e, parse), text, parse)
  {
  }

  /** In every run the client has handled exactly the messages on the complete lines of what the subprocess wrote, up to
      the first null line, which alone brings it down; requests, timeouts and the exit in between change none of it. */
  lemma {:induction false} HandledIsText(events: seq<Event>, parse: Parser)
    ensures HasRead(Run(START, events, parse), TextOf(events), parse)
    decreases |events|
  {
    if events == [] {
      assert Lines("") == [] && Rest("") == "";
    } else {
      var init, last := events[..|events| - 1], events[|events| - 1];
      HandledIsText(init, parse);
      if last.Data? {
        ChunkRead(Run(START, init, parse), TextOf(init), last.chunk, parse);
      } else {
        OtherRead(Run(START, init, parse), TextOf(init), last, parse);
        assert TextOf(init) + "" == TextOf(init);
      }
    }
  }

  /** Two runs over the same text handle the same messages, however each is cut and interleaved. */
  lemma InterleavingIsInvisible(a: seq<Event>, b: seq<Event>, parse: Parser)
    requires TextOf(a) == TextOf(b)
    ensures var s, t := Run(START, a, parse), Run(START, b, parse);
      s.handled == t.handled && s.crashed == t.crashed && (!s.crashed ==> s.buffer == t.buffer)
  {
    HandledIsText(a, parse);
    HandledIsText(b, parse);
  }
}
