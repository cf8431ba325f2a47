/** The ACP stdio client: newline framing over chunks and JSON-RPC request correlation. */
module AcpClient {
  import opened Sequences
  import Text

  /** A member of a JSON object: not there, there and falsy (null among them), or there and truthy. */
  datatype Member = Absent | Falsy | Truthy

  /** A message id: a number, or something that is no number we issued. */
  datatype Id = Num(n: int) | NotOurs

  /** What the client looks at in a parsed message. */
  datatype Msg = Msg(id: Option<Id>, hasResult: bool, error: Member, method_: Option<string>)

  /** A line is blank, no JSON, the JSON value null, or some other JSON value. */
  datatype Line = Blank | Bad | NullLine | Parsed(msg: Msg)

  type Parser = string -> Line

  datatype How = Resolved | RemoteError | TimedOut | Gone

  datatype Settled = Settled(id: int, how: How)

  /** The client: `pending` in the order of issue, and the histories of settled requests and handled messages. */
  datatype State = State(pending: seq<int>, nextId: int, closed: bool, buffer: string, crashed: bool,
                         settled: seq<Settled>, handled: seq<Msg>)

  const START := State([], 1, false, "", false, [], [])

  datatype Event =
    | Data(chunk: string)
    | Request(sendOk: bool)
    | Timeout(id: int)
    | Exit

  predicate IsResponse(m: Msg) { m.id.Some? && (m.hasResult || m.error != Absent) }

  function Without(ids: seq<int>, id: int): seq<int> { Filter((i: int) => i != id, ids) }

  /** Removes a request from the pending ones and settles it. */
  function Settle(s: State, id: int, how: How): State {
    s.(pending := Without(s.pending, id), settled := s.settled + [Settled(id, how)])
  }

  function Handle(s: State, m: Msg): State {
    var s' := s.(handled := s.handled + [m]);
    if IsResponse(m) && m.id.value.Num? && m.id.value.n in s.pending
    then Settle(s', m.id.value.n, if m.error == Truthy then RemoteError else Resolved)
    else s'
  }

  /** Where the first newline is, or the length of the buffer. */
  function Newline(buffer: string): (i: nat)
    ensures i <= |buffer|
  {
    Text.FirstIndex(IsNewline(), buffer)
  }

  function IsNewline(): char -> bool { c => c == '\n' }

  /** Handles one complete line; a null line brings the process down. */
  function TakeLine(s: State, line: Line): (s': State)
    ensures s'.buffer == s.buffer && s'.nextId == s.nextId && s'.closed == s.closed
  {
    match line
    case Blank => s
    case Bad => s
    case NullLine => s.(crashed := true)
    case Parsed(m) => Handle(s, m)
  }

  /** Handles every complete line of the buffer. */
  function Drain(s: State, parse: Parser): State
    decreases |s.buffer|
  {
    var i := Newline(s.buffer);
    if s.crashed || i == |s.buffer| then s
    else Drain(TakeLine(s.(buffer := s.buffer[i + 1..]), parse(s.buffer[..i])), parse)
  }

  function Feed(s: State, chunk: string, parse: Parser): State {
    Drain(s.(buffer := s.buffer + chunk), parse)
  }

  /** Rejects everything pending, in order. */
  function RejectAll(ids: seq<int>): seq<Settled> {
    seq(|ids|, i requires 0 <= i < |ids| => Settled(ids[i], Gone))
  }

  function Step(s: State, e: Event, parse: Parser): State {
    if s.crashed then s
    else
      match e
      case Data(chunk) => Feed(s, chunk, parse)
      case Request(_) => if s.closed then s else s.(pending := s.pending + [s.nextId], nextId := s.nextId + 1)
      case Timeout(id) => if id in s.pending then Settle(s, id, TimedOut) else s
      case Exit => s.(closed := true, pending := [], settled := s.settled + RejectAll(s.pending))
  }

  class Client {
    var pending: seq<int>
    var nextId: int
    var closed: bool
    var stdoutBuffer: string
    /** The process died of an uncaught error. */
    var crashed: bool
    ghost var settled: seq<Settled>
    ghost var handled: seq<Msg>

    ghost function Now(): State
      reads this
    {
      State(pending, nextId, closed, stdoutBuffer, crashed, settled, handled)
    }

    constructor ()
      ensures Now() == START
    {
      pending, nextId, closed, stdoutBuffer, crashed := [], 1, false, "", false;
      settled, handled := [], [];
    }

    method OnStdoutChunk(chunk: string, parse: Parser)
      requires !crashed
      modifies this
      ensures Now() == Step(old(Now()), Data(chunk), parse)
    {
      stdoutBuffer := stdoutBuffer + chunk;
      var idx := Newline(stdoutBuffer);
      while idx < |stdoutBuffer|
        invariant !crashed && idx == Newline(stdoutBuffer)
        invariant Drain(Now(), parse) == Step(old(Now()), Data(chunk), parse)
        decreases |stdoutBuffer|
      {
        var line := stdoutBuffer[..idx];
        stdoutBuffer := stdoutBuffer[idx + 1..];
        idx := Newline(stdoutBuffer);
        match parse(line) {
          case Blank => continue;
          case Bad => continue;
          case NullLine =>
            crashed := true;
            return;
          case Parsed(m) =>
            HandleMessage(m);
        }
      }
    }

    method HandleMessage(m: Msg)
      modifies this
      ensures Now() == Handle(old(Now()), m)
    {
      handled := handled + [m];
      if m.id.Some? && (m.hasResult || m.error != Absent) {
        if !m.id.value.Num? || m.id.value.n !in pending {
          return;
        }
        var id := m.id.value.n;
        pending := Without(pending, id);
        settled := settled + [Settled(id, if m.error == Truthy then RemoteError else Resolved)];
      }
    }

    /** Issues a request; None when the client is closed. When the send fails the request stays pending. */
    method Issue(sendOk: bool, parse: Parser) returns (id: Option<int>)
      requires !crashed
      modifies this
      ensures Now() == Step(old(Now()), Request(sendOk), parse)
      ensures id == if old(closed) then None else Some(old(nextId))
    {
      if closed {
        return None;
      }
      id := Some(nextId);
      nextId := nextId + 1;
      pending := pending + [id.value];
    }

    method OnTimeout(id: int, parse: Parser)
      requires !crashed
      modifies this
      ensures Now() == Step(old(Now()), Timeout(id), parse)
    {
      if id in pending {
        pending := Without(pending, id);
        settled := settled + [Settled(id, TimedOut)];
      }
    }

    /** The subprocess exited or failed: both handlers do this. */
    method OnExit(parse: Parser)
      requires !crashed
      modifies this
      ensures Now() == Step(old(Now()), Exit, parse)
    {
      closed := true;
      for i := 0 to |pending|
        invariant settled == old(settled) + RejectAll(pending)[..i]
        invariant pending == old(pending) && nextId == old(nextId) && closed && !crashed
        invariant stdoutBuffer == old(stdoutBuffer) && handled == old(handled)
      {
        settled := settled + [Settled(pending[i], Gone)];
        assert RejectAll(pending)[..i + 1] == RejectAll(pending)[..i] + [Settled(pending[i], Gone)];
      }
      assert RejectAll(pending)[..|pending|] == RejectAll(pending);
      pending := [];
    }
  }

  // ---- Framing ----

  lemma DrainCons(s: State, t: State, parse: Parser)
    requires !s.crashed && Newline(s.buffer) < |s.buffer|
    requires t == TakeLine(s.(buffer := s.buffer[Newline(s.buffer) + 1..]), parse(s.buffer[..Newline(s.buffer)]))
    ensures Drain(s, parse) == Drain(t, parse)
    ensures t.crashed ==> Drain(t, parse) == t
  {
  }

  lemma TakeLineIgnoresBuffer(s: State, line: Line, a: string, b: string)
    ensures TakeLine(s.(buffer := b), line) == TakeLine(s.(buffer := a), line).(buffer := b)
  {
  }

  lemma NothingToDrain(s: State, parse: Parser)
    requires s.crashed || Newline(s.buffer) == |s.buffer|
    ensures Drain(s, parse) == s
  {
  }

  /** Draining a longer buffer is draining its first part and then, unless that brought the process down, the rest. */
  lemma {:induction false} DrainAppend(s: State, more: string, parse: Parser)
    ensures var t := Drain(s, parse);
      Drain(s.(buffer := s.buffer + more), parse)
      == if t.crashed then t.(buffer := t.buffer + more) else Drain(t.(buffer := t.buffer + more), parse)
    decreases |s.buffer|
  {
    var i, long := Newline(s.buffer), s.(buffer := s.buffer + more);
    if s.crashed {
      NothingToDrain(s, parse);
      NothingToDrain(long, parse);
    } else if i == |s.buffer| {
      NothingToDrain(s, parse);
    } else {
      Text.FirstIndexConcat(IsNewline(), s.buffer, more);
      var rest, line := s.buffer[i + 1..], parse(s.buffer[..i]);
      assert long.buffer[..i] == s.buffer[..i] && long.buffer[i + 1..] == rest + more;
      var t := TakeLine(s.(buffer := rest), line);
      TakeLineIgnoresBuffer(s, line, rest, rest + more);
      DrainCons(s, t, parse);
      DrainCons(long, t.(buffer := rest + more), parse);
      DrainAppend(t, more, parse);
    }
  }

  /** The complete lines of a text. */
  function Lines(text: string): seq<string>
    decreases |text|
  {
    var i := Newline(text);
    if i == |text| then [] else [text[..i]] + Lines(text[i + 1..])
  }

  function MessageOn(line: Line): seq<Msg> { if line.Parsed? then [line.msg] else [] }

  /** The messages on the lines, up to the first null line. */
  function Messages(lines: seq<string>, parse: Parser): seq<Msg> {
    if lines == [] || parse(lines[0]) == NullLine then []
    else MessageOn(parse(lines[0])) + Messages(lines[1..], parse)
  }

  lemma MessagesCons(line: string, lines: seq<string>, parse: Parser)
    ensures Messages([line] + lines, parse)
      == if parse(line) == NullLine then [] else MessageOn(parse(line)) + Messages(lines, parse)
  {
    assert ([line] + lines)[1..] == lines;
  }

  lemma TakeLineHandles(s: State, line: Line)
    ensures TakeLine(s, line).handled == s.handled + MessageOn(line)
    ensures TakeLine(s, line).crashed <==> s.crashed || line == NullLine
  {
  }

  lemma LinesCons(buffer: string, line: string, rest: string)
    requires Newline(buffer) < |buffer| && line == buffer[..Newline(buffer)] && rest == buffer[Newline(buffer) + 1..]
    ensures Lines(buffer) == [line] + Lines(rest)
  {
  }

  /** Draining takes the first complete line and goes on with the rest. */
  lemma DrainOnce(s: State, parse: Parser) returns (line: string, rest: string, t: State)
    requires !s.crashed && Newline(s.buffer) < |s.buffer|
    ensures |rest| < |s.buffer| && t.buffer == rest
    ensures Lines(s.buffer) == [line] + Lines(rest)
    ensures t.handled == s.handled + MessageOn(parse(line)) && (t.crashed <==> parse(line) == NullLine)
    ensures Drain(s, parse) == if t.crashed then t else Drain(t, parse)
  {
    var i := Newline(s.buffer);
    line, rest := s.buffer[..i], s.buffer[i + 1..];
    t := TakeLine(s.(buffer := rest), parse(line));
    TakeLineHandles(s.(buffer := rest), parse(line));
    LinesCons(s.buffer, line, rest);
    DrainCons(s, t, parse);
  }

  /** The client handles exactly the messages on the complete lines, in order, up to the first null line. */
  lemma {:induction false} DrainHandles(s: State, parse: Parser)
    requires !s.crashed
    ensures Drain(s, parse).handled == s.handled + Messages(Lines(s.buffer), parse)
    decreases |s.buffer|
  {
    if Newline(s.buffer) == |s.buffer| {
      assert Lines(s.buffer) == [];
      assert Drain(s, parse) == s;
    } else {
      var line, rest, t := DrainOnce(s, parse);
      MessagesCons(line, Lines(rest), parse);
      if !t.crashed {
        DrainHandles(t, parse);
        AppendAssociates(s.handled, MessageOn(parse(line)), Messages(Lines(rest), parse));
      }
    }
  }

  lemma AppendAssociates<T>(a: seq<T>, b: seq<T>, c: seq<T>)
    ensures (a + b) + c == a + (b + c)
  {
  }

  function FeedAll(s: State, chunks: seq<string>, parse: Parser): State {
    if chunks == [] then s
    else
      var t := FeedAll(s, chunks[..|chunks| - 1], parse);
      Step(t, Data(chunks[|chunks| - 1]), parse)
  }

  function Flat(chunks: seq<string>): string {
    if chunks == [] then "" else Flat(chunks[..|chunks| - 1]) + chunks[|chunks| - 1]
  }

  /** The same but for the unread buffer of a dead process. */
  predicate Same(a: State, b: State) { a == if a.crashed then b.(buffer := a.buffer) else b }

  lemma {:induction false} FeedAllIsFeed(s: State, chunks: seq<string>, parse: Parser)
    requires !s.crashed && Newline(s.buffer) == |s.buffer|
    ensures Same(FeedAll(s, chunks, parse), Feed(s, Flat(chunks), parse))
    decreases |chunks|
  {
    if chunks == [] {
      assert s.buffer + "" == s.buffer;
    } else {
      var init, last := chunks[..|chunks| - 1], chunks[|chunks| - 1];
      FeedAllIsFeed(s, init, parse);
      assert s.buffer + Flat(chunks) == s.buffer + Flat(init) + last;
      DrainAppend(s.(buffer := s.buffer + Flat(init)), last, parse);
    }
  }

  /** Two ways of cutting the same output into chunks handle the same messages, settle the same requests
      and leave the same unread rest. */
  lemma ChunkingIsInvisible(s: State, a: seq<string>, b: seq<string>, parse: Parser)
    requires !s.crashed && Newline(s.buffer) == |s.buffer| && Flat(a) == Flat(b)
    ensures Same(FeedAll(s, a, parse), FeedAll(s, b, parse))
  {
    FeedAllIsFeed(s, a, parse);
    FeedAllIsFeed(s, b, parse);
  }

  /** A live client's buffer holds no newline after a chunk. */
  lemma {:induction false} LeftoverHasNoNewline(s: State, parse: Parser)
    ensures !Drain(s, parse).crashed ==> '\n' !in Drain(s, parse).buffer
    decreases |s.buffer|
  {
    var i := Newline(s.buffer);
    Text.FirstIndexFacts(IsNewline(), s.buffer);
    if !s.crashed && i < |s.buffer| {
      var t := TakeLine(s.(buffer := s.buffer[i + 1..]), parse(s.buffer[..i]));
      DrainCons(s, t, parse);
      LeftoverHasNoNewline(t, parse);
    }
  }

  // ---- Correlation ----

  function Ids(settled: seq<Settled>): seq<int> { seq(|settled|, i requires 0 <= i < |settled| => settled[i].id) }

  /** The issued ids are those pending and those settled, each in one place once; a closed client has none pending. */
  ghost predicate Inv(s: State) {
    && s.nextId >= 1
    && NoDup(s.pending + Ids(s.settled))
    && (forall n :: 1 <= n < s.nextId <==> n in s.pending + Ids(s.settled))
    && (s.closed ==> s.pending == [])
  }

  lemma {:induction false} WithoutCounts(ids: seq<int>, id: int)
    requires NoDup(ids) && id in ids
    ensures multiset(ids) == multiset(Without(ids, id)) + multiset{id}
  {
    var init, last := ids[..|ids| - 1], ids[|ids| - 1];
    assert ids == init + [last];
    if last == id {
      FilterKeepsAll(init, id);
    } else {
      WithoutCounts(init, id);
    }
  }

  lemma {:induction false} FilterKeepsAll(ids: seq<int>, id: int)
    requires id !in ids
    ensures Without(ids, id) == ids
  {
    if ids != [] { FilterKeepsAll(ids[..|ids| - 1], id); }
  }

  /** Moving ids between the two places keeps the accounting. */
  lemma SameIdsSameAccount(a: seq<int>, b: seq<int>)
    requires multiset(a) == multiset(b)
    ensures NoDup(a) <==> NoDup(b)
    ensures forall n :: n in a <==> n in b
  {
    NoDupByCount(a);
    NoDupByCount(b);
    forall n ensures n in a <==> n in b { assert n in a <==> n in multiset(a); }
  }

  lemma PendingNoDup(s: State)
    requires Inv(s)
    ensures NoDup(s.pending)
  {
    var all := s.pending + Ids(s.settled);
    forall i, j | 0 <= i < j < |s.pending| ensures s.pending[i] != s.pending[j] { assert all[i] != all[j]; }
  }

  lemma SettleKeepsInv(s: State, id: int, how: How)
    requires Inv(s) && id in s.pending
    ensures Inv(Settle(s, id, how))
  {
    var s' := Settle(s, id, how);
    PendingNoDup(s);
    WithoutCounts(s.pending, id);
    assert Ids(s'.settled) == Ids(s.settled) + [id];
    SameIdsSameAccount(s.pending + Ids(s.settled), s'.pending + Ids(s'.settled));
  }

  lemma TakeLineKeepsInv(s: State, line: Line)
    requires Inv(s)
    ensures Inv(TakeLine(s, line)) && s.settled <= TakeLine(s, line).settled
  {
    if line.Parsed? && IsResponse(line.msg) && line.msg.id.value.Num? && line.msg.id.value.n in s.pending {
      var how := if line.msg.error == Truthy then RemoteError else Resolved;
      SettleKeepsInv(s.(handled := s.handled + [line.msg]), line.msg.id.value.n, how);
    }
  }

  lemma {:induction false} DrainKeepsInv(s: State, parse: Parser)
    requires Inv(s)
    ensures Inv(Drain(s, parse)) && s.settled <= Drain(s, parse).settled
    ensures Drain(s, parse).closed == s.closed && Drain(s, parse).nextId == s.nextId
    decreases |s.buffer|
  {
    var i := Newline(s.buffer);
    if !s.crashed && i < |s.buffer| {
      var s' := s.(buffer := s.buffer[i + 1..]);
      TakeLineKeepsInv(s', parse(s.buffer[..i]));
      DrainKeepsInv(TakeLine(s', parse(s.buffer[..i])), parse);
    }
  }

  lemma RequestKeepsInv(s: State)
    requires Inv(s) && !s.closed
    ensures Inv(s.(pending := s.pending + [s.nextId], nextId := s.nextId + 1))
  {
    var old_, ids := s.pending + Ids(s.settled), Ids(s.settled);
    assert s.nextId !in old_;
    NoDupAppend(old_, s.nextId);
    SameIdsSameAccount(old_ + [s.nextId], s.pending + [s.nextId] + ids);
    forall n ensures 1 <= n < s.nextId + 1 <==> n in old_ + [s.nextId] {
      assert n in old_ + [s.nextId] <==> n in old_ || n == s.nextId;
    }
  }

  lemma ExitKeepsInv(s: State)
    requires Inv(s)
    ensures Inv(s.(closed := true, pending := [], settled := s.settled + RejectAll(s.pending)))
  {
    var s' := s.(closed := true, pending := [], settled := s.settled + RejectAll(s.pending));
    assert Ids(s'.settled) == Ids(s.settled) + s.pending;
    SameIdsSameAccount(s.pending + Ids(s.settled), [] + (Ids(s.settled) + s.pending));
  }

  lemma StepKeepsInv(s: State, e: Event, parse: Parser)
    requires Inv(s)
    ensures Inv(Step(s, e, parse))
    ensures s.settled <= Step(s, e, parse).settled
    ensures s.closed ==> Step(s, e, parse).closed
  {
    if !s.crashed {
      match e
      case Data(chunk) => DrainKeepsInv(s.(buffer := s.buffer + chunk), parse);
      case Request(_) => if !s.closed { RequestKeepsInv(s); }
      case Timeout(id) => if id in s.pending { SettleKeepsInv(s, id, TimedOut); }
      case Exit => ExitKeepsInv(s);
    }
  }

  function Run(s: State, events: seq<Event>, parse: Parser): State {
    if events == [] then s else Step(Run(s, events[..|events| - 1], parse), events[|events| - 1], parse)
  }

  lemma {:induction false} RunKeepsInv(s: State, events: seq<Event>, parse: Parser)
    requires Inv(s)
    ensures Inv(Run(s, events, parse))
    ensures s.settled <= Run(s, events, parse).settled
    ensures s.closed ==> Run(s, events, parse).closed
    decreases |events|
  {
    if events != [] {
      RunKeepsInv(s, events[..|events| - 1], parse);
      StepKeepsInv(Run(s, events[..|events| - 1], parse), events[|events| - 1], parse);
    }
  }

  /** In every run the ids issued so far are, each exactly once, either pending or settled. */
  lemma IdsAccountedFor(events: seq<Event>, parse: Parser)
    ensures var s := Run(START, events, parse);
      && NoDup(s.pending + Ids(s.settled))
      && forall n :: 1 <= n < s.nextId <==> n in s.pending + Ids(s.settled)
  {
    RunKeepsInv(START, events, parse);
  }

  /** No request settles twice, whatever responses arrive, late or repeated. */
  lemma SettlesAtMostOnce(events: seq<Event>, parse: Parser, s: State, i: nat, j: nat)
    requires s == Run(START, events, parse) && i < j < |s.settled|
    ensures s.settled[i].id != s.settled[j].id
  {
    RunKeepsInv(START, events, parse);
    var all := s.pending + Ids(s.settled);
    assert all[|s.pending| + i] == s.settled[i].id && all[|s.pending| + j] == s.settled[j].id;
  }

  lemma {:induction false} RunConcat(s: State, a: seq<Event>, b: seq<Event>, parse: Parser)
    ensures Run(s, a + b, parse) == Run(Run(s, a, parse), b, parse)
    decreases |b|
  {
    if b == [] {
      assert a + b == a;
    } else {
      RunConcat(s, a, b[..|b| - 1], parse);
      assert (a + b)[..|a + b| - 1] == a + b[..|b| - 1];
    }
  }

  /** Once the subprocess is gone nothing is ever pending again, and what was settled stays settled as it was. */
  lemma NothingPendingAfterExit(before: seq<Event>, after: seq<Event>, parse: Parser)
    requires !Run(START, before, parse).crashed
    ensures var gone := Run(START, before + [Exit], parse);
      var s := Run(START, before + [Exit] + after, parse);
      s.pending == [] && gone.settled <= s.settled && gone.nextId == s.nextId == |s.settled| + 1
  {
    var gone := Run(START, before + [Exit], parse);
    assert (before + [Exit])[..|before|] == before;
    RunKeepsInv(START, before + [Exit], parse);
    RunConcat(START, before + [Exit], after, parse);
    RunKeepsInv(gone, after, parse);
    ClosedIssuesNothing(gone, after, parse);
    var s := Run(START, before + [Exit] + after, parse);
    assert s.pending + Ids(s.settled) == Ids(s.settled);
    CountTo(Ids(s.settled), s.nextId);
  }

  lemma {:induction false} ClosedIssuesNothing(s: State, events: seq<Event>, parse: Parser)
    requires Inv(s) && s.closed
    ensures Run(s, events, parse).nextId == s.nextId
    decreases |events|
  {
    if events != [] {
      var t, e := Run(s, events[..|events| - 1], parse), events[|events| - 1];
      ClosedIssuesNothing(s, events[..|events| - 1], parse);
      RunKeepsInv(s, events[..|events| - 1], parse);
      if e.Data? { DrainKeepsInv(t.(buffer := t.buffer + e.chunk), parse); }
    }
  }

  /** A repetition-free sequence of exactly the numbers from 1 to n - 1 has n - 1 of them. */
  lemma {:induction false} CountTo(ids: seq<int>, n: int)
    requires n >= 1 && NoDup(ids) && forall k :: 1 <= k < n <==> k in ids
    ensures |ids| == n - 1
    decreases n
  {
    if n == 1 {
      HeadIsMember(ids);
    } else {
      assert n - 1 in ids;
      WithoutCounts(ids, n - 1);
      var rest := Without(ids, n - 1);
      FilterNoDup((i: int) => i != n - 1, ids);
      CountTo(rest, n - 1);
      assert |multiset(ids)| == |multiset(rest)| + 1;
    }
  }
}
