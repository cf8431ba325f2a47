/** How each request of the client is settled: by the message that names it, by its own timeout, or by the exit. */
module AcpSettle {
  import opened Sequences
  import opened AcpClient
  import opened AcpText

  /** The message is a response and names request `n`. */
  predicate Answers(m: Msg, n: int) { m.id == Some(Num(n)) && (m.hasResult || m.error != Absent) }

  function Outcome(m: Msg): How { if m.error == Truthy then RemoteError else Resolved }

  /** The pending ids but for `n`, in the same order. */
  ghost predicate Dropped(before: seq<int>, after: seq<int>, n: int) {
    exists i :: 0 <= i < |before| && before[i] == n && after == before[..i] + before[i + 1..]
  }

  // ---- One message ----

  lemma {:induction false} WithoutDrops(ids: seq<int>, n: int)
    requires NoDup(ids) && n in ids
    ensures Dropped(ids, Without(ids, n), n)
    decreases |ids|
  {
    var init, last := ids[..|ids| - 1], ids[|ids| - 1];
    if last == n {
      FilterKeepsAll(init, n);
      assert ids[..|init|] + ids[|init| + 1..] == init;
    } else {
      WithoutDrops(init, n);
      DroppedAppend(init, Without(init, n), n, last);
      assert ids == init + [last];
    }
  }

  lemma DroppedAppend(before: seq<int>, after: seq<int>, n: int, last: int)
    requires Dropped(before, after, n)
    ensures Dropped(before + [last], after + [last], n)
  {
    var i :| 0 <= i < |before| && before[i] == n && after == before[..i] + before[i + 1..];
    var all := before + [last];
    assert all[i] == n && all[..i] == before[..i] && all[i + 1..] == before[i + 1..] + [last];
    assert after + [last] == all[..i] + all[i + 1..];
  }

  /** A response to a pending request settles that request, as its error says, and takes it and no other off the pending
      ones; any other message settles nothing. */
  lemma MessageSettles(s: State, m: Msg)
    requires NoDup(s.pending)
    ensures var t := TakeLine(s, Parsed(m));
      && (forall n :: n in s.pending && Answers(m, n) ==>
            t.settled == s.settled + [Settled(n, Outcome(m))] && Dropped(s.pending, t.pending, n))
      && ((forall n :: n in s.pending ==> !Answers(m, n)) ==> t.settled == s.settled && t.pending == s.pending)
  {
    forall n | n in s.pending && Answers(m, n) ensures Dropped(s.pending, TakeLine(s, Parsed(m)).pending, n) {
      WithoutDrops(s.pending, n);
    }
  }

  // ---- One chunk ----

  /** Message `k` is the first to answer `n`. */
  ghost predicate FirstAnswer(ms: seq<Msg>, n: int, k: nat) {
    k < |ms| && Answers(ms[k], n) && forall j :: 0 <= j < k ==> !Answers(ms[j], n)
  }

  /** From `s` to `t` the messages settled each request they answer by the first answer to it, and no other. */
  ghost predicate SettledBy(s: State, ms: seq<Msg>, t: State) {
    && s.settled <= t.settled
    && (forall n :: n in t.pending <==> n in s.pending && forall m :: m in ms ==> !Answers(m, n))
    && (forall n, k: nat :: n in s.pending && FirstAnswer(ms, n, k) ==>
          Settled(n, Outcome(ms[k])) in t.settled[|s.settled|..])
    && |t.settled| + |t.pending| == |s.settled| + |s.pending|
  }

  lemma DroppedMembers(before: seq<int>, after: seq<int>, n: int)
    requires NoDup(before) && Dropped(before, after, n)
    ensures NoDup(after) && |after| == |before| - 1
    ensures forall k :: k in after <==> k in before && k != n
  {
    var i :| 0 <= i < |before| && before[i] == n && after == before[..i] + before[i + 1..];
    forall k ensures k in after <==> k in before && k != n {
      if k in before && k != n {
        var j :| 0 <= j < |before| && before[j] == k;
        assert after[if j < i then j else j - 1] == k;
      }
    }
  }

  lemma FirstAnswerCons(m: Msg, rest: seq<Msg>, n: int, k: nat)
    requires FirstAnswer([m] + rest, n, k)
    ensures if k == 0 then Answers(m, n) else !Answers(m, n) && FirstAnswer(rest, n, k - 1)
  {
    var ms := [m] + rest;
    if k > 0 {
      assert ms[0] == m && ms[k] == rest[k - 1];
      forall j | 0 <= j < k - 1 ensures !Answers(rest[j], n) { assert ms[j + 1] == rest[j]; }
    }
  }

  /** The message takes exactly the request it answers off the pending ones. */
  lemma OneSettled(s: State, m: Msg, t: State)
    requires NoDup(s.pending) && t.pending == TakeLine(s, Parsed(m)).pending
    requires t.settled == TakeLine(s, Parsed(m)).settled
    ensures NoDup(t.pending) && s.settled <= t.settled
    ensures forall n :: n in t.pending <==> n in s.pending && !Answers(m, n)
    ensures forall n :: n in s.pending && Answers(m, n) ==> t.settled == s.settled + [Settled(n, Outcome(m))]
    ensures |t.settled| + |t.pending| == |s.settled| + |s.pending|
  {
    MessageSettles(s, m);
    if n :| n in s.pending && Answers(m, n) { DroppedMembers(s.pending, t.pending, n); }
  }

  lemma SettledCons(s: State, m: Msg, t: State, rest: seq<Msg>, u: State)
    requires NoDup(s.pending) && t.pending == TakeLine(s, Parsed(m)).pending
    requires t.settled == TakeLine(s, Parsed(m)).settled && SettledBy(t, rest, u)
    ensures NoDup(t.pending) && SettledBy(s, [m] + rest, u)
  {
    OneSettled(s, m, t);
    var ms := [m] + rest;
    forall n ensures n in u.pending <==> n in s.pending && forall x :: x in ms ==> !Answers(x, n) {
      assert forall x :: x in ms <==> x == m || x in rest;
    }
    forall n, k: nat | n in s.pending && FirstAnswer(ms, n, k)
      ensures Settled(n, Outcome(ms[k])) in u.settled[|s.settled|..]
    {
      AnswerSettles(s, m, t, rest, u, n, k);
    }
  }

  lemma AnswerSettles(s: State, m: Msg, t: State, rest: seq<Msg>, u: State, n: int, k: nat)
    requires n in s.pending && FirstAnswer([m] + rest, n, k) && s.settled <= t.settled && SettledBy(t, rest, u)
    requires Answers(m, n) ==> t.settled == s.settled + [Settled(n, Outcome(m))]
    requires !Answers(m, n) ==> n in t.pending
    ensures Settled(n, Outcome(([m] + rest)[k])) in u.settled[|s.settled|..]
  {
    FirstAnswerCons(m, rest, n, k);
    if k == 0 {
      assert u.settled[|s.settled|] == t.settled[|s.settled|] == Settled(n, Outcome(m));
    } else {
      LaterSettled(s.settled, t.settled, u.settled, Settled(n, Outcome(rest[k - 1])));
    }
  }

  lemma LaterSettled(a: seq<Settled>, b: seq<Settled>, c: seq<Settled>, x: Settled)
    requires a <= b <= c && x in c[|b|..]
    ensures x in c[|a|..]
  {
    var i :| 0 <= i < |c[|b|..]| && c[|b|..][i] == x;
    assert c[|a|..][|b| - |a| + i] == x;
  }

  lemma {:induction false} DrainSettles(s: State, parse: Parser)
    requires !s.crashed && NoDup(s.pending)
    ensures SettledBy(s, Messages(Lines(s.buffer), parse), Drain(s, parse))
    decreases |s.buffer|
  {
    var i := Newline(s.buffer);
    if i == |s.buffer| {
      NothingToDrain(s, parse);
      assert Messages(Lines(s.buffer), parse) == [];
    } else {
      var line, rest := s.buffer[..i], s.buffer[i + 1..];
      var t := TakeLine(s.(buffer := rest), parse(line));
      DrainCons(s, t, parse);
      LinesCons(s.buffer, line, rest);
      MessagesCons(line, Lines(rest), parse);
      TakeLineHandles(s.(buffer := rest), parse(line));
      LineSettles(s, line, rest, t, parse);
    }
  }

  /** A line without a message changes nothing that is settled. */
  lemma SettledSkip(s: State, t: State, ms: seq<Msg>, u: State)
    requires t.pending == s.pending && t.settled == s.settled && SettledBy(t, ms, u)
    ensures SettledBy(s, [] + ms, u)
  {
    assert [] + ms == ms;
  }

  /** What the rest of the buffer settles after the first line is what the whole settles. */
  lemma {:induction false} LineSettles(s: State, line: string, rest: string, t: State, parse: Parser)
    requires !s.crashed && NoDup(s.pending) && t == TakeLine(s.(buffer := rest), parse(line))
    requires |rest| < |s.buffer| && (t.crashed <==> parse(line) == NullLine)
    ensures var ms := if parse(line) == NullLine then [] else MessageOn(parse(line)) + Messages(Lines(rest), parse);
      SettledBy(s, ms, Drain(t, parse))
    decreases |s.buffer|, 0
  {
    if parse(line) == NullLine {
      NothingToDrain(t, parse);
    } else {
      if parse(line).Parsed? {
        TakeLineIgnoresBuffer(s, parse(line), s.buffer, rest);
        NoDupAfter(s, parse(line).msg);
      }
      DrainSettles(t, parse);
      FirstThenRest(s, parse(line), t, Messages(Lines(rest), parse), Drain(t, parse));
    }
  }

  lemma FirstThenRest(s: State, line: Line, t: State, ms: seq<Msg>, u: State)
    requires NoDup(s.pending) && line != NullLine && SettledBy(t, ms, u)
    requires t.pending == TakeLine(s, line).pending && t.settled == TakeLine(s, line).settled
    ensures SettledBy(s, MessageOn(line) + ms, u)
  {
    if line.Parsed? { SettledCons(s, line.msg, t, ms, u); } else { SettledSkip(s, t, ms, u); }
  }

  lemma NoDupAfter(s: State, m: Msg)
    requires NoDup(s.pending)
    ensures NoDup(TakeLine(s, Parsed(m)).pending)
  {
    MessageSettles(s, m);
    if n :| n in s.pending && Answers(m, n) { DroppedMembers(s.pending, TakeLine(s, Parsed(m)).pending, n); }
  }

  // ---- Every run ----

  /** In every run a chunk settles exactly the pending requests that the messages it completes answer, each as its first
      answer says: with an error when the response carries a truthy one, with the result otherwise. */
  lemma ChunkSettles(events: seq<Event>, chunk: string, parse: Parser)
    requires !Run(START, events, parse).crashed
    ensures var s := Run(START, events, parse);
      SettledBy(s, Messages(Lines(s.buffer + chunk), parse), Run(START, events + [Data(chunk)], parse))
  {
    var s := Run(START, events, parse);
    RunKeepsInv(START, events, parse);
    PendingNoDup(s);
    assert (events + [Data(chunk)])[..|events|] == events;
    var fed := s.(buffer := s.buffer + chunk);
    DrainSettles(fed, parse);
    assert SettledBy(s, Messages(Lines(fed.buffer), parse), Drain(fed, parse));
  }

  /** In every run a request's timeout settles it and nothing else, if it is still pending; an exit rejects everything
      pending, in the order of issue; a request settles nothing. */
  lemma OtherSettles(events: seq<Event>, e: Event, parse: Parser)
    requires !Run(START, events, parse).crashed && !e.Data?
    ensures var s, t := Run(START, events, parse), Run(START, events + [e], parse);
      && (e.Timeout? ==>
            if e.id in s.pending
            then t.settled == s.settled + [Settled(e.id, TimedOut)] && Dropped(s.pending, t.pending, e.id)
            else t.settled == s.settled && t.pending == s.pending)
      && (e.Exit? ==>
            && t.pending == [] && |t.settled| == |s.settled| + |s.pending| && s.settled <= t.settled
            && forall i :: 0 <= i < |s.pending| ==> t.settled[|s.settled| + i] == Settled(s.pending[i], Gone))
      && (e.Request? ==>
            t.settled == s.settled && t.pending == if s.closed then s.pending else s.pending + [s.nextId])
  {
    var s := Run(START, events, parse);
    RunKeepsInv(START, events, parse);
    PendingNoDup(s);
    assert (events + [e])[..|events|] == events;
    if e.Timeout? && e.id in s.pending { WithoutDrops(s.pending, e.id); }
  }

  /** Something that happened accounts for how a request was settled: a message handled, its timeout, an exit. */
  ghost predicate Caused(x: Settled, handled: seq<Msg>, events: seq<Event>) {
    match x.how
    case TimedOut => Timeout(x.id) in events
    case Gone => Exit in events
    case _ => exists m :: m in handled && Answers(m, x.id) && Outcome(m) == x.how
  }

  ghost predicate AllCaused(s: State, events: seq<Event>) {
    forall x :: x in s.settled ==> Caused(x, s.handled, events)
  }

  lemma CausedStays(x: Settled, handled: seq<Msg>, events: seq<Event>, more: seq<Msg>, later: seq<Event>)
    requires Caused(x, handled, events)
    ensures Caused(x, handled + more, events + later)
  {
    if x.how.Resolved? || x.how.RemoteError? {
      var m :| m in handled && Answers(m, x.id) && Outcome(m) == x.how;
      assert m in handled + more;
    }
  }

  lemma LineCaused(s: State, line: Line, events: seq<Event>)
    requires AllCaused(s, events)
    ensures AllCaused(TakeLine(s, line), events)
  {
    var t := TakeLine(s, line);
    TakeLineHandles(s, line);
    forall x | x in t.settled ensures Caused(x, t.handled, events) {
      if x in s.settled {
        CausedStays(x, s.handled, events, MessageOn(line), []);
        assert events + [] == events;
      } else {
        assert line.msg in t.handled && Answers(line.msg, x.id) && Outcome(line.msg) == x.how;
      }
    }
  }

  lemma {:induction false} DrainCaused(s: State, parse: Parser, events: seq<Event>)
    requires AllCaused(s, events)
    ensures AllCaused(Drain(s, parse), events)
    decreases |s.buffer|
  {
    var i := Newline(s.buffer);
    if !s.crashed && i < |s.buffer| {
      var s' := s.(buffer := s.buffer[i + 1..]);
      LineCaused(s', parse(s.buffer[..i]), events);
      DrainCaused(TakeLine(s', parse(s.buffer[..i])), parse, events);
    }
  }

  lemma StepCaused(s: State, e: Event, parse: Parser, events: seq<Event>)
    requires AllCaused(s, events)
    ensures AllCaused(Step(s, e, parse), events + [e])
  {
    forall x | x in s.settled ensures Caused(x, s.handled, events + [e]) {
      CausedStays(x, s.handled, events, [], [e]);
      assert s.handled + [] == s.handled;
    }
    assert e in events + [e];
    if e.Data? && !s.crashed { DrainCaused(s.(buffer := s.buffer + e.chunk), parse, events + [e]); }
  }

  /** In every run a request is resolved or fails only by a response to it that was handled, without a truthy error or
      with one; it times out only by its own timeout and is rejected as gone only by an exit. */
  lemma {:induction false} SettledOnlyByCause(events: seq<Event>, parse: Parser)
    ensures AllCaused(Run(START, events, parse), events)
    decreases |events|
  {
    if events != [] {
      var init, last := events[..|events| - 1], events[|events| - 1];
      SettledOnlyByCause(init, parse);
      StepCaused(Run(START, init, parse), last, parse, init);
      assert events == init + [last];
    }
  }
}
