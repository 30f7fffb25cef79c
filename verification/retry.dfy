/** `send_request` and `log_success`: up to `retry_count` POSTs of one
    conversation, each classified, logged, and separated from the next by a
    fixed sleep, stopping at the first reply that yields an answer.

    The transport is abstracted to one `Outcome` per attempt; what the loop does
    is recorded as a trace of `Event`s. */
module Retry {
  import opened Wrappers
  import opened Json
  import opened Messages

  /** What one POST produced. */
  datatype Outcome =
    | Responded(status: int, body: Option<Json>) // body None: `response.json()` raised
    | TimedOut                                   // asyncio.TimeoutError
    | TransportError                             // any other exception from the session

  /** Why an attempt was logged as a warning (lines 98 and 101). */
  datatype Reason = BadStatus(code: int) | Timeout

  /** Which exception the catch-all of line 102 turned into an error log. */
  datatype Fault =
    | Transport       // raised by the session itself
    | UndecodableBody // `response.json()` raised
    | NoQuestion      // `messages[0]` raised: the message list is empty
    | NoContent       // `result["choices"][0]["message"]["content"]` raised

  /** One observable step of the loop. `Attempt` is a POST being issued; the
      logged attempt numbers are 1-based and carry the configured total. */
  datatype Event =
    | Attempt(index: nat)
    | Warning(index: nat, total: int, reason: Reason)
    | Error(index: nat, total: int, fault: Fault)
    | Answer(question: string, answer: Json)
    | Sleep(seconds: int)

  /** How `send_request` ended: with a logged answer, or with every attempt spent. */
  datatype Terminal = Succeeded(question: string, answer: Json) | Exhausted

  /** Everything one call of `send_request` did, and how it ended. */
  datatype Report = Report(trace: seq<Event>, result: Terminal)

  /** A 200 whose body decodes to a reply of the documented shape. */
  predicate Answers(o: Outcome)
  {
    o.Responded? && o.status == 200 && o.body.Some? && HasReply(o.body.value)
  }

  /** An outcome that `send_request` turns into a logged answer: an answering
      response, when there is a first message to quote as the question. */
  predicate Usable(messages: seq<Message>, o: Outcome)
  {
    |messages| > 0 && Answers(o)
  }

  /** The result of one attempt: the answer to log, or the warning or error logged instead. */
  datatype Step = Delivered(question: string, answer: Json) | Missed(log: Event)

  /** One pass through the body of the loop (lines 86-103). A non-200 status and a
      timeout are warnings; every exception raised while handling a 200
      (undecodable body, empty message list, reply without content) is an error
      like a transport failure, and never an answer. */
  function TryOnce(messages: seq<Message>, total: int, index: nat, o: Outcome): (s: Step)
    ensures s.Delivered? <==> Usable(messages, o)
    ensures s.Delivered? ==> s.question == messages[0].content && s.answer == ReplyContent(o.body.value)
    ensures s.Missed? ==> (s.log.Warning? || s.log.Error?) && s.log.index == index && s.log.total == total
    ensures s.Missed? && s.log.Warning? <==> o.TimedOut? || (o.Responded? && o.status != 200)
    ensures o.TimedOut? ==> s == Missed(Warning(index, total, Timeout))
    ensures o.TransportError? ==> s == Missed(Error(index, total, Transport))
    ensures o.Responded? && o.status != 200 ==> s == Missed(Warning(index, total, BadStatus(o.status)))
    ensures o.Responded? && o.status == 200 && !Usable(messages, o) ==>
      s == Missed(Error(index, total, if o.body.None? then UndecodableBody else if |messages| == 0 then NoQuestion else NoContent))
  {
    match o
    case TimedOut => Missed(Warning(index, total, Timeout))
    case TransportError => Missed(Error(index, total, Transport))
    case Responded(status, body) =>
      if status != 200 then Missed(Warning(index, total, BadStatus(status)))
      else if body.None? then Missed(Error(index, total, UndecodableBody))
      else if |messages| == 0 then Missed(Error(index, total, NoQuestion))
      else
        match Content(body.value)
        case None => Missed(Error(index, total, NoContent))
        case Some(answer) => Delivered(messages[0].content, answer)
  }

  /** The sleep after the attempt numbered `attempt` from 0: only when another
      attempt follows (lines 105-106). */
  function Pause(total: int, delay: int, attempt: nat): seq<Event>
  {
    if attempt < total - 1 then [Sleep(delay)] else []
  }

  /** The loop `for attempt in range(total)` from iteration `from` on. */
  function RunFrom(total: int, delay: int, messages: seq<Message>, outcomes: seq<Outcome>, from: nat): Report
    requires total <= |outcomes|
    decreases total - from
  {
    if from >= total then Report([], Exhausted)
    else
      match TryOnce(messages, total, from + 1, outcomes[from])
      case Delivered(q, a) => Report([Attempt(from + 1), Answer(q, a)], Succeeded(q, a))
      case Missed(log) =>
        var rest := RunFrom(total, delay, messages, outcomes, from + 1);
        Report([Attempt(from + 1), log] + Pause(total, delay, from) + rest.trace, rest.result)
  }

  // ---------------------------------------------------------------------------
  // Reading a trace

  /** The kinds of events, for counting. */
  datatype Kind = AttemptKind | WarningKind | ErrorKind | AnswerKind | SleepKind

  function KindOf(e: Event): Kind
  {
    match e
    case Attempt(_) => AttemptKind
    case Warning(_, _, _) => WarningKind
    case Error(_, _, _) => ErrorKind
    case Answer(_, _) => AnswerKind
    case Sleep(_) => SleepKind
  }

  /** The number of events of kind `k` in `t`. */
  function Count(t: seq<Event>, k: Kind): nat
  {
    if |t| == 0 then 0 else (if KindOf(t[0]) == k then 1 else 0) + Count(t[1..], k)
  }

  /** The numbers of the attempts in `t`, in trace order. */
  function AttemptNumbers(t: seq<Event>): seq<nat>
  {
    if |t| == 0 then [] else (if t[0].Attempt? then [t[0].index] else []) + AttemptNumbers(t[1..])
  }

  lemma CountCons(e: Event, t: seq<Event>, k: Kind)
    ensures Count([e] + t, k) == (if KindOf(e) == k then 1 else 0) + Count(t, k)
  {
    assert ([e] + t)[1..] == t;
  }

  /** The counts of a short run of events, one by one. */
  lemma CountTwo(a: Event, b: Event, k: Kind)
    ensures Count([a, b], k) == (if KindOf(a) == k then 1 else 0) + (if KindOf(b) == k then 1 else 0)
  {
    CountCons(b, [], k);
    assert [b] == [b] + [];
    assert [a, b] == [a] + [b];
    CountCons(a, [b], k);
  }

  lemma CountThree(a: Event, b: Event, c: Event, k: Kind)
    ensures Count([a, b, c], k)
         == (if KindOf(a) == k then 1 else 0) + (if KindOf(b) == k then 1 else 0) + (if KindOf(c) == k then 1 else 0)
  {
    CountTwo(b, c, k);
    assert [a, b, c] == [a] + [b, c];
    CountCons(a, [b, c], k);
  }

  lemma {:induction false} CountAppend(a: seq<Event>, b: seq<Event>, k: Kind)
    ensures Count(a + b, k) == Count(a, k) + Count(b, k)
  {
    if |a| > 0 {
      assert (a + b)[0] == a[0] && (a + b)[1..] == a[1..] + b;
      CountAppend(a[1..], b, k);
    } else {
      assert a + b == b;
    }
  }

  /** One attempt followed by events that are not attempts is numbered once. */
  lemma AttemptNumbersOfBlock(n: nat, log: Event, pause: seq<Event>)
    requires !log.Attempt? && (pause == [] || (|pause| == 1 && !pause[0].Attempt?))
    ensures AttemptNumbers([Attempt(n), log] + pause) == [n]
  {
    var b := [Attempt(n), log] + pause;
    assert b[1..] == [log] + pause;
    assert b[1..][1..] == pause;
    if pause != [] {
      assert pause[1..] == [];
      assert AttemptNumbers(pause) == [] + AttemptNumbers([]);
    }
    assert AttemptNumbers(pause) == [];
    assert AttemptNumbers(b[1..]) == [] + AttemptNumbers(pause);
    assert AttemptNumbers(b) == [n] + AttemptNumbers(b[1..]);
  }

  lemma {:induction false} AttemptNumbersAppend(a: seq<Event>, b: seq<Event>)
    ensures AttemptNumbers(a + b) == AttemptNumbers(a) + AttemptNumbers(b)
  {
    if |a| > 0 {
      assert (a + b)[0] == a[0] && (a + b)[1..] == a[1..] + b;
      AttemptNumbersAppend(a[1..], b);
    } else {
      assert a + b == b;
    }
  }

  /** Every sleep sits between two attempts: two events after an attempt (the
      attempt and its log) and directly before the next attempt. In particular no
      trace ends with a sleep. */
  predicate SleepsBetweenAttempts(t: seq<Event>)
  {
    forall j :: 0 <= j < |t| && t[j].Sleep? ==>
      2 <= j && j + 1 < |t| && t[j - 2].Attempt? && t[j + 1] == Attempt(t[j - 2].index + 1)
  }

  /** Every warning and error directly follows the attempt it reports, and
      carries the configured total. */
  predicate LogsFollowAttempts(t: seq<Event>, total: int)
  {
    forall j :: 0 <= j < |t| && (t[j].Warning? || t[j].Error?) ==>
      1 <= j && t[j - 1] == Attempt(t[j].index) && t[j].total == total
  }

  // ---------------------------------------------------------------------------
  // The loop from an arbitrary iteration

  /** A loop with attempts left starts by issuing the next one and logging it. */
  lemma RunFromStarts(total: int, delay: int, messages: seq<Message>, outcomes: seq<Outcome>, from: nat)
    requires total <= |outcomes| && from < total
    ensures |RunFrom(total, delay, messages, outcomes, from).trace| >= 2
    ensures RunFrom(total, delay, messages, outcomes, from).trace[0] == Attempt(from + 1)
  {
  }

  /** Failed attempts before iteration `k` each leave exactly three events
      (attempt, log, sleep), and the loop then goes on as if started at `k`. */
  lemma {:induction false} RunFromSkipsFailures(total: int, delay: int, messages: seq<Message>, outcomes: seq<Outcome>, from: nat, k: nat)
    requires total <= |outcomes| && from <= k < total
    requires forall j :: from <= j < k ==> !Usable(messages, outcomes[j])
    ensures |RunFrom(total, delay, messages, outcomes, from).trace| >= 3 * (k - from)
    ensures RunFrom(total, delay, messages, outcomes, from).trace[3 * (k - from)..] == RunFrom(total, delay, messages, outcomes, k).trace
    ensures RunFrom(total, delay, messages, outcomes, from).result == RunFrom(total, delay, messages, outcomes, k).result
    decreases k - from
  {
    if from < k {
      var s := TryOnce(messages, total, from + 1, outcomes[from]);
      var t := RunFrom(total, delay, messages, outcomes, from).trace;
      var rest := RunFrom(total, delay, messages, outcomes, from + 1).trace;
      assert t == [Attempt(from + 1), s.log, Sleep(delay)] + rest;
      RunFromSkipsFailures(total, delay, messages, outcomes, from + 1, k);
      assert t[3 * (k - from)..] == rest[3 * (k - from - 1)..];
    }
  }

  /** The events skipped that way are `k - from` attempts and as many sleeps,
      and no answer. */
  lemma {:induction false} SkippedFailuresCount(total: int, delay: int, messages: seq<Message>, outcomes: seq<Outcome>, from: nat, k: nat)
    requires total <= |outcomes| && from <= k < total
    requires forall j :: from <= j < k ==> !Usable(messages, outcomes[j])
    ensures |RunFrom(total, delay, messages, outcomes, from).trace| >= 3 * (k - from)
    ensures var skipped := RunFrom(total, delay, messages, outcomes, from).trace[..3 * (k - from)];
      && Count(skipped, AttemptKind) == k - from
      && Count(skipped, SleepKind) == k - from
      && Count(skipped, AnswerKind) == 0
      && Count(skipped, WarningKind) + Count(skipped, ErrorKind) == k - from
    decreases k - from
  {
    RunFromSkipsFailures(total, delay, messages, outcomes, from, k);
    if from < k {
      var s := TryOnce(messages, total, from + 1, outcomes[from]);
      var head := [Attempt(from + 1), s.log, Sleep(delay)];
      var t := RunFrom(total, delay, messages, outcomes, from).trace;
      var rest := RunFrom(total, delay, messages, outcomes, from + 1).trace;
      assert t == head + rest;
      SkippedFailuresCount(total, delay, messages, outcomes, from + 1, k);
      var p := 3 * (k - from - 1);
      assert t[..3 * (k - from)] == head + rest[..p];
      CountThree(Attempt(from + 1), s.log, Sleep(delay), AttemptKind);
      CountThree(Attempt(from + 1), s.log, Sleep(delay), SleepKind);
      CountThree(Attempt(from + 1), s.log, Sleep(delay), AnswerKind);
      CountThree(Attempt(from + 1), s.log, Sleep(delay), WarningKind);
      CountThree(Attempt(from + 1), s.log, Sleep(delay), ErrorKind);
      CountAppend(head, rest[..p], AttemptKind);
      CountAppend(head, rest[..p], SleepKind);
      CountAppend(head, rest[..p], AnswerKind);
      CountAppend(head, rest[..p], WarningKind);
      CountAppend(head, rest[..p], ErrorKind);
    }
  }

  /** When no attempt from `from` on is usable, every remaining attempt is made,
      with a sleep between each two of them, and the loop is exhausted. */
  lemma RunFromExhausts(total: int, delay: int, messages: seq<Message>, outcomes: seq<Outcome>, from: nat)
    requires total <= |outcomes| && from < total
    requires forall j :: from <= j < total ==> !Usable(messages, outcomes[j])
    ensures RunFrom(total, delay, messages, outcomes, from).result == Exhausted
    ensures Count(RunFrom(total, delay, messages, outcomes, from).trace, AttemptKind) == total - from
    ensures Count(RunFrom(total, delay, messages, outcomes, from).trace, SleepKind) == total - from - 1
    ensures Count(RunFrom(total, delay, messages, outcomes, from).trace, AnswerKind) == 0
    ensures Count(RunFrom(total, delay, messages, outcomes, from).trace, WarningKind)
          + Count(RunFrom(total, delay, messages, outcomes, from).trace, ErrorKind) == total - from
  {
    var last := total - 1;
    RunFromSkipsFailures(total, delay, messages, outcomes, from, last);
    SkippedFailuresCount(total, delay, messages, outcomes, from, last);
    var t := RunFrom(total, delay, messages, outcomes, from).trace;
    var p := 3 * (last - from);
    var s := TryOnce(messages, total, last + 1, outcomes[last]);
    assert t[p..] == [Attempt(last + 1), s.log];
    CountTwo(Attempt(last + 1), s.log, AttemptKind);
    CountTwo(Attempt(last + 1), s.log, SleepKind);
    CountTwo(Attempt(last + 1), s.log, AnswerKind);
    CountTwo(Attempt(last + 1), s.log, WarningKind);
    CountTwo(Attempt(last + 1), s.log, ErrorKind);
    assert t == t[..p] + t[p..];
    CountAppend(t[..p], t[p..], AttemptKind);
    CountAppend(t[..p], t[p..], SleepKind);
    CountAppend(t[..p], t[p..], AnswerKind);
    CountAppend(t[..p], t[p..], WarningKind);
    CountAppend(t[..p], t[p..], ErrorKind);
  }

  /** When iteration `k` is the first usable one, the loop makes exactly the
      attempts up to it, sleeps between them, and ends with the answer it got. */
  lemma RunFromStopsAtFirstUsable(total: int, delay: int, messages: seq<Message>, outcomes: seq<Outcome>, from: nat, k: nat)
    requires total <= |outcomes| && from <= k < total
    requires forall j :: from <= j < k ==> !Usable(messages, outcomes[j])
    requires Usable(messages, outcomes[k])
    ensures var r := RunFrom(total, delay, messages, outcomes, from);
      && r.result == Succeeded(messages[0].content, ReplyContent(outcomes[k].body.value))
      && r.trace[|r.trace| - 1] == Answer(messages[0].content, ReplyContent(outcomes[k].body.value))
      && Count(r.trace, AttemptKind) == k - from + 1
      && Count(r.trace, SleepKind) == k - from
      && Count(r.trace, AnswerKind) == 1
      && Count(r.trace, WarningKind) + Count(r.trace, ErrorKind) == k - from
  {
    RunFromSkipsFailures(total, delay, messages, outcomes, from, k);
    SkippedFailuresCount(total, delay, messages, outcomes, from, k);
    var t := RunFrom(total, delay, messages, outcomes, from).trace;
    var p := 3 * (k - from);
    var answer := Answer(messages[0].content, ReplyContent(outcomes[k].body.value));
    assert t[p..] == [Attempt(k + 1), answer];
    CountTwo(Attempt(k + 1), answer, AttemptKind);
    CountTwo(Attempt(k + 1), answer, SleepKind);
    CountTwo(Attempt(k + 1), answer, AnswerKind);
    CountTwo(Attempt(k + 1), answer, WarningKind);
    CountTwo(Attempt(k + 1), answer, ErrorKind);
    assert t == t[..p] + t[p..];
    CountAppend(t[..p], t[p..], AttemptKind);
    CountAppend(t[..p], t[p..], SleepKind);
    CountAppend(t[..p], t[p..], AnswerKind);
    CountAppend(t[..p], t[p..], WarningKind);
    CountAppend(t[..p], t[p..], ErrorKind);
  }

  /** The loop ends with an answer exactly when some remaining attempt is usable. */
  lemma {:induction false} RunFromSucceedsIff(total: int, delay: int, messages: seq<Message>, outcomes: seq<Outcome>, from: nat)
    requires total <= |outcomes|
    ensures RunFrom(total, delay, messages, outcomes, from).result.Succeeded?
        <==> exists k :: from <= k < total && Usable(messages, outcomes[k])
    decreases total - from
  {
    if from < total {
      RunFromSucceedsIff(total, delay, messages, outcomes, from + 1);
      if exists k :: from <= k < total && Usable(messages, outcomes[k]) {
        var k :| from <= k < total && Usable(messages, outcomes[k]);
        if k > from && !Usable(messages, outcomes[from]) {
          assert from + 1 <= k < total && Usable(messages, outcomes[k]);
        }
      }
    }
  }

  /** A failed attempt, its log and an optional sleep put in front of a well
      spaced trace keep it well spaced, provided the sleep is followed by the
      next attempt. */
  lemma SpacingExtends(n: nat, log: Event, pause: seq<Event>, rest: seq<Event>)
    requires !log.Sleep? && (pause == [] || (|pause| == 1 && pause[0].Sleep?))
    requires pause != [] ==> |rest| > 0 && rest[0] == Attempt(n + 1)
    requires SleepsBetweenAttempts(rest)
    ensures SleepsBetweenAttempts([Attempt(n), log] + pause + rest)
  {
    var t := [Attempt(n), log] + pause + rest;
    var m := 2 + |pause|;
    forall j | 0 <= j < |t| && t[j].Sleep?
      ensures 2 <= j && j + 1 < |t| && t[j - 2].Attempt? && t[j + 1] == Attempt(t[j - 2].index + 1)
    {
      if j >= m {
        assert t[j] == rest[j - m];
        assert t[j - 2] == rest[j - m - 2];
        assert t[j + 1] == rest[j - m + 1];
      }
    }
  }

  /** A failed attempt directly followed by its log, then an optional sleep, put
      in front of a trace whose logs follow their attempts, keeps that so. */
  lemma LogPlacementExtends(n: nat, total: int, log: Event, pause: seq<Event>, rest: seq<Event>)
    requires (log.Warning? || log.Error?) && log.index == n && log.total == total
    requires pause == [] || (|pause| == 1 && pause[0].Sleep?)
    requires LogsFollowAttempts(rest, total)
    ensures LogsFollowAttempts([Attempt(n), log] + pause + rest, total)
  {
    var t := [Attempt(n), log] + pause + rest;
    var m := 2 + |pause|;
    forall j | 0 <= j < |t| && (t[j].Warning? || t[j].Error?)
      ensures 1 <= j && t[j - 1] == Attempt(t[j].index) && t[j].total == total
    {
      if j >= m {
        assert t[j] == rest[j - m];
        assert t[j - 1] == rest[j - m - 1];
      }
    }
  }

  /** The sleeps of the loop each sit between two consecutive attempts. */
  lemma {:induction false} RunFromSpacesSleeps(total: int, delay: int, messages: seq<Message>, outcomes: seq<Outcome>, from: nat)
    requires total <= |outcomes|
    ensures SleepsBetweenAttempts(RunFrom(total, delay, messages, outcomes, from).trace)
    decreases total - from
  {
    if from < total {
      var s := TryOnce(messages, total, from + 1, outcomes[from]);
      var t := RunFrom(total, delay, messages, outcomes, from).trace;
      if s.Missed? {
        var pause := Pause(total, delay, from);
        var rest := RunFrom(total, delay, messages, outcomes, from + 1).trace;
        RunFromSpacesSleeps(total, delay, messages, outcomes, from + 1);
        if pause != [] {
          RunFromStarts(total, delay, messages, outcomes, from + 1);
        }
        SpacingExtends(from + 1, s.log, pause, rest);
        assert t == [Attempt(from + 1), s.log] + pause + rest;
      } else {
        SpacingExtends(from + 1, Answer(s.question, s.answer), [], []);
        assert t == [Attempt(from + 1), Answer(s.question, s.answer)] + [] + [];
      }
    }
  }

  /** Every warning and error of the loop follows the attempt it reports. */
  lemma {:induction false} RunFromPlacesLogs(total: int, delay: int, messages: seq<Message>, outcomes: seq<Outcome>, from: nat)
    requires total <= |outcomes|
    ensures LogsFollowAttempts(RunFrom(total, delay, messages, outcomes, from).trace, total)
    decreases total - from
  {
    if from < total {
      var s := TryOnce(messages, total, from + 1, outcomes[from]);
      var t := RunFrom(total, delay, messages, outcomes, from).trace;
      if s.Missed? {
        var pause := Pause(total, delay, from);
        var rest := RunFrom(total, delay, messages, outcomes, from + 1).trace;
        RunFromPlacesLogs(total, delay, messages, outcomes, from + 1);
        LogPlacementExtends(from + 1, total, s.log, pause, rest);
        assert t == [Attempt(from + 1), s.log] + pause + rest;
      } else {
        assert t == [Attempt(from + 1), Answer(s.question, s.answer)];
      }
    }
  }

  /** The attempts of the loop are numbered consecutively from `from + 1`. */
  lemma {:induction false} RunFromNumbersAttempts(total: int, delay: int, messages: seq<Message>, outcomes: seq<Outcome>, from: nat)
    requires total <= |outcomes|
    ensures forall p :: 0 <= p < |AttemptNumbers(RunFrom(total, delay, messages, outcomes, from).trace)| ==>
      AttemptNumbers(RunFrom(total, delay, messages, outcomes, from).trace)[p] == from + p + 1
    decreases total - from
  {
    if from < total {
      var s := TryOnce(messages, total, from + 1, outcomes[from]);
      var t := RunFrom(total, delay, messages, outcomes, from).trace;
      if s.Missed? {
        var rest := RunFrom(total, delay, messages, outcomes, from + 1).trace;
        var head := [Attempt(from + 1), s.log] + Pause(total, delay, from);
        assert t == head + rest;
        AttemptNumbersAppend(head, rest);
        AttemptNumbersOfBlock(from + 1, s.log, Pause(total, delay, from));
        RunFromNumbersAttempts(total, delay, messages, outcomes, from + 1);
        var ns, nr := AttemptNumbers(t), AttemptNumbers(rest);
        assert ns == [from + 1] + nr;
        forall p | 0 <= p < |ns|
          ensures ns[p] == from + p + 1
        {
          if p > 0 {
            assert ns[p] == nr[p - 1];
          }
        }
      } else {
        AttemptNumbersOfBlock(from + 1, Answer(s.question, s.answer), []);
        assert t == [Attempt(from + 1), Answer(s.question, s.answer)] + [];
      }
    }
  }

  /** Every sleep of the loop lasts the configured delay. */
  lemma {:induction false} RunFromSleepsForDelay(total: int, delay: int, messages: seq<Message>, outcomes: seq<Outcome>, from: nat)
    requires total <= |outcomes|
    ensures forall e :: e in RunFrom(total, delay, messages, outcomes, from).trace && e.Sleep? ==> e == Sleep(delay)
    decreases total - from
  {
    if from < total {
      var s := TryOnce(messages, total, from + 1, outcomes[from]);
      var t := RunFrom(total, delay, messages, outcomes, from).trace;
      if s.Missed? {
        var rest := RunFrom(total, delay, messages, outcomes, from + 1).trace;
        RunFromSleepsForDelay(total, delay, messages, outcomes, from + 1);
        assert t == [Attempt(from + 1), s.log] + Pause(total, delay, from) + rest;
      } else {
        assert t == [Attempt(from + 1), Answer(s.question, s.answer)];
      }
    }
  }

  // ---------------------------------------------------------------------------
  // send_request

  /** `send_request(messages)` with `retry_count` = `retryCount` and
      `retry_delay` = `retryDelay`, the i-th POST producing `outcomes[i]`.
      It makes no attempt unless `retryCount` is positive; it ends with an answer
      exactly when some attempt within the budget is usable, and that answer's
      question is the content of the first message; its trace never ends with a
      sleep, places every sleep between two consecutive attempts, and logs every
      failure right after its attempt, numbered against the configured total. */
  function SendRequest(retryCount: int, retryDelay: int, messages: seq<Message>, outcomes: seq<Outcome>): (r: Report)
    requires retryCount <= |outcomes|
    ensures retryCount <= 0 ==> r == Report([], Exhausted)
    ensures r.result.Succeeded? <==> exists k :: 0 <= k < retryCount && Usable(messages, outcomes[k])
    ensures r.result.Succeeded? ==> |messages| > 0 && r.result.question == messages[0].content
    ensures SleepsBetweenAttempts(r.trace) && LogsFollowAttempts(r.trace, retryCount)
    ensures r.trace == [] || !r.trace[|r.trace| - 1].Sleep?
    ensures forall p :: 0 <= p < |AttemptNumbers(r.trace)| ==> AttemptNumbers(r.trace)[p] == p + 1
    ensures forall e :: e in r.trace && e.Sleep? ==> e == Sleep(retryDelay)
  {
    RunFromFromStart(retryCount, retryDelay, messages, outcomes);
    RunFrom(retryCount, retryDelay, messages, outcomes, 0)
  }

  /** The facts about the whole loop that `SendRequest` promises. */
  lemma RunFromFromStart(retryCount: int, retryDelay: int, messages: seq<Message>, outcomes: seq<Outcome>)
    requires retryCount <= |outcomes|
    ensures var r := RunFrom(retryCount, retryDelay, messages, outcomes, 0);
      && (r.result.Succeeded? <==> exists k :: 0 <= k < retryCount && Usable(messages, outcomes[k]))
      && (r.result.Succeeded? ==> |messages| > 0 && r.result.question == messages[0].content)
      && SleepsBetweenAttempts(r.trace) && LogsFollowAttempts(r.trace, retryCount)
      && (r.trace == [] || !r.trace[|r.trace| - 1].Sleep?)
      && (forall p :: 0 <= p < |AttemptNumbers(r.trace)| ==> AttemptNumbers(r.trace)[p] == p + 1)
      && forall e :: e in r.trace && e.Sleep? ==> e == Sleep(retryDelay)
  {
    RunFromSleepsForDelay(retryCount, retryDelay, messages, outcomes, 0);
    RunFromSucceedsIff(retryCount, retryDelay, messages, outcomes, 0);
    RunFromSpacesSleeps(retryCount, retryDelay, messages, outcomes, 0);
    RunFromPlacesLogs(retryCount, retryDelay, messages, outcomes, 0);
    RunFromNumbersAttempts(retryCount, retryDelay, messages, outcomes, 0);
    var r := RunFrom(retryCount, retryDelay, messages, outcomes, 0);
    if r.result.Succeeded? {
      var k := FirstUsable(messages, outcomes, 0, retryCount);
      RunFromStopsAtFirstUsable(retryCount, retryDelay, messages, outcomes, 0, k);
    }
  }

  /** The first usable outcome in `outcomes[from..bound]`, when there is one. */
  lemma FirstUsable(messages: seq<Message>, outcomes: seq<Outcome>, from: nat, bound: int) returns (first: nat)
    requires bound <= |outcomes|
    requires exists k :: from <= k < bound && Usable(messages, outcomes[k])
    ensures from <= first < bound && Usable(messages, outcomes[first])
    ensures forall j :: from <= j < first ==> !Usable(messages, outcomes[j])
    decreases bound - from
  {
    if Usable(messages, outcomes[from]) {
      first := from;
    } else {
      first := FirstUsable(messages, outcomes, from + 1, bound);
    }
  }

  // ---------------------------------------------------------------------------
  // Properties of send_request

  /** With a positive budget and no usable outcome, `send_request` makes every
      attempt, logs a warning or error for each, sleeps between each two of
      them but not after the last, and gives up. */
  lemma ExhaustsAfterEveryFailure(retryCount: int, retryDelay: int, messages: seq<Message>, outcomes: seq<Outcome>)
    requires 1 <= retryCount <= |outcomes|
    requires forall j :: 0 <= j < retryCount ==> !Usable(messages, outcomes[j])
    ensures var r := SendRequest(retryCount, retryDelay, messages, outcomes);
      && r.result == Exhausted
      && Count(r.trace, AttemptKind) == retryCount
      && Count(r.trace, WarningKind) + Count(r.trace, ErrorKind) == retryCount
      && Count(r.trace, SleepKind) == retryCount - 1
      && Count(r.trace, AnswerKind) == 0
  {
    RunFromExhausts(retryCount, retryDelay, messages, outcomes, 0);
  }

  /** When the attempt numbered `k` from 0 is the first usable one within the
      budget, `send_request` makes exactly `k + 1` attempts, `k` sleeps and `k`
      warnings or errors, and ends with the answer of that reply, quoting the
      first message as the question; nothing follows the answer. */
  lemma StopsAtFirstAnswer(retryCount: int, retryDelay: int, messages: seq<Message>, outcomes: seq<Outcome>, k: nat)
    requires k < retryCount <= |outcomes|
    requires forall j :: 0 <= j < k ==> !Usable(messages, outcomes[j])
    requires Usable(messages, outcomes[k])
    ensures var r := SendRequest(retryCount, retryDelay, messages, outcomes);
      && r.result == Succeeded(messages[0].content, ReplyContent(outcomes[k].body.value))
      && r.trace[|r.trace| - 1] == Answer(messages[0].content, ReplyContent(outcomes[k].body.value))
      && Count(r.trace, AttemptKind) == k + 1
      && Count(r.trace, SleepKind) == k
      && Count(r.trace, AnswerKind) == 1
      && Count(r.trace, WarningKind) + Count(r.trace, ErrorKind) == k
  {
    RunFromStopsAtFirstUsable(retryCount, retryDelay, messages, outcomes, 0, k);
  }

  /** Each failed attempt within the budget is issued with its number, then
      logged with the warning or error its outcome calls for and, unless it was
      the last one, followed by a sleep of `retry_delay` and the next attempt.
      Every attempt before it failed as well, so it sits at position `3 * k`. */
  lemma FailedAttemptIsLoggedThenRetried(retryCount: int, retryDelay: int, messages: seq<Message>, outcomes: seq<Outcome>, k: nat)
    requires k < retryCount <= |outcomes|
    requires forall j :: 0 <= j <= k ==> !Usable(messages, outcomes[j])
    ensures var t := SendRequest(retryCount, retryDelay, messages, outcomes).trace;
      && |t| >= 3 * k + 2
      && t[3 * k] == Attempt(k + 1)
      && t[3 * k + 1] == TryOnce(messages, retryCount, k + 1, outcomes[k]).log
      && (k < retryCount - 1 ==> |t| >= 3 * k + 4 && t[3 * k + 2] == Sleep(retryDelay) && t[3 * k + 3] == Attempt(k + 2))
  {
    RunFromSkipsFailures(retryCount, retryDelay, messages, outcomes, 0, k);
    var t := SendRequest(retryCount, retryDelay, messages, outcomes).trace;
    var tk := RunFrom(retryCount, retryDelay, messages, outcomes, k).trace;
    var rest := RunFrom(retryCount, retryDelay, messages, outcomes, k + 1).trace;
    var log := TryOnce(messages, retryCount, k + 1, outcomes[k]).log;
    assert tk == [Attempt(k + 1), log] + Pause(retryCount, retryDelay, k) + rest;
    assert t[3 * k..] == tk;
    assert tk[0] == t[3 * k] && tk[1] == t[3 * k + 1];
    if k < retryCount - 1 {
      RunFromStarts(retryCount, retryDelay, messages, outcomes, k + 1);
      assert tk[2] == t[3 * k + 2] && tk[3] == t[3 * k + 3];
    }
  }

  /** A 200 whose body lacks `choices[0].message.content` is not an answer: the
      attempt is logged as an error right after it is made and, unless it was the
      last one, followed by a sleep and the next attempt. */
  lemma MalformedReplyIsRetried(retryCount: int, retryDelay: int, messages: seq<Message>, outcomes: seq<Outcome>, k: nat, body: Json)
    requires k < retryCount <= |outcomes|
    requires forall j :: 0 <= j < k ==> !Usable(messages, outcomes[j])
    requires |messages| > 0 && outcomes[k] == Responded(200, Some(body)) && !HasReply(body)
    ensures var t := SendRequest(retryCount, retryDelay, messages, outcomes).trace;
      && |t| >= 3 * k + 2
      && t[3 * k] == Attempt(k + 1)
      && t[3 * k + 1] == Error(k + 1, retryCount, NoContent)
      && (k < retryCount - 1 ==> |t| >= 3 * k + 4 && t[3 * k + 2] == Sleep(retryDelay) && t[3 * k + 3] == Attempt(k + 2))
  {
    assert forall j :: 0 <= j <= k ==> !Usable(messages, outcomes[j]);
    FailedAttemptIsLoggedThenRetried(retryCount, retryDelay, messages, outcomes, k);
  }
}
