/**
 * The registry request: a promise that handlers of many events compete to settle, under a
 * total deadline, with a cap on the body it will gather.
 */
module RegistryFetch {
  import opened Text

  datatype Event =
    | Response(status: int)
    | Data(chunk: string)
    | End
    | ResponseError
    | Deadline
    | Timeout
    | RequestError
    | Cancel

  /** Waiting for a response; reading a 200's body; or draining any other response. */
  datatype Phase = Waiting | Reading | Draining

  /** The outcome is what the promise resolved to: a body, or None for "could not find out". */
  datatype Fetch = Fetch(
    settled: bool, deadlineArmed: bool, phase: Phase, body: string, bytes: nat, outcome: Option<Option<string>>)

  const MAX_BODY_BYTES := 1000000

  function Utf8Length(s: string): nat {
    if s == "" then 0
    else
      var n := s[0] as int;
      (if n < 0x80 then 1 else if n < 0x800 then 2 else if n < 0x10000 then 3 else 4) + Utf8Length(s[1..])
  }

  /** A character in UTF-8, section 3 of RFC 3629. */
  function Utf8(c: char): seq<int> {
    var n := c as int;
    if n <= 0x7F then [n]
    else if n <= 0x7FF then [0xC0 + n / 64, 0x80 + n % 64]
    else if n <= 0xFFFF then [0xE0 + n / 4096, 0x80 + n / 64 % 64, 0x80 + n % 64]
    else [0xF0 + n / 262144, 0x80 + n / 4096 % 64, 0x80 + n / 64 % 64, 0x80 + n % 64]
  }

  /** The first byte tells how many there are; the rest carry six bits each. */
  function FromUtf8(b: seq<int>): Option<int> {
    if |b| == 1 && b[0] < 0x80 then Some(b[0])
    else if |b| == 2 && 0xC0 <= b[0] < 0xE0 then Some((b[0] - 0xC0) * 64 + (b[1] - 0x80))
    else if |b| == 3 && 0xE0 <= b[0] < 0xF0 then Some((b[0] - 0xE0) * 4096 + (b[1] - 0x80) * 64 + (b[2] - 0x80))
    else if |b| == 4 && 0xF0 <= b[0] < 0xF8 then
      Some((b[0] - 0xF0) * 262144 + (b[1] - 0x80) * 4096 + (b[2] - 0x80) * 64 + (b[3] - 0x80))
    else None
  }

  lemma Utf8ReadsBack(c: char)
    ensures FromUtf8(Utf8(c)) == Some(c as int)
    ensures forall i | 0 < i < |Utf8(c)| :: 0x80 <= Utf8(c)[i] < 0xC0
  {
    var n := c as int;
    assert n / 4096 == n / 64 / 64 && n / 262144 == n / 64 / 64 / 64;
    assert n == 64 * (n / 64) + n % 64;
    assert n / 64 == 64 * (n / 64 / 64) + n / 64 % 64;
  }

  function Encoded(s: string): seq<int> {
    if s == "" then [] else Utf8(s[0]) + Encoded(s[1..])
  }

  /** The bytes counted are those of the encoding. */
  lemma {:induction false} BytesCounted(s: string)
    ensures Utf8Length(s) == |Encoded(s)|
  {
    if s != "" {
      BytesCounted(s[1..]);
    }
  }

  /** A 200 with its whole body in one chunk: kept up to a million bytes, given up past that; any other status is given up. */
  lemma OneChunk(s: string, status: int)
    ensures After(Start(false), [Response(200), Data(s), End]).outcome
         == Some(if |Encoded(s)| <= 1000000 then Some(s) else None)
    ensures status != 200 ==> After(Start(false), [Response(status)]).outcome == Some(None)
  {
    BytesCounted(s);
    var start := Start(false);
    assert [] + [Response(200)] == [Response(200)] && [] + [Response(status)] == [Response(status)];
    assert [Response(200)] + [Data(s)] == [Response(200), Data(s)];
    assert [Response(200), Data(s)] + [End] == [Response(200), Data(s), End];
    AfterOne(start, [], Response(200));
    AfterOne(start, [Response(200)], Data(s));
    AfterOne(start, [Response(200), Data(s)], End);
    AfterOne(start, [], Response(status));
    assert "" + s == s;
  }

  lemma AfterOne(f: Fetch, front: seq<Event>, e: Event)
    ensures After(f, front + [e]) == Step(After(f, front), e)
  {
    assert (front + [e])[..|front + [e]| - 1] == front;
  }

  function Finish(f: Fetch, value: Option<string>): Fetch {
    if f.settled then f else f.(settled := true, deadlineArmed := false, outcome := Some(value))
  }

  /** The request as it is made: either it throws at once, or its deadline is armed. */
  function Start(throws: bool): Fetch {
    var f := Fetch(false, !throws, Waiting, "", 0, None);
    if throws then Finish(f, None) else f
  }

  function Step(f: Fetch, e: Event): Fetch {
    match e
    case Response(status) =>
      if !f.phase.Waiting? then f
      else if status != 200 then Finish(f.(phase := Draining), None)
      else f.(phase := Reading)
    case Data(chunk) =>
      if !f.phase.Reading? then f
      else
        var g := f.(body := f.body + chunk, bytes := f.bytes + Utf8Length(chunk));
        if g.bytes > MAX_BODY_BYTES then Finish(g, None) else g
    case End => if f.phase.Reading? then Finish(f, Some(f.body)) else f
    case ResponseError => if f.phase.Reading? then Finish(f, None) else f
    case Deadline => if f.deadlineArmed then Finish(f, None) else f
    case Timeout => Finish(f, None)
    case RequestError => Finish(f, None)
    case Cancel => Finish(f, None)
  }

  /** The state after the events, the last one last. */
  function After(f: Fetch, events: seq<Event>): Fetch {
    if events == [] then f else Step(After(f, events[..|events| - 1]), events[|events| - 1])
  }

  // ---------- The handlers ----------

  class Request {
    var settled: bool
    var deadlineArmed: bool
    var phase: Phase
    var body: string
    var bytes: nat
    var outcome: Option<Option<string>>

    function View(): Fetch
      reads this
    {
      Fetch(settled, deadlineArmed, phase, body, bytes, outcome)
    }

    constructor (throws: bool)
      ensures View() == Start(throws)
    {
      settled, deadlineArmed, phase, body, bytes, outcome := false, !throws, Waiting, "", 0, None;
      new;
      if throws {
        Settle(None);
      }
    }

    method Settle(value: Option<string>)
      modifies this
      ensures View() == Finish(old(View()), value)
    {
      if settled {
        return;
      }
      settled := true;
      deadlineArmed := false;
      outcome := Some(value);
    }

    method OnResponse(status: int)
      modifies this
      ensures View() == Step(old(View()), Response(status))
    {
      if phase.Waiting? {
        if status != 200 {
          phase := Draining;
          Settle(None);
          return;
        }
        phase := Reading;
      }
    }

    method OnData(chunk: string)
      modifies this
      ensures View() == Step(old(View()), Data(chunk))
    {
      if phase.Reading? {
        body := body + chunk;
        bytes := bytes + Utf8Length(chunk);
        if bytes > MAX_BODY_BYTES {
          Settle(None);
        }
      }
    }

    method OnEnd()
      modifies this
      ensures View() == Step(old(View()), End)
    {
      if phase.Reading? {
        Settle(Some(body));
      }
    }

    method OnResponseError()
      modifies this
      ensures View() == Step(old(View()), ResponseError)
    {
      if phase.Reading? {
        Settle(None);
      }
    }

    method OnDeadline()
      modifies this
      ensures View() == Step(old(View()), Deadline)
    {
      if deadlineArmed {
        Settle(None);
      }
    }

    method GiveUp(why: Event)
      requires why.Timeout? || why.RequestError? || why.Cancel?
      modifies this
      ensures View() == Step(old(View()), why)
    {
      Settle(None);
    }
  }

  // ---------- Reference: what the history of events amounts to ----------

  /** The status of the first response, if one has come. */
  function FirstStatus(events: seq<Event>): Option<int> {
    if events == [] then None
    else if events[0].Response? then Some(events[0].status)
    else FirstStatus(events[1..])
  }

  /** The chunks that came after the first response. */
  function Chunks(events: seq<Event>): seq<string> {
    if events == [] then []
    else
      var last, front := events[|events| - 1], events[..|events| - 1];
      if last.Data? && FirstStatus(front).Some? then Chunks(front) + [last.chunk] else Chunks(front)
  }

  function Joined(chunks: seq<string>): string {
    if chunks == [] then "" else Joined(chunks[..|chunks| - 1]) + chunks[|chunks| - 1]
  }

  function Total(chunks: seq<string>): nat {
    if chunks == [] then 0 else Total(chunks[..|chunks| - 1]) + Utf8Length(chunks[|chunks| - 1])
  }

  /** What an event settles the promise to, if it is one that can, after the events before it. */
  function Verdict(before: seq<Event>, e: Event): Option<Option<string>> {
    match e
    case Response(status) => if FirstStatus(before).None? && status != 200 then Some(None) else None
    case Data(chunk) =>
      if FirstStatus(before) == Some(200) && Total(Chunks(before)) + Utf8Length(chunk) > MAX_BODY_BYTES
      then Some(None) else None
    case End => if FirstStatus(before) == Some(200) then Some(Some(Joined(Chunks(before)))) else None
    case ResponseError => if FirstStatus(before) == Some(200) then Some(None) else None
    case _ => Some(None)
  }

  /** The verdict of the first event that has one. */
  function FirstVerdict(events: seq<Event>): Option<Option<string>> {
    if events == [] then None
    else
      var front := events[..|events| - 1];
      if FirstVerdict(front).Some? then FirstVerdict(front) else Verdict(front, events[|events| - 1])
  }

  lemma {:induction false} FirstStatusAppend(front: seq<Event>, last: Event)
    ensures FirstStatus(front + [last])
         == if FirstStatus(front).Some? then FirstStatus(front)
            else if last.Response? then Some(last.status) else None
  {
    if front == [] {
      assert front + [last] == [last];
    } else {
      assert (front + [last])[1..] == front[1..] + [last];
      FirstStatusAppend(front[1..], last);
    }
  }

  /** What the state knows of the history: exactly the phase, and the chunks once reading. */
  predicate Remembers(f: Fetch, events: seq<Event>) {
    && (match FirstStatus(events)
        case None => f.phase.Waiting?
        case Some(status) => f.phase == if status == 200 then Reading else Draining)
    && (f.phase.Reading? ==> f.body == Joined(Chunks(events)) && f.bytes == Total(Chunks(events)))
    && (!f.phase.Reading? ==> f.body == "" && f.bytes == 0)
  }

  lemma {:induction false} NoChunksYet(events: seq<Event>)
    requires FirstStatus(events).None?
    ensures Chunks(events) == []
  {
    if events != [] {
      var front := events[..|events| - 1];
      assert events == front + [events[|events| - 1]];
      FirstStatusAppend(front, events[|events| - 1]);
      NoChunksYet(front);
    }
  }

  lemma StepRemembers(f: Fetch, front: seq<Event>, e: Event)
    requires Remembers(f, front)
    ensures Remembers(Step(f, e), front + [e])
  {
    var events := front + [e];
    FirstStatusAppend(front, e);
    assert events[..|front|] == front;
    if FirstStatus(front).None? {
      NoChunksYet(front);
    }
    if e.Data? && FirstStatus(front).Some? {
      var chunks := Chunks(front) + [e.chunk];
      assert chunks[..|chunks| - 1] == Chunks(front);
    }
  }

  lemma {:induction false} AfterRemembers(events: seq<Event>)
    ensures Remembers(After(Start(false), events), events)
  {
    if events != [] {
      var front, e := events[..|events| - 1], events[|events| - 1];
      AfterRemembers(front);
      StepRemembers(After(Start(false), front), front, e);
      assert front + [e] == events;
    }
  }

  /** Settled exactly when the promise has resolved; unsettled exactly when the deadline is armed. */
  lemma {:induction false} ArmedUntilSettled(throws: bool, events: seq<Event>)
    ensures var f := After(Start(throws), events);
            (f.settled <==> f.outcome.Some?) && (f.settled <==> !f.deadlineArmed)
  {
    if events != [] {
      ArmedUntilSettled(throws, events[..|events| - 1]);
    }
  }

  /**
   * In any order of events, the promise resolves to the verdict of the first event that has
   * one, and to nothing while none has.
   */
  lemma {:induction false} SettlesWithFirstVerdict(events: seq<Event>)
    ensures After(Start(false), events).outcome == FirstVerdict(events)
  {
    if events != [] {
      var front, e := events[..|events| - 1], events[|events| - 1];
      SettlesWithFirstVerdict(front);
      AfterRemembers(front);
      ArmedUntilSettled(false, front);
    }
  }

  /** Once resolved, whatever comes after changes nothing; also when the request threw at once. */
  lemma {:induction false} SettlesOnce(throws: bool, events: seq<Event>, more: seq<Event>)
    requires After(Start(throws), events).outcome.Some?
    ensures After(Start(throws), events + more).outcome == After(Start(throws), events).outcome
    decreases |more|
  {
    if more == [] {
      assert events + more == events;
    } else {
      var front := more[..|more| - 1];
      assert (events + more)[..|events + more| - 1] == events + front;
      SettlesOnce(throws, events, front);
      ArmedUntilSettled(throws, events + front);
    }
  }

  /** Any run in which the deadline has come has settled. */
  lemma {:induction false} NeverHangs(throws: bool, events: seq<Event>)
    requires Deadline in events
    ensures After(Start(throws), events).outcome.Some?
  {
    var front, e := events[..|events| - 1], events[|events| - 1];
    assert events == front + [e];
    ArmedUntilSettled(throws, front);
    ArmedUntilSettled(throws, events);
    if e != Deadline {
      NeverHangs(throws, front);
    }
  }

  /** A body is only ever a 200's, whole up to its end event, and within the cap. */
  lemma {:induction false} BodyIsWholeAndCapped(events: seq<Event>, body: string) returns (k: nat)
    requires FirstVerdict(events) == Some(Some(body))
    ensures k < |events| && events[k].End? && FirstStatus(events[..k]) == Some(200)
    ensures body == Joined(Chunks(events[..k])) && Total(Chunks(events[..k])) <= MAX_BODY_BYTES
  {
    var front := events[..|events| - 1];
    if FirstVerdict(front).Some? {
      k := BodyIsWholeAndCapped(front, body);
      assert front[..k] == events[..k];
    } else {
      k := |front|;
      CappedSoFar(front);
    }
  }

  lemma {:induction false} CappedSoFar(events: seq<Event>)
    requires FirstVerdict(events).None?
    ensures Total(Chunks(events)) <= MAX_BODY_BYTES
  {
    if events != [] {
      var front, e := events[..|events| - 1], events[|events| - 1];
      CappedSoFar(front);
      assert Verdict(front, e).None?;
      StatusSoFar(front);
      if e.Data? && FirstStatus(front).Some? {
        var chunks := Chunks(front) + [e.chunk];
        assert chunks[..|chunks| - 1] == Chunks(front);
      }
    }
  }

  lemma {:induction false} StatusSoFar(events: seq<Event>)
    requires FirstVerdict(events).None?
    ensures FirstStatus(events).None? || FirstStatus(events) == Some(200)
  {
    if events != [] {
      var front, e := events[..|events| - 1], events[|events| - 1];
      assert events == front + [e];
      FirstStatusAppend(front, e);
      StatusSoFar(front);
    }
  }
}
