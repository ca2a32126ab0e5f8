/** The request gate of the server and the cooldown that the client computes for itself. */
module Gate {

  /** The times a server session keeps. A request reaches `Dispatch` at `now` on the server's clock; `delay` is what
      its handler adds, 0 unless it is a fight. */
  class ServerTimes {
    var currentTime: int
    var earliestTime: int

    constructor (epoch: int)
      ensures currentTime == earliestTime == epoch
    {
      currentTime, earliestTime := epoch, epoch;
    }

    method Dispatch(now: int, delay: int) returns (accepted: bool)
      modifies this
      ensures accepted <==> Admits(old(earliestTime), now)
      ensures currentTime == now && earliestTime == GateAfter(old(earliestTime), now, delay)
      ensures accepted <==> old(earliestTime) <= now
      ensures earliestTime == if accepted then now + delay else old(earliestTime)
    {
      currentTime := now;
      if currentTime < earliestTime {
        return false;
      }
      earliestTime := currentTime;
      earliestTime := earliestTime + delay;
      return true;
    }
  }

  predicate Admits(earliest: int, now: int) { earliest <= now }

  function GateAfter(earliest: int, now: int, delay: int): int {
    if Admits(earliest, now) then now + delay else earliest
  }

  /** Requests as they reach the server: their times, and the delays their handlers would add. */
  function GateRun(earliest: int, requests: seq<(int, int)>): int {
    if requests == [] then earliest
    else
      var last := requests[|requests| - 1];
      GateAfter(GateRun(earliest, requests[..|requests| - 1]), last.0, last.1)
  }

  predicate AcceptedAt(earliest: int, requests: seq<(int, int)>, k: nat)
    requires k < |requests|
  {
    Admits(GateRun(earliest, requests[..k]), requests[k].0)
  }

  lemma {:induction false} RejectionsChangeNothing(earliest: int, requests: seq<(int, int)>, j: nat, k: nat)
    requires j < k <= |requests| && AcceptedAt(earliest, requests, j)
    requires forall i :: j < i < k ==> !AcceptedAt(earliest, requests, i)
    ensures GateRun(earliest, requests[..k]) == requests[j].0 + requests[j].1
  {
    assert requests[..k][..k - 1] == requests[..k - 1];
    if j + 1 < k {
      assert !AcceptedAt(earliest, requests, k - 1);
      RejectionsChangeNothing(earliest, requests, j, k - 1);
    }
  }

  /** However requests arrive, an accepted one is followed by the next accepted one no sooner than its delay. */
  lemma AcceptedSpaced(earliest: int, requests: seq<(int, int)>, j: nat, k: nat)
    requires j < k < |requests| && AcceptedAt(earliest, requests, j) && AcceptedAt(earliest, requests, k)
    requires forall i :: j < i < k ==> !AcceptedAt(earliest, requests, i)
    ensures requests[j].0 + requests[j].1 <= requests[k].0
  {
    RejectionsChangeNothing(earliest, requests, j, k);
  }

  // ---------- The client ----------

  /** The times a client session keeps, and whether its last line was a command it could parse. */
  class ClientTimes {
    var currentTime: int
    var earliestTime: int
    var handled: bool

    constructor (epoch: int)
      ensures currentTime == earliestTime == epoch && !handled
    {
      currentTime, earliestTime, handled := epoch, epoch, false;
    }

    /** `handle_cmd`, as far as the waiting goes. */
    method HandleCmd(parsed: bool)
      modifies this`handled
      ensures handled == parsed
    {
      handled := true;
      if !parsed {
        handled := false;
      }
    }

    /** `process_response`: a fight's handler adds the delay it computed from its own replay. */
    method ProcessResponse(now: int, delay: int)
      modifies this`currentTime, this`earliestTime
      ensures currentTime == now && earliestTime == now + delay
    {
      currentTime := now;
      earliestTime := currentTime;
      earliestTime := earliestTime + delay;
    }

    /** How long the command loop sleeps before it handles a line: not at all after a line it could not parse, or
        when the last response added nothing. */
    method Sleep(now: int) returns (wait: nat)
      ensures wait == WaitFor(handled, currentTime, earliestTime, now)
      ensures !handled || earliestTime == currentTime || earliestTime <= now ==> wait == 0
      ensures handled && earliestTime != currentTime && now < earliestTime ==> now + wait == earliestTime
    {
      if !handled {
        return 0;
      }
      if earliestTime == currentTime {
        return 0;
      }
      return if earliestTime > now then earliestTime - now else 0;
    }
  }

  function WaitFor(handled: bool, current: int, earliest: int, now: int): nat {
    if handled && earliest != current && earliest > now then earliest - now else 0
  }

  /** What becomes of a line: it cannot be parsed; its request never leaves, because it fails the client's own
      validation or cannot be written; or the request travels, is dispatched and comes back. Each end's handler
      computes its own delay. Without an answer but an error, no handler has added one. */
  datatype Fate =
    | Unparsed
    | Invalid
    | Sent(toServer: nat, toClient: nat, serverDelay: int, clientDelay: int, answered: bool)

  /** A line, read at `typed` on the client's clock. */
  datatype Line = Line(typed: int, fate: Fate)

  /** Both ends between lines; the server's clock is ahead of the client's by `skew`. */
  datatype Ends = Ends(serverEarliest: int, clientCurrent: int, clientEarliest: int, handled: bool, now: int)

  function HandledAt(ends: Ends, line: Line): int {
    line.typed + WaitFor(ends.handled, ends.clientCurrent, ends.clientEarliest, line.typed)
  }

  /** A request that is sent gets past the server's gate. */
  predicate LineAdmitted(ends: Ends, line: Line, skew: int) {
    line.fate.Sent? ==> Admits(ends.serverEarliest, HandledAt(ends, line) + line.fate.toServer + skew)
  }

  function AfterLine(ends: Ends, line: Line, skew: int): Ends {
    var at := HandledAt(ends, line);
    match line.fate
    case Unparsed => ends.(handled := false, now := at)
    case Invalid => ends.(handled := true, now := at)
    case Sent(toServer, toClient, serverDelay, clientDelay, answered) =>
      var arrival, back := at + toServer, at + toServer + toClient;
      if LineAdmitted(ends, line, skew) && answered then
        Ends(GateAfter(ends.serverEarliest, arrival + skew, serverDelay), back, back + clientDelay, true, back)
      else
        Ends(GateAfter(ends.serverEarliest, arrival + skew, 0), ends.clientCurrent, ends.clientEarliest, true, back)
  }

  /** A line takes the wait before it and, if it is sent, both ways; its answer resets the client's times and adds the
      client's delay, and the server adds its own to the time of arrival. */
  lemma LineTakes(ends: Ends, line: Line, skew: int)
    ensures var after, wait := AfterLine(ends, line, skew), HandledAt(ends, line) - line.typed;
      && wait >= 0 && (wait > 0 ==> ends.handled && line.typed + wait == ends.clientEarliest)
      && (ends.handled && ends.clientEarliest != ends.clientCurrent ==> line.typed + wait >= ends.clientEarliest)
      && after.now == line.typed + wait + (if line.fate.Sent? then line.fate.toServer + line.fate.toClient else 0)
      && (after.handled <==> !line.fate.Unparsed?)
      && (!line.fate.Sent? ==> after.serverEarliest == ends.serverEarliest)
      && (line.fate.Sent? ==>
            var arrival := line.typed + wait + line.fate.toServer + skew;
            && (arrival < ends.serverEarliest ==> after.serverEarliest == ends.serverEarliest)
            && (ends.serverEarliest <= arrival ==>
                  after.serverEarliest == arrival + if line.fate.answered then line.fate.serverDelay else 0)
            && (ends.serverEarliest <= arrival && line.fate.answered ==>
                  after.clientCurrent == after.now && after.clientEarliest == after.now + line.fate.clientDelay))
      && (!(line.fate.Sent? && line.fate.answered && LineAdmitted(ends, line, skew)) ==>
            after.clientCurrent == ends.clientCurrent && after.clientEarliest == ends.clientEarliest)
  {
  }

  /** The server never expects the client later than the client means to come. */
  ghost predicate InStep(ends: Ends, skew: int) {
    && ends.clientCurrent <= ends.now
    && (ends.serverEarliest <= ends.now + skew
        || (ends.handled && ends.serverEarliest <= ends.clientEarliest + skew))
  }

  /** The client adds no less than the server. */
  predicate DelayCovered(line: Line) {
    line.fate.Sent? && line.fate.answered ==> line.fate.serverDelay <= line.fate.clientDelay
  }

  lemma LineKeepsStep(ends: Ends, line: Line, skew: int)
    requires InStep(ends, skew) && ends.now <= line.typed && DelayCovered(line)
    ensures LineAdmitted(ends, line, skew) && InStep(AfterLine(ends, line, skew), skew)
    ensures line.fate.Sent? ==> ends.serverEarliest <= HandledAt(ends, line) + line.fate.toServer + skew
  {
  }

  /** A client that waits out its own cooldown is never turned away: every request it sends is admitted, whatever
      else is typed in between. */
  lemma {:induction false} PoliteClientAdmitted(ends: Ends, lines: seq<Line>, skew: int)
    requires InStep(ends, skew) && Sequential(ends, lines, skew)
    requires forall i :: 0 <= i < |lines| ==> DelayCovered(lines[i])
    ensures AllAdmitted(ends, lines, skew)
    decreases |lines|
  {
    if lines != [] {
      LineKeepsStep(ends, lines[0], skew);
      PoliteClientAdmitted(AfterLine(ends, lines[0], skew), lines[1..], skew);
    }
  }

  /** A line is read only after the one before it was dealt with. */
  ghost predicate Sequential(ends: Ends, lines: seq<Line>, skew: int)
    decreases |lines|
  {
    lines == [] ||
    (ends.now <= lines[0].typed && Sequential(AfterLine(ends, lines[0], skew), lines[1..], skew))
  }

  ghost predicate AllAdmitted(ends: Ends, lines: seq<Line>, skew: int)
    decreases |lines|
  {
    lines == [] ||
    (LineAdmitted(ends, lines[0], skew) && AllAdmitted(AfterLine(ends, lines[0], skew), lines[1..], skew))
  }
}
