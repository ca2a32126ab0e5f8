/** The write queue of a server session. Writers and completions of socket writes interleave on a strand; each runs
    to its next suspension undisturbed, so a run is any sequence of these two kinds of event. */
module WriteQueue {

  type Message = string

  /** The queue, the socket writes outstanding, and, for the record, what was enqueued, what was popped, and whether
      a failed write left messages behind. */
  datatype Queue = Queue(queue: seq<Message>, outstanding: seq<Message>,
                         enqueued: seq<Message>, popped: seq<Message>, stranded: bool)

  /** A call of `write`, or the completion of an outstanding socket write, with or without an error. */
  datatype Event = Write(message: Message) | Done(which: nat, error: bool)

  const IDLE := Queue([], [], [], [], false)

  function OnWrite(q: Queue, message: Message): Queue {
    var queue := q.queue + [message];
    q.(queue := queue, enqueued := q.enqueued + [message],
       outstanding := if |queue| != 1 then q.outstanding else q.outstanding + [queue[0]])
  }

  function OnDone(q: Queue, which: nat, error: bool): Queue
    requires which < |q.outstanding|
  {
    var others := q.outstanding[..which] + q.outstanding[which + 1..];
    if q.queue == [] then q.(outstanding := others)
    else
      var rest := q.queue[1..];
      q.(queue := rest, popped := q.popped + [q.queue[0]],
         outstanding := if error || rest == [] then others else others + [rest[0]],
         stranded := q.stranded || (error && rest != []))
  }

  /** A completion of a write that is not outstanding does not happen. */
  function Step(q: Queue, e: Event): Queue {
    match e
    case Write(message) => OnWrite(q, message)
    case Done(which, error) => if which < |q.outstanding| then OnDone(q, which, error) else q
  }

  function Run(q: Queue, events: seq<Event>): Queue
    decreases |events|
  {
    if events == [] then q else Step(Run(q, events[..|events| - 1]), events[|events| - 1])
  }

  /** At most one write is outstanding, and it is of the front; nothing enqueued is lost, doubled or reordered;
      messages wait without a drainer exactly when a failed write left some behind. */
  ghost predicate Valid(q: Queue) {
    && |q.outstanding| <= 1
    && (q.outstanding != [] ==> q.queue != [] && q.outstanding[0] == q.queue[0])
    && q.enqueued == q.popped + q.queue
    && (q.queue != [] && q.outstanding == [] <==> q.stranded)
  }

  lemma StepKeepsValid(q: Queue, e: Event)
    requires Valid(q)
    ensures Valid(Step(q, e))
  {
    match e
    case Write(message) =>
      assert q.popped + (q.queue + [message]) == q.popped + q.queue + [message];
    case Done(which, error) =>
      if which < |q.outstanding| {
        assert q.outstanding[..which] + q.outstanding[which + 1..] == [];
        assert q.popped + q.queue == q.popped + [q.queue[0]] + q.queue[1..];
      }
  }

  /** Over every interleaving of writers and completions. */
  lemma {:induction false} EveryRunValid(events: seq<Event>)
    ensures Valid(Run(IDLE, events))
    decreases |events|
  {
    if events != [] {
      EveryRunValid(events[..|events| - 1]);
      StepKeepsValid(Run(IDLE, events[..|events| - 1]), events[|events| - 1]);
    }
  }

  /** The messages of the `write` calls, in order. */
  function Written(events: seq<Event>): seq<Message>
    decreases |events|
  {
    if events == [] then []
    else
      var before := Written(events[..|events| - 1]);
      match events[|events| - 1] case Write(message) => before + [message] case Done(_, _) => before
  }

  /** First in, first out: what was put on the socket is a prefix of what was written, and the queue is the rest. */
  lemma {:induction false} FirstInFirstOut(events: seq<Event>)
    ensures var q := Run(IDLE, events); q.popped + q.queue == Written(events)
    decreases |events|
  {
    EveryRunValid(events);
    if events != [] {
      FirstInFirstOut(events[..|events| - 1]);
      EveryRunValid(events[..|events| - 1]);
    }
  }

  ghost predicate ErrorFree(events: seq<Event>) {
    forall i :: 0 <= i < |events| && events[i].Done? ==> !events[i].error
  }

  /** No lost wakeup: without errors the queue is non-empty exactly while one drainer holds its front. */
  lemma {:induction false} NothingStranded(events: seq<Event>)
    requires ErrorFree(events)
    ensures var q := Run(IDLE, events); !q.stranded && (q.queue != [] <==> |q.outstanding| == 1)
    decreases |events|
  {
    EveryRunValid(events);
    if events != [] {
      assert forall i :: 0 <= i < |events| - 1 ==> events[..|events| - 1][i] == events[i];
      NothingStranded(events[..|events| - 1]);
    }
  }

  /** A drainer left alone empties the queue, in order, in one completion a message. */
  lemma {:induction false} DrainerEmptiesQueue(q: Queue)
    requires Valid(q) && q.outstanding != []
    ensures var end := Run(q, seq(|q.queue|, _ => Done(0, false)));
      end.queue == [] && end.outstanding == [] && end.popped == q.popped + q.queue
    decreases |q.queue|
  {
    var next := OnDone(q, 0, false);
    StepKeepsValid(q, Done(0, false));
    RunFromFirst(q, seq(|q.queue|, _ => Done(0, false)));
    assert seq(|q.queue|, _ => Done(0, false))[1..] == seq(|next.queue|, _ => Done(0, false));
    if next.queue != [] {
      DrainerEmptiesQueue(next);
      assert q.popped + q.queue == next.popped + next.queue;
    } else {
      assert q.queue == [q.queue[0]];
    }
  }

  lemma {:induction false} RunFromFirst(q: Queue, events: seq<Event>)
    requires events != []
    ensures Run(q, events) == Run(Step(q, events[0]), events[1..])
    decreases |events|
  {
    if |events| > 1 {
      RunFromFirst(q, events[..|events| - 1]);
      assert events[..|events| - 1][1..] == events[1..][..|events| - 2];
    }
  }

  /** A drainer that fails gives up. Whether a later write finds a drainer depends on one thing: that its queue was
      empty after the failed write was popped. */
  lemma FailureStrandsExactly(q: Queue, message: Message)
    requires Valid(q) && q.outstanding != []
    ensures var failed := OnDone(q, 0, true);
      OnWrite(failed, message).outstanding == [message] <==> |q.queue| == 1
  {
    StepKeepsValid(q, Done(0, true));
    var failed := OnDone(q, 0, true);
    if |q.queue| == 1 {
      assert OnWrite(failed, message).queue == [message];
    }
  }

  /** At event `k` a socket write fails while more messages than its own are queued. */
  predicate FailsEarly(events: seq<Event>, k: nat)
    requires k < |events|
  {
    var q := Run(IDLE, events[..k]);
    events[k].Done? && events[k].error && events[k].which < |q.outstanding| && |q.queue| > 1
  }

  /** A run is stranded if and only if some write of it failed with others queued behind. */
  lemma {:induction false} StrandedExactly(events: seq<Event>)
    ensures Run(IDLE, events).stranded <==> exists k :: 0 <= k < |events| && FailsEarly(events, k)
    decreases |events|
  {
    if events != [] {
      var n := |events| - 1;
      EveryRunValid(events[..n]);
      StrandedExactly(events[..n]);
      forall k | 0 <= k < n
        ensures FailsEarly(events, k) == FailsEarly(events[..n], k)
      {
        assert events[..n][..k] == events[..k];
      }
      assert Run(IDLE, events).stranded <==> Run(IDLE, events[..n]).stranded || FailsEarly(events, n);
    }
  }

  /** Once stranded, nothing is ever sent again, whatever is written. */
  lemma {:induction false} StrandedForGood(q: Queue, events: seq<Event>)
    requires Valid(q) && q.stranded
    ensures var end := Run(q, events); end.outstanding == [] && end.popped == q.popped && Valid(end) && end.stranded
    decreases |events|
  {
    if events != [] {
      StrandedForGood(q, events[..|events| - 1]);
      StepKeepsValid(Run(q, events[..|events| - 1]), events[|events| - 1]);
    }
  }

  /** The session's fields and the two segments of its write coroutine. */
  class ServerSession {
    var writeQueue: seq<Message>
    var outstanding: seq<Message>
    ghost var enqueued: seq<Message>
    ghost var popped: seq<Message>
    ghost var stranded: bool

    ghost function View(): Queue
      reads this
    {
      Queue(writeQueue, outstanding, enqueued, popped, stranded)
    }

    constructor ()
      ensures View() == IDLE
    {
      writeQueue, outstanding, enqueued, popped, stranded := [], [], [], [], false;
    }

    /** Enqueue; only the writer that finds the queue empty becomes the drainer and starts a socket write. */
    method Write(message: Message)
      modifies this
      ensures View() == OnWrite(old(View()), message)
    {
      writeQueue := writeQueue + [message];
      enqueued := enqueued + [message];
      if |writeQueue| != 1 {
        return;
      }
      outstanding := outstanding + [writeQueue[0]];
    }

    /** The drainer resumes: pop, give up on an error or an empty queue, else write the next front. */
    method Complete(error: bool)
      requires Valid(View()) && outstanding != []
      modifies this
      ensures Valid(View()) && View() == OnDone(old(View()), 0, error)
    {
      StepKeepsValid(View(), Done(0, error));
      outstanding := [];
      popped := popped + [writeQueue[0]];
      writeQueue := writeQueue[1..];
      if error {
        stranded := stranded || writeQueue != [];
        return;
      }
      if writeQueue == [] {
        return;
      }
      outstanding := [writeQueue[0]];
    }
  }
}
