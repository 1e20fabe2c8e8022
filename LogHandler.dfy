/** `AccumulatingQueueHandler` in gradio_interface.py: every formatted log
    message goes to a FIFO queue, which the interface drains, and to a
    history trimmed to the last `max_logs` messages. */
module LogHandler {

  /** Python's `s[start:]` for any integer `start`: a suffix of `s`, which
      drops the first `start` elements, or keeps the last `-start` when the
      start is negative, clamped at both ends. */
  function SliceFrom<T>(s: seq<T>, start: int): (r: seq<T>)
    ensures |r| <= |s| && r == s[|s| - |r|..]
    ensures start >= 0 ==> |r| == if start <= |s| then |s| - start else 0
    ensures start < 0 ==> |r| == if -start <= |s| then -start else |s|
  {
    if start >= 0 then s[if start <= |s| then start else |s|..]
    else s[if -start <= |s| then |s| + start else 0..]
  }

  /** The history after the trim of `emit`: a history longer than
      `maxLogs` becomes `history[-maxLogs:]`. */
  function Kept(history: seq<string>, maxLogs: int): seq<string> {
    if |history| > maxLogs then SliceFrom(history, -maxLogs) else history
  }

  /** For a positive bound the kept history is the last `maxLogs` messages,
      or all of them when there are fewer. */
  lemma KeptIsSuffix(history: seq<string>, maxLogs: int)
    requires maxLogs >= 1
    ensures var n := if |history| < maxLogs then |history| else maxLogs;
            Kept(history, maxLogs) == history[|history| - n..]
    ensures |Kept(history, maxLogs)| <= maxLogs
  {
  }

  /** A history within the bound is left as it is. */
  lemma KeptWithin(history: seq<string>, maxLogs: int)
    requires |history| <= maxLogs
    ensures Kept(history, maxLogs) == history
  {
  }

  /** `history[-0:]` is the whole history: a bound of 0 keeps everything. */
  lemma KeptZero(history: seq<string>)
    ensures Kept(history, 0) == history
  {
  }

  /** A negative bound `-k` drops the first `k` messages at every emit. */
  lemma KeptNegative(history: seq<string>, k: int)
    requires k >= 1
    ensures Kept(history, -k) == if k <= |history| then history[k..] else []
  {
  }

  /** Trimming after each message keeps the same as trimming once at the
      end, for any bound that is not negative. */
  lemma KeptAppend(history: seq<string>, m: string, maxLogs: int)
    requires maxLogs >= 0
    ensures Kept(Kept(history, maxLogs) + [m], maxLogs) == Kept(history + [m], maxLogs)
  {
    if maxLogs > 0 && |history| > maxLogs {
      var h := history + [m];
      var k := Kept(history, maxLogs);
      assert k == history[|history| - maxLogs..];
      assert (k + [m])[1..] == h[|h| - maxLogs..];
    }
  }

  const DefaultMaxLogs: int := 1000

  class AccumulatingQueueHandler {
    var logQueue: seq<string>
    var accumulatedLogs: seq<string>
    var maxLogs: int
    /** Every message emitted since the handler was made or last cleared. */
    ghost var emitted: seq<string>

    /** The history is the emitted messages as `emit` trims them. */
    ghost predicate Valid()
      reads this
    {
      maxLogs >= 0 ==> accumulatedLogs == Kept(emitted, maxLogs)
    }

    constructor (maxLogs: int)
      ensures this.maxLogs == maxLogs && logQueue == [] && accumulatedLogs == [] && emitted == []
      ensures Valid()
    {
      this.maxLogs := maxLogs;
      logQueue := [];
      accumulatedLogs := [];
      emitted := [];
    }

    /** `AccumulatingQueueHandler()`, with the default bound. */
    constructor Default()
      ensures maxLogs == DefaultMaxLogs && logQueue == [] && accumulatedLogs == [] && emitted == []
      ensures Valid()
    {
      maxLogs := DefaultMaxLogs;
      logQueue := [];
      accumulatedLogs := [];
      emitted := [];
    }

    /** `emit`, for the already formatted message `msg`: it joins the end
        of the queue and of the history, which is then trimmed. */
    method Emit(msg: string)
      requires Valid()
      modifies this
      ensures logQueue == old(logQueue) + [msg]
      ensures accumulatedLogs == Kept(old(accumulatedLogs) + [msg], maxLogs)
      ensures maxLogs == old(maxLogs) && emitted == old(emitted) + [msg]
      ensures Valid()
    {
      logQueue := logQueue + [msg];
      accumulatedLogs := accumulatedLogs + [msg];
      if |accumulatedLogs| > maxLogs {
        accumulatedLogs := SliceFrom(accumulatedLogs, -maxLogs);
      }
      emitted := emitted + [msg];
      if maxLogs >= 0 {
        KeptAppend(old(emitted), msg, maxLogs);
      }
    }

    /** `get_logs`: every queued message, oldest first; the queue is left
        empty and the history untouched. */
    method GetLogs() returns (logs: seq<string>)
      requires Valid()
      modifies this
      ensures logs == old(logQueue) && logQueue == []
      ensures accumulatedLogs == old(accumulatedLogs) && maxLogs == old(maxLogs) && emitted == old(emitted)
      ensures Valid()
    {
      logs := [];
      while logQueue != []
        invariant logs + logQueue == old(logQueue)
        invariant accumulatedLogs == old(accumulatedLogs) && maxLogs == old(maxLogs) && emitted == old(emitted)
        decreases |logQueue|
      {
        assert logs + [logQueue[0]] + logQueue[1..] == logs + logQueue;
        logs := logs + [logQueue[0]];
        logQueue := logQueue[1..];
      }
      assert logs + [] == logs;
    }

    /** `clear_logs`: both the queue and the history are emptied. */
    method ClearLogs()
      requires Valid()
      modifies this
      ensures logQueue == [] && accumulatedLogs == [] && emitted == []
      ensures maxLogs == old(maxLogs)
      ensures Valid()
    {
      while logQueue != []
        invariant maxLogs == old(maxLogs)
        decreases |logQueue|
      {
        logQueue := logQueue[1..];
      }
      accumulatedLogs := [];
      emitted := [];
    }
  }

  /** The history after a sequence of emits from an empty handler is
      `Kept` of everything emitted. */
  lemma {:induction false} HistoryOfEmits(ms: seq<string>, maxLogs: int)
    requires maxLogs >= 0
    ensures Replay([], ms, maxLogs) == Kept(ms, maxLogs)
  {
    ReplayKept([], ms, maxLogs);
    assert [] + ms == ms;
    assert Kept([], maxLogs) == [];
  }

  /** The history `emit` builds message by message. */
  function Replay(history: seq<string>, ms: seq<string>, maxLogs: int): seq<string>
    decreases |ms|
  {
    if ms == [] then history
    else Replay(Kept(history + [ms[0]], maxLogs), ms[1..], maxLogs)
  }

  lemma {:induction false} ReplayKept(start: seq<string>, ms: seq<string>, maxLogs: int)
    requires maxLogs >= 0
    ensures Replay(Kept(start, maxLogs), ms, maxLogs) == Kept(start + ms, maxLogs)
    decreases |ms|
  {
    if ms == [] {
      assert start + ms == start;
      KeptIdempotent(start, maxLogs);
    } else {
      var next := start + [ms[0]];
      calc {
        Replay(Kept(start, maxLogs), ms, maxLogs);
        Replay(Kept(Kept(start, maxLogs) + [ms[0]], maxLogs), ms[1..], maxLogs);
        { KeptAppend(start, ms[0], maxLogs); }
        Replay(Kept(next, maxLogs), ms[1..], maxLogs);
        { ReplayKept(next, ms[1..], maxLogs); }
        Kept(next + ms[1..], maxLogs);
        { assert next + ms[1..] == start + ms; }
        Kept(start + ms, maxLogs);
      }
    }
  }

  /** Trimming twice is trimming once. */
  lemma KeptIdempotent(history: seq<string>, maxLogs: int)
    requires maxLogs >= 0
    ensures Kept(Kept(history, maxLogs), maxLogs) == Kept(history, maxLogs)
  {
  }
}
