/** The reliable sender's connection: messages are retransmitted until acknowledged or
    cancelled, in submission order. */
module Connection {

  import opened Quorums

  type Message = nat

  /** `ms` without the members of `gone`. */
  function Without(ms: seq<Message>, gone: set<Message>): (r: seq<Message>)
    ensures forall m :: m in r <==> m in ms && m !in gone
  {
    if ms == [] then []
    else
      var front := Without(ms[..|ms| - 1], gone);
      assert ms == ms[..|ms| - 1] + [ms[|ms| - 1]];
      if ms[|ms| - 1] in gone then front else front + [ms[|ms| - 1]]
  }

  lemma WithoutAppend(ms: seq<Message>, m: Message, gone: set<Message>)
    requires m !in gone
    ensures Without(ms + [m], gone) == Without(ms, gone) + [m]
  {
    assert (ms + [m])[..|ms|] == ms;
  }

  /** Removing in two steps is removing at once. */
  lemma {:induction false} WithoutTwice(ms: seq<Message>, gone: set<Message>, more: set<Message>)
    ensures Without(ms, gone + more) == Without(Without(ms, gone), more)
  {
    if ms != [] {
      var front, m := ms[..|ms| - 1], ms[|ms| - 1];
      WithoutTwice(front, gone, more);
      if m !in gone {
        var t := Without(front, gone);
        assert (t + [m])[..|t|] == t;
      }
    }
  }

  lemma {:induction false} WithoutNone(ms: seq<Message>, gone: set<Message>)
    requires forall m :: m in ms ==> m !in gone
    ensures Without(ms, gone) == ms
  {
    if ms != [] {
      var front := ms[..|ms| - 1];
      assert ms == front + [ms[|ms| - 1]];
      WithoutNone(front, gone);
    }
  }

  lemma {:induction false} WithoutConcat(xs: seq<Message>, ys: seq<Message>, gone: set<Message>)
    ensures Without(xs + ys, gone) == Without(xs, gone) + Without(ys, gone)
  {
    if ys == [] {
      assert xs + ys == xs;
    } else {
      var front, m := ys[..|ys| - 1], ys[|ys| - 1];
      WithoutConcat(xs, front, gone);
      assert (xs + ys)[..|xs + ys| - 1] == xs + front;
    }
  }

  /** Dropping one element of a distinct sequence. */
  lemma WithoutOne(xs: seq<Message>, m: Message, ys: seq<Message>)
    requires Distinct(xs + [m] + ys)
    ensures Without(xs + [m] + ys, {m}) == xs + ys
  {
    var all := xs + [m] + ys;
    assert all[|xs|] == m;
    forall i | 0 <= i < |xs| ensures xs[i] != m { assert all[i] == xs[i]; }
    forall i | 0 <= i < |ys| ensures ys[i] != m { assert all[|xs| + 1 + i] == ys[i]; }
    WithoutConcat(xs + [m], ys, {m});
    WithoutConcat(xs, [m], {m});
    WithoutNone(xs, {m});
    WithoutNone(ys, {m});
  }

  lemma {:induction false} WithoutDistinct(ms: seq<Message>, gone: set<Message>)
    requires Distinct(ms)
    ensures Distinct(Without(ms, gone))
  {
    if ms != [] {
      var front, m := ms[..|ms| - 1], ms[|ms| - 1];
      WithoutDistinct(front, gone);
      forall i | 0 <= i < |front| ensures front[i] != m { assert ms[i] != ms[|ms| - 1]; }
    }
  }

  /** The connection at one moment: what it holds, whether it is up, what has been cancelled,
      submitted and acknowledged. */
  datatype Link = Link(buffer: seq<Message>, pending: seq<Message>, connected: bool, cancelled: set<Message>,
                       submitted: seq<Message>, acked: set<Message>)

  datatype Step = Submission | Cancellation(m: Message) | Connected | Transmit(writes: nat) | Ack | Failure

  /** Transmitting from the front of the buffer: cancelled messages are skipped, and the first write
      after `writes` successful ones fails and leaves its message in place. */
  function Transmitted(l: Link, writes: nat): Link
    decreases |l.buffer|
  {
    if l.buffer == [] then l
    else if l.buffer[0] in l.cancelled then Transmitted(l.(buffer := l.buffer[1..]), writes)
    else if writes == 0 then l
    else Transmitted(l.(buffer := l.buffer[1..], pending := l.pending + [l.buffer[0]]), writes - 1)
  }

  /** Unacknowledged messages go back in front. */
  function Failed(l: Link): Link { l.(buffer := l.pending + l.buffer, pending := [], connected := false) }

  /** One step.  The `n`-th submission carries the message `n`. */
  function After(l: Link, step: Step): Link {
    match step
    case Submission =>
      var m := |l.submitted|;
      l.(submitted := l.submitted + [m],
         buffer := if l.connected then l.buffer + [m] else Without(l.buffer + [m], l.cancelled))
    case Cancellation(m) => l.(cancelled := l.cancelled + {m})
    case Connected => l.(connected := true)
    case Transmit(n) =>
      if !l.connected then l
      else var t := Transmitted(l, n); if t.buffer == [] then t else Failed(t)
    case Ack =>
      if !l.connected then l
      else if l.pending == [] then Failed(l)
      else l.(pending := l.pending[1..], acked := l.acked + {l.pending[0]})
    case Failure => if l.connected then Failed(l) else l
  }

  function Played(steps: seq<Step>): Link {
    if steps == [] then Link([], [], false, {}, [], {}) else After(Played(steps[..|steps| - 1]), steps[|steps| - 1])
  }

  class Connection {
    /** Messages to transmit, and transmitted messages waiting for an acknowledgement. */
    var buffer: seq<Message>
    var pending: seq<Message>
    var connected: bool
    /** Handlers closed by the caller. */
    var cancelled: set<Message>
    ghost var submitted: seq<Message>
    ghost var acked: set<Message>
    /** Messages no longer held. */
    ghost var gone: set<Message>

    /** What is held is what was submitted, in order, without the acknowledged and the dropped;
        only cancelled messages are dropped. */
    ghost predicate Valid()
      reads this
    {
      && Distinct(submitted)
      && pending + buffer == Without(submitted, gone)
      && gone <= acked + cancelled && acked <= gone && (forall m :: m in acked ==> m in submitted)
      && (!connected ==> pending == [])
    }

    ghost function View(): Link
      reads this
    {
      Link(buffer, pending, connected, cancelled, submitted, acked)
    }

    constructor ()
      ensures Valid() && View() == Link([], [], false, {}, [], {})
    {
      buffer, pending, connected, cancelled := [], [], false, {};
      submitted, acked, gone := [], {}, {};
    }

    /** A new message; while disconnected, cancelled messages are dropped from the buffer. */
    method Submit(m: Message)
      requires Valid() && m !in submitted
      modifies this`buffer, this`submitted, this`gone
      ensures Valid() && submitted == old(submitted) + [m]
      ensures buffer == if connected then old(buffer) + [m] else Without(old(buffer) + [m], cancelled)
    {
      hide Without;
      FreshStays(submitted, gone, m);
      SubmitKeeps(submitted, m, gone);
      gone := gone - {m};
      buffer := buffer + [m];
      submitted := submitted + [m];
      assert pending + buffer == Without(submitted, gone);
      if !connected {
        WithoutTwice(submitted, gone, cancelled);
        assert pending + buffer == buffer;
        buffer := Without(buffer, cancelled);
        gone := gone + cancelled;
        assert pending + buffer == buffer;
      }
    }

    /** The caller closes its handler. */
    method Cancel(m: Message)
      requires Valid()
      modifies this`cancelled
      ensures Valid() && cancelled == old(cancelled) + {m}
    {
      cancelled := cancelled + {m};
    }

    method Connect()
      requires Valid() && !connected
      modifies this`connected
      ensures Valid() && connected
    {
      connected := true;
    }

    /** Transmit the buffer.  `writes` successful writes are possible before one fails. */
    method Flush(writes: nat) returns (failed: bool)
      requires Valid() && connected
      modifies this`buffer, this`pending, this`gone
      ensures Valid() && old(pending) <= pending
      ensures View() == Transmitted(old(View()), writes) && (failed <==> buffer != [])
      ensures forall m :: m in old(pending + buffer) && m !in pending + buffer ==> m in cancelled
    {
      hide Without, Distinct;
      var left := writes;
      while buffer != []
        invariant Valid() && old(pending) <= pending && Transmitted(View(), left) == Transmitted(old(View()), writes)
        invariant forall m :: m in old(pending + buffer) && m !in pending + buffer ==> m in cancelled
        decreases |buffer|
      {
        var m := buffer[0];
        var rest := buffer[1..];
        assert buffer == [m] + rest;
        if m in cancelled {
          DropOne(submitted, gone, pending, m, rest);
          gone := gone + {m};
          buffer := rest;
        } else if left == 0 {
          return true;
        } else {
          assert pending + buffer == (pending + [m]) + rest;
          pending := pending + [m];
          buffer := rest;
          left := left - 1;
        }
      }
      return false;
    }

    /** An acknowledgement for the oldest transmitted message. */
    method Acknowledge()
      requires Valid() && pending != []
      modifies this`pending, this`acked, this`gone
      ensures Valid() && pending == old(pending)[1..] && acked == old(acked) + {old(pending)[0]}
    {
      hide Without, Distinct;
      var m := pending[0];
      assert m in pending + buffer;
      HeldSubmitted(submitted, gone, m);
      assert pending + buffer == [] + [m] + (pending[1..] + buffer);
      DropOne(submitted, gone, [], m, pending[1..] + buffer);
      assert [] + (pending[1..] + buffer) == pending[1..] + buffer;
      assert pending + buffer == [] + ([m] + (pending[1..] + buffer));
      pending := pending[1..];
      acked, gone := acked + {m}, gone + {m};
    }

    /** The connection failed: put unacknowledged messages back in front, last first. */
    method Fail()
      requires Valid() && connected
      modifies this`pending, this`buffer, this`connected
      ensures Valid() && !connected && pending == [] && buffer == old(pending + buffer)
    {
      hide Without, Distinct;
      while pending != []
        invariant Valid() && connected && pending + buffer == old(pending + buffer)
        decreases |pending|
      {
        var last := pending[|pending| - 1];
        var rest := pending[..|pending| - 1];
        assert pending == rest + [last];
        assert pending + buffer == rest + ([last] + buffer);
        pending := rest;
        buffer := [last] + buffer;
      }
      assert pending + buffer == buffer;
      connected := false;
    }
  }

  /** A message not yet submitted is not among those gone from the submitted ones. */
  lemma FreshStays(submitted: seq<Message>, gone: set<Message>, m: Message)
    requires m !in submitted
    ensures Without(submitted, gone - {m}) == Without(submitted, gone)
  {
    WithoutTwice(submitted, gone - {m}, gone * {m});
    assert (gone - {m}) + gone * {m} == gone;
    WithoutNone(Without(submitted, gone - {m}), gone * {m});
  }

  lemma SubmitKeeps(submitted: seq<Message>, m: Message, gone: set<Message>)
    requires Distinct(submitted) && m !in submitted
    ensures Distinct(submitted + [m])
    ensures Without(submitted + [m], gone - {m}) == Without(submitted, gone - {m}) + [m]
  {
    WithoutAppend(submitted, m, gone - {m});
  }

  lemma HeldSubmitted(submitted: seq<Message>, gone: set<Message>, m: Message)
    requires m in Without(submitted, gone)
    ensures m in submitted && m !in gone
  {
  }

  lemma DropOne(submitted: seq<Message>, gone: set<Message>, xs: seq<Message>, m: Message, ys: seq<Message>)
    requires Distinct(submitted) && Without(submitted, gone) == xs + ([m] + ys)
    ensures Without(submitted, gone + {m}) == xs + ys
  {
    WithoutTwice(submitted, gone, {m});
    WithoutDistinct(submitted, gone);
    assert xs + ([m] + ys) == xs + [m] + ys;
    WithoutOne(xs, m, ys);
  }

  /** The submitted messages are numbered in order. */
  ghost predicate Numbered(ms: seq<Message>) { forall i :: 0 <= i < |ms| ==> ms[i] == i }

  /** One step of the connection. */
  method Take(c: Connection, step: Step, next: Message)
    requires c.Valid() && Numbered(c.submitted) && next == |c.submitted|
    modifies c
    ensures c.Valid() && Numbered(c.submitted) && c.View() == After(old(c.View()), step)
  {
    hide Without, Distinct, Transmitted;
    match step
    case Submission => c.Submit(next);
    case Cancellation(m) => c.Cancel(m);
    case Connected =>
      if !c.connected { c.Connect(); }
    case Transmit(n) =>
      if c.connected {
        var failed := c.Flush(n);
        if failed { c.Fail(); }
      }
    case Ack =>
      if c.connected {
        if c.pending != [] { c.Acknowledge(); } else { c.Fail(); }
      }
    case Failure =>
      if c.connected { c.Fail(); }
  }

  function Submissions(steps: seq<Step>): nat {
    if steps == [] then 0
    else Submissions(steps[..|steps| - 1]) + if steps[|steps| - 1].Submission? then 1 else 0
  }

  lemma TransmittedKeeps(l: Link, writes: nat)
    ensures Transmitted(l, writes).submitted == l.submitted
    decreases |l.buffer|
  {
  }

  lemma {:induction false} PlayedSubmissions(steps: seq<Step>)
    ensures |Played(steps).submitted| == Submissions(steps)
  {
    hide Transmitted;
    if steps != [] {
      var front, step := steps[..|steps| - 1], steps[|steps| - 1];
      PlayedSubmissions(front);
      if step.Transmit? { TransmittedKeeps(Played(front), step.writes); }
    }
  }

  /** Over every sequence of submissions, cancellations, connections, transmissions,
      acknowledgements and failures, each submitted message is acknowledged, cancelled or still
      held, and the held ones are in submission order. */
  method Run(steps: seq<Step>) returns (c: Connection)
    ensures c.Valid() && c.View() == Played(steps)
    ensures |c.submitted| == Submissions(steps) && Numbered(c.submitted)
    ensures forall m :: m in c.submitted ==> m in c.acked || m in c.cancelled || m in c.pending + c.buffer
    ensures exists gone :: c.acked <= gone <= c.acked + c.cancelled
              && c.pending + c.buffer == Without(c.submitted, gone)
    ensures Distinct(c.pending + c.buffer)
  {
    hide Without, Distinct, After;
    c := new Connection();
    var i, next := 0, 0;
    while i < |steps|
      invariant 0 <= i <= |steps| && c.Valid() && fresh(c) && c.View() == Played(steps[..i])
      invariant Numbered(c.submitted) && next == |c.submitted| == Submissions(steps[..i])
    {
      assert steps[..i + 1][..i] == steps[..i];
      PlayedSubmissions(steps[..i + 1]);
      Take(c, steps[i], next);
      if steps[i].Submission? { next := next + 1; }
      i := i + 1;
    }
    assert steps[..i] == steps;
    forall m | m in c.submitted ensures m in c.acked || m in c.cancelled || m in c.pending + c.buffer {
      HeldOrGone(c.submitted, c.gone, m);
    }
    WithoutDistinct(c.submitted, c.gone);
  }

  lemma HeldOrGone(submitted: seq<Message>, gone: set<Message>, m: Message)
    requires m in submitted
    ensures m in gone || m in Without(submitted, gone)
  {
  }
}
