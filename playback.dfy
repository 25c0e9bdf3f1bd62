/**
 What the playback drivers of both generator scripts share: the range check
 done on every start index before anything is sent, and the schedule of a
 valid run. Each step sends, for every channel in declaration order, the
 row at that channel's start plus the step number, then sleeps once.
 HTTP, printing and the sleep itself are events in a trace.
 */
module Playback {
  import opened Wrappers
  import opened Convert

  /** A channel: the URL its rows are posted to and the row it starts from. */
  datatype Channel = Channel(url: string, start: int)

  /**
   Send: a POST of the payload of row `row` to `url`, on behalf of the
   channel at 1-based position `channel` in declaration order. Sleep: the
   pause that ends a step.
   */
  datatype Event = Send(channel: nat, row: int, url: string, payload: Payload) | Sleep

  /** A run either stops at validation, naming the start that failed, or sends its trace. */
  datatype Outcome = Aborted(start: int) | Completed(trace: seq<Event>)

  /** The check each start passes: neither it nor start + offset leaves the rows. */
  predicate InRange(start: int, offset: int, total: nat)
  {
    0 <= start && start + offset <= total
  }

  /** The number of iterations of range(offset). */
  function Steps(offset: int): nat
  {
    if offset < 0 then 0 else offset
  }

  /**
   The position of the first start that fails the check, in declaration
   order; None when every start passes.
   */
  function FirstOutOfRange(starts: seq<int>, offset: int, total: nat): (r: Option<nat>)
    ensures r.None? <==> forall k :: 0 <= k < |starts| ==> InRange(starts[k], offset, total)
    ensures r.Some? ==> r.value < |starts| && !InRange(starts[r.value], offset, total)
    ensures r.Some? ==> forall k :: 0 <= k < r.value ==> InRange(starts[k], offset, total)
  {
    if |starts| == 0 then None
    else if !InRange(starts[0], offset, total) then Some(0)
    else
      match FirstOutOfRange(starts[1..], offset, total)
      case None => None
      case Some(k) => Some(k + 1)
  }

  /** Every row index the first `steps` steps read from the channel lies within the rows. */
  predicate Fits(c: Channel, steps: nat, total: nat)
  {
    steps == 0 || (0 <= c.start && c.start + steps <= total)
  }

  predicate AllFit(chans: seq<Channel>, steps: nat, total: nat)
  {
    forall k :: 0 <= k < |chans| ==> Fits(chans[k], steps, total)
  }

  /** Passing the check makes every index a run reads valid. */
  lemma InRangeFits(chans: seq<Channel>, offset: int, total: nat)
    requires forall k :: 0 <= k < |chans| ==> InRange(chans[k].start, offset, total)
    ensures AllFit(chans, Steps(offset), total)
  {
  }

  /** The payload of every row, by row index. */
  function Payloads(rows: seq<Row>): (ps: seq<Payload>)
    ensures |ps| == |rows|
  {
    if |rows| == 0 then [] else Payloads(rows[..|rows| - 1]) + [PayloadOf(rows[|rows| - 1])]
  }

  /** Entry j of Payloads is the payload of row j. */
  lemma {:induction false} PayloadsAt(rows: seq<Row>, j: nat)
    requires j < |rows|
    ensures Payloads(rows)[j] == PayloadOf(rows[j])
  {
    var front := rows[..|rows| - 1];
    if j < |front| {
      PayloadsAt(front, j);
      assert rows[j] == front[j];
    }
  }

  /**
   The payload posted for row j. A run reads only rows within range (see
   ScheduleSendsInRange); outside them the schedule is never consulted and
   holds an empty payload.
   */
  function PayloadAt(payloads: seq<Payload>, j: int): Payload
  {
    if 0 <= j < |payloads| then payloads[j] else map[]
  }

  /** The send of step i for channel c at position pos. */
  function SendOf(payloads: seq<Payload>, c: Channel, pos: nat, i: nat): Event
  {
    Send(pos, c.start + i, c.url, PayloadAt(payloads, c.start + i))
  }

  /** The sends of step i to the first m channels, in declaration order. */
  function StepSends(payloads: seq<Payload>, chans: seq<Channel>, i: nat, m: nat): (r: seq<Event>)
    requires m <= |chans|
    ensures |r| == m
  {
    if m == 0 then []
    else StepSends(payloads, chans, i, m - 1) + [SendOf(payloads, chans[m - 1], m, i)]
  }

  /** Step i: one send per channel in declaration order, then one sleep. */
  function StepEvents(payloads: seq<Payload>, chans: seq<Channel>, i: nat): seq<Event>
  {
    StepSends(payloads, chans, i, |chans|) + [Sleep]
  }

  /** The k-th send of a step goes to the k-th channel. */
  lemma {:induction false} StepSendsAt(payloads: seq<Payload>, chans: seq<Channel>, i: nat, m: nat, k: nat)
    requires k < m <= |chans|
    ensures StepSends(payloads, chans, i, m)[k] == SendOf(payloads, chans[k], k + 1, i)
  {
    if k < m - 1 {
      StepSendsAt(payloads, chans, i, m - 1, k);
    }
  }

  /**
   The trace of the first `steps` steps of a run whose row j has payload
   payloads[j]: step after step, each the sends to every channel in order,
   then the sleep.
   */
  function Schedule(payloads: seq<Payload>, chans: seq<Channel>, steps: nat): seq<Event>
  {
    if steps == 0 then []
    else Schedule(payloads, chans, steps - 1) + StepEvents(payloads, chans, steps - 1)
  }

  lemma MulSucc(a: nat, b: nat)
    requires a > 0
    ensures a * b == (a - 1) * b + b
  {
  }

  /** A schedule holds one block of |chans| + 1 events per step. */
  lemma {:induction false} ScheduleLength(payloads: seq<Payload>, chans: seq<Channel>, steps: nat)
    ensures |Schedule(payloads, chans, steps)| == steps * (|chans| + 1)
  {
    if steps > 0 {
      var n := |chans| + 1;
      ScheduleLength(payloads, chans, steps - 1);
      assert |StepEvents(payloads, chans, steps - 1)| == n;
      MulSucc(steps, n);
    }
  }

  /**
   Step-major order: event k of block i is the send of row start + i for
   the k-th channel, and the last event of every block is the sleep.
   */
  lemma {:induction false} ScheduleAt(payloads: seq<Payload>, chans: seq<Channel>, steps: nat, i: nat, k: nat)
    requires i < steps && k <= |chans|
    ensures |Schedule(payloads, chans, i)| + k < |Schedule(payloads, chans, steps)|
    ensures Schedule(payloads, chans, steps)[|Schedule(payloads, chans, i)| + k]
         == if k < |chans| then SendOf(payloads, chans[k], k + 1, i) else Sleep
  {
    var all := Schedule(payloads, chans, steps);
    var before := Schedule(payloads, chans, i);
    var upto := Schedule(payloads, chans, i + 1);
    var step := StepEvents(payloads, chans, i);
    assert upto == before + step;
    SchedulePrefix(payloads, chans, steps, i + 1);
    var j := |before| + k;
    assert j < |upto|;
    assert all[j] == all[..|upto|][j] == upto[j];
    assert upto[j] == step[k];
    if k < |chans| {
      StepSendsAt(payloads, chans, i, |chans|, k);
    }
  }

  /** A run's first m steps are a prefix of its trace. */
  lemma {:induction false} SchedulePrefix(payloads: seq<Payload>, chans: seq<Channel>, steps: nat, m: nat)
    requires m <= steps
    ensures |Schedule(payloads, chans, m)| <= |Schedule(payloads, chans, steps)|
    ensures Schedule(payloads, chans, steps)[..|Schedule(payloads, chans, m)|] == Schedule(payloads, chans, m)
  {
    if m < steps {
      SchedulePrefix(payloads, chans, steps - 1, m);
      var front := Schedule(payloads, chans, steps - 1);
      var prefix := Schedule(payloads, chans, m);
      assert Schedule(payloads, chans, steps)[..|prefix|] == front[..|prefix|];
    } else {
      var all := Schedule(payloads, chans, steps);
      assert all[..|all|] == all;
    }
  }

  /**
   In a run that passed the check, every send reads a row within the rows,
   of its own channel's range, and carries that row's payload.
   */
  lemma {:induction false} ScheduleSendsInRange(payloads: seq<Payload>, chans: seq<Channel>, steps: nat, j: nat)
    requires AllFit(chans, steps, |payloads|)
    requires j < |Schedule(payloads, chans, steps)|
    ensures var e := Schedule(payloads, chans, steps)[j];
      e.Send? ==>
      && 1 <= e.channel <= |chans|
      && var c := chans[e.channel - 1];
      && 0 <= c.start <= e.row < c.start + steps
      && e.row < |payloads|
      && e.url == c.url
      && e.payload == payloads[e.row]
  {
    var front := Schedule(payloads, chans, steps - 1);
    if j >= |front| {
      var k := j - |front|;
      if k < |chans| {
        StepSendsAt(payloads, chans, steps - 1, |chans|, k);
      }
      assert Schedule(payloads, chans, steps)[j] == StepEvents(payloads, chans, steps - 1)[k];
    } else {
      ScheduleSendsInRange(payloads, chans, steps - 1, j);
    }
  }

  /** The row indices sent for the channel at position pos, in trace order. */
  function RowsSentTo(trace: seq<Event>, pos: nat): seq<int>
  {
    if |trace| == 0 then []
    else
      var e := trace[|trace| - 1];
      RowsSentTo(trace[..|trace| - 1], pos) + (if e.Send? && e.channel == pos then [e.row] else [])
  }

  lemma {:induction false} RowsSentToAppend(a: seq<Event>, b: seq<Event>, pos: nat)
    ensures RowsSentTo(a + b, pos) == RowsSentTo(a, pos) + RowsSentTo(b, pos)
  {
    if |b| == 0 {
      assert a + b == a;
    } else {
      var b' := b[..|b| - 1];
      assert (a + b)[..|a + b| - 1] == a + b';
      assert (a + b)[|a + b| - 1] == b[|b| - 1];
      RowsSentToAppend(a, b', pos);
    }
  }

  /** The number of sends in a trace. */
  function SendCount(trace: seq<Event>): nat
  {
    if |trace| == 0 then 0
    else SendCount(trace[..|trace| - 1]) + (if trace[|trace| - 1].Send? then 1 else 0)
  }

  /** The number of sleeps in a trace. */
  function SleepCount(trace: seq<Event>): nat
  {
    if |trace| == 0 then 0
    else SleepCount(trace[..|trace| - 1]) + (if trace[|trace| - 1].Sleep? then 1 else 0)
  }

  lemma {:induction false} CountsAppend(a: seq<Event>, b: seq<Event>)
    ensures SendCount(a + b) == SendCount(a) + SendCount(b)
    ensures SleepCount(a + b) == SleepCount(a) + SleepCount(b)
  {
    if |b| == 0 {
      assert a + b == a;
    } else {
      var b' := b[..|b| - 1];
      assert (a + b)[..|a + b| - 1] == a + b';
      assert (a + b)[|a + b| - 1] == b[|b| - 1];
      CountsAppend(a, b');
    }
  }

  /** The first m sends of a step hold one send to the channel at position k + 1 when k < m. */
  lemma {:induction false} StepSendsTo(payloads: seq<Payload>, chans: seq<Channel>, i: nat, k: nat, m: nat)
    requires k < |chans| && m <= |chans|
    ensures RowsSentTo(StepSends(payloads, chans, i, m), k + 1)
         == if k < m then [chans[k].start + i] else []
  {
    if m > 0 {
      var sends := StepSends(payloads, chans, i, m);
      assert sends[..|sends| - 1] == StepSends(payloads, chans, i, m - 1);
      StepSendsTo(payloads, chans, i, k, m - 1);
    }
  }

  /** Within one step, the channel at position k + 1 gets exactly one send. */
  lemma StepRowsSentTo(payloads: seq<Payload>, chans: seq<Channel>, i: nat, k: nat)
    requires k < |chans|
    ensures RowsSentTo(StepEvents(payloads, chans, i), k + 1) == [chans[k].start + i]
  {
    var sends := StepSends(payloads, chans, i, |chans|);
    StepSendsTo(payloads, chans, i, k, |chans|);
    RowsSentToAppend(sends, [Sleep], k + 1);
    assert RowsSentTo([Sleep], k + 1) == [];
  }

  /** The first m sends of a step are m sends and no sleep. */
  lemma {:induction false} StepSendsCounts(payloads: seq<Payload>, chans: seq<Channel>, i: nat, m: nat)
    requires m <= |chans|
    ensures SendCount(StepSends(payloads, chans, i, m)) == m
    ensures SleepCount(StepSends(payloads, chans, i, m)) == 0
  {
    if m > 0 {
      var sends := StepSends(payloads, chans, i, m);
      assert sends[..|sends| - 1] == StepSends(payloads, chans, i, m - 1);
      StepSendsCounts(payloads, chans, i, m - 1);
    }
  }

  /** Within one step there are |chans| sends and one sleep. */
  lemma StepCounts(payloads: seq<Payload>, chans: seq<Channel>, i: nat)
    ensures SendCount(StepEvents(payloads, chans, i)) == |chans|
    ensures SleepCount(StepEvents(payloads, chans, i)) == 1
  {
    var sends := StepSends(payloads, chans, i, |chans|);
    StepSendsCounts(payloads, chans, i, |chans|);
    CountsAppend(sends, [Sleep]);
    assert SendCount([Sleep]) == 0;
    assert SleepCount([Sleep]) == 1;
  }

  /** The indices lo, lo + 1, ..., lo + n - 1 in increasing order. */
  function Range(lo: int, n: nat): (r: seq<int>)
    ensures |r| == n
  {
    if n == 0 then [] else Range(lo, n - 1) + [lo + n - 1]
  }

  /** Entry j of Range(lo, n) is lo + j: the indices are consecutive and increasing. */
  lemma {:induction false} RangeAt(lo: int, n: nat, j: nat)
    requires j < n
    ensures Range(lo, n)[j] == lo + j
  {
    if j < n - 1 {
      RangeAt(lo, n - 1, j);
    }
  }

  /**
   Each channel is sent exactly the rows start, start + 1, ..., start +
   steps - 1, in increasing order.
   */
  lemma {:induction false} ScheduleRowsSentTo(payloads: seq<Payload>, chans: seq<Channel>, steps: nat, k: nat)
    requires k < |chans|
    ensures RowsSentTo(Schedule(payloads, chans, steps), k + 1) == Range(chans[k].start, steps)
  {
    if steps > 0 {
      var front := Schedule(payloads, chans, steps - 1);
      var step := StepEvents(payloads, chans, steps - 1);
      ScheduleRowsSentTo(payloads, chans, steps - 1, k);
      RowsSentToAppend(front, step, k + 1);
      StepRowsSentTo(payloads, chans, steps - 1, k);
      assert RowsSentTo(front + step, k + 1) == Range(chans[k].start, steps - 1) + [chans[k].start + steps - 1];
    }
  }

  /** A schedule of `steps` steps makes steps * |chans| sends. */
  lemma {:induction false} ScheduleSendCount(payloads: seq<Payload>, chans: seq<Channel>, steps: nat)
    ensures SendCount(Schedule(payloads, chans, steps)) == steps * |chans|
  {
    if steps > 0 {
      var front := Schedule(payloads, chans, steps - 1);
      var step := StepEvents(payloads, chans, steps - 1);
      var n := |chans|;
      ScheduleSendCount(payloads, chans, steps - 1);
      CountsAppend(front, step);
      StepCounts(payloads, chans, steps - 1);
      MulSucc(steps, n);
    }
  }

  /** A schedule of `steps` steps sleeps `steps` times, once per step. */
  lemma {:induction false} ScheduleSleepCount(payloads: seq<Payload>, chans: seq<Channel>, steps: nat)
    ensures SleepCount(Schedule(payloads, chans, steps)) == steps
  {
    if steps > 0 {
      var front := Schedule(payloads, chans, steps - 1);
      var step := StepEvents(payloads, chans, steps - 1);
      ScheduleSleepCount(payloads, chans, steps - 1);
      CountsAppend(front, step);
      StepCounts(payloads, chans, steps - 1);
    }
  }
}
