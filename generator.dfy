/**
 generator.py: three PEMFC channels played back in lockstep. Each channel
 has its own id, put into the URL template, and its own start row; all
 three share the step count `offset`.
 */
module Generator {
  import opened Convert
  import opened Url
  import opened Playback

  /** The three channels in declaration order, each with its substituted URL. */
  function Channels(url: string, pemfc1: int, pemfc2: int, pemfc3: int,
                    start1: int, start2: int, start3: int): seq<Channel>
  {
    [Channel(FormatUrl(url, pemfc1), start1),
     Channel(FormatUrl(url, pemfc2), start2),
     Channel(FormatUrl(url, pemfc3), start3)]
  }

  /**
   The body of main once the arguments are parsed and the CSV rows read:
   validate every start, then play the rows back. An abort names the first
   start, in declaration order, that failed, and sends nothing.
   */
  method Run(rows: seq<Row>, pemfc1: int, pemfc2: int, pemfc3: int,
             start1: int, start2: int, start3: int, offset: int, url: string)
    returns (r: Outcome)
    ensures r.Completed? <==> FirstOutOfRange([start1, start2, start3], offset, |rows|).None?
    ensures r.Aborted? ==>
      var first := FirstOutOfRange([start1, start2, start3], offset, |rows|);
      first.Some? && r.start == [start1, start2, start3][first.value]
    ensures r.Completed? ==>
      var chans := Channels(url, pemfc1, pemfc2, pemfc3, start1, start2, start3);
      AllFit(chans, Steps(offset), |rows|) && r.trace == Schedule(Payloads(rows), chans, Steps(offset))
  {
    var totalRows := |rows|;
    var url1 := FormatUrl(url, pemfc1);
    var url2 := FormatUrl(url, pemfc2);
    var url3 := FormatUrl(url, pemfc3);

    var starts := [start1, start2, start3];
    for k := 0 to |starts|
      invariant forall j :: 0 <= j < k ==> InRange(starts[j], offset, totalRows)
    {
      var start := starts[k];
      if start < 0 || start + offset > totalRows {
        return Aborted(start);
      }
    }

    assert InRange(starts[0], offset, totalRows) && InRange(starts[1], offset, totalRows);
    assert InRange(starts[2], offset, totalRows);
    var trace := Play(rows, url1, url2, url3, start1, start2, start3, offset);
    InRangeFits([Channel(url1, start1), Channel(url2, start2), Channel(url3, start3)], offset, totalRows);
    return Completed(trace);
  }

  /**
   The playback loop of main: step i converts the rows at start1 + i,
   start2 + i and start3 + i, posts them to the three URLs in that order,
   then sleeps.
   */
  method Play(rows: seq<Row>, url1: string, url2: string, url3: string,
              start1: int, start2: int, start3: int, offset: int)
    returns (trace: seq<Event>)
    requires InRange(start1, offset, |rows|) && InRange(start2, offset, |rows|) && InRange(start3, offset, |rows|)
    ensures trace == Schedule(Payloads(rows), [Channel(url1, start1), Channel(url2, start2), Channel(url3, start3)], Steps(offset))
  {
    trace := [];
    var i := 0;
    while i < offset
      invariant 0 <= i <= Steps(offset)
      invariant trace == Schedule(Payloads(rows), [Channel(url1, start1), Channel(url2, start2), Channel(url3, start3)], i)
    {
      var idx1 := start1 + i;
      var idx2 := start2 + i;
      var idx3 := start3 + i;
      var payload1 := ConvertRowToJson(rows[idx1]);
      var payload2 := ConvertRowToJson(rows[idx2]);
      var payload3 := ConvertRowToJson(rows[idx3]);
      PayloadsAt(rows, idx1);
      PayloadsAt(rows, idx2);
      PayloadsAt(rows, idx3);
      StepAppends(Payloads(rows), url1, url2, url3, start1, start2, start3, i, trace);
      trace := trace + [Send(1, idx1, url1, payload1)];
      trace := trace + [Send(2, idx2, url2, payload2)];
      trace := trace + [Send(3, idx3, url3, payload3)];
      trace := trace + [Sleep];
      i := i + 1;
    }
    assert i == Steps(offset);
  }

  /**
   One iteration of the playback loop extends the schedule by one step:
   the three sends of the rows at start + i, in channel order, then the sleep.
   */
  lemma StepAppends(payloads: seq<Payload>, url1: string, url2: string, url3: string,
                    start1: int, start2: int, start3: int, i: nat, trace: seq<Event>)
    requires trace == Schedule(payloads, [Channel(url1, start1), Channel(url2, start2), Channel(url3, start3)], i)
    requires 0 <= start1 + i < |payloads| && 0 <= start2 + i < |payloads| && 0 <= start3 + i < |payloads|
    ensures trace + [Send(1, start1 + i, url1, payloads[start1 + i])] + [Send(2, start2 + i, url2, payloads[start2 + i])]
                  + [Send(3, start3 + i, url3, payloads[start3 + i])] + [Sleep]
         == Schedule(payloads, [Channel(url1, start1), Channel(url2, start2), Channel(url3, start3)], i + 1)
  {
    ThreeSends(payloads, [Channel(url1, start1), Channel(url2, start2), Channel(url3, start3)], i);
  }

  /** The sends of one step of a three-channel run, written out. */
  lemma ThreeSends(payloads: seq<Payload>, chans: seq<Channel>, i: nat)
    requires |chans| == 3
    ensures StepEvents(payloads, chans, i)
         == [SendOf(payloads, chans[0], 1, i), SendOf(payloads, chans[1], 2, i),
             SendOf(payloads, chans[2], 3, i), Sleep]
  {
    StepSendsAt(payloads, chans, i, 3, 0);
    StepSendsAt(payloads, chans, i, 3, 1);
    StepSendsAt(payloads, chans, i, 3, 2);
  }

  /**
   A run of three channels is step-major: block i of its trace holds the
   sends of row start_k + i, with that row's payload, to channel k's URL
   for k = 1, 2, 3 in that order, then the one sleep of the step.
   */
  lemma ThreeBlock(payloads: seq<Payload>, chans: seq<Channel>, steps: nat, i: nat)
    requires |chans| == 3 && AllFit(chans, steps, |payloads|) && i < steps
    ensures var trace := Schedule(payloads, chans, steps);
      && |trace| == 4 * steps
      && 0 <= chans[0].start && chans[0].start + i < |payloads|
      && 0 <= chans[1].start && chans[1].start + i < |payloads|
      && 0 <= chans[2].start && chans[2].start + i < |payloads|
      && trace[4 * i] == Send(1, chans[0].start + i, chans[0].url, payloads[chans[0].start + i])
      && trace[4 * i + 1] == Send(2, chans[1].start + i, chans[1].url, payloads[chans[1].start + i])
      && trace[4 * i + 2] == Send(3, chans[2].start + i, chans[2].url, payloads[chans[2].start + i])
      && trace[4 * i + 3] == Sleep
  {
    ScheduleLength(payloads, chans, steps);
    ScheduleLength(payloads, chans, i);
    ScheduleAt(payloads, chans, steps, i, 0);
    ScheduleAt(payloads, chans, steps, i, 1);
    ScheduleAt(payloads, chans, steps, i, 2);
    ScheduleAt(payloads, chans, steps, i, 3);
  }

  /** The counts and the per-channel rows of a schedule of three channels. */
  lemma ThreeCounts(payloads: seq<Payload>, chans: seq<Channel>, steps: nat)
    requires |chans| == 3 && AllFit(chans, steps, |payloads|)
    ensures var trace := Schedule(payloads, chans, steps);
      && SendCount(trace) == 3 * steps
      && SleepCount(trace) == steps
      && RowsSentTo(trace, 1) == Range(chans[0].start, steps)
      && RowsSentTo(trace, 2) == Range(chans[1].start, steps)
      && RowsSentTo(trace, 3) == Range(chans[2].start, steps)
      && forall j :: 0 <= j < |trace| && trace[j].Send? ==> 0 <= trace[j].row < |payloads|
  {
    var trace := Schedule(payloads, chans, steps);
    ScheduleSendCount(payloads, chans, steps);
    ScheduleSleepCount(payloads, chans, steps);
    ScheduleRowsSentTo(payloads, chans, steps, 0);
    ScheduleRowsSentTo(payloads, chans, steps, 1);
    ScheduleRowsSentTo(payloads, chans, steps, 2);
    forall j | 0 <= j < |trace| && trace[j].Send? ensures 0 <= trace[j].row < |payloads| {
      ScheduleSendsInRange(payloads, chans, steps, j);
    }
  }

  /**
   A valid run makes 3 * max(offset, 0) sends and max(offset, 0) sleeps,
   and channel k is sent exactly its rows start_k, ..., start_k + offset - 1
   in increasing order, each of them a valid row index.
   */
  lemma ThreeChannelCounts(rows: seq<Row>, pemfc1: int, pemfc2: int, pemfc3: int,
                           start1: int, start2: int, start3: int, offset: int, url: string)
    requires FirstOutOfRange([start1, start2, start3], offset, |rows|).None?
    ensures var trace := Schedule(Payloads(rows), Channels(url, pemfc1, pemfc2, pemfc3, start1, start2, start3), Steps(offset));
      && SendCount(trace) == 3 * Steps(offset)
      && SleepCount(trace) == Steps(offset)
      && RowsSentTo(trace, 1) == Range(start1, Steps(offset))
      && RowsSentTo(trace, 2) == Range(start2, Steps(offset))
      && RowsSentTo(trace, 3) == Range(start3, Steps(offset))
      && forall j :: 0 <= j < |trace| && trace[j].Send? ==> 0 <= trace[j].row < |rows|
  {
    var chans := Channels(url, pemfc1, pemfc2, pemfc3, start1, start2, start3);
    var starts := [start1, start2, start3];
    assert InRange(starts[0], offset, |rows|) && InRange(starts[1], offset, |rows|);
    assert InRange(starts[2], offset, |rows|);
    InRangeFits(chans, offset, |rows|);
    ThreeCounts(Payloads(rows), chans, Steps(offset));
  }
}
