/**
 generator_one_by_one.py: a single PEMFC channel played back. The channel
 id is put into the URL template, and the rows start, ..., start + offset - 1
 are posted one per step.
 */
module GeneratorOneByOne {
  import opened Convert
  import opened Url
  import opened Playback

  /** The one channel, with its substituted URL. */
  function Channels(url: string, pemfc: int, start: int): seq<Channel>
  {
    [Channel(FormatUrl(url, pemfc), start)]
  }

  /**
   The body of main once the arguments are parsed and the CSV rows read:
   check the start, then play the rows back. An abort sends nothing.
   */
  method Run(rows: seq<Row>, pemfc: int, start: int, offset: int, url: string)
    returns (r: Outcome)
    ensures r.Completed? <==> InRange(start, offset, |rows|)
    ensures r.Aborted? ==> r.start == start
    ensures r.Completed? ==>
      var chans := Channels(url, pemfc, start);
      AllFit(chans, Steps(offset), |rows|) && r.trace == Schedule(Payloads(rows), chans, Steps(offset))
  {
    var totalRows := |rows|;
    var channelUrl := FormatUrl(url, pemfc);
    if start < 0 || start + offset > totalRows {
      return Aborted(start);
    }
    var trace := Play(rows, channelUrl, start, offset);
    InRangeFits([Channel(channelUrl, start)], offset, totalRows);
    return Completed(trace);
  }

  /**
   The playback loop of main: step i converts the row at start + i, posts
   it to the URL, then sleeps.
   */
  method Play(rows: seq<Row>, url: string, start: int, offset: int) returns (trace: seq<Event>)
    requires InRange(start, offset, |rows|)
    ensures trace == Schedule(Payloads(rows), [Channel(url, start)], Steps(offset))
  {
    trace := [];
    var i := 0;
    while i < offset
      invariant 0 <= i <= Steps(offset)
      invariant trace == Schedule(Payloads(rows), [Channel(url, start)], i)
    {
      var idx := start + i;
      var payload := ConvertRowToJson(rows[idx]);
      PayloadsAt(rows, idx);
      StepAppends(Payloads(rows), url, start, i, trace);
      trace := trace + [Send(1, idx, url, payload)];
      trace := trace + [Sleep];
      i := i + 1;
    }
    assert i == Steps(offset);
  }

  /**
   One iteration of the playback loop extends the schedule by one step:
   the send of the row at start + i, then the sleep.
   */
  lemma StepAppends(payloads: seq<Payload>, url: string, start: int, i: nat, trace: seq<Event>)
    requires trace == Schedule(payloads, [Channel(url, start)], i)
    requires 0 <= start + i < |payloads|
    ensures trace + [Send(1, start + i, url, payloads[start + i])] + [Sleep]
         == Schedule(payloads, [Channel(url, start)], i + 1)
  {
    OneSend(payloads, [Channel(url, start)], i);
  }

  /** The events of one step of a one-channel run, written out. */
  lemma OneSend(payloads: seq<Payload>, chans: seq<Channel>, i: nat)
    requires |chans| == 1
    ensures StepEvents(payloads, chans, i) == [SendOf(payloads, chans[0], 1, i), Sleep]
  {
    StepSendsAt(payloads, chans, i, 1, 0);
  }

  /**
   A run of one channel alternates: event 2 * i is the send of row
   start + i, with that row's payload, to the channel's URL, and event
   2 * i + 1 is the sleep.
   */
  lemma OneBlock(payloads: seq<Payload>, chans: seq<Channel>, steps: nat, i: nat)
    requires |chans| == 1 && AllFit(chans, steps, |payloads|) && i < steps
    ensures var trace := Schedule(payloads, chans, steps);
      && |trace| == 2 * steps
      && 0 <= chans[0].start && chans[0].start + i < |payloads|
      && trace[2 * i] == Send(1, chans[0].start + i, chans[0].url, payloads[chans[0].start + i])
      && trace[2 * i + 1] == Sleep
  {
    ScheduleLength(payloads, chans, steps);
    ScheduleLength(payloads, chans, i);
    ScheduleAt(payloads, chans, steps, i, 0);
    ScheduleAt(payloads, chans, steps, i, 1);
  }

  /** The counts and the rows sent of a schedule of one channel. */
  lemma OneCounts(payloads: seq<Payload>, chans: seq<Channel>, steps: nat)
    requires |chans| == 1 && AllFit(chans, steps, |payloads|)
    ensures var trace := Schedule(payloads, chans, steps);
      && SendCount(trace) == steps
      && SleepCount(trace) == steps
      && RowsSentTo(trace, 1) == Range(chans[0].start, steps)
      && forall j :: 0 <= j < |trace| && trace[j].Send? ==> 0 <= trace[j].row < |payloads|
  {
    var trace := Schedule(payloads, chans, steps);
    ScheduleSendCount(payloads, chans, steps);
    ScheduleSleepCount(payloads, chans, steps);
    ScheduleRowsSentTo(payloads, chans, steps, 0);
    forall j | 0 <= j < |trace| && trace[j].Send? ensures 0 <= trace[j].row < |payloads| {
      ScheduleSendsInRange(payloads, chans, steps, j);
    }
  }

  /**
   A valid run alternates one send and one sleep max(offset, 0) times, and
   sends exactly the rows start, ..., start + offset - 1 in increasing
   order, each of them a valid row index.
   */
  lemma OneChannelCounts(rows: seq<Row>, pemfc: int, start: int, offset: int, url: string)
    requires InRange(start, offset, |rows|)
    ensures var trace := Schedule(Payloads(rows), Channels(url, pemfc, start), Steps(offset));
      && SendCount(trace) == Steps(offset)
      && SleepCount(trace) == Steps(offset)
      && RowsSentTo(trace, 1) == Range(start, Steps(offset))
      && forall j :: 0 <= j < |trace| && trace[j].Send? ==> 0 <= trace[j].row < |rows|
  {
    var chans := Channels(url, pemfc, start);
    InRangeFits(chans, offset, |rows|);
    OneCounts(Payloads(rows), chans, Steps(offset));
  }
}
