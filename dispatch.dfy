/**
 * The dispatch engine of `SmsService`: `send_message_many_recipients` estimates
 * how long a bulk send takes and starts `sendMessagesAsync`, which hands every
 * recipient to `send_message` in index order and pauses after each full batch.
 * The asynchronous loop is modelled by the trace of what it does: one `Send`
 * per recipient and one `Pause` per wait; timing and completion order are not
 * modelled.
 */
module Dispatch {
  import opened Wrappers
  import opened Delivery
  import Duration
  import Arith

  const BatchSize := 100
  const DelayBetweenBatchesMs := 300

  /** `Math.ceil(n / 100)`: the number of batches of at most 100 recipients. */
  function Batches(n: nat): (b: nat)
    ensures n == 0 ==> b == 0
    ensures n > 0 ==> (b - 1) * BatchSize < n <= b * BatchSize
  {
    (n + BatchSize - 1) / BatchSize
  }

  /** `(totalBatches - 1) * 300`: there is no wait before the first batch. */
  function EstimateMs(n: nat): int {
    (Batches(n) - 1) * DelayBetweenBatchesMs
  }

  /** `SmsForManyRecipientsDto`. */
  datatype ManyRecipients = ManyRecipients(recipients: seq<string>, message_text: string, adminId: int)

  /** One step of `sendMessagesAsync`: a call of `send_message` for the recipient at `index`, or a wait. */
  datatype Event = Send(index: nat, dto: SmsDto) | Pause(ms: nat)

  /** The message for recipient `i`: the shared text and sender, with type `OTHER`. */
  function MessageFor(data: ManyRecipients, i: nat): (dto: SmsDto)
    requires i < |data.recipients|
    ensures dto.recipient == data.recipients[i] && dto.message_text == data.message_text
    ensures dto.adminId == data.adminId && dto.sms_type == Some(Other)
  {
    SmsDto(data.recipients[i], data.message_text, data.adminId, Some(Other))
  }

  /** The loop waits after index `i` when a full batch has just gone out and more recipients follow. */
  predicate PauseAfter(i: nat, n: nat, batchSize: nat)
    requires batchSize > 0
  {
    (i + 1) % batchSize == 0 && i + 1 < n
  }

  /** What iteration `i` does. */
  function Step(data: ManyRecipients, batchSize: nat, delay: nat, i: nat): seq<Event>
    requires batchSize > 0 && i < |data.recipients|
  {
    [Send(i, MessageFor(data, i))] + (if PauseAfter(i, |data.recipients|, batchSize) then [Pause(delay)] else [])
  }

  /** What the first `k` iterations do. */
  function ScheduleUpTo(data: ManyRecipients, batchSize: nat, delay: nat, k: nat): seq<Event>
    requires batchSize > 0 && k <= |data.recipients|
  {
    if k == 0 then [] else ScheduleUpTo(data, batchSize, delay, k - 1) + Step(data, batchSize, delay, k - 1)
  }

  /** What the whole loop does. */
  function Schedule(data: ManyRecipients, batchSize: nat, delay: nat): seq<Event>
    requires batchSize > 0
  {
    ScheduleUpTo(data, batchSize, delay, |data.recipients|)
  }

  /** `sendMessagesAsync(data, batchSize, delay)`, as the trace of its calls and waits. */
  method SendMessagesAsync(data: ManyRecipients, batchSize: nat, delay: nat) returns (trace: seq<Event>)
    requires batchSize > 0
    ensures trace == Schedule(data, batchSize, delay)
  {
    trace := [];
    var i := 0;
    while i < |data.recipients|
      invariant i <= |data.recipients|
      invariant trace == ScheduleUpTo(data, batchSize, delay, i)
    {
      var dataForDB := SmsDto(data.recipients[i], data.message_text, data.adminId, Some(Other));
      trace := trace + [Send(i, dataForDB)];
      if (i + 1) % batchSize == 0 && i + 1 < |data.recipients| {
        trace := trace + [Pause(delay)];
      }
      i := i + 1;
    }
  }

  /** The reply of `send_message_many_recipients`, around the formatted estimate. */
  function Reply(duration: string): string {
    "SMS jo'natish vaqti: " + duration + " \n yuborilgan SMS'larni \"Xabarlar\" bo\U{2018}limidan ko\U{2018}rishingiz mumkin!"
  }

  /** `send_message_many_recipients(data)`: the estimate as text, and the trace of the loop it starts. */
  method SendManyRecipients(data: ManyRecipients) returns (reply: string, trace: seq<Event>)
    ensures reply == Reply(Duration.DurationText(EstimateMs(|data.recipients|)))
    ensures trace == Schedule(data, BatchSize, DelayBetweenBatchesMs)
  {
    var batchSize := 100;
    var delayBetweenBatches := 300;
    var totalBatches := (|data.recipients| + batchSize - 1) / batchSize;
    assert totalBatches == Batches(|data.recipients|);
    var totalDurationMs := (totalBatches - 1) * delayBetweenBatches;
    assert totalDurationMs == EstimateMs(|data.recipients|);
    var duration := Duration.FormatDuration(totalDurationMs);
    trace := SendMessagesAsync(data, batchSize, delayBetweenBatches);
    reply := Reply(duration);
  }

  // ---- reading a trace -------------------------------------------------------------

  /** The messages handed to `send_message`, in order. */
  function Sent(trace: seq<Event>): seq<SmsDto> {
    if trace == [] then []
    else (if trace[0].Send? then [trace[0].dto] else []) + Sent(trace[1..])
  }

  /** The indices of the `Send` events, in order. */
  function SentIndices(trace: seq<Event>): seq<nat> {
    if trace == [] then []
    else (if trace[0].Send? then [trace[0].index] else []) + SentIndices(trace[1..])
  }

  /** The number of waits. */
  function Pauses(trace: seq<Event>): nat {
    if trace == [] then 0
    else (if trace[0].Pause? then 1 else 0) + Pauses(trace[1..])
  }

  lemma {:induction false} SentAppend(a: seq<Event>, b: seq<Event>)
    ensures Sent(a + b) == Sent(a) + Sent(b)
  {
    if a == [] {
      assert a + b == b;
    } else {
      var h: seq<SmsDto> := if a[0].Send? then [a[0].dto] else [];
      SentAppend(a[1..], b);
      assert (a + b)[1..] == a[1..] + b;
      assert (a + b)[0] == a[0];
      assert Sent(a + b) == h + Sent(a[1..] + b);
      assert Sent(a) == h + Sent(a[1..]);
      assert h + (Sent(a[1..]) + Sent(b)) == (h + Sent(a[1..])) + Sent(b);
    }
  }

  lemma {:induction false} SentIndicesAppend(a: seq<Event>, b: seq<Event>)
    ensures SentIndices(a + b) == SentIndices(a) + SentIndices(b)
  {
    if a == [] {
      assert a + b == b;
    } else {
      var h: seq<nat> := if a[0].Send? then [a[0].index] else [];
      SentIndicesAppend(a[1..], b);
      assert (a + b)[1..] == a[1..] + b;
      assert (a + b)[0] == a[0];
      assert SentIndices(a + b) == h + SentIndices(a[1..] + b);
      assert SentIndices(a) == h + SentIndices(a[1..]);
      assert h + (SentIndices(a[1..]) + SentIndices(b)) == (h + SentIndices(a[1..])) + SentIndices(b);
    }
  }

  lemma {:induction false} PausesAppend(a: seq<Event>, b: seq<Event>)
    ensures Pauses(a + b) == Pauses(a) + Pauses(b)
  {
    if a == [] {
      assert a + b == b;
    } else {
      PausesAppend(a[1..], b);
      assert (a + b)[1..] == a[1..] + b;
    }
  }

  /** One iteration sends one message and waits at most once. */
  lemma StepParts(data: ManyRecipients, batchSize: nat, delay: nat, i: nat)
    requires batchSize > 0 && i < |data.recipients|
    ensures Sent(Step(data, batchSize, delay, i)) == [MessageFor(data, i)]
    ensures SentIndices(Step(data, batchSize, delay, i)) == [i]
    ensures Pauses(Step(data, batchSize, delay, i)) == if PauseAfter(i, |data.recipients|, batchSize) then 1 else 0
  {
    var send := Send(i, MessageFor(data, i));
    var rest: seq<Event> := if PauseAfter(i, |data.recipients|, batchSize) then [Pause(delay)] else [];
    assert Step(data, batchSize, delay, i) == [send] + rest;
    SentAppend([send], rest);
    SentIndicesAppend([send], rest);
    PausesAppend([send], rest);
    SingleEvent(send);
    if rest != [] {
      SingleEvent(Pause(delay));
    }
  }

  /** A trace of one event. */
  lemma SingleEvent(e: Event)
    ensures Sent([e]) == (if e.Send? then [e.dto] else [])
    ensures SentIndices([e]) == (if e.Send? then [e.index] else [])
    ensures Pauses([e]) == (if e.Pause? then 1 else 0)
  {
    assert [e][1..] == [];
    assert [e][0] == e;
  }

  /** The messages of the recipients `0..k-1`, in order. */
  function Messages(data: ManyRecipients, k: nat): (ms: seq<SmsDto>)
    requires k <= |data.recipients|
    ensures |ms| == k && forall i :: 0 <= i < k ==> ms[i] == MessageFor(data, i)
  {
    if k == 0 then [] else Messages(data, k - 1) + [MessageFor(data, k - 1)]
  }

  function Indices(k: nat): (ix: seq<nat>)
    ensures |ix| == k && forall i :: 0 <= i < k ==> ix[i] == i
  {
    if k == 0 then [] else Indices(k - 1) + [k - 1]
  }

  // ---- properties -------------------------------------------------------------------

  /** Every recipient is sent to exactly once, in index order, with the shared text, the sender and type `OTHER`. */
  lemma {:induction false} SendsInOrder(data: ManyRecipients, batchSize: nat, delay: nat, k: nat)
    requires batchSize > 0 && k <= |data.recipients|
    ensures Sent(ScheduleUpTo(data, batchSize, delay, k)) == Messages(data, k)
    ensures SentIndices(ScheduleUpTo(data, batchSize, delay, k)) == Indices(k)
  {
    if k > 0 {
      var i := k - 1;
      SendsInOrder(data, batchSize, delay, i);
      SentAppend(ScheduleUpTo(data, batchSize, delay, i), Step(data, batchSize, delay, i));
      SentIndicesAppend(ScheduleUpTo(data, batchSize, delay, i), Step(data, batchSize, delay, i));
      StepParts(data, batchSize, delay, i);
    }
  }

  /** The first `k` iterations wait once per full batch among the first `min(k, n - 1)` recipients. */
  lemma {:induction false} PausesUpTo(data: ManyRecipients, batchSize: nat, delay: nat, k: nat)
    requires batchSize > 0 && 0 < |data.recipients| && k <= |data.recipients|
    ensures Pauses(ScheduleUpTo(data, batchSize, delay, k)) == (if k < |data.recipients| then k else k - 1) / batchSize
  {
    var n := |data.recipients|;
    if k > 0 {
      var i := k - 1;
      PausesUpTo(data, batchSize, delay, i);
      PausesAppend(ScheduleUpTo(data, batchSize, delay, i), Step(data, batchSize, delay, i));
      StepParts(data, batchSize, delay, i);
      if k < n {
        Arith.DivSucc(i, batchSize);
        assert PauseAfter(i, n, batchSize) <==> k % batchSize == 0;
      } else {
        assert !PauseAfter(i, n, batchSize);
      }
    }
  }

  /** For one recipient or more, the number of batches is one more than the number of waits of a full run. */
  lemma {:induction false} BatchesArePausesPlusOne(n: nat)
    requires n > 0
    ensures Batches(n) - 1 == (n - 1) / BatchSize
  {
    var q, r := (n - 1) / BatchSize, (n - 1) % BatchSize;
    Arith.DivModUnique(n + BatchSize - 1, BatchSize, q + 1, r);
  }

  /** The returned estimate is exactly the time the loop spends waiting. */
  lemma EstimateIsWaitingTime(data: ManyRecipients)
    requires |data.recipients| > 0
    ensures Pauses(Schedule(data, BatchSize, DelayBetweenBatchesMs)) * DelayBetweenBatchesMs == EstimateMs(|data.recipients|)
  {
    PausesUpTo(data, BatchSize, DelayBetweenBatchesMs, |data.recipients|);
    BatchesArePausesPlusOne(|data.recipients|);
  }

  /** Up to 100 recipients go out in one batch with no wait; 250 go out in three batches with two waits. */
  lemma EstimateExamples(n: nat)
    ensures 1 <= n <= 100 ==> EstimateMs(n) == 0
    ensures EstimateMs(250) == 600
    ensures EstimateMs(0) == -300
  {
  }

  /**
   * In `t`, the trace of the first `k` iterations, every send is of an index below `k`, is
   * followed by a wait exactly when it closes a full batch that is not the last, and every wait
   * follows a send.
   */
  ghost predicate PausesPlaced(t: seq<Event>, n: nat, batchSize: nat, delay: nat, k: nat)
    requires batchSize > 0
  {
    (forall j {:trigger t[j]} :: 0 <= j < |t| && t[j].Send? ==>
      t[j].index < k && (PauseAfter(t[j].index, n, batchSize) <==> j + 1 < |t| && t[j + 1].Pause?))
    && (forall j :: 0 <= j < |t| && t[j].Pause? ==> 0 < j && t[j - 1].Send? && t[j].ms == delay)
  }

  lemma {:induction false} PausesPlacedStep(prev: seq<Event>, n: nat, batchSize: nat, delay: nat, i: nat, dto: SmsDto)
    requires batchSize > 0 && PausesPlaced(prev, n, batchSize, delay, i)
    ensures var step := if PauseAfter(i, n, batchSize) then [Send(i, dto), Pause(delay)] else [Send(i, dto)];
      PausesPlaced(prev + step, n, batchSize, delay, i + 1)
  {
    var pause := PauseAfter(i, n, batchSize);
    var step := if pause then [Send(i, dto), Pause(delay)] else [Send(i, dto)];
    var t := prev + step;
    forall j | 0 <= j < |t| && t[j].Send?
      ensures t[j].index < i + 1 && (PauseAfter(t[j].index, n, batchSize) <==> j + 1 < |t| && t[j + 1].Pause?)
    {
      if j + 1 < |prev| {
        assert t[j] == prev[j] && t[j + 1] == prev[j + 1];
      } else if j + 1 == |prev| {
        assert t[j] == prev[j] && t[j + 1] == Send(i, dto);
      } else {
        assert t[j] == Send(i, dto);
        if pause {
          assert t[j + 1] == Pause(delay);
        }
      }
    }
    forall j | 0 <= j < |t| && t[j].Pause?
      ensures 0 < j && t[j - 1].Send? && t[j].ms == delay
    {
      if j < |prev| {
        assert t[j] == prev[j] && t[j - 1] == prev[j - 1];
      } else {
        assert j == |prev| + 1 && t[j - 1] == Send(i, dto);
      }
    }
  }

  /** In any prefix of the run, a wait comes right after a send, exactly when that send closes a full batch that is not the last. */
  lemma {:induction false} PausePositions(data: ManyRecipients, batchSize: nat, delay: nat, k: nat)
    requires batchSize > 0 && k <= |data.recipients|
    ensures PausesPlaced(ScheduleUpTo(data, batchSize, delay, k), |data.recipients|, batchSize, delay, k)
  {
    if k > 0 {
      var i := k - 1;
      PausePositions(data, batchSize, delay, i);
      PausesPlacedStep(ScheduleUpTo(data, batchSize, delay, i), |data.recipients|, batchSize, delay, i, MessageFor(data, i));
    }
  }
}
