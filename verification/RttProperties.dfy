/** What the congestion controller promises over every sequence of events. */
module RttProperties {
  import opened Powers
  import FlowTable
  import opened RttController

  /** The context after a sequence of events, the oldest first. */
  function After(start: Outcome, events: seq<Event>, p: Params): Outcome {
    if events == [] then start
    else
      var o := After(start, events[..|events| - 1], p);
      Handle(o.ctx, events[|events| - 1], p, o.results)
  }

  // ---------- the handshake ----------

  /** With no measurement in flight a request is on its way (for at most two TX
      events) and the back-off is reset; otherwise one measurement is awaited. */
  ghost predicate Handshake(c: Context) {
    || (c.measPsn == 0 && 1 <= c.reqToSent <= 2 && c.abortCnt == 0)
    || (c.measPsn == 1 && c.reqToSent <= 1)
  }

  lemma HandleKeepsHandshake(c: Context, e: Event, p: Params, before: Results)
    requires Handshake(c) || c.curRate == 0
    ensures Handshake(Handle(c, e, p, before).ctx)
  {
    assert AbortThreshold(0) == 300000;
  }

  /** Once the first event has initialised the flow, the handshake never breaks. */
  lemma {:induction false} HandshakeHolds(start: Outcome, events: seq<Event>, p: Params)
    requires start.ctx.curRate == 0 && events != []
    ensures Handshake(After(start, events, p).ctx)
  {
    var n := |events| - 1;
    if n > 0 {
      HandshakeHolds(start, events[..n], p);
    }
    var o := After(start, events[..n], p);
    HandleKeepsHandshake(o.ctx, events[n], p, o.results);
  }

  /** How many TX events have passed since the device was last told to send a request. A NACK
      to a flow that is set up leaves the request field as it was and is no request. */
  function TxsSinceRequest(start: Outcome, events: seq<Event>, p: Params): nat {
    if events == [] then 0
    else
      var n := |events| - 1;
      var setUp := After(start, events[..n], p).ctx.curRate != 0;
      if !(setUp && events[n].Nack?) && After(start, events, p).results.rttReq == 1 then 0
      else TxsSinceRequest(start, events[..n], p) + if events[n].RoceTx? then 1 else 0
  }

  lemma RequestStep(o: Outcome, e: Event, p: Params, since: nat)
    requires o.ctx.curRate == 0 || Handshake(o.ctx)
    requires o.ctx.curRate != 0 && o.ctx.measPsn == 0 ==> o.ctx.reqToSent == 1 + since
    ensures
      var o' := Handle(o.ctx, e, p, o.results);
      var asks := !(o.ctx.curRate != 0 && e.Nack?) && o'.results.rttReq == 1;
      o'.ctx.measPsn == 0 ==>
        o'.ctx.reqToSent == if asks then 1 else 1 + since + if e.RoceTx? then 1 else 0
  {
    assert AbortThreshold(0) == 300000;
  }

  /** Unless a measurement is under way, a request has been made, and at most one TX event has
      passed since. */
  lemma {:induction false} RequestIsRecent(start: Outcome, events: seq<Event>, p: Params)
    requires start.ctx.curRate == 0 && events != []
    ensures
      var c := After(start, events, p).ctx;
      c.measPsn == 0 ==> c.reqToSent == 1 + TxsSinceRequest(start, events, p) <= 2
  {
    var n := |events| - 1;
    HandshakeHolds(start, events, p);
    var o := After(start, events[..n], p);
    if n > 0 {
      HandshakeHolds(start, events[..n], p);
      RequestIsRecent(start, events[..n], p);
    }
    RequestStep(o, events[n], p, TxsSinceRequest(start, events[..n], p));
  }

  /** Two TX events in a row never pass without a request having been sent or a new
      one being made. */
  lemma TwoTxEventsSuffice(c: Context, t1: nat, sent1: bool, t2: nat, sent2: bool, p: Params, before: Results)
    requires Handshake(c) && c.measPsn == 0 && c.curRate != 0
    ensures
      var o1 := Handle(c, RoceTx(t1, sent1), p, before);
      var o2 := Handle(o1.ctx, RoceTx(t2, sent2), p, o1.results);
      || o1.ctx.measPsn == 1 || o2.ctx.measPsn == 1
      || o1.results.rttReq == 1 || o2.results.rttReq == 1
  {
    assert AbortThreshold(0) == 300000;
  }

  // ---------- exponential back-off, in real time ----------

  /** An event together with the unwrapped time at which it happens. */
  datatype Timed = Timed(time: nat, event: Event)

  /** The context, and the unwrapped time at which start_delay was last recorded. */
  datatype Clocked = Clocked(out: Outcome, started: nat, now: nat)

  function Tick(s: Clocked, e: Timed, p: Params): Clocked {
    var out := Handle(s.out.ctx, e.event, p, s.out.results);
    var records := s.out.ctx.curRate == 0
      || (e.event.RoceTx? && e.event.rttReqSent && s.out.ctx.measPsn == 0);
    Clocked(out, if records then e.time else s.started, e.time)
  }

  function Ticks(s: Clocked, events: seq<Timed>, p: Params): Clocked {
    if events == [] then s
    else Tick(Ticks(s, events[..|events| - 1], p), events[|events| - 1], p)
  }

  /** Time does not run backwards, and each timestamp is its low 32 bits. */
  ghost predicate InTime(s: Clocked, events: seq<Timed>) {
    && (forall i :: 0 <= i < |events| ==> events[i].event.timestamp == events[i].time % TWO32)
    && (events != [] ==> events[0].time >= s.now)
    && forall i :: 0 < i < |events| ==> events[i - 1].time <= events[i].time
  }

  const LIMIT: nat := 300000 * 8192

  lemma Pow2At13()
    ensures Pow2(13) == 8192
  {
    assert Pow2(5) == 32;
    assert Pow2(9) == 512;
  }

  lemma ThresholdExact(a: nat)
    requires a <= 13
    ensures AbortThreshold(a) == 300000 * Pow2(a)
  {
    Pow2At13();
    PowGrows(a, 13);
    assert a % 32 == a;
    Fits(ABORT_TIME * Pow2(a));
  }

  lemma Fits(x: nat)
    requires x < TWO32
    ensures U32(x) == x
  {
  }

  /** A back-off count of a >= 1 is reached only after more than ABORT_TIME * 2^(a-1). */
  predicate CountIsEarned(s: Clocked) {
    s.out.ctx.abortCnt >= 1 ==> s.now - s.started > 300000 * Pow2(s.out.ctx.abortCnt - 1)
  }

  /** While the outstanding measurement is not too old: a back-off count of a means
      that more than ABORT_TIME * 2^(a-1) has passed since it was started. */
  ghost predicate BackedOff(s: Clocked) {
    var c := s.out.ctx;
    && s.started <= s.now
    && (c.measPsn == 1 ==> c.startDelay == s.started % TWO32)
    && (c.measPsn == 1 && s.now - s.started <= LIMIT ==>
         c.abortCnt <= 13 && CountIsEarned(s))
  }

  /** Across a wrap the computed time is short by one, but never wrong otherwise. */
  lemma ElapsedIsTrue(end: nat, start: nat)
    requires start <= end && end - start < TWO32
    ensures Elapsed(end % TWO32, start % TWO32) ==
      end - start - (if end % TWO32 < start % TWO32 then 1 else 0)
  {
    var q, r, q', r' := end / TWO32, end % TWO32, start / TWO32, start % TWO32;
    assert end - start == (q - q') * TWO32 + r - r';
    if r < r' {
      assert q - q' == 1;
      Residue(r - r', -1, r - r' + TWO32);
      Residue(r - r' + TWO32 + UINT32_MAX, 1, r - r' + TWO32 - 1);
    } else {
      assert q - q' == 0;
      Residue(r - r', 0, r - r');
    }
  }

  lemma Residue(x: int, k: int, r: nat)
    requires x == k * TWO32 + r && r < TWO32
    ensures U32(x) == r
  {
  }

  lemma TxAsks(c: Context, timestamp: nat, sent: bool)
    requires c.measPsn == 1 && c.reqToSent <= 1 && c.abortCnt <= 13
    ensures
      var o := OnTx(c, timestamp, sent);
      && o.results.rttReq == (if Elapsed(timestamp, c.startDelay) > AbortThreshold(c.abortCnt) then 1 else 0)
      && o.ctx == c.(abortCnt := c.abortCnt + o.results.rttReq,
                     reqToSent := if o.results.rttReq == 1 then 1 else c.reqToSent)
  {
    assert U8(c.abortCnt + 1) == c.abortCnt + 1;
  }

  /** A TX event is late exactly if more than the threshold has passed, less what the clock loses. */
  lemma TxIsLate(c: Context, time: nat, started: nat, sent: bool)
    requires c.measPsn == 1 && c.reqToSent <= 1 && c.startDelay == started % TWO32
    requires started <= time < started + TWO32 && c.abortCnt <= 13
    ensures
      var o := OnTx(c, time % TWO32, sent);
      var lost := if time % TWO32 < started % TWO32 then 1 else 0;
      && o.results.rttReq == (if time - started > 300000 * Pow2(c.abortCnt) + lost then 1 else 0)
      && o.ctx == c.(abortCnt := c.abortCnt + o.results.rttReq,
                     reqToSent := if o.results.rttReq == 1 then 1 else c.reqToSent)
  {
    TxAsks(c, time % TWO32, sent);
    ElapsedIsTrue(time, started);
    ThresholdExact(c.abortCnt);
  }

  lemma LimitBounds(a: nat)
    requires a <= 13
    ensures Pow2(a) <= 8192 && (a == 13 ==> Pow2(a) == 8192)
  {
    Pow2At13();
    PowGrows(a, 13);
  }

  /** A late TX event raises the count by one, and only after the doubled time. */
  lemma TxBacksOff(c: Context, time: nat, started: nat, sent: bool)
    requires c.measPsn == 1 && c.reqToSent <= 1 && c.startDelay == started % TWO32
    requires started <= time <= started + LIMIT && c.abortCnt <= 13
    ensures
      var c' := OnTx(c, time % TWO32, sent).ctx;
      c' == c.(abortCnt := c'.abortCnt, reqToSent := c'.reqToSent) &&
      (c'.abortCnt == c.abortCnt ||
        (c'.abortCnt == c.abortCnt + 1 <= 13 && time - started > 300000 * Pow2(c.abortCnt)))
  {
    TxIsLate(c, time, started, sent);
    LimitBounds(c.abortCnt);
  }

  lemma TickKeepsBackedOff(s: Clocked, e: Timed, p: Params)
    requires Handshake(s.out.ctx) || s.out.ctx.curRate == 0
    requires s.out.ctx.curRate == 0 || BackedOff(s)
    requires s.now <= e.time && e.event.timestamp == e.time % TWO32
    ensures BackedOff(Tick(s, e, p))
  {
    var c := s.out.ctx;
    if c.curRate != 0 && e.event.RoceTx? && c.measPsn == 1 {
      var c' := OnTx(c, e.event.timestamp, e.event.rttReqSent).ctx;
      assert c'.startDelay == c.startDelay;
      if e.time - s.started <= LIMIT {
        TxBacksOff(c, e.time, s.started, e.event.rttReqSent);
      }
    }
  }

  lemma {:induction false} BackOffHolds(s: Clocked, events: seq<Timed>, p: Params)
    requires s.out.ctx.curRate == 0 && InTime(s, events) && events != []
    ensures BackedOff(Ticks(s, events, p)) && Handshake(Ticks(s, events, p).out.ctx)
    ensures Ticks(s, events, p).now == events[|events| - 1].time
  {
    var n := |events| - 1;
    if n > 0 {
      BackOffHolds(s, events[..n], p);
    }
    var s' := Ticks(s, events[..n], p);
    TickKeepsBackedOff(s', events[n], p);
    HandleKeepsHandshake(s'.out.ctx, events[n].event, p, s'.out.results);
  }

  /** A measurement under way is asked for again at exactly those TX events that come more than
      ABORT_TIME * 2^a after its start, a being the back-off count, which then is one higher; one
      nanosecond is lost where the clock has wrapped. */
  lemma AskedAgainExactlyWhenLate(s: Clocked, events: seq<Timed>, e: Timed, p: Params)
    requires s.out.ctx.curRate == 0 && InTime(s, events) && events != []
    requires events[|events| - 1].time <= e.time && e.event.timestamp == e.time % TWO32 && e.event.RoceTx?
    ensures
      var before := Ticks(s, events, p);
      var c, after := before.out.ctx, Tick(before, e, p).out;
      var lost := if e.time % TWO32 < before.started % TWO32 then 1 else 0;
      c.curRate != 0 && c.measPsn == 1 && e.time - before.started <= LIMIT ==>
        && (after.results.rttReq == 1 <==> e.time - before.started > 300000 * Pow2(c.abortCnt) + lost)
        && after.ctx.measPsn == 1 && after.ctx.abortCnt == c.abortCnt + after.results.rttReq
  {
    BackOffHolds(s, events, p);
    var before := Ticks(s, events, p);
    var c := before.out.ctx;
    if c.curRate != 0 && c.measPsn == 1 && e.time - before.started <= LIMIT {
      TxIsLate(c, e.time, before.started, e.event.rttReqSent);
    }
  }

  function LateTxs(k: nat): seq<Timed> {
    seq(k, _ => Timed(LIMIT + 1, RoceTx(LIMIT + 1, false)))
  }

  lemma LateTx(c: Context)
    requires c.measPsn == 1 && c.startDelay == 0 && c.abortCnt < 15 && c.reqToSent <= 1
    ensures OnTx(c, LIMIT + 1, false).ctx == c.(abortCnt := c.abortCnt + 1, reqToSent := 1)
  {
    ThresholdPassed(c.abortCnt);
  }

  lemma ThresholdPassed(cnt: nat)
    requires cnt < 15
    ensures AbortThreshold(cnt) < LIMIT + 1
  {
    if cnt <= 13 {
      ThresholdExact(cnt);
      PowGrows(cnt, 13);
      Pow2At13();
    } else {
      FourteenWraps();
    }
  }

  lemma FourteenWraps()
    ensures Pow2(14) == 16384 && AbortThreshold(14) == 620232704 < LIMIT
  {
    Pow2At13();
    assert Pow2(14) == 2 * Pow2(13);
    Residue(ABORT_TIME * 16384, 1, 620232704);
  }

  lemma {:induction false} LateTxsCount(s: Clocked, p: Params, k: nat)
    requires s.out.ctx.measPsn == 1 && s.out.ctx.startDelay == 0 && s.out.ctx.abortCnt == 0
    requires s.out.ctx.reqToSent <= 1 && s.out.ctx.curRate != 0 && s.started == 0
    requires k <= 15
    ensures
      var s' := Ticks(s, LateTxs(k), p);
      && s'.out.ctx == s.out.ctx.(abortCnt := k, reqToSent := if k == 0 then s.out.ctx.reqToSent else 1)
      && s'.started == 0 && (k > 0 ==> s'.now == LIMIT + 1)
  {
    if k > 0 {
      LateTxsCount(s, p, k - 1);
      assert LateTxs(k)[..k - 1] == LateTxs(k - 1);
      LateTx(Ticks(s, LateTxs(k - 1), p).out.ctx);
    }
  }

  lemma {:induction false} TicksAppend(s: Clocked, a: seq<Timed>, b: seq<Timed>, p: Params)
    ensures Ticks(s, a + b, p) == Ticks(Ticks(s, a, p), b, p)
  {
    if b == [] {
      assert a + b == a;
    } else {
      var n := |b| - 1;
      assert (a + b)[..|a + b| - 1] == a + b[..n];
      TicksAppend(s, a, b[..n], p);
    }
  }

  /** A new flow whose first request is sent at once. */
  const FIRST_REQUEST: seq<Timed> := [Timed(0, OtherEvent(0)), Timed(0, RoceTx(0, true))]

  lemma FirstRequest(s: Clocked, p: Params)
    requires s.out.ctx.curRate == 0 && p.newFlowRate != 0
    ensures
      var s' := Ticks(s, FIRST_REQUEST, p);
      && s'.out.ctx.measPsn == 1 && s'.out.ctx.startDelay == 0 && s'.out.ctx.abortCnt == 0
      && s'.out.ctx.reqToSent == 0 && s'.out.ctx.curRate != 0 && s'.started == 0
  {
    assert FIRST_REQUEST[..1] == [Timed(0, OtherEvent(0))];
    assert FIRST_REQUEST[..1][..0] == [];
    assert Ticks(s, FIRST_REQUEST[..1], p) == Tick(s, Timed(0, OtherEvent(0)), p);
  }

  /** One nanosecond beyond the limit the shifted threshold has wrapped round 32 bits: a
      new flow whose first measurement stays unanswered counts to 15 in as many TX events,
      although ABORT_TIME * 2^14 is far from having passed. */
  lemma LimitIsSharp(s: Clocked, p: Params)
    requires s.out.ctx.curRate == 0 && s.now == 0 && p.newFlowRate != 0
    ensures InTime(s, FIRST_REQUEST + LateTxs(15))
    ensures
      var s' := Ticks(s, FIRST_REQUEST + LateTxs(15), p);
      && s'.out.ctx.measPsn == 1 && s'.out.ctx.abortCnt == 15 && s'.now - s'.started == LIMIT + 1
      && !CountIsEarned(s')
  {
    FirstRequest(s, p);
    TicksAppend(s, FIRST_REQUEST, LateTxs(15), p);
    LateTxsCount(Ticks(s, FIRST_REQUEST, p), p, 15);
    LateTxsInTime(s);
    FifteenIsUnearned(Ticks(s, FIRST_REQUEST + LateTxs(15), p));
  }

  lemma LateTxsInTime(s: Clocked)
    requires s.now == 0
    ensures InTime(s, FIRST_REQUEST + LateTxs(15))
  {
  }

  lemma FifteenIsUnearned(s: Clocked)
    requires s.out.ctx.abortCnt == 15 && s.now - s.started == LIMIT + 1
    ensures !CountIsEarned(s)
  {
    FourteenWraps();
  }

  // ---------- the rate ----------

  ghost predicate GoodParams(p: Params) {
    0 < p.minRate <= p.newFlowRate <= MAX_RATE
  }

  ghost predicate RateInRange(o: Outcome, p: Params) {
    p.minRate <= o.ctx.curRate <= MAX_RATE && o.results.rate == o.ctx.curRate
  }

  lemma HandleKeepsRate(c: Context, e: Event, p: Params, before: Results)
    requires GoodParams(p) && (c.curRate == 0 || p.minRate <= c.curRate <= MAX_RATE)
    ensures RateInRange(Handle(c, e, p, before), p)
  {
  }

  /** After every event the rate lies between its bounds and is the one reported. */
  lemma {:induction false} RateStaysInRange(start: Outcome, events: seq<Event>, p: Params)
    requires GoodParams(p) && start.ctx.curRate == 0 && events != []
    ensures RateInRange(After(start, events, p), p)
  {
    var n := |events| - 1;
    if n > 0 {
      RateStaysInRange(start, events[..n], p);
    }
    var o := After(start, events[..n], p);
    HandleKeepsRate(o.ctx, events[n], p, o.results);
  }

  function Measured(e: Event): nat
    requires e.RttEvent?
  {
    Elapsed(e.timestamp, e.sendTimestamp)
  }

  function RttEvents(events: seq<Event>): nat {
    if events == [] then 0
    else RttEvents(events[..|events| - 1]) + if events[|events| - 1].RttEvent? then 1 else 0
  }

  function Smaller(a: int, b: int): int {
    if a < b then a else b
  }

  /** n good measurements raise the rate by n increments, up to the maximum, whatever
      TX, NACK and other events come in between, as long as no CNP does. */
  lemma {:induction false} GoodRttsIncrease(start: Outcome, events: seq<Event>, p: Params)
    requires GoodParams(p) && MAX_RATE + p.ai < TWO32 && p.baseRtt < p.maxDelay
    requires Handshake(start.ctx) && !start.ctx.wasCnp && RateInRange(start, p)
    requires forall i :: 0 <= i < |events| ==>
      !events[i].Cnp? && (events[i].RttEvent? ==> Measured(events[i]) <= p.baseRtt)
    ensures
      var o := After(start, events, p);
      && Handshake(o.ctx) && !o.ctx.wasCnp && RateInRange(o, p)
      && o.ctx.curRate == Smaller(MAX_RATE, start.ctx.curRate + RttEvents(events) * p.ai)
  {
    if events != [] {
      var n := |events| - 1;
      GoodRttsIncrease(start, events[..n], p);
      var o := After(start, events[..n], p);
      HandleKeepsHandshake(o.ctx, events[n], p, o.results);
      HandleKeepsRate(o.ctx, events[n], p, o.results);
      GoodRtt(o, events[n], p);
      OneMoreIncrement(start.ctx.curRate, RttEvents(events[..n]), p.ai);
    }
  }

  lemma OneMoreIncrement(rate: nat, n: nat, ai: nat)
    ensures Smaller(MAX_RATE, Smaller(MAX_RATE, rate + n * ai) + ai) == Smaller(MAX_RATE, rate + (n + 1) * ai)
  {
    assert (n + 1) * ai == n * ai + ai;
  }

  lemma GoodRtt(o: Outcome, e: Event, p: Params)
    requires GoodParams(p) && MAX_RATE + p.ai < TWO32 && p.baseRtt < p.maxDelay
    requires Handshake(o.ctx) && !o.ctx.wasCnp && RateInRange(o, p)
    requires !e.Cnp? && (e.RttEvent? ==> Measured(e) <= p.baseRtt)
    ensures
      var c := Handle(o.ctx, e, p, o.results).ctx;
      && !c.wasCnp
      && c.curRate == if e.RttEvent? then Smaller(MAX_RATE, o.ctx.curRate + p.ai) else o.ctx.curRate
  {
  }

  /** The increment is the promised one exactly when the sum fits 32 bits: MAX_RATE + AI
      must, for this to hold at every rate. */
  lemma IncreaseExactlyWhenItFits(o: Outcome, e: Event, p: Params)
    requires GoodParams(p) && p.minRate < MAX_RATE && p.ai < TWO32 && p.baseRtt < p.maxDelay
    requires Handshake(o.ctx) && !o.ctx.wasCnp && RateInRange(o, p)
    requires e.RttEvent? && Measured(e) <= p.baseRtt
    ensures Handle(o.ctx, e, p, o.results).ctx.curRate == Smaller(MAX_RATE, o.ctx.curRate + p.ai)
      <==> o.ctx.curRate + p.ai < TWO32
  {
    var sum := o.ctx.curRate + p.ai;
    assert Handle(o.ctx, e, p, o.results).ctx.curRate == Clamp(U32(sum), p);
    if sum >= TWO32 {
      Wraps(sum);
    }
  }

  lemma Wraps(x: nat)
    requires TWO32 <= x < 2 * TWO32
    ensures U32(x) == x - TWO32
  {
  }

  /** The largest increment that the parameter may be set to. */
  const AI_MAX: int := 0x10_0000

  /** No increment that can be configured ever wraps. */
  lemma ConfiguredIncrease(o: Outcome, e: Event, p: Params)
    requires GoodParams(p) && p.ai <= AI_MAX && p.baseRtt < p.maxDelay
    requires Handshake(o.ctx) && !o.ctx.wasCnp && RateInRange(o, p)
    requires e.RttEvent? && Measured(e) <= p.baseRtt
    ensures Handle(o.ctx, e, p, o.results).ctx.curRate == Smaller(MAX_RATE, o.ctx.curRate + p.ai)
  {
    GoodRtt(o, e, p);
  }

  // ---------- what a notification costs ----------

  /** rate * (1 - times * UPDATE_FACTOR / 2^16), rounded down, but at least MIN_RATE. */
  function Reduced(rate: nat, times: nat, p: Params): nat {
    var product := (65536 - times * p.updateFactor) * rate / 65536;
    if product < p.minRate then p.minRate else product
  }

  function ReducedOften(rate: nat, times: nat, p: Params, n: nat): nat {
    if n == 0 then rate else Reduced(ReducedOften(rate, times, p, n - 1), times, p)
  }

  lemma ClampedProduct(times: nat, rate: nat, p: Params)
    requires GoodParams(p) && times * p.updateFactor <= 65536 && rate <= MAX_RATE
    ensures Clamp(FxpMult(Factor(p, times), rate), p) == Reduced(rate, times, p)
  {
    var factor := 65536 - times * p.updateFactor;
    Fits(factor);
    Products(factor, 65536, rate);
    Fits(factor * rate / 65536);
  }

  /** A notification at the given rate, and n good measurements since. */
  ghost predicate NotifiedAt(o: Outcome, p: Params, rate: nat, lowered: nat, n: nat) {
    && Handshake(o.ctx) && RateInRange(o, p) && o.ctx.wasCnp == (n == 0)
    && o.ctx.curRate == if n == 0 then rate else Smaller(MAX_RATE, lowered + (n - 1) * p.ai)
  }

  /** The first good measurement consumes the notification. */
  lemma NotifiedStep(o: Outcome, e: Event, p: Params, rate: nat, n: nat)
    requires GoodParams(p) && 2 * p.updateFactor <= 65536 && MAX_RATE + p.ai < TWO32 && p.baseRtt < p.maxDelay
    requires NotifiedAt(o, p, rate, Reduced(rate, 2, p), n)
    requires !e.Cnp? && (e.RttEvent? ==> Measured(e) <= p.baseRtt)
    ensures NotifiedAt(Handle(o.ctx, e, p, o.results), p, rate, Reduced(rate, 2, p),
                       n + if e.RttEvent? then 1 else 0)
  {
    HandleKeepsHandshake(o.ctx, e, p, o.results);
    HandleKeepsRate(o.ctx, e, p, o.results);
    if n > 0 {
      GoodRtt(o, e, p);
      OneMoreIncrement(Reduced(rate, 2, p), n - 1, p.ai);
    } else if e.RttEvent? {
      ClampedProduct(2, rate, p);
      assert 0 * p.ai == 0;
    }
  }

  /** A congestion notification is paid for once: of the n good measurements behind it the first
      lowers the rate by twice the factor, and each of the others raises it again, whatever TX,
      NACK and other events come in between, as long as no further CNP does. */
  lemma {:induction false} NotificationCountsOnce(start: Outcome, t: nat, events: seq<Event>, p: Params)
    requires GoodParams(p) && 2 * p.updateFactor <= 65536 && MAX_RATE + p.ai < TWO32 && p.baseRtt < p.maxDelay
    requires Handshake(start.ctx) && RateInRange(start, p)
    requires forall i :: 0 <= i < |events| ==>
      !events[i].Cnp? && (events[i].RttEvent? ==> Measured(events[i]) <= p.baseRtt)
    ensures NotifiedAt(After(start, [Cnp(t)] + events, p), p, start.ctx.curRate,
                       Reduced(start.ctx.curRate, 2, p), RttEvents(events))
  {
    if events == [] {
      AfterNext(start, [], Cnp(t), p);
      assert [] + [Cnp(t)] == [Cnp(t)] + events;
    } else {
      var n := |events| - 1;
      NotificationCountsOnce(start, t, events[..n], p);
      assert [Cnp(t)] + events == [Cnp(t)] + events[..n] + [events[n]];
      AfterNext(start, [Cnp(t)] + events[..n], events[n], p);
      NotifiedStep(After(start, [Cnp(t)] + events[..n], p), events[n], p, start.ctx.curRate, RttEvents(events[..n]));
    }
  }

  /** A NACK at the given rate, and n late measurements since. */
  ghost predicate NackedAt(o: Outcome, p: Params, rate: nat, n: nat) {
    && Handshake(o.ctx) && RateInRange(o, p) && o.ctx.wasNack == (n == 0)
    && o.ctx.curRate == if n == 0 then rate else ReducedOften(Reduced(rate, 5, p), 2, p, n - 1)
  }

  /** A NACK costs five times the factor, once. */
  lemma LateStep(o: Outcome, e: Event, p: Params, rate: nat, n: nat)
    requires GoodParams(p) && 5 * p.updateFactor <= 65536 && NackedAt(o, p, rate, n)
    requires !e.Nack? && (e.RttEvent? ==> Measured(e) >= p.maxDelay)
    ensures NackedAt(Handle(o.ctx, e, p, o.results), p, rate, n + if e.RttEvent? then 1 else 0)
  {
    HandleKeepsHandshake(o.ctx, e, p, o.results);
    HandleKeepsRate(o.ctx, e, p, o.results);
    if e.RttEvent? {
      ClampedProduct(if n == 0 then 5 else 2, o.ctx.curRate, p);
    }
  }

  /** A NACK is paid for once: of the n late measurements behind it the first lowers the rate by
      five times the factor and each of the others by twice, whatever but a further NACK comes
      in between. */
  lemma {:induction false} NackCountsOnce(start: Outcome, t: nat, events: seq<Event>, p: Params)
    requires GoodParams(p) && 5 * p.updateFactor <= 65536
    requires Handshake(start.ctx) && RateInRange(start, p)
    requires forall i :: 0 <= i < |events| ==>
      !events[i].Nack? && (events[i].RttEvent? ==> Measured(events[i]) >= p.maxDelay)
    ensures NackedAt(After(start, [Nack(t)] + events, p), p, start.ctx.curRate, RttEvents(events))
  {
    if events == [] {
      AfterNext(start, [], Nack(t), p);
      assert [] + [Nack(t)] == [Nack(t)] + events;
    } else {
      var n := |events| - 1;
      NackCountsOnce(start, t, events[..n], p);
      assert [Nack(t)] + events == [Nack(t)] + events[..n] + [events[n]];
      AfterNext(start, [Nack(t)] + events[..n], events[n], p);
      LateStep(After(start, [Nack(t)] + events[..n], p), events[n], p, start.ctx.curRate, RttEvents(events[..n]));
    }
  }

  /** One event among such measurements. */
  lemma SlowStep(o: Outcome, e: Event, p: Params)
    requires GoodParams(p) && p.updateFactor <= 65536
    requires Handshake(o.ctx) && RateInRange(o, p) && !o.ctx.wasCnp
    requires !e.Cnp? && (e.RttEvent? ==> p.baseRtt < Measured(e) < p.maxDelay)
    ensures
      var o' := Handle(o.ctx, e, p, o.results);
      && Handshake(o'.ctx) && RateInRange(o', p) && !o'.ctx.wasCnp
      && o'.ctx.curRate == if e.RttEvent? then Reduced(o.ctx.curRate, 1, p) else o.ctx.curRate
  {
    HandleKeepsHandshake(o.ctx, e, p, o.results);
    HandleKeepsRate(o.ctx, e, p, o.results);
    ClampedProduct(1, o.ctx.curRate, p);
  }

  /** Without a pending CNP a measurement above BASE_RTT that is not late costs the factor once,
      whatever but a CNP comes in between. */
  lemma {:induction false} SlowRttsDecrease(start: Outcome, events: seq<Event>, p: Params)
    requires GoodParams(p) && p.updateFactor <= 65536
    requires Handshake(start.ctx) && RateInRange(start, p) && !start.ctx.wasCnp
    requires forall i :: 0 <= i < |events| ==>
      !events[i].Cnp? && (events[i].RttEvent? ==> p.baseRtt < Measured(events[i]) < p.maxDelay)
    ensures
      var o := After(start, events, p);
      && Handshake(o.ctx) && RateInRange(o, p) && !o.ctx.wasCnp
      && o.ctx.curRate == ReducedOften(start.ctx.curRate, 1, p, RttEvents(events))
  {
    if events != [] {
      var n := |events| - 1;
      SlowRttsDecrease(start, events[..n], p);
      SlowStep(After(start, events[..n], p), events[n], p);
    }
  }

  /** In high utilisation every measurement acts as it otherwise does with twice the factor. */
  lemma HighUtilDoubles(c: Context, rtt: nat, rate: nat, p: Params)
    ensures CoreRate(c, rtt, rate, p, true) == CoreRate(c, rtt, rate, p.(updateFactor := 2 * p.updateFactor), false)
  {
  }

  // ---------- multiplicative decrease, in exact arithmetic ----------

  function Power(x: real, n: nat): real {
    if n == 0 then 1.0 else Scale(x, Power(x, n - 1))
  }

  function Scale(x: real, y: real): real {
    x * y
  }

  function Larger(a: real, b: real): real {
    if a < b then b else a
  }

  /** DEC_FACTOR / 2^16 */
  function DecFactor(p: Params): real {
    (65536 - p.updateFactor) as real / 65536.0
  }

  lemma {:induction false} PowerPositive(x: real, n: nat)
    requires x >= 0.0
    ensures Power(x, n) >= 0.0
  {
    if n > 0 {
      PowerPositive(x, n - 1);
    }
  }

  /** The product is rounded down, and a larger factor gives a larger product. */
  lemma FxpMultBound(factor: nat, most: nat, rate: nat)
    requires factor <= most <= 65536 && rate <= MAX_RATE
    ensures FxpMult(factor, rate) as real <= Scale(most as real / 65536.0, rate as real)
  {
    Products(factor, most, rate);
    Products(most, 65536, rate);
    var q := factor * rate / 65536;
    assert FxpMult(factor, rate) == q;
    Quotients(q, most, rate);
  }

  lemma Quotients(q: nat, most: nat, rate: nat)
    requires 65536 * q <= most * rate
    ensures q as real <= Scale(most as real / 65536.0, rate as real)
  {
    assert (most * rate) as real == most as real * rate as real;
    assert 65536.0 * q as real <= (most * rate) as real;
  }

  /** Whatever branch a bad measurement takes, it decreases at least by DEC_FACTOR. */
  lemma CoreRateBound(c: Context, rtt: nat, rate: nat, p: Params)
    requires 5 * p.updateFactor <= 65536 && rtt > p.baseRtt && rate <= MAX_RATE
    ensures CoreRate(c, rtt, rate, p, false) as real <= Scale(DecFactor(p), rate as real)
  {
    var most := 65536 - p.updateFactor;
    Fits(most);
    Fits(65536 - 2 * p.updateFactor);
    Fits(65536 - 5 * p.updateFactor);
    FxpMultBound(Factor(p, 1), most, rate);
    FxpMultBound(Factor(p, 2), most, rate);
    FxpMultBound(Factor(p, 5), most, rate);
  }

  /** What one more measurement above BASE_RTT, or any other event, does to the rate. */
  ghost predicate Lowered(o: Outcome, e: Event, p: Params, rate: nat) {
    if e.RttEvent? then rate as real <= Larger(p.minRate as real, Scale(DecFactor(p), o.ctx.curRate as real))
    else rate == o.ctx.curRate
  }

  lemma ClampBound(rate: nat, p: Params, bound: real)
    requires rate as real <= bound
    ensures Clamp(rate, p) as real <= Larger(p.minRate as real, bound)
  {
  }

  lemma BadRtt(o: Outcome, e: Event, p: Params)
    requires 5 * p.updateFactor <= 65536
    requires GoodParams(p) && Handshake(o.ctx) && RateInRange(o, p)
    requires e.RttEvent? ==> Measured(e) > p.baseRtt
    ensures Lowered(o, e, p, Handle(o.ctx, e, p, o.results).ctx.curRate)
  {
    if e.RttEvent? {
      var rate := CoreRate(o.ctx, Measured(e), o.ctx.curRate, p, false);
      CoreRateBound(o.ctx, Measured(e), o.ctx.curRate, p);
      ClampBound(rate, p, Scale(DecFactor(p), o.ctx.curRate as real));
      assert Handle(o.ctx, e, p, o.results).ctx.curRate == Clamp(rate, p);
    }
  }

  lemma ScaleGrows(f: real, a: real, b: real)
    requires 0.0 <= f && a <= b
    ensures Scale(f, a) <= Scale(f, b)
  {
  }

  lemma ScaleTwice(f: real, x: real, y: real)
    ensures Scale(f, Scale(x, y)) == Scale(Scale(f, x), y)
  {
  }

  lemma ScaleShrinks(f: real, y: real)
    requires 0.0 <= f <= 1.0 && 0.0 <= y
    ensures Scale(f, y) <= y
  {
    assert (1.0 - f) * y >= 0.0;
  }

  lemma OneMoreFactor(f: real, x: real, start: real, least: real, rate: real)
    requires 0.0 <= f <= 1.0 && 0.0 <= least
    requires rate <= Larger(least, Scale(x, start))
    ensures Larger(least, Scale(f, rate)) <= Larger(least, Scale(Scale(f, x), start))
  {
    ScaleGrows(f, rate, Larger(least, Scale(x, start)));
    ScaleTwice(f, x, start);
    ScaleShrinks(f, least);
  }

  lemma FactorInRange(p: Params)
    requires 5 * p.updateFactor <= 65536
    ensures 0.0 <= DecFactor(p) <= 1.0
  {
  }

  /** n bad measurements bring the rate down at least geometrically, to the minimum
      at the latest, whatever CNPs, NACKs and other events come in between. */
  lemma {:induction false} BadRttsDecrease(start: Outcome, events: seq<Event>, p: Params)
    requires GoodParams(p) && 5 * p.updateFactor <= 65536
    requires Handshake(start.ctx) && RateInRange(start, p)
    requires forall i :: 0 <= i < |events| && events[i].RttEvent? ==> Measured(events[i]) > p.baseRtt
    ensures Handshake(After(start, events, p).ctx) && RateInRange(After(start, events, p), p)
    ensures After(start, events, p).ctx.curRate as real
      <= Larger(p.minRate as real, Scale(Power(DecFactor(p), RttEvents(events)), start.ctx.curRate as real))
  {
    if events == [] {
      assert Power(DecFactor(p), 0) == 1.0;
    } else {
      var n := |events| - 1;
      BadRttsDecrease(start, events[..n], p);
      var o := After(start, events[..n], p);
      HandleKeepsHandshake(o.ctx, events[n], p, o.results);
      HandleKeepsRate(o.ctx, events[n], p, o.results);
      BadRtt(o, events[n], p);
      FactorInRange(p);
      OneMoreFactor(DecFactor(p), Power(DecFactor(p), RttEvents(events[..n])), start.ctx.curRate as real,
                    p.minRate as real, o.ctx.curRate as real);
    }
  }

  // ---------- exactly which factors decrease ----------

  /** The largest factor that the parameter may be set to. */
  const UPDATE_FACTOR_MAX: int := 655360

  /** One bad measurement in a state that a flow can be in. */
  ghost predicate IsBad(o: Outcome, e: Event, p: Params) {
    Handshake(o.ctx) && RateInRange(o, p) && e.RttEvent? && Measured(e) > p.baseRtt
  }

  ghost predicate Decreases(o: Outcome, e: Event, p: Params) {
    Handle(o.ctx, e, p, o.results).ctx.curRate as real
      <= Larger(p.minRate as real, Scale(DecFactor(p), o.ctx.curRate as real))
  }

  /** A factor too large makes 2^16 - times * UPDATE_FACTOR wrap, and the product with it. */
  lemma WrappedFactor(p: Params, times: nat)
    requires times in {2, 5} && 65536 < times * p.updateFactor && p.updateFactor <= UPDATE_FACTOR_MAX
    ensures FxpMult(Factor(p, times), MAX_RATE) > MAX_RATE
  {
    var over := times * p.updateFactor - 65536;
    assert Factor(p, times) == TWO32 - over;
    assert Factor(p, times) * MAX_RATE / 65536 == 16 * (TWO32 - over);
    SixteenfoldWraps(16 * over);
  }

  lemma SixteenfoldWraps(over: nat)
    requires 0 < over < TWO32
    ensures U32(16 * TWO32 - over) == TWO32 - over
  {
  }

  /** The latest measurement that fits 32 bits, while a NACK is pending at the full rate. */
  lemma StaysAtMaximum(p: Params, flow: FlowTable.Meta) returns (o: Outcome, e: Event)
    requires GoodParams(p) && p.minRate < MAX_RATE && 65536 < 5 * p.updateFactor <= 5 * UPDATE_FACTOR_MAX
    requires p.baseRtt < UINT32_MAX && p.maxDelay <= UINT32_MAX
    ensures IsBad(o, e, p) && !Decreases(o, e, p)
  {
    o := Outcome(Context(MAX_RATE, 0, 0, true, false, 0, 0, 1), Results(MAX_RATE, 0));
    e := RttEvent(UINT32_MAX, 0, flow);
    WrappedFactor(p, 5);
    assert Handle(o.ctx, e, p, o.results).ctx.curRate == MAX_RATE;
    SmallerThanWhole(p);
  }

  lemma SmallerThanWhole(p: Params)
    requires p.updateFactor > 0
    ensures Scale(DecFactor(p), MAX_RATE as real) < MAX_RATE as real
  {
    assert DecFactor(p) < 1.0;
  }

  /** Every bad measurement decreases the rate exactly when five times the factor is at most
      2^16, unless the bounds leave only one rate or no measurement is bad. */
  lemma DecreasesExactlyWhen(p: Params)
    requires GoodParams(p) && p.updateFactor <= UPDATE_FACTOR_MAX && p.maxDelay <= UINT32_MAX
    ensures (forall o, e {:trigger Decreases(o, e, p)} :: IsBad(o, e, p) ==> Decreases(o, e, p))
      <==> 5 * p.updateFactor <= 65536 || p.minRate == MAX_RATE || p.baseRtt >= UINT32_MAX
  {
    if 5 * p.updateFactor <= 65536 || p.minRate == MAX_RATE || p.baseRtt >= UINT32_MAX {
      forall o, e | IsBad(o, e, p)
        ensures Decreases(o, e, p)
      {
        if 5 * p.updateFactor <= 65536 {
          BadRtt(o, e, p);
        } else {
          HandleKeepsRate(o.ctx, e, p, o.results);
        }
      }
    } else {
      var o, e := StaysAtMaximum(p, FlowTable.Meta(0, 0, 0, 0, 0, 0));
      assert IsBad(o, e, p) && !Decreases(o, e, p);
    }
  }

  /** A good measurement with a notification pending, in a state that a flow can be in. */
  ghost predicate IsNotified(o: Outcome, e: Event, p: Params) {
    Handshake(o.ctx) && RateInRange(o, p) && o.ctx.wasCnp && e.RttEvent? && Measured(e) <= p.baseRtt
  }

  ghost predicate Pays(o: Outcome, e: Event, p: Params) {
    Handle(o.ctx, e, p, o.results).ctx.curRate == Reduced(o.ctx.curRate, 2, p)
  }

  lemma ReducedAtMost(rate: nat, times: nat, p: Params)
    ensures Reduced(rate, times, p) <= if rate < p.minRate then p.minRate else rate
  {
    Products(0, times * p.updateFactor, rate);
    assert (65536 - times * p.updateFactor) * rate == 65536 * rate - times * p.updateFactor * rate;
  }

  /** Every pending notification lowers the rate as promised exactly when twice the factor is at
      most 2^16, unless the bounds leave only one rate. */
  lemma PaysExactlyWhen(p: Params)
    requires GoodParams(p) && p.updateFactor <= UPDATE_FACTOR_MAX && p.baseRtt < p.maxDelay
    ensures (forall o, e {:trigger Pays(o, e, p)} :: IsNotified(o, e, p) ==> Pays(o, e, p))
      <==> 2 * p.updateFactor <= 65536 || p.minRate == MAX_RATE
  {
    if 2 * p.updateFactor <= 65536 || p.minRate == MAX_RATE {
      forall o, e | IsNotified(o, e, p)
        ensures Pays(o, e, p)
      {
        if 2 * p.updateFactor <= 65536 {
          ClampedProduct(2, o.ctx.curRate, p);
        } else {
          HandleKeepsRate(o.ctx, e, p, o.results);
          ReducedAtMost(o.ctx.curRate, 2, p);
        }
      }
    } else {
      var o := Outcome(Context(MAX_RATE, 0, 0, false, true, 0, 0, 1), Results(MAX_RATE, 0));
      var e := RttEvent(0, 0, FlowTable.Meta(0, 0, 0, 0, 0, 0));
      WrappedFactor(p, 2);
      assert Handle(o.ctx, e, p, o.results).ctx.curRate == MAX_RATE;
      assert Reduced(MAX_RATE, 2, p) < MAX_RATE;
      assert IsNotified(o, e, p) && !Pays(o, e, p);
    }
  }

  lemma AfterNext(start: Outcome, events: seq<Event>, e: Event, p: Params)
    ensures After(start, events + [e], p) == Handle(After(start, events, p).ctx, e, p, After(start, events, p).results)
  {
    assert (events + [e])[..|events|] == events;
  }

  /** With factor 13108 a late measurement behind a NACK raises a new flow's rate of 1000 to
      the maximum. */
  lemma LateMeasurementRaises(start: Outcome, flow: FlowTable.Meta, ai: nat)
    requires start.ctx.curRate == 0
    ensures
      var p := Params(13108, ai, 13000, 1000, 64, 150000);
      && After(start, [OtherEvent(0), Nack(1)], p).ctx.curRate == 1000
      && After(start, [OtherEvent(0), Nack(1), RttEvent(200000, 0, flow)], p).ctx.curRate == MAX_RATE
  {
    var p := Params(13108, ai, 13000, 1000, 64, 150000);
    AfterNext(start, [], OtherEvent(0), p);
    AfterNext(start, [OtherEvent(0)], Nack(1), p);
    AfterNext(start, [OtherEvent(0), Nack(1)], RttEvent(200000, 0, flow), p);
    assert [] + [OtherEvent(0)] == [OtherEvent(0)];
    assert [OtherEvent(0)] + [Nack(1)] == [OtherEvent(0), Nack(1)];
    assert [OtherEvent(0), Nack(1)] + [RttEvent(200000, 0, flow)]
        == [OtherEvent(0), Nack(1), RttEvent(200000, 0, flow)];
    assert Factor(p, 5) == TWO32 - 4;
    assert FxpMult(TWO32 - 4, 1000) == 65535999;
  }
}
