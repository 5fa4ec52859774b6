/** The per-flow congestion controller: the handshake that keeps one round-trip
    measurement in flight, its exponential back-off, and the rate update. */
module RttController {
  import opened Powers
  import opened FlowTable

  const TWO32: int := 0x1_0000_0000
  const UINT32_MAX: int := 0xffff_ffff
  const MAX_RATE: int := 0x10_0000
  const ABORT_TIME: int := 300000

  function U32(x: int): (r: nat)
    ensures r < TWO32
  {
    x % TWO32
  }

  function U8(x: int): (r: nat)
    ensures r < 256
  {
    x % 256
  }

  /** ABORT_TIME << cnt in 32 bits; the shift count is read modulo 32. */
  function AbortThreshold(cnt: nat): nat {
    U32(ABORT_TIME * Pow2(cnt % 32))
  }

  /** 16-bit fixed-point product. */
  function FxpMult(a: nat, b: nat): nat {
    U32(a * b / 65536)
  }

  datatype Params = Params(updateFactor: nat, ai: nat, baseRtt: nat, newFlowRate: nat, minRate: nat, maxDelay: nat)

  /** The context the library keeps for one flow. */
  datatype Context = Context(
    curRate: nat, startDelay: nat, rtt: nat, wasNack: bool, wasCnp: bool,
    abortCnt: nat, measPsn: nat, reqToSent: nat)

  datatype Results = Results(rate: nat, rttReq: nat)

  datatype Event =
    | RoceTx(timestamp: nat, rttReqSent: bool)
    | RttEvent(timestamp: nat, sendTimestamp: nat, flow: Meta)
    | Cnp(timestamp: nat)
    | Nack(timestamp: nat)
    | OtherEvent(timestamp: nat)

  datatype Outcome = Outcome(ctx: Context, results: Results)

  function Factor(p: Params, times: nat): nat {
    U32(65536 - times * p.updateFactor)
  }

  /** The rate before clamping, and the two flags it consumes. */
  function CoreRate(c: Context, rtt: nat, rate: nat, p: Params, highUtil: bool): nat {
    if c.wasNack && rtt >= p.maxDelay then FxpMult(Factor(p, if highUtil then 10 else 5), rate)
    else if c.wasCnp || rtt >= p.maxDelay then FxpMult(Factor(p, if highUtil then 4 else 2), rate)
    else if rtt > p.baseRtt then FxpMult(Factor(p, if highUtil then 2 else 1), rate)
    else U32(rate + p.ai)
  }

  function CoreFlags(c: Context, rtt: nat, p: Params): Context {
    if c.wasNack && rtt >= p.maxDelay then c.(wasNack := false)
    else if c.wasCnp || rtt >= p.maxDelay then c.(wasCnp := false)
    else c
  }

  function Clamp(rate: nat, p: Params): nat {
    var capped := if rate > MAX_RATE then MAX_RATE else rate;
    if capped < p.minRate then p.minRate else capped
  }

  /** Elapsed time as the code computes it: when the counter has wrapped it adds
      UINT32_MAX, one short of the modulus. */
  function Elapsed(end: nat, start: nat): nat {
    if end < start then U32(U32(end - start) + UINT32_MAX) else U32(end - start)
  }

  function NewFlow(c: Context, timestamp: nat, p: Params): Outcome {
    Outcome(
      c.(curRate := p.newFlowRate, startDelay := timestamp, measPsn := 0, reqToSent := 1, abortCnt := 0,
         wasNack := false),
      Results(p.newFlowRate, 1))
  }

  function OnTx(c: Context, timestamp: nat, rttReqSent: bool): Outcome {
    if rttReqSent && c.measPsn == 0 then
      Outcome(c.(measPsn := 1, reqToSent := 0, startDelay := timestamp), Results(c.curRate, 0))
    else
      var rttTillNow := if c.measPsn == 0 then 0 else Elapsed(timestamp, c.startDelay);
      var waiting := if c.measPsn == 0 then U8(c.reqToSent + 1) else c.reqToSent;
      var late := rttTillNow > AbortThreshold(c.abortCnt);
      if late || waiting > 2 then
        Outcome(c.(abortCnt := if late then U8(c.abortCnt + 1) else c.abortCnt, reqToSent := 1), Results(c.curRate, 1))
      else
        Outcome(c.(reqToSent := waiting), Results(c.curRate, 0))
  }

  /** The round-trip time that was waited for has been measured. */
  function OnMeasurement(c: Context, rtt: nat, p: Params): Outcome {
    var rate := Clamp(CoreRate(c, rtt, c.curRate, p, false), p);
    Outcome(
      CoreFlags(c, rtt, p).(measPsn := 0, abortCnt := 0, rtt := rtt, reqToSent := 1, curRate := rate),
      Results(rate, 1))
  }

  function OnRtt(c: Context, timestamp: nat, sendTimestamp: nat, p: Params): Outcome {
    if c.measPsn == 0 && c.reqToSent == 0 then Outcome(c, Results(c.curRate, 0))
    else OnMeasurement(c, Elapsed(timestamp, sendTimestamp), p)
  }

  /** One event; a NACK leaves the request field of the results as it was. */
  function Handle(c: Context, e: Event, p: Params, before: Results): Outcome {
    if c.curRate == 0 then NewFlow(c, e.timestamp, p)
    else
      match e
      case RoceTx(timestamp, rttReqSent) => OnTx(c, timestamp, rttReqSent)
      case RttEvent(timestamp, sendTimestamp, _) => OnRtt(c, timestamp, sendTimestamp, p)
      case Cnp(_) => Outcome(c.(wasCnp := true), Results(c.curRate, 0))
      case Nack(_) => Outcome(c.(wasNack := true), before.(rate := c.curRate))
      case OtherEvent(_) => Outcome(c, Results(c.curRate, 0))
  }

  /** Whether an event refreshes the flow table. */
  predicate Measures(c: Context, e: Event) {
    c.curRate != 0 && e.RttEvent? && !(c.measPsn == 0 && c.reqToSent == 0)
  }

  // ---------- the handlers, assigning fields as the device code does ----------

  class Flow {
    var curRate: nat
    var startDelay: nat
    var rtt: nat
    var wasNack: bool
    var wasCnp: bool
    var abortCnt: nat
    var measPsn: nat
    var reqToSent: nat
    var resultRate: nat
    var resultRttReq: nat

    function Ctx(): Context
      reads this
    {
      Context(curRate, startDelay, rtt, wasNack, wasCnp, abortCnt, measPsn, reqToSent)
    }

    function Res(): Results
      reads this
    {
      Results(resultRate, resultRttReq)
    }

    constructor ()
      ensures Ctx() == Context(0, 0, 0, false, false, 0, 0, 0) && Res() == Results(0, 0)
    {
      curRate, startDelay, rtt, wasNack, wasCnp := 0, 0, 0, false, false;
      abortCnt, measPsn, reqToSent, resultRate, resultRttReq := 0, 0, 0, 0, 0;
    }

    method AlgorithmCore(measured: nat, rate0: nat, p: Params, highUtil: bool) returns (rate: nat)
      modifies this`wasNack, this`wasCnp
      ensures rate == Clamp(CoreRate(old(Ctx()), measured, rate0, p, highUtil), p)
      ensures Ctx() == CoreFlags(old(Ctx()), measured, p)
    {
      rate := rate0;
      if wasNack && measured >= p.maxDelay {
        rate := FxpMult(if highUtil then Factor(p, 10) else Factor(p, 5), rate);
        wasNack := false;
      } else if wasCnp || measured >= p.maxDelay {
        rate := FxpMult(if highUtil then Factor(p, 4) else Factor(p, 2), rate);
        wasCnp := false;
      } else {
        if measured > p.baseRtt {
          rate := FxpMult(if highUtil then Factor(p, 2) else Factor(p, 1), rate);
        } else {
          rate := U32(rate + p.ai);
        }
      }
      if rate > MAX_RATE {
        rate := MAX_RATE;
      }
      if rate < p.minRate {
        rate := p.minRate;
      }
    }

    method HandleRoceTx(timestamp: nat, rttReqSent: bool)
      modifies this
      ensures Outcome(Ctx(), Res()) == OnTx(old(Ctx()), timestamp, rttReqSent)
    {
      var rttReq := 0;
      if rttReqSent && measPsn == 0 {
        measPsn := 1;
        reqToSent := 0;
        startDelay := timestamp;
      } else {
        var rttTillNow := U32(timestamp - startDelay);
        if startDelay > timestamp {
          rttTillNow := U32(rttTillNow + UINT32_MAX);
        }
        if measPsn == 0 {
          rttTillNow := 0;
          reqToSent := U8(reqToSent + 1);
        }
        if rttTillNow > AbortThreshold(abortCnt) || reqToSent > 2 {
          rttReq := 1;
          if rttTillNow > AbortThreshold(abortCnt) {
            abortCnt := U8(abortCnt + 1);
          }
          reqToSent := 1;
        }
      }
      resultRate := curRate;
      resultRttReq := rttReq;
    }

    method RoundTrip(timestamp: nat, sendTimestamp: nat) returns (measured: nat)
      ensures measured == Elapsed(timestamp, sendTimestamp)
    {
      measured := U32(timestamp - sendTimestamp);
      if timestamp < sendTimestamp {
        measured := U32(measured + UINT32_MAX);
      }
    }

    method HandleRoceRtt(timestamp: nat, sendTimestamp: nat, flow: Meta, p: Params, table: Table)
      requires table.Valid()
      modifies this, table`curNbFlows, table.metas
      ensures table.Valid()
      ensures Outcome(Ctx(), Res()) == OnRtt(old(Ctx()), timestamp, sendTimestamp, p)
      ensures table.Entries() ==
        if old(measPsn == 0 && reqToSent == 0) then old(table.Entries())
        else Refreshed(old(table.Entries()), flow.(rtt := Elapsed(timestamp, sendTimestamp)))
    {
      if measPsn == 0 && reqToSent == 0 {
        resultRate := curRate;
        resultRttReq := 0;
        return;
      }
      var measured := RoundTrip(timestamp, sendTimestamp);
      table.Refresh(flow.(rtt := measured));
      TakeMeasurement(measured, p);
    }

    method TakeMeasurement(measured: nat, p: Params)
      modifies this
      ensures Outcome(Ctx(), Res()) == OnMeasurement(old(Ctx()), measured, p)
    {
      measPsn := 0;
      abortCnt := 0;
      rtt := measured;
      var rate := AlgorithmCore(measured, curRate, p, false);
      reqToSent := 1;
      curRate := rate;
      resultRate := rate;
      resultRttReq := 1;
    }

    method HandleNewFlow(timestamp: nat, p: Params)
      modifies this
      ensures Outcome(Ctx(), Res()) == NewFlow(old(Ctx()), timestamp, p)
    {
      curRate := p.newFlowRate;
      startDelay := timestamp;
      measPsn := 0;
      reqToSent := 1;
      abortCnt := 0;
      wasNack := false;
      resultRate := p.newFlowRate;
      resultRttReq := 1;
    }

    /** The entry point: one event of this flow. */
    method Algo(e: Event, p: Params, table: Table)
      requires table.Valid()
      modifies this, table`curNbFlows, table.metas
      ensures table.Valid()
      ensures Outcome(Ctx(), Res()) == Handle(old(Ctx()), e, p, old(Res()))
      ensures table.Entries() ==
        if Measures(old(Ctx()), e)
        then Refreshed(old(table.Entries()), e.flow.(rtt := Elapsed(e.timestamp, e.sendTimestamp)))
        else old(table.Entries())
    {
      if curRate == 0 {
        HandleNewFlow(e.timestamp, p);
      } else {
        match e
        case RoceTx(timestamp, rttReqSent) =>
          HandleRoceTx(timestamp, rttReqSent);
        case RttEvent(timestamp, sendTimestamp, flow) =>
          HandleRoceRtt(timestamp, sendTimestamp, flow, p, table);
        case Cnp(_) =>
          wasCnp := true;
          resultRttReq := 0;
          resultRate := curRate;
        case Nack(_) =>
          wasNack := true;
          resultRate := curRate;
        case OtherEvent(_) =>
          resultRate := curRate;
          resultRttReq := 0;
      }
    }
  }
}
