/** The vehicle signal component: the sequence-counter check on received signals. */
module VehicleSignalService {
  import opened Bytes
  import opened Common
  import PHM = HealthManagement

  const SELF := "VehicleSignalService"

  /** One signal set; everything but the counter is carried along unread. */
  datatype Signals = Signals(e2eCounterValue: u8, content: seq<byte>)

  /** The receiver, with the signal sets passed on so far. */
  datatype Receiver = Receiver(lastE2ECounter: u8, e2eErrorCount: u32, latest: Signals, delivered: seq<Signals>)

  /** The counter follows the last accepted one, or the last accepted one was 0. */
  predicate Follows(last: u8, counter: u8) {
    counter == (last + 1) % 256 || last == 0
  }

  function Received(r: Receiver, s: Signals): Receiver {
    if Follows(r.lastE2ECounter, s.e2eCounterValue) then
      Receiver(s.e2eCounterValue, r.e2eErrorCount, s, r.delivered + [s])
    else r.(e2eErrorCount := (r.e2eErrorCount + 1) % 0x1_0000_0000)
  }

  function Run(r: Receiver, frames: seq<Signals>): Receiver {
    if frames == [] then r else Received(Run(r, frames[..|frames| - 1]), frames[|frames| - 1])
  }

  // ---------------------------------------------------------- implementation

  class VehicleSignalServiceSWC {
    const phm: PHM.PlatformHealthManagement
    var lastE2ECounter: u8
    var e2eErrorCount: u32
    var latestSignals: Signals
    var delivered: seq<Signals>  // the calls of the external callback

    function Abstract(): Receiver
      reads this
    {
      Receiver(lastE2ECounter, e2eErrorCount, latestSignals, delivered)
    }

    constructor (phm: PHM.PlatformHealthManagement)
      ensures this.phm == phm && Abstract() == Receiver(0, 0, Signals(0, []), [])
    {
      this.phm := phm;
      lastE2ECounter, e2eErrorCount, latestSignals, delivered := 0, 0, Signals(0, []), [];
    }

    method ValidateE2E(signals: Signals) returns (ok: bool)
      modifies this`lastE2ECounter
      ensures ok <==> Follows(old(lastE2ECounter), signals.e2eCounterValue)
      ensures lastE2ECounter == if ok then signals.e2eCounterValue else old(lastE2ECounter)
    {
      var expectedCounter := (lastE2ECounter + 1) % 256;
      if signals.e2eCounterValue != expectedCounter && lastE2ECounter != 0 {
        return false;
      }
      lastE2ECounter := signals.e2eCounterValue;
      ok := true;
    }

    /** From the fourth error on, every rejected frame reports checkpoint 0xFF. */
    method OnSignalReceived(signals: Signals)
      modifies this, phm
      ensures Abstract() == Received(old(Abstract()), signals)
      ensures phm.entities ==
              if e2eErrorCount != old(e2eErrorCount) && e2eErrorCount > 3 then PHM.Reported(old(phm.entities), SELF)
              else old(phm.entities)
    {
      var ok := ValidateE2E(signals);
      if !ok {
        var count: nat := e2eErrorCount;
        e2eErrorCount := (count + 1) % 0x1_0000_0000;
        if e2eErrorCount > 3 {
          phm.ReportCheckpoint(SELF, 0xFF);
        }
        return;
      }
      latestSignals := signals;
      delivered := delivered + [signals];
    }
  }

  // -------------------------------------------------------------- properties

  ghost predicate Chained(r: Receiver) {
    && (forall i | 0 < i < |r.delivered| ::
          Follows(r.delivered[i - 1].e2eCounterValue, r.delivered[i].e2eCounterValue))
    && (r.delivered != [] ==>
          r.latest == r.delivered[|r.delivered| - 1] && r.lastE2ECounter == r.latest.e2eCounterValue)
  }

  /** Along every run, an accepted counter is the successor of the one accepted before it, or that one was 0. */
  lemma {:induction false} AcceptedCountersChain(r: Receiver, frames: seq<Signals>)
    requires Chained(r)
    ensures Chained(Run(r, frames)) && r.delivered <= Run(r, frames).delivered
    decreases |frames|
  {
    if frames != [] {
      AcceptedCountersChain(r, frames[..|frames| - 1]);
    }
  }

  /** frames continue a sender's count after `lost` frames that never arrived. */
  predicate SentAfterLoss(c: u8, lost: nat, frames: seq<Signals>) {
    forall k | 0 <= k < |frames| :: frames[k].e2eCounterValue == (c + 1 + lost + k) % 256
  }

  /** How many frames a receiver throws away before the count comes round again. */
  function Rejected(lost: nat): nat {
    (256 - lost % 256) % 256
  }

  lemma {:induction false} AllRejected(r: Receiver, lost: nat, frames: seq<Signals>)
    requires r.lastE2ECounter != 0 && SentAfterLoss(r.lastE2ECounter, lost, frames) && |frames| <= Rejected(lost)
    ensures Run(r, frames) == r.(e2eErrorCount := (r.e2eErrorCount + |frames|) % 0x1_0000_0000)
    decreases |frames|
  {
    if frames != [] {
      var n := |frames| - 1;
      AllRejected(r, lost, frames[..n]);
      NotYetRound(r.lastE2ECounter, lost, n);
      OneMoreError(r.e2eErrorCount, n);
    }
  }

  lemma OneMoreError(count: nat, n: nat)
    ensures ((count + n) % 0x1_0000_0000 + 1) % 0x1_0000_0000 == (count + (n + 1)) % 0x1_0000_0000
  {
  }

  lemma NotYetRound(c: nat, lost: nat, k: nat)
    requires k < Rejected(lost)
    ensures (c + 1 + lost + k) % 256 != (c + 1) % 256
  {
    assert 0 < lost % 256 + k < 256;
  }

  lemma ComesRound(c: nat, lost: nat)
    ensures (c + 1 + lost + Rejected(lost)) % 256 == (c + 1) % 256
  {
    assert (lost + Rejected(lost)) % 256 == 0;
  }

  /**
   After a loss, whatever its size, a receiver whose last counter is not 0
   rejects exactly the frames until the sender's count comes round, and accepts
   the next one.
   */
  lemma Resynchronises(r: Receiver, lost: nat, frames: seq<Signals>)
    requires r.lastE2ECounter != 0 && SentAfterLoss(r.lastE2ECounter, lost, frames)
    requires |frames| == Rejected(lost) + 1
    ensures var n := Rejected(lost);
            Run(r, frames[..n]).delivered == r.delivered && Run(r, frames[..n]).lastE2ECounter == r.lastE2ECounter &&
            Run(r, frames).delivered == r.delivered + [frames[n]] &&
            Run(r, frames).lastE2ECounter == (r.lastE2ECounter + 1) % 256 &&
            Run(r, frames).e2eErrorCount == (r.e2eErrorCount + n) % 0x1_0000_0000
  {
    var n := Rejected(lost);
    AllRejected(r, lost, frames[..n]);
    ComesRound(r.lastE2ECounter, lost);
  }

  /** The first frame after a loss is noticed iff the last counter was not 0 and the loss is no multiple of 256. */
  lemma LossNoticedIff(r: Receiver, lost: nat, s: Signals)
    requires s.e2eCounterValue == (r.lastE2ECounter + 1 + lost) % 256
    ensures Received(r, s).delivered == r.delivered <==> r.lastE2ECounter != 0 && lost % 256 != 0
  {
    assert |r.delivered + [s]| > |r.delivered|;
    SameCountIff(r.lastE2ECounter, lost);
  }

  lemma SameCountIff(c: nat, lost: nat)
    ensures (c + 1 + lost) % 256 == (c + 1) % 256 <==> lost % 256 == 0
  {
    if (c + 1 + lost) % 256 == (c + 1) % 256 {
      assert lost == 256 * ((c + 1 + lost) / 256 - (c + 1) / 256);
    }
    if lost % 256 == 0 {
      assert c + 1 + lost == (c + 1) + 256 * (lost / 256);
    }
  }
}
