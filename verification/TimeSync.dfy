/** Time points, corrections of a time base, and conversion to and from the system clock. */
module TimeSync {
  import opened Common

  const NS: int := 1_000_000_000

  datatype TimePoint = TimePoint(seconds: int, nanoseconds: u32)

  predicate Less(a: TimePoint, b: TimePoint) {
    if a.seconds != b.seconds then a.seconds < b.seconds else a.nanoseconds < b.nanoseconds
  }

  predicate FitsInt64(n: int) {
    -0x8000_0000_0000_0000 <= n < 0x8000_0000_0000_0000
  }

  predicate Normalised(t: TimePoint) {
    t.nanoseconds < NS
  }

  function Total(t: TimePoint): int {
    t.seconds * NS + t.nanoseconds
  }

  function GetTimeDiff(t1: TimePoint, t2: TimePoint): int {
    Total(t2) - Total(t1)
  }

  /** Division and remainder towards zero. */
  function Quot(a: int, b: int): int
    requires b > 0
  {
    if a >= 0 then a / b else -((-a) / b)
  }

  function Rem(a: int, b: int): int
    requires b > 0
  {
    a - Quot(a, b) * b
  }

  /** A 64-bit value stored into 32 unsigned bits. */
  function ToUint32(n: int): u32 {
    n % 0x1_0000_0000
  }

  function FromTotal(n: int): TimePoint {
    TimePoint(Quot(n, NS), ToUint32(Rem(n, NS)))
  }

  /** Clock values count ticks of `tick` nanoseconds. */
  function ToChrono(t: TimePoint, tick: int): int
    requires tick > 0
  {
    Quot(Total(t), tick)
  }

  function FromChrono(c: int, tick: int): TimePoint
    requires tick > 0
  {
    FromTotal(c * tick)
  }

  class TimeBases {
    const bases: array<TimePoint>

    constructor (now: TimePoint)
      ensures fresh(bases) && bases[..] == [now, now, now, now]
    {
      bases := new TimePoint[4](i => now);
    }

    method ApplyCorrection(id: u8, correctionNs: int)
      requires bases.Length == 4
      requires FitsInt64(bases[Index(id)].seconds * NS)
      requires FitsInt64(Total(bases[Index(id)])) && FitsInt64(Total(bases[Index(id)]) + correctionNs)
      modifies bases
      ensures bases[..] == old(bases[..])[Index(id) := FromTotal(Total(old(bases[Index(id)])) + correctionNs)]
      ensures id < 4 ==> forall k | 0 <= k < 4 && k != id :: bases[k] == old(bases[k])
    {
      var idx := if id >= 4 then 3 else id;
      var curNs := bases[idx].seconds * NS + bases[idx].nanoseconds;
      curNs := curNs + correctionNs;
      bases[idx] := bases[idx].(seconds := Quot(curNs, NS));
      bases[idx] := bases[idx].(nanoseconds := ToUint32(Rem(curNs, NS)));
    }
  }

  function Index(id: u8): (i: nat)
    ensures i < 4
  {
    if id >= 4 then 3 else id
  }

  /**
   Storing a total gives a normalised time with exactly that total iff it is
   not negative, or a whole number of seconds: a negative remainder turns into a
   huge nanosecond count.
   */
  lemma FromTotalExactIff(n: int)
    ensures Normalised(FromTotal(n)) && Total(FromTotal(n)) == n <==> n >= 0 || n % NS == 0
  {
    if n >= 0 {
      assert Rem(n, NS) == n % NS;
    } else {
      var m := -n;
      WholeSecondsEitherWay(m);
      assert Rem(n, NS) == -(m % NS);
      assert m % NS != 0 ==> ToUint32(-(m % NS)) == 0x1_0000_0000 - m % NS;
    }
  }

  /** One nanosecond back from zero is stored as 4294967295 nanoseconds. */
  lemma MinusOneIsHuge()
    ensures FromTotal(-1).seconds == 0 && FromTotal(-1).nanoseconds == 4_294_967_295
    ensures Total(FromTotal(-1)) != -1 && !Normalised(FromTotal(-1))
  {
  }

  lemma WholeSecondsEitherWay(m: int)
    ensures (-m) % NS == 0 <==> m % NS == 0
  {
    if m % NS == 0 {
      assert -m == -(m / NS) * NS;
    }
    if (-m) % NS == 0 {
      assert m == -((-m) / NS) * NS;
    }
  }

  function Corrected(t: TimePoint, corrections: seq<int>): TimePoint {
    if corrections == [] then t
    else FromTotal(Total(Corrected(t, corrections[..|corrections| - 1])) + corrections[|corrections| - 1])
  }

  function Sum(corrections: seq<int>): int {
    if corrections == [] then 0 else Sum(corrections[..|corrections| - 1]) + corrections[|corrections| - 1]
  }

  /** While the total stays non-negative, corrections add up exactly and the time stays normalised. */
  lemma {:induction false} CorrectionsAddUp(t: TimePoint, corrections: seq<int>)
    requires Normalised(t)
    requires forall k | 0 <= k <= |corrections| :: Total(t) + Sum(corrections[..k]) >= 0
    ensures Normalised(Corrected(t, corrections)) && Total(Corrected(t, corrections)) == Total(t) + Sum(corrections)
    decreases |corrections|
  {
    assert corrections[..|corrections|] == corrections;
    if corrections != [] {
      var rest := corrections[..|corrections| - 1];
      forall k | 0 <= k <= |rest|
        ensures Total(t) + Sum(rest[..k]) >= 0
      {
        assert rest[..k] == corrections[..k];
      }
      CorrectionsAddUp(t, rest);
      FromTotalExactIff(Total(t) + Sum(corrections));
    }
  }

  /** The order of normalised times is the sign of their difference, and the total determines the time. */
  lemma OrderIsDifference(a: TimePoint, b: TimePoint)
    requires Normalised(a) && Normalised(b)
    ensures Less(a, b) <==> GetTimeDiff(a, b) > 0
    ensures a == b <==> GetTimeDiff(a, b) == 0
  {
    if a.seconds < b.seconds {
      assert (b.seconds - a.seconds) * NS >= NS;
    } else if a.seconds > b.seconds {
      assert (a.seconds - b.seconds) * NS >= NS;
    }
  }

  /** Ids 0 to 3 select the time base of that number, and the others the last one. */
  lemma IdsSelectThemselves(id: u8)
    ensures Index(id) == id <==> id <= 3
    ensures id > 3 ==> Index(id) == 3
  {
  }

  /** The difference to a corrected time is the sum of the corrections, and differences add up. */
  lemma DifferenceIsTheCorrection(t: TimePoint, corrections: seq<int>, u: TimePoint)
    requires Normalised(t)
    requires forall k | 0 <= k <= |corrections| ::
               t.seconds * 1_000_000_000 + t.nanoseconds + Sum(corrections[..k]) >= 0
    ensures GetTimeDiff(t, Corrected(t, corrections)) == Sum(corrections)
    ensures GetTimeDiff(t, u) == (u.seconds - t.seconds) * 1_000_000_000 + (u.nanoseconds - t.nanoseconds)
  {
    CorrectionsAddUp(t, corrections);
  }

  lemma QuotOfMultiple(c: int, tick: int)
    requires tick > 0 && c >= 0
    ensures Quot(c * tick, tick) == c
  {
    assert c * tick >= 0;
    assert (c * tick) / tick == c;
  }

  /** Clock points at or after the epoch survive the way through a time point, for nanosecond and microsecond clocks. */
  lemma ChronoRoundTrip(c: int, tick: int)
    requires c >= 0 && (tick == 1 || tick == 1000)
    ensures ToChrono(FromChrono(c, tick), tick) == c && Normalised(FromChrono(c, tick))
  {
    FromTotalExactIff(c * tick);
    QuotOfMultiple(c, tick);
  }

  /** A clock value stands for that many ticks, and a time for the whole ticks in it. */
  lemma ChronoCountsTicks(c: int, t: TimePoint, tick: int)
    requires c >= 0 && t.seconds >= 0 && (tick == 1 || tick == 1000)
    ensures var u := FromChrono(c, tick); u.seconds * 1_000_000_000 + u.nanoseconds == c * tick
    ensures var n := t.seconds * 1_000_000_000 + t.nanoseconds;
            ToChrono(t, tick) * tick <= n < ToChrono(t, tick) * tick + tick
  {
    FromTotalExactIff(c * tick);
  }

  /** The other way round, a time survives exactly when it is a whole number of ticks. */
  lemma TimePointRoundTripIff(t: TimePoint, tick: int)
    requires Normalised(t) && t.seconds >= 0 && (tick == 1 || tick == 1000)
    ensures FromChrono(ToChrono(t, tick), tick) == t <==> t.nanoseconds % tick == 0
  {
    var n := Total(t);
    WholeTicks(n, t.seconds, t.nanoseconds, tick);
    FromTotalExactIff(n / tick * tick);
    OrderIsDifference(FromChrono(ToChrono(t, tick), tick), t);
  }

  lemma WholeTicks(n: int, s: int, ns: int, tick: int)
    requires (tick == 1 || tick == 1000) && n == s * NS + ns && n >= 0 && ns >= 0
    ensures n / tick * tick == n - ns % tick && n / tick * tick >= 0
  {
    if tick == 1000 {
      assert n == 1000 * (s * 1_000_000) + ns;
      assert n % 1000 == ns % 1000;
    }
  }
}
