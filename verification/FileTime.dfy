/** FileTimes (100 ns ticks since 1601-01-01) and the sync cursor built from them
    (filedb/admin.go, background/synccron.go). */
module FileTime {
  import opened Float64

  const TICKS_PER_SECOND: int := 10_000_000
  const TICKS_BETWEEN_EPOCHS: int := 116_444_736_000_000_000
  const CSHARP_EPOCH_DIFF: int := 504_911_232_000_000_000
  const CSHARP_THRESHOLD: int := 500_000_000_000_000_000

  /** An instant: seconds since 1970-01-01 UTC and nanoseconds within the second. */
  datatype Instant = Instant(sec: int, nsec: int) {
    ghost predicate Valid() { 0 <= nsec < 1_000_000_000 }

    /** The zero time of the language: 0001-01-01 00:00:00 UTC. */
    predicate IsZero() { sec == -62_135_596_800 && nsec == 0 }

    ghost predicate AtMost(that: Instant) { sec < that.sec || (sec == that.sec && nsec <= that.nsec) }

    /** The instant with everything below 100 ns dropped. */
    function ToTick(): Instant { Instant(sec, nsec / 100 * 100) }
  }

  function ToFileTimeUTC(t: Instant): int {
    if t.IsZero() then 0 else t.sec * TICKS_PER_SECOND + t.nsec / 100 + TICKS_BETWEEN_EPOCHS
  }

  /** The conversion inside formatFileTime: nanoseconds since 1970, then seconds and a remainder. */
  function FromFileTime(ft: int): (t: Instant)
    ensures t.Valid()
  {
    var unixNano := (ft - TICKS_BETWEEN_EPOCHS) * 100;
    Instant(unixNano / 1_000_000_000, unixNano % 1_000_000_000)
  }

  function NormalizeFileTime(ft: int): int {
    if ft > CSHARP_THRESHOLD then ft - CSHARP_EPOCH_DIFF else ft
  }

  /** The nearest float64 to the integer ft. */
  function FloatOf(ft: int): int {
    if ft >= 0 then Round(ft) else 0 - Round(-ft)
  }

  /** int64(math.Nextafter(float64(ft), math.MaxFloat64)). Below 2^52 the next float above a
      non-negative integer has a fraction, which the conversion to an integer drops again; above
      a negative integer the conversion goes towards zero. */
  function SyncFileTime(ft: int): int {
    if ft >= 0 then
      if ft < P52 then ft else NextUp(Round(ft))
    else
      assert Round(-ft) > 0 by { RoundPositive(-ft); }
      0 - NextDown(Round(-ft))
  }

  lemma RoundPositive(n: nat)
    ensures n > 0 ==> Round(n) > 0
    ensures n >= P52 ==> Round(n) >= P52
  {
    RoundMonotone(P52, n + P52);
    RoundError(n);
    assert Round(P52) == P52;
    if n >= P52 {
      RoundMonotone(P52, n);
    }
  }

  // ---------------------------------------------------------------- instants and FileTimes

  /** A FileTime counts ticks of 100 ns from 1601-01-01, 11644473600 seconds before 1970. */
  lemma TicksSince1601(t: Instant)
    requires t.Valid() && !t.IsZero()
    ensures ToFileTimeUTC(t) == (t.sec + 11_644_473_600) * 10_000_000 + t.nsec / 100
  {
  }

  /** Ticks counted from the year 1, as the program this one replaces wrote them, are normalised to the
      FileTime of the same instant; what is no such count is left alone. */
  lemma OldTicksNormalised(t: Instant)
    requires t.Valid() && !t.IsZero()
    ensures var ticks := (t.sec + 62_135_596_800) * 10_000_000 + t.nsec / 100;
            ticks > 500_000_000_000_000_000 ==> NormalizeFileTime(ticks) == ToFileTimeUTC(t)
    ensures forall ft :: ft <= 500_000_000_000_000_000 ==> NormalizeFileTime(ft) == ft
  {
  }

  /** Converting to a FileTime and back loses exactly what lies below a tick. */
  lemma FileTimeRoundTrip(t: Instant)
    requires t.Valid() && !t.IsZero()
    ensures FromFileTime(ToFileTimeUTC(t)) == t.ToTick()
  {
    var unixNano := (ToFileTimeUTC(t) - TICKS_BETWEEN_EPOCHS) * 100;
    assert unixNano == t.sec * 1_000_000_000 + t.nsec / 100 * 100;
  }

  /** The other direction fails for one FileTime only: the one that names the zero time. */
  lemma FileTimeRoundTripBack(ft: int)
    ensures ToFileTimeUTC(FromFileTime(ft)) == ft
            <==> ft != -62_135_596_800 * TICKS_PER_SECOND + TICKS_BETWEEN_EPOCHS
  {
    var t := FromFileTime(ft);
    TicksOf(ft);
    hide FromFileTime;
    var m := ft - TICKS_BETWEEN_EPOCHS - TICKS_PER_SECOND * t.sec;
    assert t.nsec / 100 == m;
    assert t.IsZero() <==> m == 0 && t.sec == -62_135_596_800;
  }

  lemma TicksOf(ft: int)
    ensures var t := FromFileTime(ft);
            t.nsec == 100 * (ft - TICKS_BETWEEN_EPOCHS - TICKS_PER_SECOND * t.sec)
                && 0 <= t.nsec < 100 * TICKS_PER_SECOND
  {
  }

  /** ToFileTimeUTC respects the order of instants except where the zero time is mapped to 0,
      the FileTime of 1601-01-01, above instants that are later than it. */
  lemma ToFileTimeMonotone(s: Instant, t: Instant)
    requires s.Valid() && t.Valid() && s.AtMost(t)
    ensures ToFileTimeUTC(s) <= ToFileTimeUTC(t)
            <==> (s.IsZero() ==> t.IsZero() || t.sec >= -11_644_473_600)
                 && (t.IsZero() ==> s.IsZero() || s.sec < -11_644_473_600)
  {
    assert s.nsec / 100 < TICKS_PER_SECOND && t.nsec / 100 < TICKS_PER_SECOND;
  }

  /** The zero time, whose FileTime lies above that of 26 September 1589. */
  lemma ZeroTimeOutOfOrder()
    ensures var zero, later := Instant(-62_135_596_800, 0), Instant(-12_000_000_000, 0);
            zero.Valid() && later.Valid() && zero.AtMost(later) && ToFileTimeUTC(zero) > ToFileTimeUTC(later)
  {
  }

  // ---------------------------------------------------------------- the cursor

  /** The cursor lies on the next float: no float fits between ft's own float and the cursor. */
  lemma SyncIsNextFloat(ft: int)
    requires ft >= P52
    ensures SyncFileTime(ft) >= 0 && IsFloat64(SyncFileTime(ft)) && FloatOf(ft) < SyncFileTime(ft)
    ensures forall f: nat :: IsFloat64(f) && FloatOf(ft) < f ==> SyncFileTime(ft) <= f
  {
    RoundIsNearestTiesToEven(ft);
    NextUpIsLeastAbove(Round(ft));
  }

  /** The next float above a number that is at most n away from its own float lies above n. */
  lemma NextUpPasses(n: nat)
    requires n >= P52
    ensures NextUp(Round(n)) > n
  {
    RoundIsNearestTiesToEven(n);
    NextUpIsLeastAbove(Round(n));
    assert NextUp(Round(n)) <= n ==> Dist(n, NextUp(Round(n))) < Dist(n, Round(n));
  }

  lemma NextDownPasses(n: nat)
    requires n > 0 && Round(n) > 0
    ensures 0 <= NextDown(Round(n)) < n
  {
    RoundIsNearestTiesToEven(n);
    NextDownIsGreatestBelow(Round(n));
    var d: nat := NextDown(Round(n));
    assert d >= n ==> Dist(n, d) < Dist(n, Round(n));
  }

  /** The documented promise of SyncFileTime, a cursor strictly above ft both as an integer and
      as a float64, holds exactly outside 0 .. 2^52. */
  lemma SyncAdvances(ft: int)
    ensures SyncFileTime(ft) > ft <==> ft < 0 || ft >= P52
    ensures FloatOf(SyncFileTime(ft)) > FloatOf(ft) <==> ft < 0 || ft >= P52
  {
    if ft >= P52 {
      NextUpPasses(ft);
      SyncIsNextFloat(ft);
      RoundFixesFloats(SyncFileTime(ft));
    } else if ft < 0 {
      RoundPositive(-ft);
      NextDownPasses(-ft);
      RoundIsNearestTiesToEven(-ft);
      NextDownIsGreatestBelow(Round(-ft));
      RoundFixesFloats(NextDown(Round(-ft)));
      assert Round(0) == 0;
    }
  }

  lemma SyncMonotone(a: int, b: int)
    requires a <= b
    ensures SyncFileTime(a) <= SyncFileTime(b)
  {
    if a >= P52 {
      SyncMonotoneAbove(a, b);
    } else if a >= 0 {
      if b >= P52 {
        NextUpPasses(b);
      }
    } else if b >= 0 {
      RoundPositive(-a);
      NextDownPasses(-a);
      if b >= P52 {
        NextUpPasses(b);
      }
    } else {
      RoundPositive(-a);
      RoundPositive(-b);
      RoundMonotone(-b, -a);
      RoundIsNearestTiesToEven(-a);
      RoundIsNearestTiesToEven(-b);
      NextDownIsGreatestBelow(Round(-b));
      NextDownIsGreatestBelow(Round(-a));
      if Round(-b) < Round(-a) {
        assert Round(-b) <= NextDown(Round(-a));
      }
    }
  }

  lemma SyncMonotoneAbove(a: int, b: int)
    requires P52 <= a <= b
    ensures SyncFileTime(a) <= SyncFileTime(b)
  {
    RoundMonotone(a, b);
    SyncIsNextFloat(a);
    SyncIsNextFloat(b);
    if Round(a) < Round(b) {
      assert SyncFileTime(a) <= Round(b) by { RoundIsNearestTiesToEven(b); }
    }
  }

  // ---------------------------------------------------------------- the years 1829 to 2057

  const P56: nat := 0x100_0000_0000_0000
  const P57: nat := 0x200_0000_0000_0000

  /** Two FileTimes this far apart are never confused by a cursor. */
  const SAFE_GAP: nat := 25

  predicate Current(ft: int) { P56 <= ft <= P57 - SAFE_GAP }

  lemma UlpCurrent(n: nat)
    requires P56 <= n < P57
    ensures Ulp(n) == 16
  {
    assert Pow2(4) == 16;
    UlpUnique(n, 4);
  }

  /** In [2^56, 2^57 - 25] the cursor is 8 to 24 ticks above the FileTime it stands for. */
  lemma SyncOffset(ft: int)
    requires Current(ft)
    ensures ft + 8 <= SyncFileTime(ft) <= ft + 24
    ensures NormalizeFileTime(ft) == ft && NormalizeFileTime(SyncFileTime(ft)) == SyncFileTime(ft)
  {
    UlpCurrent(ft);
    RoundError(ft);
    RoundPositive(ft);
    RoundMonotone(P56, ft);
    RoundMonotone(ft, P57 - 16);
    UlpCurrent(P56);
    UlpCurrent(P57 - 16);
    assert Round(P56) == P56 && Round(P57 - 16) == P57 - 16;
    var r := Round(ft);
    assert P56 <= r < P57;
    UlpCurrent(r);
  }
}
