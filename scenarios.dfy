/**
 * Worked examples of the monthly resampler on concrete samples.
 */
module Scenarios {
  import opened Wrappers
  import opened Calendar
  import opened Resampler

  /** 2024-03-15T00:00:00Z. */
  const March15: Sample := Sample(Timestamp(1710460800000, Date(2024, 2, 15)), Some(5.0), None)

  /** The floor for a "now" in June 2024: 2023-06-01T00:00:00Z. */
  const JuneFloor: int := 1685577600000

  /** A lone mid-month sample is its month's representative; its missing TVL reads as 0. */
  lemma LoneSample()
    ensures Resample([March15], JuneFloor)
            == [Point("Mar 2024", March15.timestamp, 5.0, 0.0, 15, "2024-03-15")]
  {
    LoneSampleRepresentative();
    MarchPoint();
    assert MonthlyPoints([March15], JuneFloor) == ToPoints([March15]);
  }

  lemma LoneSampleRepresentative()
    ensures Representatives([March15], JuneFloor) == [March15]
  {
    var m := YearMonth(2024, 2);
    assert Kept([March15], JuneFloor) == [March15];
    assert InMonth([March15], m) == [March15];
    assert MonthsIn([March15]) == [m];
    assert [m][..0] == [];
    assert Representative([March15]) == Some(March15);
    assert RepsOf([March15], [m]) == RepsOf([March15], []) + [March15];
  }

  lemma MarchPoint()
    ensures ToPoint(March15) == Point("Mar 2024", March15.timestamp, 5.0, 0.0, 15, "2024-03-15")
  {
    assert Label(YearMonth(2024, 2)) == "Mar 2024";
    assert IsoDate(Date(2024, 2, 15)) == "2024-03-15";
  }

  function OnDay(day: DayOfMonth): Sample {
    Sample(Timestamp(1709251200000 + (day - 1) * 86400000, Date(2024, 2, day)), None, None)
  }

  /** Days 1, 3 and 20: the day-1 sample wins. */
  lemma FirstDayWins()
    ensures Representative([OnDay(1), OnDay(3), OnDay(20)]) == Some(OnDay(1))
  {
  }

  /** Days 3 and 20: the day-3 sample wins. */
  lemma EarlyDayWins()
    ensures Representative([OnDay(3), OnDay(20)]) == Some(OnDay(3))
  {
  }

  /** Days 9 and 20: the first sample wins. */
  lemma FirstSampleWins()
    ensures Representative([OnDay(9), OnDay(20)]) == Some(OnDay(9))
  {
  }
}
