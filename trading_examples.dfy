/** The worked examples of the profit engine, evaluated on the reference definitions. */
module TradingExamples {
  import opened Wrappers
  import opened TradingSpec

  lemma UnlimitedAndSingleTripExample()
    ensures SumOfRises([7, 1, 5, 3, 6, 4]) == 7
    ensures BestSingleTrip([7, 1, 5, 3, 6, 4]) == 5
  {
    assert [7, 1][..1] == [7];
    assert [7, 1, 5][..2] == [7, 1];
    assert [7, 1, 5, 3][..3] == [7, 1, 5];
    assert [7, 1, 5, 3, 6][..4] == [7, 1, 5, 3];
    assert [7, 1, 5, 3, 6, 4][..5] == [7, 1, 5, 3, 6];
    assert MinOf([7, 1]) == 1;
    assert MinOf([7, 1, 5]) == 1;
    assert MinOf([7, 1, 5, 3]) == 1;
    assert MinOf([7, 1, 5, 3, 6]) == 1;
    assert SumOfRises([7, 1]) == 0 && BestSingleTrip([7, 1]) == 0;
    assert SumOfRises([7, 1, 5]) == 4 && BestSingleTrip([7, 1, 5]) == 4;
    assert SumOfRises([7, 1, 5, 3]) == 4 && BestSingleTrip([7, 1, 5, 3]) == 4;
    assert SumOfRises([7, 1, 5, 3, 6]) == 7 && BestSingleTrip([7, 1, 5, 3, 6]) == 5;
  }

  lemma RisingExample()
    ensures SumOfRises([1, 2, 3, 4, 5]) == 4
    ensures BestSingleTrip([1, 2, 3, 4, 5]) == 4
  {
    var u := [1, 2, 3, 4, 5];
    assert NonDecreasing(u);
    SingleTripNonDecreasing(u);
    SumOfRisesNonDecreasing(u);
  }

  lemma TwoTripsExample()
    ensures BoundedDp([3, 3, 5, 0, 0, 3, 1, 4], 2, 7) == 6
  {
    var s := [3, 3, 5, 0, 0, 3, 1, 4];
    assert BoundedDp(s, 1, 7) == 4;
  }

  lemma WithFeeExample()
    ensures FeeRun([1, 3, 2, 8, 4, 9], 2).cash == 8
  {
    assert [1, 3][..1] == [1];
    assert [1, 3, 2][..2] == [1, 3];
    assert [1, 3, 2, 8][..3] == [1, 3, 2];
    assert [1, 3, 2, 8, 4][..4] == [1, 3, 2, 8];
    assert [1, 3, 2, 8, 4, 9][..5] == [1, 3, 2, 8, 4];
    assert FeeRun([1], 2) == Position(0, Some(-3));
    assert FeeRun([1, 3], 2) == Position(0, Some(-3));
    assert FeeRun([1, 3, 2], 2) == Position(0, Some(-3));
    assert FeeRun([1, 3, 2, 8], 2) == Position(5, Some(-3));
    assert FeeRun([1, 3, 2, 8, 4], 2) == Position(5, Some(-1));
  }
}
