/**
 * The validate-and-filter pipeline of the stratified-sampling script: the checks
 * on the stratification column and on the requested sample size, the removal of
 * classes that are too small to split, and the order in which `main` runs them and
 * reports the first error. Reading and writing the spreadsheet are not modelled:
 * the pipeline starts from the loaded frame and ends with the sample to be saved.
 * The stratified split itself comes from a library and is a parameter.
 */
module Samples {
  import opened Wrappers
  import opened Frames

  /** The default `min_count` of `remove_small_classes`. */
  const DefaultMinCount := 4

  /** The fixed `random_state` handed to the split. */
  const RandomState := 42

  /** The Python exception classes that `main` tells apart. */
  datatype ExceptionClass = FileNotFoundError | ValueError | OtherException

  /** The errors the pipeline raises, each carrying what its message shows. */
  datatype Error =
    | ColumnNotFound(column: string)
    | MissingValues(column: string)
    | SampleSizeNotPositive
    | SampleSizeExceedsRows
    | SampleSizeBelowClassCount(size: int, classes: nat)
    | SamplingFailed(message: string)
    | SamplingCrashed(message: string)
  {
    /** The class of the exception raised: everything is a ValueError except a split
        failure that was not one, which is re-raised as a plain Exception. */
    function Raised(): ExceptionClass {
      if SamplingCrashed? then OtherException else ValueError
    }

    predicate FromSampler() {
      SamplingFailed? || SamplingCrashed?
    }
  }

  /** The three advice messages of `main`'s handlers. */
  datatype Category = CheckFilePath | CheckInputValues | CheckAgain

  /** What a run of `main` ends with: a sample handed to the writer, or a reported error. */
  datatype Report<V> = Sampled(sample: Frame<V>) | Reported(category: Category, error: Error)

  /** What the library split may raise. */
  datatype SplitFailure = SplitValueError(message: string) | SplitOtherError(message: string)

  /** `train_test_split(df, test_size, stratify, random_state)`, keeping its first part. */
  type Splitter<!V> = (Frame<V>, real, seq<Option<V>>, int) -> Result<Frame<V>, SplitFailure>

  /** `main`'s `except` clauses, tried in order: FileNotFoundError, ValueError, Exception. */
  function Categorize(c: ExceptionClass): (cat: Category)
    ensures cat == CheckFilePath <==> c == FileNotFoundError
    ensures cat == CheckInputValues <==> c == ValueError
  {
    match c
    case FileNotFoundError => CheckFilePath
    case ValueError => CheckInputValues
    case OtherException => CheckAgain
  }

  /** `check_column_exists`. */
  function CheckColumnExists<V>(f: Frame<V>, col: string): (r: Outcome<Error>)
    ensures r.Pass? <==> col in f.columns
    ensures r.Fail? ==> r.error == ColumnNotFound(col)
  {
    if col !in f.columns then Fail(ColumnNotFound(col)) else Pass
  }

  /** `check_missing_values`; the column must exist (pandas raises KeyError otherwise). */
  function CheckMissingValues<V>(f: Frame<V>, col: string): (r: Outcome<Error>)
    requires col in f.columns
    ensures r.Pass? <==> forall i :: 0 <= i < |f.rows| ==> col in f.rows[i] && f.rows[i][col].Some?
    ensures r.Fail? ==> r.error == MissingValues(col)
  {
    if AnyNull(f.rows, col) then Fail(MissingValues(col)) else Pass
  }

  /** `validate_sample_size`, after the `isinstance` test that an `int` parameter makes moot. */
  function ValidateSampleSize<V>(f: Frame<V>, n: int): (r: Outcome<Error>)
    ensures r.Pass? <==> 0 < n <= |f.rows|
    ensures r.Fail? ==> r.error == if n <= 0 then SampleSizeNotPositive else SampleSizeExceedsRows
  {
    if n <= 0 then Fail(SampleSizeNotPositive)
    else if n > |f.rows| then Fail(SampleSizeExceedsRows)
    else Pass
  }

  /** `validate_class_count`: the sample must have room for every class. */
  function ValidateClassCount<V(==)>(f: Frame<V>, col: string, n: int): (r: Outcome<Error>)
    requires col in f.columns
    ensures r.Pass? <==> n >= |Classes(f.rows, col)|
    ensures r.Fail? ==> r.error == SampleSizeBelowClassCount(n, |Classes(f.rows, col)|)
  {
    var classes := |Classes(f.rows, col)|;
    if n < classes then Fail(SampleSizeBelowClassCount(n, classes)) else Pass
  }

  /** `class_counts[class_counts < min_count].index`. */
  function SmallClasses<V(==)>(rows: seq<Row<V>>, col: string, minCount: int): (small: set<V>)
    ensures small <= Classes(rows, col)
    ensures forall v | v in small :: 0 < Count(rows, col, v) < minCount
  {
    assert forall v | v in Classes(rows, col) :: Count(rows, col, v) > 0 by {
      forall v | v in Classes(rows, col) ensures Count(rows, col, v) > 0 {
        ClassesAreCounted(rows, col, v);
      }
    }
    set v | v in Classes(rows, col) && Count(rows, col, v) < minCount
  }

  /** The classes that reach the threshold. */
  ghost function LargeClasses<V>(rows: seq<Row<V>>, col: string, minCount: int): set<V> {
    set v | v in Classes(rows, col) && Count(rows, col, v) >= minCount
  }

  /** The row survives the filter: its cell is null, or its class has at least `minCount` rows. */
  ghost predicate MeetsThreshold<V>(rows: seq<Row<V>>, col: string, minCount: int, r: Row<V>) {
    match Stratum(r, col)
    case None => true
    case Some(v) => Count(rows, col, v) >= minCount
  }

  /** `remove_small_classes`: the frame is returned as it is when no class is small. */
  function RemoveSmallClasses<V(==)>(f: Frame<V>, col: string, minCount: int): (g: Frame<V>)
    requires col in f.columns
    ensures g.columns == f.columns
    ensures |g.rows| <= |f.rows|
  {
    var small := SmallClasses(f.rows, col, minCount);
    if small == {} then f
    else
      DropClassesRectangular(f, col, small);
      Table(f.columns, DropClasses(f.rows, col, small))
  }

  /** What the split is promised: the checks of `main` have passed on the filtered frame. */
  predicate ReadyToSample<V(==)>(g: Frame<V>, col: string, n: int) {
    && col in g.columns
    && !AnyNull(g.rows, col)
    && 0 < n <= |g.rows|
    && n >= |Classes(g.rows, col)|
    && forall v :: v in Classes(g.rows, col) ==> Count(g.rows, col, v) >= DefaultMinCount
  }

  /** `test_size=(len(df) - sample_size) / len(df)`, as an exact fraction. */
  function TestSize<V>(g: Frame<V>, n: int): (t: real)
    requires 0 < n <= |g.rows|
    ensures 0.0 <= t < 1.0
    ensures t * (|g.rows| as real) == (|g.rows| - n) as real
  {
    ((|g.rows| - n) as real) / (|g.rows| as real)
  }

  /** `stratified_sampling`: a ValueError of the split is re-raised as a ValueError,
      anything else as a plain Exception. */
  function StratifiedSampling<V(==)>(split: Splitter<V>, g: Frame<V>, col: string, n: int): (r: Result<Frame<V>, Error>)
    requires ReadyToSample(g, col, n)
    ensures r.Failure? ==> r.error.FromSampler()
    ensures var out := split(g, TestSize(g, n), Column(g, col), RandomState);
      r.Failure? <==> out.Failure?
    ensures var out := split(g, TestSize(g, n), Column(g, col), RandomState);
      r.Success? ==> out.Success? && r.value == out.value
    ensures var out := split(g, TestSize(g, n), Column(g, col), RandomState);
      r.Failure? ==> && out.Failure?
                     && (r.error.Raised() == ValueError <==> out.error.SplitValueError?)
                     && r.error.message == out.error.message
  {
    match split(g, TestSize(g, n), Column(g, col), RandomState)
    case Success(sample) => Success(sample)
    case Failure(SplitValueError(m)) => Failure(SamplingFailed(m))
    case Failure(SplitOtherError(m)) => Failure(SamplingCrashed(m))
  }

  /** The body of `main`'s `try`, from the loaded frame to the sample: each check raises
      on its own failure, which ends the run. */
  function Pipeline<V(==)>(f: Frame<V>, col: string, n: int, split: Splitter<V>): (r: Result<Frame<V>, Error>)
    ensures r.Success? || r.error.FromSampler() ==>
      col in f.columns && ReadyToSample(RemoveSmallClasses(f, col, DefaultMinCount), col, n)
  {
    match CheckColumnExists(f, col)
    case Fail(e) => Failure(e)
    case Pass =>
      match CheckMissingValues(f, col)
      case Fail(e) => Failure(e)
      case Pass =>
        var g := RemoveSmallClasses(f, col, DefaultMinCount);
        match ValidateSampleSize(g, n)
        case Fail(e) => Failure(e)
        case Pass =>
          match ValidateClassCount(g, col, n)
          case Fail(e) => Failure(e)
          case Pass =>
            ReadyAfterChecks(f, col, n);
            StratifiedSampling(split, g, col, n)
  }

  /** Once the checks of `main` have passed, the filtered frame is ready for the split. */
  lemma ReadyAfterChecks<V>(f: Frame<V>, col: string, n: int)
    requires col in f.columns && !AnyNull(f.rows, col)
    requires var g := RemoveSmallClasses(f, col, DefaultMinCount);
      0 < n <= |g.rows| && n >= |Classes(g.rows, col)|
    ensures ReadyToSample(RemoveSmallClasses(f, col, DefaultMinCount), col, n)
  {
    RemoveSmallClassesSurvivors(f, col, DefaultMinCount);
    RemoveSmallClassesNoNull(f, col, DefaultMinCount);
  }

  /** `main`: the pipeline, with an error reported under the category of its exception class. */
  function Main<V(==)>(f: Frame<V>, col: string, n: int, split: Splitter<V>): (m: Report<V>)
    ensures m.Sampled? <==> Pipeline(f, col, n, split).Success?
    ensures m.Sampled? ==> m.sample == Pipeline(f, col, n, split).value
    ensures m.Reported? ==> Pipeline(f, col, n, split).Failure? && m.error == Pipeline(f, col, n, split).error
    ensures m.Reported? ==> m.category != CheckFilePath
    ensures m.Reported? ==> (m.category == CheckInputValues <==> !m.error.SamplingCrashed?)
  {
    match Pipeline(f, col, n, split)
    case Success(sample) => Sampled(sample)
    case Failure(e) => Reported(Categorize(e.Raised()), e)
  }

  // ---------------------------------------------------------------------------
  // The class filter

  /** A row is kept as often as it occurs when it meets the threshold, and never otherwise. */
  lemma RemoveSmallClassesKeepsExactlyLargeClasses<V>(f: Frame<V>, col: string, minCount: int)
    requires col in f.columns
    ensures var g := RemoveSmallClasses(f, col, minCount);
      forall r :: multiset(g.rows)[r] == if MeetsThreshold(f.rows, col, minCount, r) then multiset(f.rows)[r] else 0
    ensures var g := RemoveSmallClasses(f, col, minCount);
      forall r :: r in g.rows <==> r in f.rows && MeetsThreshold(f.rows, col, minCount, r)
  {
    var small := SmallClasses(f.rows, col, minCount);
    var g := RemoveSmallClasses(f, col, minCount);
    MultisetDropClasses(f.rows, col, small);
    forall r ensures multiset(g.rows)[r] == if MeetsThreshold(f.rows, col, minCount, r) then multiset(f.rows)[r] else 0 {
      if r in f.rows {
        match Stratum(r, col)
        case None =>
        case Some(v) => ClassesAreCounted(f.rows, col, v); CountOfPresentRow(f.rows, col, r);
      }
      if small == {} {
        DropClassesNothingToDrop(f.rows, col, small);
      }
    }
  }

  /** The filter keeps rows in their order; it shrinks the row count and the class count. */
  lemma RemoveSmallClassesPreservesOrder<V>(f: Frame<V>, col: string, minCount: int)
    requires col in f.columns
    ensures var g := RemoveSmallClasses(f, col, minCount);
      && IsSubsequence(g.rows, f.rows)
      && |g.rows| <= |f.rows|
      && Classes(g.rows, col) <= Classes(f.rows, col)
      && |Classes(g.rows, col)| <= |Classes(f.rows, col)|
  {
    var small := SmallClasses(f.rows, col, minCount);
    var g := RemoveSmallClasses(f, col, minCount);
    if small == {} {
      DropClassesNothingToDrop(f.rows, col, small);
    }
    DropClassesIsSubsequence(f.rows, col, small);
    ClassesDropClasses(f.rows, col, small);
    SubsetCardinality(Classes(g.rows, col), Classes(f.rows, col));
  }

  /** Classes are removed whole: a class keeps all its rows or loses all of them. */
  lemma RemoveSmallClassesCounts<V>(f: Frame<V>, col: string, minCount: int, v: V)
    requires col in f.columns
    ensures var n := Count(f.rows, col, v);
      Count(RemoveSmallClasses(f, col, minCount).rows, col, v) == if n < minCount then 0 else n
  {
    var small := SmallClasses(f.rows, col, minCount);
    var g := RemoveSmallClasses(f, col, minCount);
    var n := Count(f.rows, col, v);
    ClassesAreCounted(f.rows, col, v);
    assert v in small <==> 0 < n < minCount;
    if small == {} {
      assert g == f;
      assert n < minCount ==> n == 0;
    } else {
      assert g.rows == DropClasses(f.rows, col, small);
      CountDropClasses(f.rows, col, small, v);
    }
  }

  /** The surviving classes are exactly those that met the threshold, and they still meet it. */
  lemma RemoveSmallClassesSurvivors<V>(f: Frame<V>, col: string, minCount: int)
    requires col in f.columns
    ensures var g := RemoveSmallClasses(f, col, minCount);
      && Classes(g.rows, col) == LargeClasses(f.rows, col, minCount)
      && forall v :: v in Classes(g.rows, col) ==> Count(g.rows, col, v) >= minCount
  {
    var small := SmallClasses(f.rows, col, minCount);
    var g := RemoveSmallClasses(f, col, minCount);
    if small == {} {
      DropClassesNothingToDrop(f.rows, col, small);
    }
    ClassesDropClasses(f.rows, col, small);
    forall v | v in Classes(g.rows, col) ensures Count(g.rows, col, v) >= minCount {
      RemoveSmallClassesCounts(f, col, minCount, v);
    }
  }

  /** Filtering a second time changes nothing. */
  lemma RemoveSmallClassesIdempotent<V>(f: Frame<V>, col: string, minCount: int)
    requires col in f.columns
    ensures var g := RemoveSmallClasses(f, col, minCount);
      RemoveSmallClasses(g, col, minCount) == g
  {
    var g := RemoveSmallClasses(f, col, minCount);
    RemoveSmallClassesSurvivors(f, col, minCount);
    assert SmallClasses(g.rows, col, minCount) == {};
  }

  /** The frame comes back unchanged exactly when no class is below the threshold. */
  lemma RemoveSmallClassesUnchangedIff<V>(f: Frame<V>, col: string, minCount: int)
    requires col in f.columns
    ensures RemoveSmallClasses(f, col, minCount) == f
            <==> forall v :: v in Classes(f.rows, col) ==> Count(f.rows, col, v) >= minCount
  {
    var g := RemoveSmallClasses(f, col, minCount);
    if exists v :: v in Classes(f.rows, col) && Count(f.rows, col, v) < minCount {
      var v :| v in Classes(f.rows, col) && Count(f.rows, col, v) < minCount;
      ClassesAreCounted(f.rows, col, v);
      RemoveSmallClassesCounts(f, col, minCount, v);
      assert Count(g.rows, col, v) != Count(f.rows, col, v);
    } else {
      assert SmallClasses(f.rows, col, minCount) == {};
    }
  }

  /** With a threshold of one or less no class is ever small. */
  lemma RemoveSmallClassesLowThreshold<V>(f: Frame<V>, col: string, minCount: int)
    requires col in f.columns
    requires minCount <= 1
    ensures RemoveSmallClasses(f, col, minCount) == f
  {
    forall v | v in Classes(f.rows, col) ensures Count(f.rows, col, v) >= minCount {
      ClassesAreCounted(f.rows, col, v);
    }
    RemoveSmallClassesUnchangedIff(f, col, minCount);
  }

  /** A row of the input is counted in its own class. */
  lemma {:induction false} CountOfPresentRow<V>(rows: seq<Row<V>>, col: string, r: Row<V>)
    requires r in rows && Stratum(r, col).Some?
    ensures Count(rows, col, Stratum(r, col).value) > 0
  {
    if rows[0] != r {
      CountOfPresentRow(rows[1..], col, r);
    }
  }

  /** Filtering a frame without nulls leaves a frame without nulls. */
  lemma RemoveSmallClassesNoNull<V>(f: Frame<V>, col: string, minCount: int)
    requires col in f.columns
    requires !AnyNull(f.rows, col)
    ensures !AnyNull(RemoveSmallClasses(f, col, minCount).rows, col)
  {
    var g := RemoveSmallClasses(f, col, minCount);
    forall i | 0 <= i < |g.rows| ensures Stratum(g.rows[i], col).Some? {
      assert g.rows[i] in g.rows;
      RemoveSmallClassesKeepsExactlyLargeClasses(f, col, minCount);
      var j :| 0 <= j < |f.rows| && f.rows[j] == g.rows[i];
    }
  }

  // ---------------------------------------------------------------------------
  // The order of the checks in `main`

  /** The first failing check decides the outcome: column, nulls, then the size against
      the rows and the classes left after filtering; only then is the split called. */
  lemma PipelineStopsAtFirstFailure<V>(f: Frame<V>, col: string, n: int, split: Splitter<V>)
    ensures col !in f.columns ==> Pipeline(f, col, n, split) == Failure(ColumnNotFound(col))
    ensures col in f.columns && AnyNull(f.rows, col) ==> Pipeline(f, col, n, split) == Failure(MissingValues(col))
    ensures col in f.columns && !AnyNull(f.rows, col) ==>
      var g := RemoveSmallClasses(f, col, DefaultMinCount);
      var large := |LargeClasses(f.rows, col, DefaultMinCount)|;
      var p := Pipeline(f, col, n, split);
      && (n <= 0 ==> p == Failure(SampleSizeNotPositive))
      && (0 < n && n > |g.rows| ==> p == Failure(SampleSizeExceedsRows))
      && (0 < n <= |g.rows| && n < large ==> p == Failure(SampleSizeBelowClassCount(n, large)))
      && (0 < n <= |g.rows| && n >= large ==> ReadyToSample(g, col, n) && p == StratifiedSampling(split, g, col, n))
  {
    if col in f.columns && !AnyNull(f.rows, col) {
      RemoveSmallClassesSurvivors(f, col, DefaultMinCount);
      RemoveSmallClassesNoNull(f, col, DefaultMinCount);
    }
  }

  /** The split is called, and its result or error returned, only once every check has passed. */
  lemma SamplerReachedOnlyWhenChecksPass<V>(f: Frame<V>, col: string, n: int, split: Splitter<V>)
    ensures var p := Pipeline(f, col, n, split);
      p.Success? || p.error.FromSampler() ==>
        && col in f.columns
        && !AnyNull(f.rows, col)
        && var g := RemoveSmallClasses(f, col, DefaultMinCount);
           && ReadyToSample(g, col, n)
           && p == StratifiedSampling(split, g, col, n)
  {
    PipelineStopsAtFirstFailure(f, col, n, split);
  }

  /** A frame that filtering empties is stopped by the size check before the split. */
  lemma EmptyAfterFilteringIsRejected<V>(f: Frame<V>, col: string, n: int, split: Splitter<V>)
    requires col in f.columns && !AnyNull(f.rows, col)
    requires RemoveSmallClasses(f, col, DefaultMinCount).rows == []
    ensures Pipeline(f, col, n, split) == Failure(if n <= 0 then SampleSizeNotPositive else SampleSizeExceedsRows)
  {
    PipelineStopsAtFirstFailure(f, col, n, split);
  }

  /** Under the default threshold a class of two or three rows is removed too. */
  lemma DefaultThresholdRemovesClassesBelowFour<V>(f: Frame<V>, col: string, v: V)
    requires col in f.columns
    requires Count(f.rows, col, v) < DefaultMinCount
    ensures var g := RemoveSmallClasses(f, col, DefaultMinCount);
      Count(g.rows, col, v) == 0 && v !in Classes(g.rows, col)
  {
    var g := RemoveSmallClasses(f, col, DefaultMinCount);
    RemoveSmallClassesCounts(f, col, DefaultMinCount, v);
    ClassesAreCounted(g.rows, col, v);
  }

  /** A row whose only cell is `star = k`. */
  function StarRow(k: int): Row<int> {
    map["star" := Some(k)]
  }

  /** Four rows of class 1 and one of class 2. */
  function FourAndOne(): Frame<int> {
    Table(["star"], [StarRow(1), StarRow(1), StarRow(1), StarRow(1), StarRow(2)])
  }

  /** The size is checked against the filtered rows: five rows, a sample of five, and the
      run fails because filtering left four. */
  lemma SizeIsCheckedAfterFiltering(split: Splitter<int>)
    ensures ValidateSampleSize(FourAndOne(), 5).Pass?
    ensures Pipeline(FourAndOne(), "star", 5, split) == Failure(SampleSizeExceedsRows)
  {
    var f := FourAndOne();
    var g := RemoveSmallClasses(f, "star", DefaultMinCount);
    FourAndOneFiltered();
    assert !AnyNull(f.rows, "star") by {
      var one, two := StarRow(1), StarRow(2);
      assert Stratum(one, "star").Some? && Stratum(two, "star").Some?;
      var rows := [one, one, one, one, two];
      assert f.rows == rows;
      assert rows[1..] == [one, one, one, two];
      assert rows[1..][1..] == [one, one, two];
      assert rows[1..][1..][1..] == [one, two];
      assert rows[1..][1..][1..][1..] == [two];
      assert !AnyNull([two], "star");
      assert !AnyNull([one, two], "star");
      assert !AnyNull([one, one, two], "star");
      assert !AnyNull([one, one, one, two], "star");
    }
    assert ValidateSampleSize(g, 5) == Fail(SampleSizeExceedsRows);
  }

  /** Class 1 has four rows of FourAndOne, class 2 one, and no other value occurs. */
  lemma FourAndOneCounts(v: int)
    ensures Count(FourAndOne().rows, "star", v) == if v == 1 then 4 else if v == 2 then 1 else 0
  {
    var one, two := StarRow(1), StarRow(2);
    assert Stratum(one, "star") == Some(1) && Stratum(two, "star") == Some(2);
    var rows := FourAndOne().rows;
    assert rows == [one, one, one, one, two];
    assert rows[1..] == [one, one, one, two];
    assert rows[1..][1..] == [one, one, two];
    assert rows[1..][1..][1..] == [one, two];
    assert rows[1..][1..][1..][1..] == [two];
  }

  /** Class 2 is the only small class of FourAndOne under the default threshold. */
  lemma FourAndOneSmallClasses()
    ensures SmallClasses(FourAndOne().rows, "star", DefaultMinCount) == {2}
  {
    var rows := FourAndOne().rows;
    var small := SmallClasses(rows, "star", DefaultMinCount);
    FourAndOneCounts(2);
    ClassesAreCounted(rows, "star", 2);
    forall v | v in small ensures v == 2 {
      FourAndOneCounts(v);
    }
  }

  /** Dropping class 2 from FourAndOne leaves the four rows of class 1. */
  lemma FourAndOneDropTwo()
    ensures DropClasses(FourAndOne().rows, "star", {2}) == [StarRow(1), StarRow(1), StarRow(1), StarRow(1)]
  {
    var one, two := StarRow(1), StarRow(2);
    assert OutsideClasses(one, "star", {2}) && !OutsideClasses(two, "star", {2});
    var rows := FourAndOne().rows;
    assert rows == [one, one, one, one, two];
    assert DropClasses([two], "star", {2}) == [];
    assert DropClasses([one, two], "star", {2}) == [one] by {
      assert [one, two][1..] == [two];
    }
    assert DropClasses([one, one, two], "star", {2}) == [one, one] by {
      assert [one, one, two][1..] == [one, two];
    }
    assert DropClasses([one, one, one, two], "star", {2}) == [one, one, one] by {
      assert [one, one, one, two][1..] == [one, one, two];
    }
    assert rows[1..] == [one, one, one, two];
  }

  /** Filtering FourAndOne leaves the four rows of class 1. */
  lemma FourAndOneFiltered()
    ensures RemoveSmallClasses(FourAndOne(), "star", DefaultMinCount).rows == [StarRow(1), StarRow(1), StarRow(1), StarRow(1)]
  {
    FourAndOneSmallClasses();
    FourAndOneDropTwo();
  }
}
