/** readstat_calculator: one summary row per sample, and the composition of the whole
    per-sample pipeline on exact values. */
module ReadStat {
  import opened Results
  import opened Statistics
  import ReadMetrics
  import FastqReader

  /** One field of the returned row: the sample name, the read count, or a statistic. */
  datatype Cell = Sample(name: string) | Count(count: nat) | Number(value: real)

  function SummaryCells(s: Summary): seq<Cell> {
    [Number(s.min), Number(s.median), Number(s.mean), Number(s.max)]
  }

  /** The 14-field row, or the ValueError min() raises on an empty column. */
  function ReadstatCalculator(sample: string, readLengths: seq<real>, readQualities: seq<real>,
                              avgBaseQualities: seq<real>): (r: Result<seq<Cell>>)
    ensures r.Err? <==> readLengths == [] || readQualities == [] || avgBaseQualities == []
    ensures r.Err? ==> r.error == EmptyColumn
    ensures r.Ok? ==> |r.value| == 14
    ensures r.Ok? ==> r.value[0] == Sample(sample) && r.value[1] == Count(|readLengths|)
    ensures r.Ok? ==> r.value[2..6] == SummaryCells(Summarize(readLengths))
    ensures r.Ok? ==> r.value[6..10] == SummaryCells(Summarize(readQualities))
    ensures r.Ok? ==> r.value[10..14] == SummaryCells(Summarize(avgBaseQualities))
  {
    if readLengths == [] || readQualities == [] || avgBaseQualities == [] then Err(EmptyColumn)
    else
      Ok(Row(sample, |readLengths|, Summarize(readLengths), Summarize(readQualities), Summarize(avgBaseQualities)))
  }

  function Row(sample: string, count: nat, length: Summary, quality: Summary, avgBaseQuality: Summary): (row: seq<Cell>)
    ensures |row| == 14
    ensures row[0] == Sample(sample) && row[1] == Count(count)
    ensures row[2..6] == SummaryCells(length)
    ensures row[6..10] == SummaryCells(quality)
    ensures row[10..14] == SummaryCells(avgBaseQuality)
  {
    var head := [Sample(sample), Count(count)];
    var a, b, c := SummaryCells(length), SummaryCells(quality), SummaryCells(avgBaseQuality);
    var row := head + a + b + c;
    assert row[2..6] == a;
    assert row[6..10] == b;
    assert row[10..14] == c;
    row
  }

  /** The four cells from index at are min, median, mean and max of one column, in order. */
  predicate OrderedBlock(row: seq<Cell>, at: nat) {
    at + 4 <= |row|
    && row[at].Number? && row[at + 1].Number? && row[at + 2].Number? && row[at + 3].Number?
    && row[at].value <= row[at + 1].value <= row[at + 3].value
    && row[at].value <= row[at + 2].value <= row[at + 3].value
  }

  /** In every column of a returned row, min <= median <= max and min <= mean <= max, and
      the count is that of the read lengths. */
  lemma RowIsOrdered(sample: string, readLengths: seq<real>, readQualities: seq<real>, avgBaseQualities: seq<real>)
    requires ReadstatCalculator(sample, readLengths, readQualities, avgBaseQualities).Ok?
    ensures var row := ReadstatCalculator(sample, readLengths, readQualities, avgBaseQualities).value;
      OrderedBlock(row, 2) && OrderedBlock(row, 6) && OrderedBlock(row, 10)
  {
    var row := ReadstatCalculator(sample, readLengths, readQualities, avgBaseQualities).value;
    assert row[2..6][0] == row[2] && row[2..6][1] == row[3] && row[2..6][2] == row[4] && row[2..6][3] == row[5];
    assert row[6..10][0] == row[6] && row[6..10][1] == row[7] && row[6..10][2] == row[8] && row[6..10][3] == row[9];
    assert row[10..14][0] == row[10] && row[10..14][1] == row[11] && row[10..14][2] == row[12] && row[10..14][3] == row[13];
  }

  /** The three columns of the per-sample table. */
  function Lengths(ms: seq<ReadMetrics.ReadMetric>): (xs: seq<real>)
    ensures |xs| == |ms| && forall i :: 0 <= i < |ms| ==> xs[i] == ms[i].readLength as real
  {
    seq(|ms|, i requires 0 <= i < |ms| => ms[i].readLength as real)
  }

  function Qualities(ms: seq<ReadMetrics.ReadMetric>): (xs: seq<real>)
    ensures |xs| == |ms| && forall i :: 0 <= i < |ms| ==> xs[i] == ms[i].readQuality
  {
    seq(|ms|, i requires 0 <= i < |ms| => ms[i].readQuality)
  }

  function AvgBaseQualities(ms: seq<ReadMetrics.ReadMetric>): (xs: seq<real>)
    ensures |xs| == |ms| && forall i :: 0 <= i < |ms| ==> xs[i] == ms[i].averageBaseQuality
  {
    seq(|ms|, i requires 0 <= i < |ms| => ms[i].averageBaseQuality)
  }

  /** The report row of one sample, computed from its FASTQ lines with exact arithmetic. */
  function SampleRow(sample: string, lines: seq<string>): Result<seq<Cell>> {
    match ReadMetrics.SampleMetrics(lines)
    case Err(e) => Err(e)
    case Ok(ms) => ReadstatCalculator(sample, Lengths(ms), Qualities(ms), AvgBaseQualities(ms))
  }

  /** A sample yields a row exactly when it has at least one record and no record has an
      empty sequence line; the row then counts one read per record. */
  lemma SampleRowOutcome(sample: string, lines: seq<string>)
    ensures var groups := FastqReader.Groups(lines);
      SampleRow(sample, lines).Ok? <==> groups != [] && forall i :: 0 <= i < |groups| ==> groups[i][1] != ""
    ensures var groups := FastqReader.Groups(lines);
      SampleRow(sample, lines).Ok? ==> SampleRow(sample, lines).value[1] == Count(|groups|)
    ensures var groups := FastqReader.Groups(lines);
      SampleRow(sample, lines) == Err(EmptyColumn) <==> groups == []
  {
  }

  /** A 1-record sample whose quality line is "!!!!": one read, every length statistic 4,
      every quality and average base quality statistic 0. */
  lemma OneRecordAllBangExample()
    ensures SampleRow("s", ["@r1\n", "ACGT\n", "+\n", "!!!!\n"]) ==
      Ok(Row("s", 1, Summary(4.0, 4.0, 4.0, 4.0), Summary(0.0, 0.0, 0.0, 0.0), Summary(0.0, 0.0, 0.0, 0.0)))
  {
    ReadMetrics.OneRecordAllBangMetrics();
    var m := ReadMetrics.ReadMetric("@r1", 4, 0.0, 0.0);
    assert Lengths([m]) == [4.0];
    assert Qualities([m]) == [0.0];
    assert AvgBaseQualities([m]) == [0.0];
    SingletonSummary(4.0);
    SingletonSummary(0.0);
  }
}
