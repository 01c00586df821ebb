/** The per-read metrics of process_fastq: read length, Phred+33 quality, and the
    twice-divided average base quality, computed for every record read_fastq yields. */
module ReadMetrics {
  import opened Results
  import FastqReader

  /** Sanger / Phred+33 decoding of one quality character: ord(q) - 33. */
  function Phred(c: char): int {
    c as int - 33
  }

  /** A quality character in the Phred+33 range '!' (0) .. '~' (93). */
  predicate IsPhred33(c: char) {
    '!' <= c <= '~'
  }

  /** sum([ord(q) - 33 for q in quality]) */
  function QualitySum(quality: string): (sum: int)
    ensures (forall i :: 0 <= i < |quality| ==> IsPhred33(quality[i])) ==> 0 <= sum <= 93 * |quality|
  {
    if quality == [] then 0 else Phred(quality[0]) + QualitySum(quality[1..])
  }

  /** The quality sum is additive over concatenation: characters contribute independently. */
  lemma {:induction false} QualitySumAppend(a: string, b: string)
    ensures QualitySum(a + b) == QualitySum(a) + QualitySum(b)
  {
    if a == [] {
      assert a + b == b;
    } else {
      assert (a + b)[1..] == a[1..] + b;
      QualitySumAppend(a[1..], b);
    }
  }

  /** An all-'!' quality string decodes to quality 0 at every base. */
  lemma {:induction false} AllBangSumsToZero(quality: string)
    requires forall i :: 0 <= i < |quality| ==> quality[i] == '!'
    ensures QualitySum(quality) == 0
  {
    if quality != [] {
      AllBangSumsToZero(quality[1..]);
    }
  }

  /** read_quality = sum / read_length, where read_length = len(sequence). */
  function ReadQuality(sequence: string, quality: string): real
    requires |sequence| > 0
  {
    QualitySum(quality) as real / |sequence| as real
  }

  /** average_base_quality = read_quality / read_length: a second division by the length. */
  function AverageBaseQuality(sequence: string, quality: string): real
    requires |sequence| > 0
  {
    ReadQuality(sequence, quality) / |sequence| as real
  }

  /** One row of the per-sample table. */
  datatype ReadMetric = ReadMetric(readId: string, readLength: nat, readQuality: real, averageBaseQuality: real)

  /** The body of process_fastq's loop for one 4-line group: unpack it, measure it, or fail
      with division by zero when the sequence line is empty. */
  function Measure(group: seq<string>): (r: Result<ReadMetric>)
    requires |group| == 4
    ensures r.Err? <==> group[1] == ""
    ensures r.Err? ==> r.error == DivisionByZero
    ensures r.Ok? ==> r.value.readId == group[0] && r.value.readLength == |group[1]|
    ensures r.Ok? ==> r.value.readQuality * (|group[1]| as real) == QualitySum(group[3]) as real
    ensures r.Ok? ==> r.value.averageBaseQuality * (|group[1]| as real) == r.value.readQuality
  {
    var sequence, quality := group[1], group[3];
    if |sequence| == 0 then Err(DivisionByZero)
    else Ok(ReadMetric(group[0], |sequence|, ReadQuality(sequence, quality), AverageBaseQuality(sequence, quality)))
  }

  /** The length depends on the sequence line only: the quality line can be longer or
      shorter without changing it, and the id and separator lines never matter. */
  lemma LengthIgnoresQuality(g: seq<string>, h: seq<string>)
    requires |g| == 4 && |h| == 4 && g[1] == h[1] && g[1] != ""
    ensures Measure(g).Ok? && Measure(h).Ok?
    ensures Measure(g).value.readLength == Measure(h).value.readLength == |g[1]|
  {
  }

  /** When the quality line has one Phred+33 character per base, read_quality is the mean
      base quality, in 0 .. 93, and average_base_quality is that mean divided by the length
      again, in 0 .. 93 / read_length. */
  lemma WellFormedReadBounds(group: seq<string>)
    requires |group| == 4 && group[1] != "" && |group[3]| == |group[1]|
    requires forall i :: 0 <= i < |group[3]| ==> IsPhred33(group[3][i])
    ensures Measure(group).Ok?
    ensures 0.0 <= Measure(group).value.readQuality <= 93.0
    ensures 0.0 <= Measure(group).value.averageBaseQuality <= 93.0 / (|group[1]| as real)
  {
    var n := |group[1]| as real;
    var m := Measure(group).value;
    var s := QualitySum(group[3]) as real;
    assert 0.0 <= s <= 93.0 * n;
    assert m.readQuality == s / n;
    DivideBounds(s, n, 93.0);
    DivideBounds(m.readQuality, n, 93.0 / n);
    assert 93.0 / n * n == 93.0;
  }

  lemma DivideBounds(x: real, n: real, hi: real)
    requires n > 0.0 && 0.0 <= x <= hi * n
    ensures 0.0 <= x / n <= hi
  {
    assert x / n * n == x;
  }

  /** An all-'!' quality line gives read_quality 0 and average_base_quality 0. */
  lemma AllBangIsZero(group: seq<string>)
    requires |group| == 4 && group[1] != ""
    requires forall i :: 0 <= i < |group[3]| ==> group[3][i] == '!'
    ensures Measure(group) == Ok(ReadMetric(group[0], |group[1]|, 0.0, 0.0))
  {
    AllBangSumsToZero(group[3]);
  }

  /** process_fastq's loop over all groups: every row in input order, or division by zero as
      soon as one group has an empty sequence line. */
  function MeasureAll(groups: seq<seq<string>>): (r: Result<seq<ReadMetric>>)
    requires forall i :: 0 <= i < |groups| ==> |groups[i]| == 4
    ensures r.Err? <==> exists i :: 0 <= i < |groups| && groups[i][1] == ""
    ensures r.Err? ==> r.error == DivisionByZero
    ensures r.Ok? ==> |r.value| == |groups| && forall i :: 0 <= i < |groups| ==> Measure(groups[i]) == Ok(r.value[i])
  {
    if groups == [] then Ok([])
    else
      match Measure(groups[0])
      case Err(e) => Err(e)
      case Ok(m) =>
        match MeasureAll(groups[1..])
        case Err(e) => Err(e)
        case Ok(ms) => Ok([m] + ms)
  }

  /** All metric rows of one FASTQ stream. */
  function SampleMetrics(lines: seq<string>): Result<seq<ReadMetric>> {
    MeasureAll(FastqReader.Groups(lines))
  }

  /** A 1-record FASTQ whose quality line is "!!!!": read_length 4, read_quality 0 and
      average_base_quality 0. */
  lemma OneRecordAllBangMetrics()
    ensures SampleMetrics(["@r1\n", "ACGT\n", "+\n", "!!!!\n"]) == Ok([ReadMetric("@r1", 4, 0.0, 0.0)])
  {
    var group := ["@r1", "ACGT", "+", "!!!!"];
    FastqReader.OneRecordExample();
    AllBangIsZero(group);
    var m := ReadMetric("@r1", 4, 0.0, 0.0);
    assert |group[1]| == 4;
    assert Measure(group) == Ok(m);
    var groups: seq<seq<string>> := [group];
    var r := MeasureAll(groups);
    assert groups[0][1] != "";
    assert r.Ok? && |r.value| == 1;
    assert Ok(r.value[0]) == Measure(groups[0]);
    assert r.value == [m];
  }

  /** process_fastq: read the records and measure each one in order; the rows it writes are
      returned instead. */
  method ProcessFastq(lines: seq<string>) returns (r: Result<seq<ReadMetric>>)
    ensures r == SampleMetrics(lines)
    ensures r.Ok? ==> |r.value| == |FastqReader.Groups(lines)|
  {
    var groups := FastqReader.ReadFastq(lines);
    var rows: seq<ReadMetric> := [];
    for i := 0 to |groups|
      invariant |rows| == i
      invariant forall j :: 0 <= j < i ==> Measure(groups[j]) == Ok(rows[j])
      invariant forall j :: 0 <= j < i ==> groups[j][1] != ""
    {
      var m := Measure(groups[i]);
      if m.Err? {
        assert groups[i][1] == "";
        return Err(m.error);
      }
      rows := rows + [m.value];
    }
    r := Ok(rows);
    ghost var expected := MeasureAll(groups);
    assert expected.Ok?;
    assert expected.value == rows;
  }
}
