# FASTQ read statistics — a Dafny model

This project models the core of `read.stat.from.fastq.py`, a script that computes
quality-control statistics from FASTQ sequencing files. Three parts are modelled:

1. **Record grouping** (`read_fastq`). A line stream becomes consecutive 4-line records
   (id, sequence, separator, quality). Every line is stripped of surrounding whitespace.
   Reading stops at the first record whose first line is empty. The stream is a
   `seq<string>` read through a `LineReader` object with a cursor. Past the end of input
   `readline()` returns `""`, so a truncated last record is padded with `""`.
2. **Per-read metrics** (the loop body of `process_fastq`). Quality characters are decoded
   as Phred+33 (`ord(q) - 33`, the Sanger FASTQ encoding). `read_quality` is the decoded sum
   divided by the sequence length. `average_base_quality` divides `read_quality` by the
   length a second time. This double division is what the program does, and the model keeps it.
3. **Per-sample summary** (`readstat_calculator`). For the length, quality and average base
   quality columns it computes min, median, mean and max, and it also gives the read count.
   The result is a 14-field row. The median is that of `statistics.median`: the middle sorted
   value, or the mean of the two middle values for an even count.

All arithmetic is on exact `real`s.

Modules, one per component: `Results` (errors), `Text` (Python's `str.strip()`),
`FastqReader`, `ReadMetrics`, `Statistics` and `ReadStat`.

Errors are values, not preconditions:
- A record with an empty sequence line gives `Err(DivisionByZero)`. In the program this
  `ZeroDivisionError` is not caught, so the run aborts.
- An empty column in `readstat_calculator` gives `Err(EmptyColumn)`. In the program this is
  the `ValueError` that `min()` raises.

Behaviour of the code that the model keeps:
- A truncated last record is padded with `""` and still produced, because `readline()`
  returns `""` at end of input (line 12).
- The quality line's length is never compared with the sequence line's. `read_length` is
  `len(sequence)` (line 28).
- Nothing rejects an empty sequence line before line 29 divides by its length.

## Model

| member | source | states |
|---|---|---|
| Text.StripLeadingSpec | read.stat.from.fastq.py:12 | the left half of `strip()`: the result is a suffix of the line, everything dropped is whitespace, and the result does not start with whitespace |
| Text.StripTrailingSpec | read.stat.from.fastq.py:12 | the right half of `strip()`: the result is a prefix of the line, everything dropped is whitespace, and the result does not end with whitespace |
| Text.StripSpec | read.stat.from.fastq.py:12 | `strip()` returns the infix between leading and trailing whitespace, and the result has no whitespace at either end |
| Text.StripEmpty | read.stat.from.fastq.py:12-13 | a line strips to `""` exactly when it is all whitespace, which is the blank-line test `not lines[0]` |
| Text.StripIdempotent | read.stat.from.fastq.py:12 | stripping twice is the same as stripping once |
| Text.StripLineEnd | read.stat.from.fastq.py:12 | a line with no whitespace at its ends loses only its `\n` terminator |
| FastqReader.GroupsFrom | read.stat.from.fastq.py:11-15 | the records produced satisfy the grouping characterization: record j is stripped lines 4j..4j+3, padded with `""`; every produced record's first line is non-empty; the record after the last one has an empty first line |
| FastqReader.GroupingUnique | read.stat.from.fastq.py:11-15 | any sequence satisfying that characterization is exactly the output, so the characterization fully determines `read_fastq` |
| FastqReader.GroupCount | read.stat.from.fastq.py:11-14 | exactly n records are produced if and only if the raw first lines of groups 0..n-1 exist and are not blank, and group n's first line is blank or missing |
| FastqReader.GroupsContent | read.stat.from.fastq.py:11-15 | record k, line j is raw line 4k+j stripped, or `""` past the end of input; records follow input order, each one the next 4 lines |
| FastqReader.GroupsAreStrippedQuads | read.stat.from.fastq.py:12 | every produced record has exactly 4 lines, and each line is already stripped |
| FastqReader.StopsAtBlankHead | read.stat.from.fastq.py:13-14 | an all-whitespace or missing first line at group k means at most k records are produced |
| FastqReader.IgnoresInputAfterBlankHead | read.stat.from.fastq.py:13-14 | input after a blank first line is never used: cutting the stream there gives the same records |
| FastqReader.TruncatedFinalGroup | read.stat.from.fastq.py:12-15 | a final group with fewer than 4 lines is still produced if its first line is not blank, and its missing lines are `""` |
| FastqReader.OneRecordExample | read.stat.from.fastq.py:12-15 | four `\n`-terminated lines give one record with the terminators removed |
| FastqReader.LineReader.constructor | read.stat.from.fastq.py:10 | opening the stream puts the cursor at the first line |
| FastqReader.LineReader.ReadLine | read.stat.from.fastq.py:12 | `readline()` returns the raw line under the cursor and advances; at end of input it returns `""` and stays put |
| FastqReader.ReadGroup | read.stat.from.fastq.py:12 | four `readline().strip()` calls give 4 stripped lines starting at the cursor, and the cursor moves 4 lines or to the end |
| FastqReader.ReadFastq | read.stat.from.fastq.py:9-15 | the loop produces exactly `Groups(lines)`, and so satisfies the grouping characterization |
| ReadMetrics.QualitySum | read.stat.from.fastq.py:29 | the sum of `ord(q) - 33` lies in 0..93 per character when every character is in the Phred+33 range `!`..`~` |
| ReadMetrics.QualitySumAppend | read.stat.from.fastq.py:29 | the decoded sum is additive over concatenation, so each character contributes on its own |
| ReadMetrics.AllBangSumsToZero | read.stat.from.fastq.py:29 | a quality line made only of `!` decodes to sum 0 |
| ReadMetrics.Measure | read.stat.from.fastq.py:27-30 | one record: it fails with division by zero exactly when the sequence line is empty; otherwise `read_length` is the sequence length, `read_quality` times the length is the decoded sum, and `average_base_quality` times the length is `read_quality` |
| ReadMetrics.LengthIgnoresQuality | read.stat.from.fastq.py:27-28 | `read_length` depends on the sequence line only, whatever the quality line's length |
| ReadMetrics.WellFormedReadBounds | read.stat.from.fastq.py:28-30 | with one Phred+33 character per base, `read_quality` is in [0, 93], and `average_base_quality` is in [0, 93 / read_length] |
| ReadMetrics.AllBangIsZero | read.stat.from.fastq.py:29-30 | an all-`!` quality line gives `read_quality` 0 and `average_base_quality` 0 |
| ReadMetrics.MeasureAll | read.stat.from.fastq.py:26-30 | the whole loop: it fails exactly when some record has an empty sequence line; otherwise there is one row per record, in order, row i being record i's metrics |
| ReadMetrics.OneRecordAllBangMetrics | read.stat.from.fastq.py:26-30 | a 1-record FASTQ with quality `!!!!` gives read_length 4, read_quality 0, average_base_quality 0 |
| ReadMetrics.ProcessFastq | read.stat.from.fastq.py:26-30 | the imperative loop over `read_fastq` returns exactly `SampleMetrics(lines)`: one row per record, or the division-by-zero failure |
| Statistics.Min | read.stat.from.fastq.py:39 | `min()` returns an element of the column that is at most every element |
| Statistics.Max | read.stat.from.fastq.py:42 | `max()` returns an element of the column that is at least every element |
| Statistics.SumBounds | read.stat.from.fastq.py:41 | bounds on every value give bounds on the sum: count times the lower bound up to count times the upper bound |
| Statistics.MeanBetweenMinAndMax | read.stat.from.fastq.py:41 | min ≤ mean ≤ max |
| Statistics.Insert | read.stat.from.fastq.py:40 | inserting adds exactly one occurrence of the value and nothing else (length and multiset) |
| Statistics.InsertSorted | read.stat.from.fastq.py:40 | inserting into an ascending list keeps it ascending |
| Statistics.MiddleBetweenEnds | read.stat.from.fastq.py:40 | the middle of ascending data (odd or even count) lies between its first and last value |
| Statistics.Sort | read.stat.from.fastq.py:40 | the `sorted()` step of `statistics.median` is an ascending permutation of the column |
| Statistics.SortedUnique | read.stat.from.fastq.py:40 | two ascending orderings of the same values are equal |
| Statistics.SortEnds | read.stat.from.fastq.py:40 | the sorted column starts at its min and ends at its max |
| Statistics.MedianBetweenMinAndMax | read.stat.from.fastq.py:40 | min ≤ median ≤ max |
| Statistics.MedianOfPermutation | read.stat.from.fastq.py:40 | the median depends only on the values, not on their input order |
| Statistics.Summarize | read.stat.from.fastq.py:39-42 | the four statistics of a non-empty column: min and max are elements that bound every value, and both median and mean lie between them |
| Statistics.TwoValueExample | read.stat.from.fastq.py:39-42 | lengths [10, 20] give min 10, median 15, mean 15, max 20 |
| Statistics.SortExample | read.stat.from.fastq.py:40 | [4, 1, 3, 2] sorts to [1, 2, 3, 4] |
| Statistics.EvenCountExample | read.stat.from.fastq.py:40 | an even count takes the mean of the two middle sorted values: [4, 1, 3, 2] has median 2.5 |
| Statistics.SingletonSummary | read.stat.from.fastq.py:39-42 | for a one-value column, all four statistics are that value |
| ReadStat.Row | read.stat.from.fastq.py:54-56 | the row has 14 fields in fixed order: sample, count, then min/median/mean/max for length, quality and average base quality |
| ReadStat.ReadstatCalculator | read.stat.from.fastq.py:37-56 | it fails exactly when a column is empty (the `min()` error); otherwise it returns the 14-field row, with the count equal to the number of read lengths and each 4-field block being that column's statistics |
| ReadStat.RowIsOrdered | read.stat.from.fastq.py:39-52 | in each of the three blocks of a returned row: min ≤ median ≤ max and min ≤ mean ≤ max |
| ReadStat.SampleRowOutcome | read.stat.from.fastq.py:26-56 | a sample yields a row exactly when it has at least one record and no empty sequence line; the count is then the number of records; it fails on an empty column exactly when there are no records |
| ReadStat.OneRecordAllBangExample | read.stat.from.fastq.py:26-56 | the 1-record `!!!!` sample gives count 1, every length statistic 4, and every quality statistic 0 |

## Left out

- `main` (lines 59-113) is not modelled. That covers argument parsing, directory listing and its order, extension filtering, gzip decompression and directory creation. It is environment plumbing.
- The pandas table I/O is not modelled (lines 77-80, 88, 101, 105, 107). So is the report table built from the per-sample rows.
- The `try`/`except` blocks in `main` are not modelled. After a failed `readstat_calculator`, they can store the previous sample's stale `out_data` as this sample's row. That behaviour depends on pandas control flow, not on the core computation.
- The per-sample TSV is not modelled: its header, its writing, and the `:.2f` formatting of `read_quality` and `average_base_quality` (lines 21-24, 31). `ProcessFastq` returns the rows instead of writing them.
- The program takes its statistics from values read back from that two-decimal text. `SampleRow` computes them from the exact values instead, so it does not capture the rounding.
- Floating point is not modelled. All divisions are exact over `real`, so float rounding of the sums, means and medians is not captured.
- Progress and diagnostic printing is not modelled (lines 33-34, 75, 84, 90-91, 93, 98-99, 103, 105, 109).
- File names and `sample_name` derivation (`os.path.splitext`) are not modelled. The sample name is a parameter.
- Splitting the file into lines (universal newlines) is not modelled. The stream is the sequence of lines `readline()` would return.
- The generator's laziness is not modelled. `ReadFastq` collects all records before `ProcessFastq` measures them. The records and the row order are the same.
- The rows already written when a `ZeroDivisionError` aborts the run are not modelled. The model returns only the error.
- Python's `ord` is taken as Dafny's `char as int`. These agree on every Unicode scalar value, but surrogate code points are not modelled.
- pandas NaN values and missing columns are not modelled. The columns given to `ReadstatCalculator` are sequences of reals.
- Integer and float column types are not modelled. Read lengths enter the summary as reals.
