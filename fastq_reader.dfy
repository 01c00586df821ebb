/** read_fastq: groups a stream of lines into consecutive 4-line records
    (id, sequence, separator, quality), each line stripped, and stops at the
    first group whose first line is empty. */
module FastqReader {
  import opened Text

  /** Every line of the stream stripped, as read_fastq's comprehension strips each line. */
  function StripAll(lines: seq<string>): (t: seq<string>)
    ensures |t| == |lines|
  {
    if lines == [] then [] else [Strip(lines[0])] + StripAll(lines[1..])
  }

  lemma {:induction false} StripAllAt(lines: seq<string>, i: nat)
    requires i < |lines|
    ensures StripAll(lines)[i] == Strip(lines[i])
  {
    if i > 0 {
      StripAllAt(lines[1..], i - 1);
    }
  }

  lemma {:induction false} StripAllPrefix(lines: seq<string>, m: nat)
    requires m <= |lines|
    ensures StripAll(lines[..m]) == StripAll(lines)[..m]
  {
    if m > 0 {
      assert lines[..m][1..] == lines[1..][..m - 1];
      StripAllPrefix(lines[1..], m - 1);
    }
  }

  /** The i-th stripped line, or "" once the stream is exhausted (readline() at end of
      input returns "", and "" strips to ""). */
  function Line(t: seq<string>, i: nat): string {
    if i < |t| then t[i] else ""
  }

  /** The first line of the k-th group. */
  function Head(t: seq<string>, k: nat): string {
    Line(t, 4 * k)
  }

  /** The k-th 4-line group, padded with "" past the end of input. */
  function GroupAt(t: seq<string>, k: nat): seq<string> {
    [Line(t, 4 * k), Line(t, 4 * k + 1), Line(t, 4 * k + 2), Line(t, 4 * k + 3)]
  }

  /** r is what read_fastq yields from group k onwards over the stripped lines t: group
      after group, in input order, each with a non-empty first line, ending just before the
      first group whose first line is empty. */
  predicate IsGroupingFrom(t: seq<string>, k: nat, r: seq<seq<string>>) {
    (forall j :: 0 <= j < |r| ==> r[j] == GroupAt(t, k + j))
    && (forall i :: k <= i < k + |r| ==> Head(t, i) != "")
    && Head(t, k + |r|) == ""
  }

  function GroupsFrom(t: seq<string>, k: nat): (r: seq<seq<string>>)
    ensures IsGroupingFrom(t, k, r)
    decreases |t| - 4 * k
  {
    if Head(t, k) == "" then [] else [GroupAt(t, k)] + GroupsFrom(t, k + 1)
  }

  /** Every record read_fastq yields for the stream, in order. */
  function Groups(lines: seq<string>): seq<seq<string>> {
    GroupsFrom(StripAll(lines), 0)
  }

  /** The characterization determines the grouping: there is exactly one. */
  lemma {:induction false} GroupingUnique(t: seq<string>, k: nat, r: seq<seq<string>>)
    requires IsGroupingFrom(t, k, r)
    ensures r == GroupsFrom(t, k)
    decreases |r|
  {
    if r != [] {
      assert IsGroupingFrom(t, k + 1, r[1..]) by {
        forall j | 0 <= j < |r[1..]|
          ensures r[1..][j] == GroupAt(t, k + 1 + j)
        {
          assert r[1..][j] == r[j + 1];
        }
        assert k + 1 + |r[1..]| == k + |r|;
      }
      GroupingUnique(t, k + 1, r[1..]);
      assert r == [r[0]] + r[1..];
    }
  }

  /** Every yielded group is a list of exactly 4 lines, each already stripped. */
  lemma GroupsAreStrippedQuads(lines: seq<string>)
    ensures forall g :: g in Groups(lines) ==>
      |g| == 4 && forall j :: 0 <= j < 4 ==> Strip(g[j]) == g[j]
  {
    var t := StripAll(lines);
    var r := Groups(lines);
    forall g | g in r ensures |g| == 4 && forall j :: 0 <= j < 4 ==> Strip(g[j]) == g[j] {
      var k :| 0 <= k < |r| && r[k] == g;
      assert g == GroupAt(t, k);
      forall j | 0 <= j < 4 ensures Strip(g[j]) == g[j] {
        GroupsContent(lines, k, j);
        if 4 * k + j < |lines| {
          StripIdempotent(lines[4 * k + j]);
        }
      }
    }
  }

  /** Groups(lines) in terms of the raw lines: group k holds lines 4k..4k+3 stripped, with
      "" for each line past the end of input. */
  lemma GroupsContent(lines: seq<string>, k: nat, j: nat)
    requires k < |Groups(lines)| && j < 4
    ensures Groups(lines)[k][j] == if 4 * k + j < |lines| then Strip(lines[4 * k + j]) else ""
  {
    var t := StripAll(lines);
    assert Groups(lines)[k] == GroupAt(t, 0 + k);
    assert Groups(lines)[k][j] == Line(t, 4 * k + j);
    if 4 * k + j < |lines| {
      StripAllAt(lines, 4 * k + j);
    }
  }

  /** The raw first line of group k is missing or all whitespace. */
  predicate BlankHead(lines: seq<string>, k: nat) {
    4 * k >= |lines| || AllSpace(lines[4 * k])
  }

  lemma HeadIsBlank(lines: seq<string>, k: nat)
    ensures Head(StripAll(lines), k) == "" <==> BlankHead(lines, k)
  {
    if 4 * k < |lines| {
      StripAllAt(lines, 4 * k);
      StripEmpty(lines[4 * k]);
    }
  }

  /** read_fastq yields exactly n records when the first lines of groups 0 .. n-1 are
      present and not blank and the first line of group n is blank or missing. */
  lemma GroupCount(lines: seq<string>, n: nat)
    ensures |Groups(lines)| == n <==>
      (forall k :: 0 <= k < n ==> !BlankHead(lines, k)) && BlankHead(lines, n)
  {
    var t := StripAll(lines);
    var r := Groups(lines);
    forall k | 0 <= k ensures Head(t, k) == "" <==> BlankHead(lines, k) {
      HeadIsBlank(lines, k);
    }
    if (forall k :: 0 <= k < n ==> !BlankHead(lines, k)) && BlankHead(lines, n) {
      assert Head(t, n) == "";
      assert BlankHead(lines, |r|);
    }
  }

  /** Reading stops at the first group whose first line is blank or missing: an
      all-whitespace line at a record boundary ends the output, even if more input
      follows. */
  lemma StopsAtBlankHead(lines: seq<string>, k: nat)
    requires 4 * k >= |lines| || AllSpace(lines[4 * k])
    ensures |Groups(lines)| <= k
  {
    var t := StripAll(lines);
    var r := Groups(lines);
    if 4 * k < |lines| {
      StripEmpty(lines[4 * k]);
      StripAllAt(lines, 4 * k);
    }
    assert Head(t, k) == "";
  }

  /** Input after a blank first line is never read: the stream can be cut there. */
  lemma IgnoresInputAfterBlankHead(lines: seq<string>, k: nat)
    requires 4 * k < |lines| && AllSpace(lines[4 * k])
    ensures Groups(lines) == Groups(lines[..4 * k])
  {
    var t := StripAll(lines);
    var r := Groups(lines);
    var prefix := lines[..4 * k];
    var tp := StripAll(prefix);
    StripAllPrefix(lines, 4 * k);
    StopsAtBlankHead(lines, k);
    assert IsGroupingFrom(tp, 0, r) by {
      forall j | 0 <= j < |r|
        ensures r[j] == GroupAt(tp, 0 + j)
      {
        assert j < k;
        assert r[j] == GroupAt(t, 0 + j);
      }
      forall i | 0 <= i < |r| ensures Head(tp, i) != "" {
        assert Head(tp, i) == Head(t, i);
      }
      if |r| < k {
        assert Head(tp, |r|) == Head(t, 0 + |r|);
      }
    }
    GroupingUnique(tp, 0, r);
  }

  /** A truncated final group is still yielded, its missing lines read as "", provided its
      first line is not blank. */
  lemma TruncatedFinalGroup(lines: seq<string>, k: nat)
    requires 4 * k < |lines| < 4 * k + 4
    requires forall j :: 0 <= j <= k ==> !AllSpace(lines[4 * j])
    ensures |Groups(lines)| == k + 1
    ensures forall j :: 0 <= j < 4 ==>
      Groups(lines)[k][j] == if 4 * k + j < |lines| then Strip(lines[4 * k + j]) else ""
  {
    var t := StripAll(lines);
    var r := Groups(lines);
    if |r| <= k {
      StripEmpty(lines[4 * |r|]);
      StripAllAt(lines, 4 * |r|);
      assert false;
    }
    assert Head(t, k + 1) == "";
    forall j | 0 <= j < 4
      ensures r[k][j] == if 4 * k + j < |lines| then Strip(lines[4 * k + j]) else ""
    {
      GroupsContent(lines, k, j);
    }
  }

  /** Four terminated lines make one record, stripped of their line ends. */
  lemma OneRecordExample()
    ensures Groups(["@r1\n", "ACGT\n", "+\n", "!!!!\n"]) == [["@r1", "ACGT", "+", "!!!!"]]
  {
    var lines := ["@r1\n", "ACGT\n", "+\n", "!!!!\n"];
    var t := ["@r1", "ACGT", "+", "!!!!"];
    forall i | 0 <= i < 4 ensures StripAll(lines)[i] == t[i] {
      StripAllAt(lines, i);
      assert lines[i] == t[i] + "\n";
      StripLineEnd(t[i]);
    }
    assert StripAll(lines) == t;
    assert IsGroupingFrom(t, 0, [t]);
    GroupingUnique(t, 0, [t]);
  }

  /** The source stream as a file object: a cursor over its lines. */
  class LineReader {
    const lines: seq<string>
    var pos: nat

    ghost predicate Valid()
      reads this
    {
      pos <= |lines|
    }

    constructor (lines: seq<string>)
      ensures Valid() && this.lines == lines && pos == 0
    {
      this.lines := lines;
      pos := 0;
    }

    /** readline(): the next raw line and advance, or "" and stay put at end of input. */
    method ReadLine() returns (line: string)
      requires Valid()
      modifies this
      ensures Valid()
      ensures line == if old(pos) < |lines| then lines[old(pos)] else ""
      ensures pos == if old(pos) < |lines| then old(pos) + 1 else old(pos)
    {
      if pos < |lines| {
        line := lines[pos];
        pos := pos + 1;
      } else {
        line := "";
      }
    }
  }

  function MinNat(a: nat, b: nat): nat {
    if a <= b then a else b
  }

  /** [fastq.readline().strip() for i in range(4)] */
  method ReadGroup(reader: LineReader) returns (group: seq<string>)
    requires reader.Valid()
    modifies reader
    ensures reader.Valid()
    ensures |group| == 4
    ensures forall j :: 0 <= j < 4 ==> group[j] == Line(StripAll(reader.lines), old(reader.pos) + j)
    ensures reader.pos == MinNat(old(reader.pos) + 4, |reader.lines|)
  {
    group := [];
    for i := 0 to 4
      invariant reader.Valid()
      invariant reader.pos == MinNat(old(reader.pos) + i, |reader.lines|)
      invariant |group| == i
      invariant forall j :: 0 <= j < i ==> group[j] == Line(StripAll(reader.lines), old(reader.pos) + j)
    {
      var raw := reader.ReadLine();
      if old(reader.pos) + i < |reader.lines| {
        StripAllAt(reader.lines, old(reader.pos) + i);
      }
      group := group + [Strip(raw)];
    }
  }

  /** read_fastq, with the generator's output collected into a sequence. */
  method ReadFastq(lines: seq<string>) returns (groups: seq<seq<string>>)
    ensures IsGroupingFrom(StripAll(lines), 0, groups)
    ensures groups == Groups(lines)
  {
    ghost var t := StripAll(lines);
    var reader := new LineReader(lines);
    groups := [];
    while true
      invariant reader.Valid() && reader.lines == lines
      invariant 4 * |groups| < |lines| + 4
      invariant reader.pos == MinNat(4 * |groups|, |lines|)
      invariant forall j :: 0 <= j < |groups| ==> groups[j] == GroupAt(t, j)
      invariant forall i :: 0 <= i < |groups| ==> Head(t, i) != ""
      decreases |lines| + 4 - 4 * |groups|
    {
      var group := ReadGroup(reader);
      assert group == GroupAt(t, |groups|);
      if group[0] == "" {
        break;
      }
      groups := groups + [group];
    }
    GroupingUnique(t, 0, groups);
  }
}
