/** The draft helpers of `src/utils/test_sequence_utils.py`. Its cleaning,
    validation, reverse-complement, palindrome, nucleotide-counting, k-mer
    counting and merging helpers are the same code as in `src/sequence_utils.py`
    and are the members of module `SequenceUtils`. This module adds what
    differs: `find_top_values`, the run-length `find_motif`, the record built
    from it, and `create_k_mer_row`. */
module TestSequenceUtils {
  import opened PyText
  import opened Counters
  import opened Sorting
  import opened SequenceUtils

  // ---------------------------------------------------------------------------
  // Top values

  /** `find_top_values`: the (key, count) pairs sorted by non-increasing count
      (stable), cut to `results[:limit]` with Python's slice rules. */
  function FindTopValues(results: seq<(string, int)>, limit: int): seq<(string, int)> {
    Slice(SortByCountDescending(results), 0, limit)
  }

  /** The top values are drawn from `results`, come by non-increasing count,
      and number `limit` (or all pairs when there are fewer; a negative limit
      drops that many from the end). */
  lemma FindTopValuesProperties(results: seq<(string, int)>, limit: int)
    ensures |FindTopValues(results, limit)| ==
              if limit < 0 then Max(0, |results| + limit)
              else if limit < |results| then limit else |results|
    ensures forall i :: 0 <= i < |FindTopValues(results, limit)| ==> FindTopValues(results, limit)[i] in results
    ensures forall i, j :: 0 <= i < j < |FindTopValues(results, limit)| ==>
              FindTopValues(results, limit)[i].1 >= FindTopValues(results, limit)[j].1
  {
    var sorted := SortByCountDescending(results);
    var top := FindTopValues(results, limit);
    assert top == sorted[..|top|];
  }

  /** A pair left out of the top values counts no more than any kept one. */
  lemma FindTopValuesCutoff(results: seq<(string, int)>, limit: int, p: (string, int), i: nat)
    requires p in results && p !in FindTopValues(results, limit) && i < |FindTopValues(results, limit)|
    ensures p.1 <= FindTopValues(results, limit)[i].1
  {
    var sorted := SortByCountDescending(results);
    var top := FindTopValues(results, limit);
    assert top == sorted[..|top|];
    var x :| 0 <= x < |results| && results[x] == p;
    var j :| 0 <= j < |sorted| && sorted[j] == p;
    assert top[i] == sorted[i];
  }

  /** The (key, count) pairs of the k-mer tally in first-seen key order: the
      `oligo_counts.items()` that `count_k_mers` sorts. */
  function KmerItems(windows: seq<string>): (items: seq<(string, int)>)
    ensures |items| == |Distinct(windows)|
    ensures forall j :: 0 <= j < |items| ==> items[j].0 == Distinct(windows)[j] && items[j].1 == multiset(windows)[items[j].0]
  {
    TallyCounts(windows);
    DistinctKeys(windows);
    Items(Tally(windows), Distinct(windows))
  }

  /** `count_k_mers` keeps exactly `dict(find_top_values(oligo_counts, 5))`. */
  lemma CountKmersIsTopFive(sequence: string, k: int)
    ensures |Normalize(sequence)| >= k ==>
              TopKmers(sequence, k) == ToDict(FindTopValues(KmerItems(Windows(Normalize(sequence), k)), 5))
  {
  }

  // ---------------------------------------------------------------------------
  // The run-length `find_motif`

  /** How many values `range(0, n, step)` yields. */
  function Checkpoints(n: int, step: int): (count: nat)
    requires step > 0
    ensures count == 0 <==> n <= 0
    ensures n > 0 ==> (count - 1) * step < n <= count * step
    decreases n
  {
    if n <= 0 then 0 else 1 + Checkpoints(n - step, step)
  }

  /** The loop finds the motif at checkpoint `j`, that is at index `j * len(motif)`. */
  predicate Hit(sequence: string, motif: string, j: nat) {
    MatchAt(sequence, motif, j * |motif|)
  }

  /** The run the loop holds in `longest`, in checkpoints, after checkpoints
      `0 .. t-1`: the number of hits right before checkpoint `t`. */
  function RunBefore(sequence: string, motif: string, t: nat): nat {
    if t == 0 then 0
    else if Hit(sequence, motif, t - 1) then 1 + RunBefore(sequence, motif, t - 1)
    else 0
  }

  /** A run never reaches back past the first checkpoint, and all the
      checkpoints it covers are hits. */
  lemma {:induction false} RunBeforeBounds(sequence: string, motif: string, t: nat)
    ensures RunBefore(sequence, motif, t) <= t
    ensures forall j :: t - RunBefore(sequence, motif, t) <= j < t ==> Hit(sequence, motif, j)
    ensures RunBefore(sequence, motif, t) < t ==> !Hit(sequence, motif, t - 1 - RunBefore(sequence, motif, t))
  {
    if t > 0 && Hit(sequence, motif, t - 1) {
      RunBeforeBounds(sequence, motif, t - 1);
    }
  }

  /** The set `seen` after checkpoints `0 .. t-1`: the run length, in
      characters, held at every checkpoint that is not a hit. */
  function Recorded(sequence: string, motif: string, t: nat): set<int> {
    set j | 0 <= j < t && !Hit(sequence, motif, j) :: |motif| * RunBefore(sequence, motif, j)
  }

  /** One more checkpoint records the current run exactly when it misses. */
  lemma RecordedStep(sequence: string, motif: string, t: nat)
    ensures Recorded(sequence, motif, t + 1) ==
              if Hit(sequence, motif, t) then Recorded(sequence, motif, t)
              else Recorded(sequence, motif, t) + {|motif| * RunBefore(sequence, motif, t)}
  {
    var before, after := Recorded(sequence, motif, t), Recorded(sequence, motif, t + 1);
    forall v | v in after ensures v in before || (!Hit(sequence, motif, t) && v == |motif| * RunBefore(sequence, motif, t)) {
      var j :| 0 <= j < t + 1 && !Hit(sequence, motif, j) && v == |motif| * RunBefore(sequence, motif, j);
      if j < t {
        assert v in before;
      }
    }
    if !Hit(sequence, motif, t) {
      assert |motif| * RunBefore(sequence, motif, t) in after;
    }
  }

  /** Every recorded run is a non-negative multiple of the motif length that
      ends before the checkpoints scanned so far. */
  lemma RecordedBounds(sequence: string, motif: string, t: nat, v: int)
    requires |motif| > 0 && v in Recorded(sequence, motif, t)
    ensures 0 <= v <= |motif| * (t - 1) && v % |motif| == 0
  {
    var j :| 0 <= j < t && !Hit(sequence, motif, j) && v == |motif| * RunBefore(sequence, motif, j);
    RunBeforeBounds(sequence, motif, j);
    MulMonotone(|motif|, RunBefore(sequence, motif, j), t - 1);
    MulMod(|motif|, RunBefore(sequence, motif, j));
  }

  lemma MulMonotone(a: nat, b: nat, c: int)
    requires b <= c
    ensures a * b <= a * c
  {
  }

  lemma MulSucc(a: int, b: int)
    ensures a * (b + 1) == a * b + a && (b + 1) * a == b * a + a
  {
  }

  lemma MulAtLeast(a: nat, d: int)
    requires a > 0 && d >= 1
    ensures a * d >= a
  {
    assert a * d == a * (d - 1) + a;
  }

  /** Euclidean division has one remainder. */
  lemma ModUnique(x: int, a: int, q: int, r: int)
    requires a > 0 && 0 <= r < a && x == a * q + r
    ensures x % a == r
  {
    var d := x / a - q;
    assert a * d == r - x % a by {
      assert a * d == a * (x / a) - a * q;
    }
    if d >= 1 {
      MulAtLeast(a, d);
    } else if d <= -1 {
      MulAtLeast(a, -d);
    }
  }

  lemma MulMod(a: nat, b: nat)
    requires a > 0
    ensures (a * b) % a == 0
  {
    ModUnique(a * b, a, b, 0);
  }

  /** `r` is what `max(seen) if len(seen) > 0 else 0` gives for `seen`. */
  predicate IsMaxOrZero(seen: set<int>, r: int) {
    (seen == {} ==> r == 0) && (seen != {} ==> r in seen && forall v :: v in seen ==> v <= r)
  }

  /** Some element of a non-empty set. */
  method Pick<T>(values: set<T>) returns (x: T)
    requires values != {}
    ensures x in values
  {
    x :| x in values;
  }

  /** Python's `max` of a non-empty set. */
  method MaxOf(values: set<int>) returns (m: int)
    requires values != {}
    ensures m in values && forall v :: v in values ==> v <= m
  {
    var first := Pick(values);
    m := first;
    var rest := values - {first};
    while rest != {}
      invariant rest <= values && m in values
      invariant forall v :: v in values && v !in rest ==> v <= m
      decreases |rest|
    {
      var v := Pick(rest);
      if v > m {
        m := v;
      }
      rest := rest - {v};
    }
  }

  /** The checkpoint `i` is a hit exactly when `sequence[i:i+step]` is the motif. */
  lemma CheckpointSlice(sequence: string, motif: string, i: nat)
    requires |motif| > 0
    ensures Slice(sequence, i, i + |motif|) == motif <==> MatchAt(sequence, motif, i)
  {
    if i <= |sequence| {
      SliceMatch(sequence, motif, i);
    }
  }

  /** The loop of the run-length `find_motif` over
      `range(0, pos_len, len(motif))`: a match at index `i` extends the run
      `longest` by `len(motif)`, and a miss adds the run to `seen` and resets it. */
  method ScanRuns(sequence: string, motif: string, posLen: int) returns (seen: set<int>)
    requires |motif| > 0
    ensures seen == Recorded(sequence, motif, Checkpoints(posLen, |motif|))
  {
    var step := |motif|;
    var longest := 0;
    seen := {};
    ghost var t: nat := 0;
    var i := 0;
    while i < posLen
      invariant 0 <= i && i == t * step
      invariant Checkpoints(posLen, step) == t + Checkpoints(posLen - i, step)
      invariant longest == step * RunBefore(sequence, motif, t)
      invariant seen == Recorded(sequence, motif, t)
      decreases posLen - i
    {
      var value := Slice(sequence, i, i + step);
      CheckpointSlice(sequence, motif, i);
      RecordedStep(sequence, motif, t);
      MulSucc(step, t);
      MulSucc(step, RunBefore(sequence, motif, t));
      if value == motif {
        longest := longest + step;
      } else {
        seen := seen + {longest};
        longest := 0;
      }
      i := i + step;
      t := t + 1;
    }
  }

  /** The run-length `find_motif`: scans the checkpoints `0, len(motif), ...`
      below the number of `find_motif` hits and returns the largest run
      recorded at a miss, or 0 when none was recorded; a run still open when
      the loop ends is not recorded. An empty motif makes `range` raise, hence
      the precondition. */
  method FindMotifRun(sequence: string, motif: string) returns (r: int)
    requires |motif| > 0
    ensures IsMaxOrZero(Recorded(sequence, motif, Checkpoints(|FindMotif(sequence, motif)|, |motif|)), r)
    ensures 0 <= r && r % |motif| == 0
  {
    var positions := FindMotif(sequence, motif);
    var seen := ScanRuns(sequence, motif, |positions|);
    if |seen| > 0 {
      r := MaxOf(seen);
      RecordedBounds(sequence, motif, Checkpoints(|positions|, |motif|), r);
    } else {
      r := 0;
    }
  }

  // ---------------------------------------------------------------------------
  // The per-sequence record of this draft

  /** This draft's `DNASequence`: its motif entries hold the run lengths of
      the run-length `find_motif` rather than lists of positions. */
  datatype DnaSequenceRun = DnaSequenceRun(
    id: int,
    adenineCount: int,
    thymineCount: int,
    guanineCount: int,
    cytosineCount: int,
    palindrome: Palindrome,
    motifs: map<string, int>,
    kMers: map<string, KmerTable>)

  /** `create_dna_sequence_record` of this draft: the four counts (a
      `defaultdict` reads 0 for an absent letter), the longest
      self-reverse-complementary window, the CpG-island and TATA-box run
      lengths, and the k-mer tables passed through. */
  method CreateDnaSequenceRecord(id: int, nucleotideCounts: map<char, int>, sequence: string,
                                 minLength: int, kMers: map<string, KmerTable>)
    returns (record: DnaSequenceRun)
    requires AllIn(sequence, Nucleotides)
    ensures record.id == id && record.kMers == kMers
    ensures record.adenineCount == Get(nucleotideCounts, 'a') && record.thymineCount == Get(nucleotideCounts, 't')
    ensures record.guanineCount == Get(nucleotideCounts, 'g') && record.cytosineCount == Get(nucleotideCounts, 'c')
    ensures record.palindrome == DnaPalindrome(sequence, minLength)
    ensures record.motifs.Keys == {"cpg_islands", "tata_boxes"}
    ensures IsMaxOrZero(Recorded(sequence, GcIslandMotif, Checkpoints(|FindMotif(sequence, GcIslandMotif)|, 2)),
                        record.motifs["cpg_islands"])
    ensures IsMaxOrZero(Recorded(sequence, TataBoxMotif, Checkpoints(|FindMotif(sequence, TataBoxMotif)|, 4)),
                        record.motifs["tata_boxes"])
  {
    var longestPalindrome := FindLongestDnaPalindrome(sequence, minLength);
    var cpgIslands := FindMotifRun(sequence, GcIslandMotif);
    var tataBoxes := FindMotifRun(sequence, TataBoxMotif);
    record := DnaSequenceRun(
      id,
      Get(nucleotideCounts, 'a'),
      Get(nucleotideCounts, 't'),
      Get(nucleotideCounts, 'g'),
      Get(nucleotideCounts, 'c'),
      longestPalindrome,
      map["cpg_islands" := cpgIslands, "tata_boxes" := tataBoxes],
      kMers);
  }

  // ---------------------------------------------------------------------------
  // Report rows

  /** `create_k_mer_row`: the header, then one `[key, str(value)]` row per pair, in order. */
  method CreateKmerRow(header: seq<string>, kmers: seq<(string, int)>) returns (rows: seq<seq<string>>)
    ensures |rows| == |kmers| + 1 && rows[0] == header
    ensures forall j :: 0 <= j < |kmers| ==> rows[j + 1] == [kmers[j].0, IntToString(kmers[j].1)]
  {
    rows := [];
    rows := rows + [header];
    for j := 0 to |kmers|
      invariant |rows| == j + 1 && rows[0] == header
      invariant forall l :: 0 <= l < j ==> rows[l + 1] == [kmers[l].0, IntToString(kmers[l].1)]
    {
      var (key, value) := kmers[j];
      rows := rows + [[key, IntToString(value)]];
    }
  }

  /** Each row of the table can be read back into the pair it was written from. */
  lemma KmerRowRoundTrip(key: string, value: int)
    ensures var row := [key, IntToString(value)];
            |row| == 2 && row[0] == key && ParseInt(row[1]) == value
  {
    IntToStringRoundTrip(value);
  }
}
