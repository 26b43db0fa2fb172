# DNA sequence statistics toolkit — a Dafny model

This project models the core of a small Python toolkit for DNA sequence
statistics, together with three of its utilities. The toolkit cleans lists of
DNA strings and scans them for motifs. It searches for the longest DNA
palindrome, counts nucleotides and k-mers, merges count tables, and collects
per-sequence records and totals.

The sequence code exists in several drafts, and each becomes one module:

- `SequenceUtils` (`src/sequence_utils.py`). Validation and cleaning, motif
  scanning, reverse complements, the search for the longest
  self-reverse-complementary window, nucleotide counting, top-five k-mer tables
  and table merging.
- `TestSequenceUtils` (`src/utils/test_sequence_utils.py`). What this draft
  adds: `find_top_values`, the run-length `find_motif`, the record built from
  it, and `create_k_mer_row`. Its other functions are the same code as in
  `src/sequence_utils.py` and are modelled once, in `SequenceUtils`.
- `SeqAnalysis` (`src/Seq_analysis.py`). This draft has its own parts:
  - the expand-around-centre search for the longest literal palindrome;
  - k-mer counting that keeps the whole table;
  - the `SequenceStatistics` dataclass, as a class updated in place;
  - the per-sequence record;
  - the two aggregation drivers.
- `SeqAnalysisMultiprocess` (`src/seq_analysis_multiprocess.py`). The statistics
  dictionary, `process_data`, the pool map, the reduction into totals and the
  main block's pipeline.

There are three utility modules:

- `Pager` (`src/utils/pager.py`). Back-and-forward paging with two stacks over
  fixed-size pages.
- `Markdown` (`src/utils/markdown.py`). An append-only builder of Markdown
  text.
- `Chunk` (`src/utils/chunk.py`). Sliding windows over a text, one `Document`
  record per window.

Three helper modules hold what the Python code takes from its language:

- `PyText`: slicing with Python's bound rules, `strip`, `lower`, `join`, `*` on
  strings and `str(int)`.
- `Counters`: dictionary reads with a default of 0, tallies, insertion-ordered
  key lists and sums of counts.
- `Sorting`: the stable `sorted(..., key=count, reverse=True)`.

Where the code changes state step by step, the model is imperative:

- loops become methods that are proved against a specification function;
- the dataclass, the pager and the Markdown builder become classes whose
  methods state their whole new state.

Pure code becomes functions. Lemmas then prove what the source promises about
those functions.

Python's default arguments are kept as Dafny default parameters with the same
values:
- `page_size=25`;
- `metadata=None` and `overlap=0` in `chunk`;
- `letter_list=None` and `min_length=2` in cleaning and validation;
- `min_length=20` in the DNA palindrome search;
- the defaults of the Markdown builder.

Where the drafts behave differently, the model follows each draft's code:
- `count_k_mers` in `src/Seq_analysis.py` discards the result of
  `sequence.lower().strip()`, so it counts the raw sequence. It also returns
  the whole table, not the top five.
- Both aggregation loops merge the 3-mers into the new **2-mer** table
  (`update_k_mer_counts(sequences_stats.k_mer_count_2, k_mers_3)`). As a result
  the 3-mer table holds every 2-mer so far plus the last sequence's 3-mers. The
  model states exactly that (`SeqAnalysis.ThreeMers`).
- `find_motif` tries the starts `0 .. len(sequence) - 2` only, so a motif at the
  last index is never reported.
- `validate_sequence` creates its list of sequences it has seen afresh on every
  call. It therefore never rejects a repeat, and it is case-sensitive.
- In the run-length `find_motif`, the checkpoints are `range(0, len(positions),
  len(motif))`. They run over the number of matches, not over the sequence.
- `process_data` gives every record the id `INDEX + 1 == 1`.
- `chunk` stores the integer window index in `id`, although the field is
  declared as a string.

## Model

| member | source | states |
|---|---|---|
| SequenceUtils.ValidateSequence | src/sequence_utils.py:178-189 | accepted exactly when longer than `min_length` and every character is in the letter set (the fresh `seen_list` never rejects) |
| SequenceUtils.LetterSet | src/sequence_utils.py:19-22 | no letter list means {A, T, G, C}; otherwise exactly the given letters |
| SequenceUtils.Kept | src/sequence_utils.py:24-28 | the filtered list is no longer than the input |
| SequenceUtils.KeptMembers | src/sequence_utils.py:26-28 | a sequence is kept iff it is in the input, longer than `min_length` and made of allowed letters |
| SequenceUtils.KeptOrder | src/sequence_utils.py:24-31 | the filter keeps the input order of first appearances |
| SequenceUtils.KeptStep | src/sequence_utils.py:26-31 | one more input sequence is appended exactly when it is long enough and made of allowed letters |
| SequenceUtils.CleanSequenceData | src/sequence_utils.py:16-33 | the loop yields the first occurrences of the accepted sequences: membership iff, no repeats, input order |
| SequenceUtils.CleanedProperties | src/sequence_utils.py:23-33 | the same three properties proved of the specification function |
| SequenceUtils.SliceMatch | src/sequence_utils.py:38 | the slice comparison `sequence[i:i+len(motif)] == motif` holds iff the motif occurs in full at `i` |
| SequenceUtils.MotifPositionsSound | src/sequence_utils.py:37-39 | each listed position is below `len - 1` and starts a full occurrence |
| SequenceUtils.MotifPositionsIncreasing | src/sequence_utils.py:37-39 | positions come in strictly increasing order |
| SequenceUtils.MotifPositionsComplete | src/sequence_utils.py:37-39 | every occurrence start below `len - 1` is listed |
| SequenceUtils.FindMotifPositions | src/sequence_utils.py:36-39 | `find_motif` lists exactly the occurrence starts below `len - 1`, increasing, overlaps included |
| SequenceUtils.Complement | src/sequence_utils.py:44 | the complement of a base is a different base |
| SequenceUtils.ComplementInvolution | src/sequence_utils.py:44 | complementing twice gives the base back |
| SequenceUtils.ReverseComplement | src/sequence_utils.py:42-45 | same length, still a DNA string |
| SequenceUtils.ReverseComplementAt | src/sequence_utils.py:45 | position `j` holds the complement of the mirrored base |
| SequenceUtils.ReverseComplementInvolution | src/sequence_utils.py:42-45 | the reverse complement of the reverse complement is the sequence |
| SequenceUtils.PrecomputeReverseComplement | src/sequence_utils.py:48-50 | the precomputed string is the one whose reverse complement is the sequence |
| SequenceUtils.MirroredSlice | src/sequence_utils.py:65-67 | the slice `rev[n-i-len : n-i]` is the reverse complement of window `[i, i+len)` |
| SequenceUtils.MirrorDiffers | src/sequence_utils.py:68 | in a self-reverse-complementary window a base differs from its mirror image |
| SequenceUtils.SelfReverseComplementIsEven | src/sequence_utils.py:68 | such a window has even length |
| SequenceUtils.FirstSelfReverseComplement | src/sequence_utils.py:63-68 | a start found by the scan of one length lies in range |
| SequenceUtils.FirstSelfReverseComplementSpec | src/sequence_utils.py:63-68 | the scan finds a start iff one exists, and then the smallest |
| SequenceUtils.LongestSelfReverseComplement | src/sequence_utils.py:62-70 | the result's recorded length is its string's length, at least `lowest` unless nothing was found |
| SequenceUtils.LongestSelfReverseComplementFound | src/sequence_utils.py:62-70 | a found window is the leftmost self-reverse-complementary window of its length |
| SequenceUtils.LongestSelfReverseComplementMaximal | src/sequence_utils.py:62-70 | no longer window in the searched range is self-reverse-complementary |
| SequenceUtils.LongestSelfReverseComplementProperties | src/sequence_utils.py:62-70 | nothing found iff no window qualifies; otherwise the leftmost of the greatest length |
| SequenceUtils.DnaPalindromeProperties | src/sequence_utils.py:53-72 | `("", 0)` iff no window of at least `min_length` is its own reverse complement; otherwise the leftmost longest one |
| SequenceUtils.ScanStep | src/sequence_utils.py:63-70 | one start of the inner loop: the test on the two slices and the strict-length update |
| SequenceUtils.NonPositiveLengthNeverMatches | src/sequence_utils.py:62-68 | a non-positive length (possible when `min_length <= 0`) never updates the result |
| SequenceUtils.ScanStarts | src/sequence_utils.py:63-70 | the inner loop ends at the specification's state |
| SequenceUtils.FindLongestDnaPalindrome | src/sequence_utils.py:53-72 | the nested loops return `DnaPalindrome` |
| SequenceUtils.CountNucleotidesCounts | src/sequence_utils.py:75-76 | letters of the stripped, lower-cased sequence, each with its multiplicity; absent letters read 0 |
| SequenceUtils.CountNucleotidesSum | src/sequence_utils.py:75-76 | the counts add up to the stripped length |
| SequenceUtils.SequenceStatistics.constructor | src/sequence_utils.py:80-81 | a statistics document holding a `meta_data` dictionary |
| SequenceUtils.UpdateNucleotideCounts | src/sequence_utils.py:79-86 | the four totals grow by the a/t/g/c counts (0 if absent), other keys unchanged, same object returned |
| SequenceUtils.CreateDnaSequenceRecord | src/sequence_utils.py:89-111 | id and k-mers passed through; the a/t/g/c counts; the leftmost longest self-reverse-complementary window; under `cpg_islands` and `tata_boxes` the `find_motif` lists, i.e. every occurrence start below `len - 1`, once each, in increasing order |
| SequenceUtils.Windows | src/sequence_utils.py:120-121 | the loop reads as many windows as `sequence[:-(k-1)]` has characters |
| SequenceUtils.WindowsShape | src/sequence_utils.py:120-121 | for k >= 2: `len - k + 1` windows, window `i` is `sequence[i:i+k]`; for k == 1: none (`[:-0]` is empty) |
| SequenceUtils.ToDict | src/sequence_utils.py:123 | `dict(pairs)` has at most one entry per pair and the last pair wins |
| SequenceUtils.ToDictKeys | src/sequence_utils.py:123 | its keys are exactly the pairs' keys |
| SequenceUtils.ToDictDistinct | src/sequence_utils.py:123 | with distinct keys every pair is kept as given |
| SequenceUtils.CountWindows | src/sequence_utils.py:115-122 | the `defaultdict` loop builds the tally of the windows and their first-seen key order |
| SequenceUtils.CountKmers | src/sequence_utils.py:114-125 | `count_k_mers` returns `TopKmers` |
| SequenceUtils.TopKmersProperties | src/sequence_utils.py:114-125 | empty if the normalised sequence is shorter than k; otherwise a top-5 table: true counts, only less frequent (or later on ties) windows dropped, at most 5 |
| SequenceUtils.RankedDistinct | src/sequence_utils.py:124 | the sorted items have distinct keys |
| SequenceUtils.RankedCounts | src/sequence_utils.py:122-124 | each sorted item is a window with its occurrence count |
| SequenceUtils.RankedComplete | src/sequence_utils.py:122-124 | every window appears among the sorted items |
| SequenceUtils.RankedOrdered | src/sequence_utils.py:124 | counts are non-increasing; ties keep first-appearance order (stable sort) |
| SequenceUtils.RankedIsRanking | src/sequence_utils.py:124 | the sort yields a ranking |
| SequenceUtils.TopOfRanking | src/sequence_utils.py:123-124 | `dict(ranked[:5])` keeps the first five pairs exactly |
| SequenceUtils.TopEntry | src/sequence_utils.py:123-124 | each kept key comes from one of the first five pairs |
| SequenceUtils.TopCutoff | src/sequence_utils.py:124 | a dropped window is no more frequent than a kept one, and later on a tie |
| SequenceUtils.TopCounts | src/sequence_utils.py:124 | kept windows carry their counts |
| SequenceUtils.TopKeepsAll | src/sequence_utils.py:124 | with at most five windows nothing is dropped |
| SequenceUtils.TopCutoffAll | src/sequence_utils.py:124 | the cutoff for every kept and every dropped window |
| SequenceUtils.TopOfRankingProperties | src/sequence_utils.py:123-125 | the assembled top-table property |
| SequenceUtils.UpdateKmerCountsMerges | src/sequence_utils.py:128-131 | the union of the keys, and each count is the sum of both (0 if missing) |
| SequenceUtils.UpdateKmerCountsCommutative | src/sequence_utils.py:128-131 | merging ignores argument order |
| SequenceUtils.UpdateKmerCountsAssociative | src/sequence_utils.py:128-131 | merging ignores grouping |
| SequenceUtils.UpdateKmerCountsEmpty | src/sequence_utils.py:128-131 | the empty table is neutral |
| SequenceUtils.MergeOneMore | src/sequence_utils.py:130 | one more key in the new table adds its count to the total |
| SequenceUtils.UpdateKmerCountsSum | src/sequence_utils.py:128-131 | the merged total is the sum of the totals |
| Sorting.Insert | src/sequence_utils.py:124 | inserting one position keeps the sorted order and adds exactly that position |
| Sorting.SortedOrder | src/sequence_utils.py:124 | positions `0..n-1` in sorted order, each once |
| Sorting.Order | src/sequence_utils.py:124 | the sorted order is a permutation of the positions |
| Sorting.SortByCountDescending | src/utils/test_sequence_utils.py:18 | the sorted pairs are a rearrangement of the input with non-increasing counts |
| Sorting.SortStable | src/utils/test_sequence_utils.py:18 | equal counts keep their input order |
| Counters.TallyCounts | src/sequence_utils.py:115-122 | the `defaultdict(int)` tally holds exactly the keys seen, each with its multiplicity |
| Counters.DistinctKeys | src/sequence_utils.py:122 | the dictionary's key order lists every key once |
| Counters.DistinctOrdered | src/sequence_utils.py:122 | keys are in order of first appearance |
| Counters.TallyDistinctKeys | src/sequence_utils.py:122 | tally and key order hold the same keys |
| Counters.TallyStep | src/sequence_utils.py:122 | one `+= 1` increments one key and appends it if new |
| Counters.SumTally | src/sequence_utils.py:76 | the counts of a tally add up to the number of keys tallied |
| Counters.SumValuesUpdate | src/sequence_utils.py:122 | setting one key changes the sum by the difference |
| Counters.IndexOf | src/sequence_utils.py:30 | the first position of an element |
| TestSequenceUtils.FindTopValuesProperties | src/utils/test_sequence_utils.py:17-18 | the length follows Python's slice rules; pairs drawn from the input; non-increasing counts |
| TestSequenceUtils.FindTopValuesCutoff | src/utils/test_sequence_utils.py:17-18 | a pair left out counts no more than any kept one |
| TestSequenceUtils.KmerItems | src/utils/test_sequence_utils.py:137-141 | the tally's items in first-seen order, with true counts |
| TestSequenceUtils.CountKmersIsTopFive | src/utils/test_sequence_utils.py:140-142 | `count_k_mers` keeps exactly `dict(find_top_values(oligo_counts, 5))` |
| TestSequenceUtils.Checkpoints | src/utils/test_sequence_utils.py:49 | how many values `range(0, n, step)` yields (none iff n <= 0) |
| TestSequenceUtils.RunBeforeBounds | src/utils/test_sequence_utils.py:49-55 | the current run covers only hits, and the checkpoint before it misses |
| TestSequenceUtils.RecordedStep | src/utils/test_sequence_utils.py:51-55 | a miss adds the current run to `seen`; a hit does not |
| TestSequenceUtils.RecordedBounds | src/utils/test_sequence_utils.py:45-55 | each recorded run is a non-negative multiple of the motif length, bounded by the checkpoints |
| TestSequenceUtils.MaxOf | src/utils/test_sequence_utils.py:56 | `max` of a non-empty set is its greatest element |
| TestSequenceUtils.CheckpointSlice | src/utils/test_sequence_utils.py:50-51 | `sequence[i:i+step] == motif` iff a full occurrence at `i` |
| TestSequenceUtils.ScanRuns | src/utils/test_sequence_utils.py:45-55 | the loop's `seen` equals `Recorded` |
| TestSequenceUtils.FindMotifRun | src/utils/test_sequence_utils.py:41-56 | the result is the largest recorded run, or 0; a multiple of the motif length |
| TestSequenceUtils.CreateDnaSequenceRecord | src/utils/test_sequence_utils.py:106-128 | id, counts, palindrome, k-mers passed through; motif entries are the run-length results for CG and TATA |
| TestSequenceUtils.CreateKmerRow | src/utils/test_sequence_utils.py:165-171 | the header first, then `[key, str(value)]` per pair in order |
| TestSequenceUtils.KmerRowRoundTrip | src/utils/test_sequence_utils.py:170 | a row reads back into the pair it was written from |
| PyText.SliceBound | src/sequence_utils.py:120 | Python's slice-bound normalisation: negatives count from the end, clamped to [0, n] |
| PyText.Slice | src/sequence_utils.py:38 | `s[a:b]` agrees with Dafny slicing in range and is empty past the end or when reversed |
| PyText.StripStart | src/sequence_utils.py:76 | `lstrip` keeps a suffix |
| PyText.StripStartSpaces | src/sequence_utils.py:76 | it drops only whitespace and what remains does not start with whitespace |
| PyText.StripEnd | src/sequence_utils.py:76 | `rstrip` keeps a prefix |
| PyText.StripEndSpaces | src/sequence_utils.py:76 | it drops only whitespace and what remains does not end with whitespace |
| PyText.Strip | src/sequence_utils.py:116 | `strip` keeps a contiguous middle part |
| PyText.StripSpaces | src/sequence_utils.py:116 | only whitespace is dropped at either end, and neither end of the result is whitespace |
| PyText.LowerChar | src/sequence_utils.py:76 | capitals map to small letters, everything else unchanged |
| PyText.Lower | src/sequence_utils.py:116 | `lower` maps each character |
| PyText.RepeatChar | src/utils/markdown.py:104 | `[c] * n` joined is `max(0, n)` copies of `c` |
| PyText.Join | src/utils/markdown.py:59 | joining one part gives the part; zero parts give "" |
| PyText.JoinLength | src/utils/markdown.py:99 | the length of a join is the parts plus one separator between each two |
| PyText.IntToString | src/utils/test_sequence_utils.py:170 | `str(n)`: optional '-', then the decimal digits |
| PyText.NatDigits | src/utils/test_sequence_utils.py:170 | non-empty digits, no leading zero |
| PyText.NatDigitsValue | src/utils/test_sequence_utils.py:170 | the digits read back as the number |
| PyText.IntToStringRoundTrip | src/utils/test_sequence_utils.py:170 | `int(str(n)) == n` |
| PyText.MapIndexed | src/Seq_analysis.py:242 | the list built over `enumerate(w)` has one entry per element |
| PyText.MapIndexedAt | src/Seq_analysis.py:242 | entry `j` is built from `(j, w[j])` |
| SeqAnalysis.ReachBounds | src/Seq_analysis.py:96 | widening never runs past either end |
| SeqAnalysis.MirrorEqual | src/Seq_analysis.py:96 | in a palindromic window a character equals its mirror image |
| SeqAnalysis.WidenPalindrome | src/Seq_analysis.py:96-98 | two equal outer characters keep a palindrome |
| SeqAnalysis.ReachPalindrome | src/Seq_analysis.py:95-100 | widening ends at a palindrome |
| SeqAnalysis.ReachMaximal | src/Seq_analysis.py:95-100 | no palindrome with the same centre is longer |
| SeqAnalysis.ExpandedWindow | src/Seq_analysis.py:95-100 | the expanded window is a palindromic window of the sequence with the given centre |
| SeqAnalysis.ExpandedLongest | src/Seq_analysis.py:95-100 | it is the longest palindromic window with that centre |
| SeqAnalysis.ExpandedEnds | src/Seq_analysis.py:96-100 | where widening stops, `sequence[left + 1 : right]` is the expanded window |
| SeqAnalysis.ExpandAroundCenter | src/Seq_analysis.py:95-100 | the loop returns `Expanded` |
| SeqAnalysis.CentreCandidates | src/Seq_analysis.py:104-108 | two candidates per centre |
| SeqAnalysis.CentreCandidatesAt | src/Seq_analysis.py:106-108 | candidates `2i` and `2i+1` are the odd and even expansions of centre `i` |
| SeqAnalysis.BestIsFirstLongest | src/Seq_analysis.py:111-124 | the strict `>` update keeps the first of the longest candidates of at least `min_length`, or `("", 0)` iff none qualifies |
| SeqAnalysis.BestStep | src/Seq_analysis.py:111-124 | comparing the odd then the even candidate of one centre |
| SeqAnalysis.FindLongestPalindrome | src/Seq_analysis.py:93-126 | the loop returns `Best(Candidates)` |
| SeqAnalysis.CandidateAt | src/Seq_analysis.py:104-108 | candidate `k` belongs to centre `(k/2, k/2 + k%2)` |
| SeqAnalysis.CandidateIsWindow | src/Seq_analysis.py:100 | every candidate is a palindromic window |
| SeqAnalysis.CandidateCovers | src/Seq_analysis.py:104-108 | every non-empty palindromic window is covered by its centre's candidate |
| SeqAnalysis.FindLongestPalindromeProperties | src/Seq_analysis.py:93-126 | `("", 0)` iff no palindromic window of at least `min_length` (and 1) exists; otherwise a longest one, the first in scan order |
| SeqAnalysis.CountKmers | src/Seq_analysis.py:146-152 | the loop returns the tally of the raw sequence's windows |
| SeqAnalysis.KmerCountsProperties | src/Seq_analysis.py:146-152 | keys iff windows, counts are multiplicities, total `len - k + 1` for k >= 2, empty for k == 1 |
| SeqAnalysis.KmerCountsKeys | src/Seq_analysis.py:148-150 | every key is a case-preserved substring of length k |
| SeqAnalysis.SequenceStatistics.constructor | src/Seq_analysis.py:45-55 | the dataclass defaults |
| SeqAnalysis.UpdateNucleotideCounts | src/Seq_analysis.py:167-174 | adds the a/t/g/c counts (0 if absent) to the four totals, changing nothing else |
| SeqAnalysis.RecordOfFields | src/Seq_analysis.py:177-193 | the record's id, counts and literal palindrome; only a `cpg_islands` entry, the `find_motif` list of `CG` starts before the last index in increasing order |
| SeqAnalysis.CreateDnaSequenceRecord | src/Seq_analysis.py:177-193 | builds `RecordOf` |
| SeqAnalysis.MergedKmersKeywise | src/Seq_analysis.py:155-158 | merged tables count every k-mer over all sequences |
| SeqAnalysis.MergedKmersTotal | src/Seq_analysis.py:155-158 | the merged totals add up to all windows read |
| SeqAnalysis.RecordsAt | src/Seq_analysis.py:242-277 | record `j` belongs to sequence `j` with id `j` |
| SeqAnalysis.AggregateStep | src/Seq_analysis.py:242-277 | one more sequence is one more round |
| SeqAnalysis.AggregateTotals | src/Seq_analysis.py:243-246 | the totals are the sums of the per-sequence counts |
| SeqAnalysis.AggregateTwoMers | src/Seq_analysis.py:256-258 | the 2-mer table merges every sequence's 2-mers |
| SeqAnalysis.AbsorbTables | src/Seq_analysis.py:256-269 | one round merges the 2-, 4- and 5-mers into their own tables |
| SeqAnalysis.AggregateFourMers | src/Seq_analysis.py:264-266 | the 4-mer table merges every sequence's 4-mers |
| SeqAnalysis.AggregateFiveMers | src/Seq_analysis.py:267-269 | the 5-mer table merges every sequence's 5-mers |
| SeqAnalysis.AbsorbThreeMers | src/Seq_analysis.py:256-262 | one round rebuilds the 3-mer table from the 2-mer table it has just merged |
| SeqAnalysis.AggregateKmers | src/Seq_analysis.py:256-269 | all four tables after the loop, the 3-mer table as written |
| SeqAnalysis.AggregateRecords | src/Seq_analysis.py:271-277 | one record per sequence in input order |
| SeqAnalysis.AggregateTables | src/Seq_analysis.py:238-279 | the 2-, 4- and 5-mer tables count occurrences over all sequences, and their totals are the window counts |
| SeqAnalysis.ThreeMersKeywise | src/Seq_analysis.py:260-262 | the 3-mer table holds all 2-mers so far plus the last sequence's 3-mers |
| SeqAnalysis.MergeKmerTables | src/Seq_analysis.py:207-228 | the four table updates of one round |
| SeqAnalysis.AbsorbSequence | src/Seq_analysis.py:243-277 | one loop body on the dataclass |
| SeqAnalysis.CalculateDnaSequenceStatistics | src/Seq_analysis.py:196-235 | a fresh dataclass after one round for `(index, sequence)` |
| SeqAnalysis.CalculateDnaSequenceStatistics2 | src/Seq_analysis.py:238-279 | a fresh dataclass holding `Aggregate(sequences)` |
| SeqAnalysisMultiprocess.InitialiseSequenceStatistics | src/seq_analysis_multiprocess.py:42-56 | all counters 0, tables empty, no records |
| SeqAnalysisMultiprocess.KmerDict | src/seq_analysis_multiprocess.py:116-124 | exactly the four keys, each holding its table |
| SeqAnalysisMultiprocess.ProcessData | src/seq_analysis_multiprocess.py:114-132 | a record with id `INDEX + 1`, the sequence's nucleotide counts, its four top-five tables, its longest DNA palindrome of at least 20, and the `find_motif` lists for CpG islands and TATA boxes |
| SeqAnalysisMultiprocess.ProcessDataParallel | src/seq_analysis_multiprocess.py:137-140 | one result per input |
| SeqAnalysisMultiprocess.ProcessDataParallelAt | src/seq_analysis_multiprocess.py:139 | result `i` is `process_data(data[i])` |
| SeqAnalysisMultiprocess.ProcessSequenceStatistics | src/seq_analysis_multiprocess.py:143-174 | the totals are sums over the records, the counts are as given, the records kept in order, the tables empty |
| SeqAnalysisMultiprocess.TotalAppend | src/seq_analysis_multiprocess.py:168-172 | a total over a concatenation is the sum of the totals |
| SeqAnalysisMultiprocess.TotalRemove | src/seq_analysis_multiprocess.py:168-172 | removing a record removes its count |
| SeqAnalysisMultiprocess.TotalPermutation | src/seq_analysis_multiprocess.py:168-172 | the totals do not depend on the record order |
| SeqAnalysisMultiprocess.ReducePermutation | src/seq_analysis_multiprocess.py:143-174 | the reduced document depends on the order only through the record list |
| SeqAnalysisMultiprocess.RecordTotals | src/seq_analysis_multiprocess.py:168-172 | records carrying each sequence's counts total the nucleotide totals of the sequences |
| SeqAnalysisMultiprocess.CleanedSequenceData | src/seq_analysis_multiprocess.py:183-185 | the comprehension is no longer than its input |
| SeqAnalysisMultiprocess.CleanedSequenceDataValid | src/seq_analysis_multiprocess.py:179-185 | it keeps exactly the validated sequences, each made of A, T, G, C |
| SeqAnalysisMultiprocess.AnalyseSequences | src/seq_analysis_multiprocess.py:177-196 | one record per cleaned sequence, `invalid + cleaned == total == num_sequences`, records in order, nucleotide totals over the cleaned sequences |
| Pager.BatchedFlatten | src/utils/pager.py:8 | the pages put back together are the results |
| Pager.BatchedPage | src/utils/pager.py:8 | page `i` is `results[i*size : min((i+1)*size, len)]`, non-empty, full except possibly the last |
| Pager.BatchedCount | src/utils/pager.py:8 | there are `ceil(len / size)` pages |
| Pager.Next | src/utils/pager.py:13-20 | None iff both the next stack and the iterator are empty, and then nothing changes; a page found is pushed on the previous stack |
| Pager.Prev | src/utils/pager.py:22-30 | a page iff at least two are cached, and then the top moves off and the new top is returned; otherwise nothing changes |
| Pager.NextInOrder | src/utils/pager.py:13-20 | keeps `prev + reverse(next) + remaining == pages`; returns the page right after those shown, None iff all shown |
| Pager.PrevInOrder | src/utils/pager.py:22-30 | keeps the invariant; returns the page two below the end of those shown |
| Pager.PrevThenNext | src/utils/pager.py:16-28 | back then forward returns the old top and restores the state exactly |
| Pager.NextThenPrev | src/utils/pager.py:16-28 | forward then back returns the page that was on top before |
| Pager.Pager.constructor | src/utils/pager.py:7-11 | the pages are the batches of `page_size` (default 25), both caches empty |
| Pager.Pager.NextPage | src/utils/pager.py:13-20 | the new state and result are `Next` of the old state; the invariant is kept |
| Pager.Pager.PrevPage | src/utils/pager.py:22-30 | the new state and result are `Prev` of the old state; the invariant is kept |
| Markdown.CreateBlock | src/utils/markdown.py:143-150 | the text followed by exactly `max(0, lbcount)` newlines |
| Markdown.HeaderLine | src/utils/markdown.py:21 | `htype` '#' characters, a space, then the text |
| Markdown.Indentation | src/utils/markdown.py:41 | `"  " * depth` is `2 * depth` spaces |
| Markdown.ListItemLine | src/utils/markdown.py:39-43 | `2 * max(0, depth)` spaces, then "- " and the text |
| Markdown.QuoteText | src/utils/markdown.py:58-59 | a quote starts with "> " |
| Markdown.JoinAppend | src/utils/markdown.py:59 | joining one more line appends the separator and the line |
| Markdown.QuoteLines | src/utils/markdown.py:59 | the first line follows "> ", and each further line follows a "  \n" hard break |
| Markdown.ImageText | src/utils/markdown.py:88 | `![`, the alt text, `](`, the url and `)`, in that order; 5 characters more than the two texts |
| Markdown.Link | src/utils/markdown.py:110-121 | a non-empty text gives `[`, the text, `](`, the url and `)`, in that order |
| Markdown.LinkDefault | src/utils/markdown.py:120 | an empty text shows the url |
| Markdown.Emphasis | src/utils/markdown.py:124-132 | the text wrapped in `**` |
| Markdown.Italics | src/utils/markdown.py:135-141 | the text wrapped in `*` |
| Markdown.EmphasisIsDoubleItalics | src/utils/markdown.py:124-141 | emphasis is italics applied twice |
| Markdown.TableRowsStep | src/utils/markdown.py:97-105 | one more row adds its line, plus the rule after the first row |
| Markdown.RowLinesAppend | src/utils/markdown.py:99 | the row lines extend one row at a time |
| Markdown.TableRowsLayout | src/utils/markdown.py:97-105 | header line, rule, then the other rows' lines |
| Markdown.TableLayout | src/utils/markdown.py:97-106 | the table text: header, rule, other rows, then a blank line; just "\n" without rows |
| Markdown.RuleCellsShape | src/utils/markdown.py:102-104 | "| " plus one dash per character for each header cell |
| Markdown.RuleMatchesHeader | src/utils/markdown.py:99-105 | the rule line is as long as the header line |
| Markdown.MarkdownGenerator.constructor | src/utils/markdown.py:12-13 | content starts empty |
| Markdown.MarkdownGenerator.AddHeader | src/utils/markdown.py:15-23 | appends the header line and two newlines, returns itself |
| Markdown.MarkdownGenerator.AddText | src/utils/markdown.py:25-31 | appends the text and two newlines |
| Markdown.MarkdownGenerator.AddListItem | src/utils/markdown.py:33-44 | appends the list-item line and one newline |
| Markdown.MarkdownGenerator.AddLinebreak | src/utils/markdown.py:46-51 | appends one newline |
| Markdown.MarkdownGenerator.AddBlockquote | src/utils/markdown.py:53-60 | appends the quote and two newlines |
| Markdown.MarkdownGenerator.AddHorizontalRule | src/utils/markdown.py:62-67 | appends "___\n" |
| Markdown.MarkdownGenerator.AddImage | src/utils/markdown.py:82-89 | appends the image and two newlines |
| Markdown.MarkdownGenerator.AddTable | src/utils/markdown.py:91-107 | appends `TableText(rows)` |
| Markdown.MarkdownGenerator.AddRule | src/utils/markdown.py:101-105 | the inner loop appends the rule cells and a newline |
| Chunk.DefaultDocument | src/utils/chunk.py:5-9 | the defaults: id "", no content, empty metadata |
| Chunk.MetadataOf | src/utils/chunk.py:18 | a non-empty dictionary is kept; a missing or empty one becomes {} |
| Chunk.WindowCount | src/utils/chunk.py:14 | `max(0, len(text) - overlap + 1)` documents |
| Chunk.Chunk | src/utils/chunk.py:13-19 | that many documents; document `k` has id `k`, content `text[k:k+overlap]` and the metadata |
| Chunk.WindowContent | src/utils/chunk.py:17 | for overlap >= 0 the content has exactly `overlap` characters starting at `k` |
| Chunk.WindowsSlide | src/utils/chunk.py:14-17 | neighbouring windows overlap in all but one character |
| Chunk.ZeroOverlap | src/utils/chunk.py:14-17 | overlap 0 gives `len(text) + 1` empty windows |

## Left out

- File loading (`load_sequences_file`), `json`, the clock, `print` and `MarkdownGenerator.save` are I/O, so they are not modelled. In the main blocks, the sequences and `num_sequences` become parameters.
- `multiprocessing.Pool` and `os.cpu_count()` are left out. `pool.map` is modelled as the order-preserving sequential map it returns.
- `generate_report` in `src/utils/test_sequence_utils.py` is left out. It reads dictionary keys (`total_k_mer_count_2`) that no modelled code produces, and it ends in `save`.
- `calculate_dna_sequence_statistics` in `src/seq_analysis_multiprocess.py` is left out. It calls `create_dna_sequence_record` without its `k_mers` argument, and its `SequenceStatistics` comes from `utils/data_types.py`, which is not part of this model.
- `src/utils/sequence_utils.py` and `utils/data_types.py` are not part of this model. The multiprocessing driver imports its helpers from there; the model uses the helpers of `src/sequence_utils.py`.
- `add_code` is left out because it depends on `inspect.cleandoc`.
- `create_markdown_report` and the commented-out drafts are dead code.
- `itertools.batched` is lazy. The model computes every page at construction.
- `SequenceUtils.UpdateNucleotideCounts`: the KeyError that `+=` raises for a total missing from `meta_data` is a precondition (`HasNucleotideTotals`).
- `SequenceUtils.CreateDnaSequenceRecord`: reads the four letters with a default of 0, as the `defaultdict` from `count_nucleotides` does at every call site. A plain dict without a letter would raise KeyError instead.
- `SequenceUtils.ReverseComplement`: a base outside A, T, G, C raises `KeyError` in the source. It is a precondition here, and so are the callers' `AllIn` preconditions.
- `Pager.Pager.constructor`: the `ValueError` that `batched` raises for a page size below 1 is a precondition.
- `TestSequenceUtils.FindMotifRun`: the `ValueError` for step 0 (an empty motif) in `range(0, n, 0)` is a precondition.
- `PyText.Lower`: only ASCII letters are mapped, and there is no Unicode case mapping.
- `PyText.IsSpace`: only whitespace below U+0080 is recognised.
- `SequenceUtils.CountKmers`: returns its table as a map, so the contract does not include the key order of the returned dict (descending count).
- `SequenceUtils.UpdateKmerCounts`: the key order of `dict(Counter)` is not modelled either.
- `Chunk.Chunk`: returns values, so all documents share equal metadata but not one aliased dictionary object. The generator is collected into a list.
- `Markdown.MarkdownGenerator.AddBlockquote`: takes the lines as a list of strings, not `*lines: Any`. Non-string lines make `join` raise.
- `SeqAnalysis.UpdateNucleotideCounts`: a `defaultdict` read of a missing letter gives 0, the same as `.get(c, 0)`. The insertion of that key into the counts dictionary is not modelled.
