/** The multiprocessing driver of `src/seq_analysis_multiprocess.py`: the
    statistics document as a dictionary with fixed keys, the per-sequence job
    `process_data`, the pool map (modelled as a sequential map), the reducer
    `process_sequence_statistics` and the arithmetic of the main block. The
    helpers it imports behave like those of `src/sequence_utils.py` and are the
    members of module `SequenceUtils`. */
module SeqAnalysisMultiprocess {
  import opened PyText
  import opened Counters
  import SequenceUtils

  const NucleotideList: set<char> := {'A', 'T', 'G', 'C'}
  const PalindromeMinLength: int := 20
  const Index: int := 0

  /** The statistics dictionary: six counters, four k-mer tables and the list of records. */
  datatype SeqDoc = SeqDoc(
    totalAdenineCount: int,
    totalThymineCount: int,
    totalGuanineCount: int,
    totalCytosineCount: int,
    totalSequencesCount: int,
    invalidSequencesCount: int,
    kMerCount2: SequenceUtils.KmerTable,
    kMerCount3: SequenceUtils.KmerTable,
    kMerCount4: SequenceUtils.KmerTable,
    kMerCount5: SequenceUtils.KmerTable,
    dnaSequences: seq<SequenceUtils.DnaSequence>)

  /** `initialise_sequence_statistics`: every counter 0, every table empty, no records. */
  function InitialiseSequenceStatistics(): (seqDoc: SeqDoc)
    ensures seqDoc.totalAdenineCount == 0 && seqDoc.totalThymineCount == 0
    ensures seqDoc.totalGuanineCount == 0 && seqDoc.totalCytosineCount == 0
    ensures seqDoc.totalSequencesCount == 0 && seqDoc.invalidSequencesCount == 0
    ensures seqDoc.kMerCount2 == map[] && seqDoc.kMerCount3 == map[]
    ensures seqDoc.kMerCount4 == map[] && seqDoc.kMerCount5 == map[]
    ensures seqDoc.dnaSequences == []
  {
    SeqDoc(0, 0, 0, 0, 0, 0, map[], map[], map[], map[], [])
  }

  // ---------------------------------------------------------------------------
  // The per-sequence job

  /** The four keys of the `k_mers` dictionary differ (in their digit). */
  lemma KmerKeysDistinct()
    ensures "k_mer_n2_count" != "k_mer_n3_count" && "k_mer_n2_count" != "k_mer_n4_count"
    ensures "k_mer_n2_count" != "k_mer_n5_count" && "k_mer_n3_count" != "k_mer_n4_count"
    ensures "k_mer_n3_count" != "k_mer_n5_count" && "k_mer_n4_count" != "k_mer_n5_count"
  {
    assert "k_mer_n2_count"[7] == '2' && "k_mer_n3_count"[7] == '3';
    assert "k_mer_n4_count"[7] == '4' && "k_mer_n5_count"[7] == '5';
  }

  /** The `k_mers` dictionary `process_data` builds from its four tables. */
  function KmerDict(n2: SequenceUtils.KmerTable, n3: SequenceUtils.KmerTable,
                    n4: SequenceUtils.KmerTable, n5: SequenceUtils.KmerTable): (kMers: map<string, SequenceUtils.KmerTable>)
    ensures kMers.Keys == {"k_mer_n2_count", "k_mer_n3_count", "k_mer_n4_count", "k_mer_n5_count"}
    ensures kMers["k_mer_n2_count"] == n2 && kMers["k_mer_n3_count"] == n3
    ensures kMers["k_mer_n4_count"] == n4 && kMers["k_mer_n5_count"] == n5
  {
    KmerKeysDistinct();
    map["k_mer_n2_count" := n2, "k_mer_n3_count" := n3, "k_mer_n4_count" := n4, "k_mer_n5_count" := n5]
  }

  /** The `k_mers` dictionary of a sequence: its top-five tables for k = 2,
      3, 4 and 5 under the keys `k_mer_n2_count` .. `k_mer_n5_count`. */
  function KmerTables(sequence: string): map<string, SequenceUtils.KmerTable> {
    KmerDict(SequenceUtils.TopKmers(sequence, 2), SequenceUtils.TopKmers(sequence, 3),
             SequenceUtils.TopKmers(sequence, 4), SequenceUtils.TopKmers(sequence, 5))
  }

  /** `process_data`: the record of one sequence, always with id `INDEX + 1`,
      its nucleotide counts, its longest self-reverse-complementary window of
      at least 20 characters, its CpG-island and TATA-box position lists, and
      its top-five k-mer tables. The sequence must
      consist of A, T, G and C only, since the palindrome search takes its
      reverse complement. */
  function ProcessData(sequence: string): (record: SequenceUtils.DnaSequence)
    requires SequenceUtils.AllIn(sequence, SequenceUtils.Nucleotides)
    ensures record.id == 1 && record.kMers == KmerTables(sequence)
    ensures BaseCount(record, 'a') == Get(SequenceUtils.CountNucleotides(sequence), 'a')
    ensures BaseCount(record, 't') == Get(SequenceUtils.CountNucleotides(sequence), 't')
    ensures BaseCount(record, 'g') == Get(SequenceUtils.CountNucleotides(sequence), 'g')
    ensures BaseCount(record, 'c') == Get(SequenceUtils.CountNucleotides(sequence), 'c')
    ensures record.palindrome == SequenceUtils.DnaPalindrome(sequence, PalindromeMinLength)
    ensures record.motifs.Keys == {"cpg_islands", "tata_boxes"}
    ensures record.motifs["cpg_islands"] == SequenceUtils.FindMotif(sequence, SequenceUtils.GcIslandMotif)
    ensures record.motifs["tata_boxes"] == SequenceUtils.FindMotif(sequence, SequenceUtils.TataBoxMotif)
  {
    SequenceUtils.CreateDnaSequenceRecord(Index + 1, SequenceUtils.CountNucleotides(sequence), sequence,
                                          PalindromeMinLength, KmerTables(sequence))
  }

  /** `process_data_parallel`: `pool.map(process_data, data)`, one record per
      sequence in input order. */
  function ProcessDataParallel(data: seq<string>): (results: seq<SequenceUtils.DnaSequence>)
    requires forall i :: 0 <= i < |data| ==> SequenceUtils.AllIn(data[i], SequenceUtils.Nucleotides)
    ensures |results| == |data|
  {
    if data == [] then []
    else ProcessDataParallel(data[..|data| - 1]) + [ProcessData(data[|data| - 1])]
  }

  /** Result `i` of the pool map is the record of sequence `i`. */
  lemma {:induction false} ProcessDataParallelAt(data: seq<string>, i: nat)
    requires forall i :: 0 <= i < |data| ==> SequenceUtils.AllIn(data[i], SequenceUtils.Nucleotides)
    requires i < |data|
    ensures ProcessDataParallel(data)[i] == ProcessData(data[i])
  {
    if i < |data| - 1 {
      ProcessDataParallelAt(data[..|data| - 1], i);
    }
  }

  // ---------------------------------------------------------------------------
  // The reducer

  /** The count of nucleotide `base` (`a`, `t`, `g`, otherwise `c`) in a record. */
  function BaseCount(record: SequenceUtils.DnaSequence, base: char): int {
    if base == 'a' then record.adenineCount
    else if base == 't' then record.thymineCount
    else if base == 'g' then record.guanineCount
    else record.cytosineCount
  }

  /** The sum of the `base` counts of the records. */
  function Total(data: seq<SequenceUtils.DnaSequence>, base: char): int {
    if data == [] then 0 else Total(data[..|data| - 1], base) + BaseCount(data[|data| - 1], base)
  }

  /** The document `process_sequence_statistics` returns: the totals are the
      sums over the records, the two counts are the arguments, the records are
      `data` in order, and the k-mer tables stay empty. */
  predicate Reduces(seqDoc: SeqDoc, data: seq<SequenceUtils.DnaSequence>, totalCount: int, invalidCount: int) {
    && seqDoc.totalAdenineCount == Total(data, 'a')
    && seqDoc.totalThymineCount == Total(data, 't')
    && seqDoc.totalGuanineCount == Total(data, 'g')
    && seqDoc.totalCytosineCount == Total(data, 'c')
    && seqDoc.totalSequencesCount == totalCount
    && seqDoc.invalidSequencesCount == invalidCount
    && seqDoc.kMerCount2 == map[] && seqDoc.kMerCount3 == map[]
    && seqDoc.kMerCount4 == map[] && seqDoc.kMerCount5 == map[]
    && seqDoc.dnaSequences == data
  }

  /** `process_sequence_statistics`: starts from `initialise_sequence_statistics`,
      records the two counts, then for every record adds its four counts to
      the totals and appends it to `dna_sequences`. */
  method ProcessSequenceStatistics(data: seq<SequenceUtils.DnaSequence>, totalCount: int, invalidCount: int)
    returns (seqDoc: SeqDoc)
    ensures Reduces(seqDoc, data, totalCount, invalidCount)
  {
    seqDoc := InitialiseSequenceStatistics();
    seqDoc := seqDoc.(totalSequencesCount := totalCount);
    seqDoc := seqDoc.(invalidSequencesCount := invalidCount);
    for i := 0 to |data|
      invariant Reduces(seqDoc, data[..i], totalCount, invalidCount)
    {
      var item := data[i];
      assert data[..i + 1] == data[..i] + [data[i]];
      assert data[..i + 1][..i] == data[..i];
      seqDoc := seqDoc.(totalAdenineCount := seqDoc.totalAdenineCount + item.adenineCount);
      seqDoc := seqDoc.(totalThymineCount := seqDoc.totalThymineCount + item.thymineCount);
      seqDoc := seqDoc.(totalGuanineCount := seqDoc.totalGuanineCount + item.guanineCount);
      seqDoc := seqDoc.(totalCytosineCount := seqDoc.totalCytosineCount + item.cytosineCount);
      seqDoc := seqDoc.(dnaSequences := seqDoc.dnaSequences + [item]);
    }
    assert data[..|data|] == data;
  }

  /** The total of a concatenation is the sum of the totals. */
  lemma {:induction false} TotalAppend(a: seq<SequenceUtils.DnaSequence>, b: seq<SequenceUtils.DnaSequence>, base: char)
    ensures Total(a + b, base) == Total(a, base) + Total(b, base)
  {
    if b == [] {
      assert a + b == a;
    } else {
      var init := b[..|b| - 1];
      assert (a + b)[..|a + b| - 1] == a + init;
      TotalAppend(a, init, base);
    }
  }

  /** Taking out the record at position `j` takes its count out of the total. */
  lemma TotalRemove(data: seq<SequenceUtils.DnaSequence>, j: nat, base: char)
    requires j < |data|
    ensures Total(data, base) == Total(data[..j] + data[j + 1..], base) + BaseCount(data[j], base)
  {
    assert data == data[..j] + [data[j]] + data[j + 1..];
    TotalAppend(data[..j] + [data[j]], data[j + 1..], base);
    TotalAppend(data[..j], [data[j]], base);
    TotalAppend(data[..j], data[j + 1..], base);
    assert Total([data[j]], base) == BaseCount(data[j], base) by {
      assert [data[j]][..0] == [];
    }
  }

  /** The totals are plain sums, so they do not depend on the order of the records. */
  lemma {:induction false} TotalPermutation(data: seq<SequenceUtils.DnaSequence>, other: seq<SequenceUtils.DnaSequence>, base: char)
    requires multiset(data) == multiset(other)
    ensures Total(data, base) == Total(other, base)
    decreases |data|
  {
    if data != [] {
      var init, last := data[..|data| - 1], data[|data| - 1];
      assert data == init + [last];
      assert last in multiset(other);
      var j :| 0 <= j < |other| && other[j] == last;
      var rest := other[..j] + other[j + 1..];
      assert other == other[..j] + [last] + other[j + 1..];
      assert multiset(other) == multiset(other[..j]) + multiset{last} + multiset(other[j + 1..]);
      assert multiset(rest) == multiset(other[..j]) + multiset(other[j + 1..]);
      assert multiset(data) == multiset(init) + multiset{last};
      assert multiset(init) == multiset(data) - multiset{last};
      assert multiset(rest) == multiset(other) - multiset{last};
      TotalRemove(other, j, base);
      TotalPermutation(init, rest, base);
    } else {
      assert other == [];
    }
  }

  /** The reduced document does not depend on the order of the records,
      except for the order of the records themselves. */
  lemma ReducePermutation(data: seq<SequenceUtils.DnaSequence>, other: seq<SequenceUtils.DnaSequence>,
                          a: SeqDoc, b: SeqDoc, totalCount: int, invalidCount: int)
    requires multiset(data) == multiset(other)
    requires Reduces(a, data, totalCount, invalidCount) && Reduces(b, other, totalCount, invalidCount)
    ensures a.(dnaSequences := []) == b.(dnaSequences := [])
  {
    TotalPermutation(data, other, 'a');
    TotalPermutation(data, other, 't');
    TotalPermutation(data, other, 'g');
    TotalPermutation(data, other, 'c');
  }

  /** Records that carry, one by one, the `base` counts of the sequences
      total the nucleotide total over the sequences. */
  lemma {:induction false} RecordTotals(results: seq<SequenceUtils.DnaSequence>, data: seq<string>, base: char)
    requires |results| == |data|
    requires forall i :: 0 <= i < |data| ==> BaseCount(results[i], base) == Get(SequenceUtils.CountNucleotides(data[i]), base)
    ensures Total(results, base) == SequenceUtils.NucleotideTotal(data, base)
  {
    if data != [] {
      var n := |data|;
      var before, init := results[..n - 1], data[..n - 1];
      forall i | 0 <= i < n - 1
        ensures BaseCount(before[i], base) == Get(SequenceUtils.CountNucleotides(init[i]), base)
      {
        assert before[i] == results[i] && init[i] == data[i];
      }
      RecordTotals(before, init, base);
    }
  }

  // ---------------------------------------------------------------------------
  // The main block

  /** The list comprehension of the main block: the sequences that
      `validate_sequence` (letters A, T, G, C, more than 2 characters) accepts,
      in order, with repeats. */
  function CleanedSequenceData(sequences: seq<string>): (cleaned: seq<string>)
    ensures |cleaned| <= |sequences|
  {
    if sequences == [] then []
    else
      var before, last := CleanedSequenceData(sequences[..|sequences| - 1]), sequences[|sequences| - 1];
      if SequenceUtils.ValidateSequence(last, NucleotideList, 2) then before + [last] else before
  }

  /** The comprehension keeps exactly the accepted sequences, and each is made of A, T, G and C. */
  lemma {:induction false} CleanedSequenceDataValid(sequences: seq<string>)
    ensures forall s :: s in CleanedSequenceData(sequences) <==> s in sequences && SequenceUtils.ValidateSequence(s, NucleotideList, 2)
    ensures forall i :: 0 <= i < |CleanedSequenceData(sequences)| ==>
              SequenceUtils.AllIn(CleanedSequenceData(sequences)[i], SequenceUtils.Nucleotides)
  {
    if sequences != [] {
      var init := sequences[..|sequences| - 1];
      assert sequences == init + [sequences[|sequences| - 1]];
      CleanedSequenceDataValid(init);
    }
  }

  /** The main block without the file, the clock and the printing: the
      sequences and their announced number come from the loaded JSON document.
      Returns the pool results and the reduced document. */
  method AnalyseSequences(sequences: seq<string>, numSequences: int)
    returns (results: seq<SequenceUtils.DnaSequence>, seqStatistics: SeqDoc)
    ensures |results| == |CleanedSequenceData(sequences)|
    ensures forall i :: 0 <= i < |results| ==>
              SequenceUtils.AllIn(CleanedSequenceData(sequences)[i], SequenceUtils.Nucleotides)
              && results[i] == ProcessData(CleanedSequenceData(sequences)[i])
    ensures seqStatistics.invalidSequencesCount + |CleanedSequenceData(sequences)| == seqStatistics.totalSequencesCount
    ensures seqStatistics.totalSequencesCount == numSequences
    ensures seqStatistics.dnaSequences == results
    ensures seqStatistics.totalAdenineCount == SequenceUtils.NucleotideTotal(CleanedSequenceData(sequences), 'a')
    ensures seqStatistics.totalThymineCount == SequenceUtils.NucleotideTotal(CleanedSequenceData(sequences), 't')
    ensures seqStatistics.totalGuanineCount == SequenceUtils.NucleotideTotal(CleanedSequenceData(sequences), 'g')
    ensures seqStatistics.totalCytosineCount == SequenceUtils.NucleotideTotal(CleanedSequenceData(sequences), 'c')
  {
    var cleanedSequenceData := CleanedSequenceData(sequences);
    CleanedSequenceDataValid(sequences);
    var totalCount := numSequences;
    var invalidCount := totalCount - |cleanedSequenceData|;
    results := ProcessDataParallel(cleanedSequenceData);
    forall i | 0 <= i < |results|
      ensures SequenceUtils.AllIn(cleanedSequenceData[i], SequenceUtils.Nucleotides)
      ensures results[i] == ProcessData(cleanedSequenceData[i])
    {
      ProcessDataParallelAt(cleanedSequenceData, i);
    }
    seqStatistics := ProcessSequenceStatistics(results, totalCount, invalidCount);
    RecordTotals(results, cleanedSequenceData, 'a');
    RecordTotals(results, cleanedSequenceData, 't');
    RecordTotals(results, cleanedSequenceData, 'g');
    RecordTotals(results, cleanedSequenceData, 'c');
  }
}
