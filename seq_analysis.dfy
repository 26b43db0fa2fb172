/** The single-process statistics pipeline of `src/Seq_analysis.py`: the
    expand-around-centre search for the longest literal palindrome, k-mer
    counting without lower-casing or truncation, the `SequenceStatistics`
    dataclass updated in place, the per-sequence record, and the two
    aggregation drivers. Its `validate_sequence`, `find_motif`,
    `count_nucleotides` and `update_k_mer_counts` behave exactly like those of
    `src/sequence_utils.py` and are the members of module `SequenceUtils`. */
module SeqAnalysis {
  import opened PyText
  import opened Counters
  import SequenceUtils

  const MinPalindromeLength: int := 20

  // ---------------------------------------------------------------------------
  // Literal palindromes

  /** A string that reads the same backwards. */
  predicate IsPalindrome(w: string) {
    forall j :: 0 <= j < |w| ==> w[j] == w[|w| - 1 - j]
  }

  /** The window `[a, b)` of `s` is a literal palindrome. */
  predicate PalindromeAt(s: string, a: int, b: int) {
    0 <= a <= b <= |s| && IsPalindrome(s[a..b])
  }

  /** `w` is the palindromic window of `s` that starts at `a`. */
  predicate PalindromicWindow(s: string, w: string, a: int) {
    PalindromeAt(s, a, a + |w|) && s[a..a + |w|] == w
  }

  /** How many times the loop of `expand_around_center` widens the window
      `(left, right)` before the characters at its two ends differ or it
      reaches an end of the sequence. */
  function Reach(s: string, left: int, right: int): nat
    requires left <= right && 0 <= right
    decreases if left < 0 then 0 else left + 1
  {
    if left >= 0 && right < |s| && s[left] == s[right] then 1 + Reach(s, left - 1, right + 1) else 0
  }

  /** One more matching pair of characters widens by one more step. */
  lemma ReachStep(s: string, left: int, right: int)
    requires 0 <= left <= right < |s| && s[left] == s[right]
    ensures Reach(s, left, right) == 1 + Reach(s, left - 1, right + 1)
  {
  }

  /** Widening stops at an end of the sequence or at differing characters. */
  lemma ReachStop(s: string, left: int, right: int)
    requires left <= right && 0 <= right
    requires !(left >= 0 && right < |s| && s[left] == s[right])
    ensures Reach(s, left, right) == 0
  {
  }

  /** The centres `expand_around_center` is called with: a character
      `(i, i)` or the gap `(i, i + 1)` after it. */
  predicate IsCentre(s: string, left: int, right: int) {
    0 <= left <= right <= left + 1 && left < |s| && right <= |s|
  }

  /** The window `expand_around_center(left, right)` returns. */
  function Expanded(s: string, left: int, right: int): (w: string)
    requires IsCentre(s, left, right)
  {
    ReachBounds(s, left, right);
    s[left + 1 - Reach(s, left, right)..right + Reach(s, left, right)]
  }

  /** Widening never runs past the ends of the sequence. */
  lemma {:induction false} ReachBounds(s: string, left: int, right: int)
    requires 0 <= right && -1 <= left && (left < right || (left == right && right < |s|)) && right <= |s|
    ensures left + 1 - Reach(s, left, right) >= 0 && right + Reach(s, left, right) <= |s|
    decreases if left < 0 then 0 else left + 1
  {
    if left >= 0 && right < |s| && s[left] == s[right] {
      ReachBounds(s, left - 1, right + 1);
    }
  }

  /** `s[a]` and its mirror image in a palindromic window are equal. */
  lemma MirrorEqual(s: string, a: int, b: int, j: int)
    requires PalindromeAt(s, a, b) && a <= j < b
    ensures s[j] == s[a + b - 1 - j]
  {
    assert s[a..b][j - a] == s[a..b][(b - a) - 1 - (j - a)];
  }

  /** Widening a palindromic window by two equal end characters keeps it a palindrome. */
  lemma WidenPalindrome(s: string, a: int, b: int)
    requires PalindromeAt(s, a, b) && 0 < a && b < |s| && s[a - 1] == s[b]
    ensures PalindromeAt(s, a - 1, b + 1)
  {
    var w, v := s[a - 1..b + 1], s[a..b];
    forall j | 0 <= j < |w| ensures w[j] == w[|w| - 1 - j] {
      if 0 < j < |w| - 1 {
        assert w[j] == v[j - 1] && w[|w| - 1 - j] == v[|v| - 1 - (j - 1)];
      }
    }
  }

  /** Starting from a palindromic window `[left + 1, right)`, widening ends at a palindrome. */
  lemma {:induction false} ReachPalindrome(s: string, left: int, right: int)
    requires -1 <= left && left + 1 <= right <= |s| && PalindromeAt(s, left + 1, right)
    ensures PalindromeAt(s, left + 1 - Reach(s, left, right), right + Reach(s, left, right))
    decreases left + 1
  {
    if left >= 0 && right < |s| && s[left] == s[right] {
      if left + 1 < right {
        WidenPalindrome(s, left + 1, right);
      } else {
        assert IsPalindrome(s[left..right + 1]);
      }
      ReachPalindrome(s, left - 1, right + 1);
    }
  }

  /** Starting from a palindromic window `[left + 1, right)`, no palindrome
      `[a, b)` with the same centre is longer than where widening ends. */
  lemma {:induction false} ReachMaximal(s: string, left: int, right: int, a: int, b: int)
    requires -1 <= left && left + 1 <= right <= |s| && PalindromeAt(s, left + 1, right)
    requires a + b == left + right + 1 && PalindromeAt(s, a, b)
    ensures b - a <= right - left - 1 + 2 * Reach(s, left, right)
    decreases left + 1
  {
    if left >= 0 && right < |s| && s[left] == s[right] {
      if left + 1 < right {
        WidenPalindrome(s, left + 1, right);
      } else {
        assert IsPalindrome(s[left..right + 1]);
      }
      ReachMaximal(s, left - 1, right + 1, a, b);
    } else if a <= left {
      MirrorEqual(s, a, b, left);
    }
  }

  /** Where the window `expand_around_center(left, right)` returns starts. */
  function ExpandedStart(s: string, left: int, right: int): int
    requires IsCentre(s, left, right)
  {
    left + 1 - Reach(s, left, right)
  }

  /** `expand_around_center` returns a palindromic window of `s` centred on `(left, right)`. */
  lemma ExpandedWindow(s: string, left: int, right: int)
    requires IsCentre(s, left, right)
    ensures PalindromicWindow(s, Expanded(s, left, right), ExpandedStart(s, left, right))
    ensures 2 * ExpandedStart(s, left, right) + |Expanded(s, left, right)| == left + right + 1
  {
    ReachBounds(s, left, right);
    if left == right {
      assert s[left] == s[right];
      assert IsPalindrome(s[left..left + 1]);
      ReachPalindrome(s, left - 1, right + 1);
    } else {
      ReachPalindrome(s, left, right);
    }
  }

  /** No palindromic window `[a, b)` with the centre `(left, right)` is longer
      than what `expand_around_center` returns. */
  lemma ExpandedLongest(s: string, left: int, right: int, a: int, b: int)
    requires IsCentre(s, left, right) && a + b == left + right + 1 && PalindromeAt(s, a, b)
    ensures b - a <= |Expanded(s, left, right)|
  {
    ReachBounds(s, left, right);
    if left == right {
      assert s[left] == s[right];
      assert IsPalindrome(s[left..left + 1]);
      ReachMaximal(s, left - 1, right + 1, a, b);
    } else {
      ReachMaximal(s, left, right, a, b);
    }
  }

  /** Once widening has stopped at `(l, r)`, the window between them is the
      expanded window. */
  lemma ExpandedEnds(s: string, left: int, right: int, l: int, r: int)
    requires IsCentre(s, left, right)
    requires -1 <= l <= left && right <= r <= |s| && left - l == r - right
    requires Reach(s, left, right) == left - l
    ensures Expanded(s, left, right) == Slice(s, l + 1, r)
  {
    ReachBounds(s, left, right);
  }

  /** `expand_around_center(left, right)`: moves `left` down and `right` up
      while both are inside the sequence and their characters agree, and
      returns `sequence[left + 1 : right]`. */
  method ExpandAroundCenter(sequence: string, left: int, right: int) returns (p: string)
    requires IsCentre(sequence, left, right)
    ensures p == Expanded(sequence, left, right)
  {
    var l, r := left, right;
    while l >= 0 && r < |sequence| && sequence[l] == sequence[r]
      invariant -1 <= l <= left && right <= r <= |sequence|
      invariant left - l == r - right
      invariant Reach(sequence, left, right) == (left - l) + Reach(sequence, l, r)
      decreases l + 1
    {
      ReachStep(sequence, l, r);
      l := l - 1;
      r := r + 1;
    }
    ReachStop(sequence, l, r);
    ExpandedEnds(sequence, left, right, l, r);
    p := Slice(sequence, l + 1, r);
  }

  /** The windows the search compares for the first `n` centres, in the
      order it compares them: for every centre `i`, first the odd candidate
      `(i, i)`, then the even candidate `(i, i + 1)`. */
  function CentreCandidates(s: string, n: nat): (cands: seq<string>)
    requires n <= |s|
    ensures |cands| == 2 * n
  {
    if n == 0 then [] else CentreCandidates(s, n - 1) + [Expanded(s, n - 1, n - 1), Expanded(s, n - 1, n)]
  }

  /** The windows the search compares over all centres. */
  function Candidates(s: string): seq<string> {
    CentreCandidates(s, |s|)
  }

  /** The two candidates of centre `i` keep their places as more centres follow. */
  lemma {:induction false} CentreCandidatesAt(s: string, n: nat, i: nat)
    requires i < n <= |s|
    ensures CentreCandidates(s, n)[2 * i] == Expanded(s, i, i)
    ensures CentreCandidates(s, n)[2 * i + 1] == Expanded(s, i, i + 1)
  {
    if i < n - 1 {
      CentreCandidatesAt(s, n - 1, i);
    }
  }

  /** One update of `longest_palindrome`: a candidate replaces the best so
      far when it is at least `minLength` long and strictly longer. */
  function Improve(best: SequenceUtils.Palindrome, cand: string, minLength: int): SequenceUtils.Palindrome {
    if |cand| >= minLength && |cand| > best.palindromeLength then SequenceUtils.Palindrome(cand, |cand|) else best
  }

  /** The best window after comparing the candidates `cands` in order. */
  function Best(cands: seq<string>, minLength: int): SequenceUtils.Palindrome {
    if cands == [] then SequenceUtils.NoPalindrome
    else Improve(Best(cands[..|cands| - 1], minLength), cands[|cands| - 1], minLength)
  }

  /** Candidate `k` is at least `minLength` and one character long, no
      candidate of at least `minLength` characters is longer, every earlier one
      of at least `minLength` characters is shorter, and `p` records it. */
  predicate FirstLongestAt(cands: seq<string>, minLength: int, p: SequenceUtils.Palindrome, k: int) {
    && 0 <= k < |cands|
    && p == SequenceUtils.Palindrome(cands[k], |cands[k]|)
    && |cands[k]| >= minLength && |cands[k]| >= 1
    && (forall j :: 0 <= j < |cands| && |cands[j]| >= minLength ==> |cands[j]| <= |cands[k]|)
    && (forall j :: 0 <= j < k && |cands[j]| >= minLength ==> |cands[j]| < |cands[k]|)
  }

  /** The strict comparison keeps the first of the longest candidates; the
      result is `("", 0)` exactly when no candidate is both non-empty and at
      least `minLength` long. */
  lemma {:induction false} BestIsFirstLongest(cands: seq<string>, minLength: int)
    ensures forall j :: 0 <= j < |cands| && |cands[j]| >= minLength ==> |cands[j]| <= Best(cands, minLength).palindromeLength
    ensures Best(cands, minLength) == SequenceUtils.NoPalindrome <==>
              forall j :: 0 <= j < |cands| ==> |cands[j]| < minLength || |cands[j]| == 0
    ensures Best(cands, minLength) != SequenceUtils.NoPalindrome ==>
              exists k :: FirstLongestAt(cands, minLength, Best(cands, minLength), k)
  {
    if cands != [] {
      var init, last := cands[..|cands| - 1], cands[|cands| - 1];
      BestIsFirstLongest(init, minLength);
      var before := Best(init, minLength);
      assert forall j :: 0 <= j < |init| ==> init[j] == cands[j];
      if |last| >= minLength && |last| > before.palindromeLength {
        assert FirstLongestAt(cands, minLength, Best(cands, minLength), |cands| - 1);
      } else if before != SequenceUtils.NoPalindrome {
        var k :| FirstLongestAt(init, minLength, before, k);
        assert FirstLongestAt(cands, minLength, Best(cands, minLength), k);
      }
    }
  }

  /** Comparing two more candidates. */
  lemma BestStep(cands: seq<string>, minLength: int, odd: string, even: string)
    ensures Best(cands + [odd, even], minLength)
              == Improve(Improve(Best(cands, minLength), odd, minLength), even, minLength)
  {
    assert (cands + [odd, even])[..|cands| + 1] == cands + [odd];
    assert (cands + [odd])[..|cands|] == cands;
  }

  /** `find_longest_palindrome`: for every centre, expands the odd and then
      the even candidate and keeps a candidate of at least `minLength`
      characters that is strictly longer than the best so far. */
  method FindLongestPalindrome(sequence: string, minLength: int) returns (longestPalindrome: SequenceUtils.Palindrome)
    ensures longestPalindrome == Best(Candidates(sequence), minLength)
  {
    longestPalindrome := SequenceUtils.Palindrome("", 0);
    for i := 0 to |sequence|
      invariant longestPalindrome == Best(CentreCandidates(sequence, i), minLength)
    {
      var oddPalindrome := ExpandAroundCenter(sequence, i, i);
      var evenPalindrome := ExpandAroundCenter(sequence, i, i + 1);
      assert CentreCandidates(sequence, i + 1) == CentreCandidates(sequence, i) + [oddPalindrome, evenPalindrome];
      BestStep(CentreCandidates(sequence, i), minLength, oddPalindrome, evenPalindrome);
      ghost var before := longestPalindrome;
      if |oddPalindrome| >= minLength && |oddPalindrome| > longestPalindrome.palindromeLength {
        longestPalindrome := SequenceUtils.Palindrome(oddPalindrome, |oddPalindrome|);
      }
      assert longestPalindrome == Improve(before, oddPalindrome, minLength);
      ghost var middle := longestPalindrome;
      if |evenPalindrome| >= minLength && |evenPalindrome| > longestPalindrome.palindromeLength {
        longestPalindrome := SequenceUtils.Palindrome(evenPalindrome, |evenPalindrome|);
      }
      assert longestPalindrome == Improve(middle, evenPalindrome, minLength);
    }
  }

  /** Candidate `k` is the window of centre `(k / 2, k / 2 + k % 2)`. */
  lemma CandidateAt(s: string, k: int)
    requires 0 <= k < 2 * |s|
    ensures IsCentre(s, k / 2, k / 2 + k % 2)
    ensures Candidates(s)[k] == Expanded(s, k / 2, k / 2 + k % 2)
  {
    var c := k / 2;
    assert k == 2 * c + k % 2;
    CentreCandidatesAt(s, |s|, c);
  }

  /** Every candidate is a palindromic window of the sequence. */
  lemma CandidateIsWindow(s: string, k: int) returns (a: int)
    requires 0 <= k < 2 * |s|
    ensures PalindromicWindow(s, Candidates(s)[k], a)
  {
    CandidateAt(s, k);
    ExpandedWindow(s, k / 2, k / 2 + k % 2);
    a := ExpandedStart(s, k / 2, k / 2 + k % 2);
  }

  /** Every non-empty palindromic window is covered by the candidate of its
      centre: candidate `a + b - 1` is at least as long. */
  lemma CandidateCovers(s: string, a: int, b: int)
    requires PalindromeAt(s, a, b) && a < b
    ensures 0 <= a + b - 1 < 2 * |s| && b - a <= |Candidates(s)[a + b - 1]|
  {
    var k := a + b - 1;
    CandidateAt(s, k);
    ExpandedLongest(s, k / 2, k / 2 + k % 2, a, b);
  }

  /** What `find_longest_palindrome` promises: `("", 0)` exactly when no
      window of at least `max(minLength, 1)` characters is a palindrome;
      otherwise a palindromic window of the sequence of at least `minLength`
      characters, with its length recorded, that no palindromic window of at
      least `minLength` characters is longer than, and the first such
      candidate in the order of the scan (earlier centre first, odd before even). */
  lemma FindLongestPalindromeProperties(s: string, minLength: int)
    ensures var p := Best(Candidates(s), minLength);
            && (p == SequenceUtils.NoPalindrome <==>
                  forall a, b :: PalindromeAt(s, a, b) && b - a >= minLength ==> a == b)
            && (p != SequenceUtils.NoPalindrome ==>
                  && p.palindromeLength == |p.palindromeSeq| >= minLength
                  && (exists a :: PalindromicWindow(s, p.palindromeSeq, a))
                  && exists k :: FirstLongestAt(Candidates(s), minLength, p, k))
            && (forall a, b :: PalindromeAt(s, a, b) && b - a >= minLength ==> b - a <= p.palindromeLength)
  {
    var cands := Candidates(s);
    var p := Best(cands, minLength);
    BestIsFirstLongest(cands, minLength);
    forall a, b | PalindromeAt(s, a, b) && b - a >= minLength ensures b - a <= p.palindromeLength {
      if a < b {
        CandidateCovers(s, a, b);
      }
    }
    if p != SequenceUtils.NoPalindrome {
      var k :| FirstLongestAt(cands, minLength, p, k);
      var a := CandidateIsWindow(s, k);
    } else {
      forall a, b | PalindromeAt(s, a, b) && b - a >= minLength ensures a == b {
        if a < b {
          CandidateCovers(s, a, b);
        }
      }
    }
  }

  // ---------------------------------------------------------------------------
  // k-mer counting without normalisation or truncation

  /** What this `count_k_mers` returns: the tally of `sequence[i:i+k]` for
      every index `i` of `sequence[:-(k-1)]`, on the sequence as given (the
      result of `sequence.lower().strip()` is discarded). */
  function KmerCounts(sequence: string, k: int): SequenceUtils.KmerTable {
    Tally(SequenceUtils.Windows(sequence, k))
  }

  /** `count_k_mers` of `src/Seq_analysis.py`: the same counting loop as in
      `src/sequence_utils.py`, over the sequence exactly as given, returning
      the whole table. */
  method CountKmers(sequence: string, numberNucleotides: int) returns (oligoCounts: SequenceUtils.KmerTable)
    ensures oligoCounts == KmerCounts(sequence, numberNucleotides)
  {
    var keyOrder;
    oligoCounts, keyOrder := SequenceUtils.CountWindows(sequence, numberNucleotides);
  }

  /** The table holds the windows of `sequence` of length `k`, each with its
      number of overlapping occurrences; for `k >= 2` the counts add up to
      `max(0, n - k + 1)`; for `k == 1` the slice `sequence[:-0]` is empty and
      so is the table. */
  lemma KmerCountsProperties(sequence: string, k: int)
    ensures forall key :: key in KmerCounts(sequence, k) <==> key in SequenceUtils.Windows(sequence, k)
    ensures forall key :: Get(KmerCounts(sequence, k), key) == multiset(SequenceUtils.Windows(sequence, k))[key]
    ensures k >= 2 ==> SumValues(KmerCounts(sequence, k)) == Max(0, |sequence| - k + 1)
    ensures k == 1 ==> KmerCounts(sequence, k) == map[]
  {
    var windows := SequenceUtils.Windows(sequence, k);
    TallyCounts(windows);
    SumTally(windows);
    SequenceUtils.WindowsShape(sequence, k);
  }

  /** For `k >= 2` every key is a case-preserved substring of length `k` of the sequence. */
  lemma KmerCountsKeys(sequence: string, k: int, key: string) returns (i: int)
    requires k >= 2 && key in KmerCounts(sequence, k)
    ensures |key| == k && SequenceUtils.MatchAt(sequence, key, i)
  {
    var windows := SequenceUtils.Windows(sequence, k);
    TallyCounts(windows);
    SequenceUtils.WindowsShape(sequence, k);
    i :| 0 <= i < |windows| && windows[i] == key;
  }

  // ---------------------------------------------------------------------------
  // The statistics dataclass and the per-sequence record

  /** This module's `DNASequence`: the motifs hold only the CpG-island positions. */
  datatype DnaRecord = DnaRecord(
    id: int,
    adenineCount: int,
    thymineCount: int,
    guanineCount: int,
    cytosineCount: int,
    palindrome: SequenceUtils.Palindrome,
    motifs: map<string, seq<int>>)

  /** The `SequenceStatistics` dataclass: four nucleotide totals, four k-mer
      tables and the list of per-sequence records. */
  class SequenceStatistics {
    var adenineCount: int
    var thymineCount: int
    var guanineCount: int
    var cytosineCount: int
    var kMerCount2: SequenceUtils.KmerTable
    var kMerCount3: SequenceUtils.KmerTable
    var kMerCount4: SequenceUtils.KmerTable
    var kMerCount5: SequenceUtils.KmerTable
    var dnaSequences: seq<DnaRecord>

    /** The dataclass defaults: zero totals, empty tables, no records. */
    constructor ()
      ensures adenineCount == 0 && thymineCount == 0 && guanineCount == 0 && cytosineCount == 0
      ensures kMerCount2 == map[] && kMerCount3 == map[] && kMerCount4 == map[] && kMerCount5 == map[]
      ensures dnaSequences == []
    {
      adenineCount, thymineCount, guanineCount, cytosineCount := 0, 0, 0, 0;
      kMerCount2, kMerCount3, kMerCount4, kMerCount5 := map[], map[], map[], map[];
      dnaSequences := [];
    }
  }

  /** `update_nucleotide_counts` of the dataclass: adds the `a`, `t`, `g`,
      `c` counts to the four totals in place (the counts come from a
      `defaultdict`, so an absent letter adds 0) and returns the same object;
      the tables and the records are untouched. */
  method UpdateNucleotideCounts(nucleotideCounts: map<char, int>, sequenceStats: SequenceStatistics)
    returns (updated: SequenceStatistics)
    modifies sequenceStats
    ensures updated == sequenceStats
    ensures Snapshot(sequenceStats) == AddCounts(old(Snapshot(sequenceStats)), nucleotideCounts)
  {
    sequenceStats.adenineCount := sequenceStats.adenineCount + Get(nucleotideCounts, 'a');
    sequenceStats.thymineCount := sequenceStats.thymineCount + Get(nucleotideCounts, 't');
    sequenceStats.guanineCount := sequenceStats.guanineCount + Get(nucleotideCounts, 'g');
    sequenceStats.cytosineCount := sequenceStats.cytosineCount + Get(nucleotideCounts, 'c');
    updated := sequenceStats;
  }

  /** The record `create_dna_sequence_record` builds: the four counts, the
      longest literal palindrome of at least 20 characters and the CpG-island
      positions (the TATA-box scan is commented out in the source). */
  function RecordOf(id: int, nucleotideCounts: map<char, int>, sequence: string): DnaRecord {
    DnaRecord(id, Get(nucleotideCounts, 'a'), Get(nucleotideCounts, 't'), Get(nucleotideCounts, 'g'),
              Get(nucleotideCounts, 'c'), Best(Candidates(sequence), MinPalindromeLength),
              map["cpg_islands" := SequenceUtils.FindMotif(sequence, SequenceUtils.GcIslandMotif)])
  }

  /** The record holds the four counts, the longest literal palindrome of at
      least 20 characters, and under `"cpg_islands"` the list `find_motif`
      returns: exactly the positions of `CG` before the last index, in
      increasing order. */
  lemma RecordOfFields(id: int, nucleotideCounts: map<char, int>, sequence: string)
    ensures var record := RecordOf(id, nucleotideCounts, sequence);
            && record.id == id
            && record.adenineCount == Get(nucleotideCounts, 'a') && record.thymineCount == Get(nucleotideCounts, 't')
            && record.guanineCount == Get(nucleotideCounts, 'g') && record.cytosineCount == Get(nucleotideCounts, 'c')
            && record.palindrome == Best(Candidates(sequence), MinPalindromeLength)
            && record.motifs.Keys == {"cpg_islands"}
            && record.motifs["cpg_islands"] == SequenceUtils.FindMotif(sequence, SequenceUtils.GcIslandMotif)
            && (forall p :: p in record.motifs["cpg_islands"] <==>
                 0 <= p < |sequence| - 1 && SequenceUtils.MatchAt(sequence, SequenceUtils.GcIslandMotif, p))
            && forall j, l :: 0 <= j < l < |record.motifs["cpg_islands"]| ==>
                 record.motifs["cpg_islands"][j] < record.motifs["cpg_islands"][l]
  {
    SequenceUtils.FindMotifPositions(sequence, SequenceUtils.GcIslandMotif);
  }

  /** `create_dna_sequence_record` of `src/Seq_analysis.py`. */
  method CreateDnaSequenceRecord(id: int, nucleotideCounts: map<char, int>, sequence: string)
    returns (record: DnaRecord)
    ensures record == RecordOf(id, nucleotideCounts, sequence)
  {
    var longestPalindrome := FindLongestPalindrome(sequence, MinPalindromeLength);
    var cpgIslands := SequenceUtils.FindMotif(sequence, SequenceUtils.GcIslandMotif);
    record := DnaRecord(id, Get(nucleotideCounts, 'a'), Get(nucleotideCounts, 't'), Get(nucleotideCounts, 'g'),
                        Get(nucleotideCounts, 'c'), longestPalindrome, map["cpg_islands" := cpgIslands]);
  }

  // ---------------------------------------------------------------------------
  // Aggregation

  /** The k-mer tables of `sequences` merged one after the other. */
  function MergedKmers(sequences: seq<string>, k: int): SequenceUtils.KmerTable {
    if sequences == [] then map[]
    else SequenceUtils.UpdateKmerCounts(MergedKmers(sequences[..|sequences| - 1], k), KmerCounts(sequences[|sequences| - 1], k))
  }

  /** The number of occurrences of `key` among the windows of all of `sequences`. */
  function Occurrences(sequences: seq<string>, k: int, key: string): int {
    if sequences == [] then 0
    else Occurrences(sequences[..|sequences| - 1], k, key) + multiset(SequenceUtils.Windows(sequences[|sequences| - 1], k))[key]
  }

  /** The number of windows of all of `sequences`. */
  function WindowTotal(sequences: seq<string>, k: int): int {
    if sequences == [] then 0
    else WindowTotal(sequences[..|sequences| - 1], k) + |SequenceUtils.Windows(sequences[|sequences| - 1], k)|
  }

  /** The merged table counts every k-mer over all the sequences. */
  lemma {:induction false} MergedKmersKeywise(sequences: seq<string>, k: int)
    ensures forall key :: Get(MergedKmers(sequences, k), key) == Occurrences(sequences, k, key)
  {
    if sequences != [] {
      MergedKmersKeywise(sequences[..|sequences| - 1], k);
      TallyCounts(SequenceUtils.Windows(sequences[|sequences| - 1], k));
    }
  }

  /** The counts of the merged table add up to the number of windows of all the sequences. */
  lemma {:induction false} MergedKmersTotal(sequences: seq<string>, k: int)
    ensures SumValues(MergedKmers(sequences, k)) == WindowTotal(sequences, k)
  {
    if sequences != [] {
      var init, last := sequences[..|sequences| - 1], sequences[|sequences| - 1];
      MergedKmersTotal(init, k);
      SequenceUtils.UpdateKmerCountsSum(MergedKmers(init, k), KmerCounts(last, k));
      SumTally(SequenceUtils.Windows(last, k));
    }
  }

  /** What the 3-mer table holds after aggregating `sequences`: every round
      rebuilds it from the current 2-mer table, so it ends as the merged
      2-mers plus the last sequence's 3-mers only. */
  function ThreeMers(sequences: seq<string>): SequenceUtils.KmerTable {
    if sequences == [] then map[]
    else SequenceUtils.UpdateKmerCounts(MergedKmers(sequences, 2), KmerCounts(sequences[|sequences| - 1], 3))
  }

  /** The record of sequence number `j`. */
  function RecordFor(j: int, sequence: string): DnaRecord {
    RecordOf(j, SequenceUtils.CountNucleotides(sequence), sequence)
  }

  /** The records built for `sequences`, in order, with ids `0 .. n-1`. */
  function Records(sequences: seq<string>): seq<DnaRecord> {
    MapIndexed(sequences, RecordFor)
  }

  /** Record `j` belongs to sequence `j` and has id `j`. */
  lemma RecordsAt(sequences: seq<string>, j: nat)
    requires j < |sequences|
    ensures |Records(sequences)| == |sequences|
    ensures Records(sequences)[j] == RecordOf(j, SequenceUtils.CountNucleotides(sequences[j]), sequences[j])
  {
    MapIndexedAt(sequences, RecordFor, j);
  }

  /** The fields of a `SequenceStatistics` object, as a value. */
  datatype Summary = Summary(
    adenineCount: int,
    thymineCount: int,
    guanineCount: int,
    cytosineCount: int,
    kMerCount2: SequenceUtils.KmerTable,
    kMerCount3: SequenceUtils.KmerTable,
    kMerCount4: SequenceUtils.KmerTable,
    kMerCount5: SequenceUtils.KmerTable,
    dnaSequences: seq<DnaRecord>)

  /** The current fields of `stats`. */
  function Snapshot(stats: SequenceStatistics): Summary
    reads stats
  {
    Summary(stats.adenineCount, stats.thymineCount, stats.guanineCount, stats.cytosineCount,
            stats.kMerCount2, stats.kMerCount3, stats.kMerCount4, stats.kMerCount5, stats.dnaSequences)
  }

  /** The fields of a fresh dataclass. */
  const Defaults := Summary(0, 0, 0, 0, map[], map[], map[], map[], [])

  /** `update_nucleotide_counts` on the fields: the `a`, `t`, `g`, `c` counts
      added to the four totals (an absent letter adds 0). */
  function AddCounts(before: Summary, nucleotideCounts: map<char, int>): Summary {
    before.(adenineCount := before.adenineCount + Get(nucleotideCounts, 'a'),
            thymineCount := before.thymineCount + Get(nucleotideCounts, 't'),
            guanineCount := before.guanineCount + Get(nucleotideCounts, 'g'),
            cytosineCount := before.cytosineCount + Get(nucleotideCounts, 'c'))
  }

  /** The k-mer merges of one round on the fields: the 2-, 4- and 5-mers of
      `sequence` merged into their own tables, and the 3-mer table rebuilt as
      the new 2-mer table merged with the 3-mers. */
  function MergeTables(before: Summary, sequence: string): Summary {
    before.(kMerCount2 := SequenceUtils.UpdateKmerCounts(before.kMerCount2, KmerCounts(sequence, 2)),
            kMerCount3 := SequenceUtils.UpdateKmerCounts(
                            SequenceUtils.UpdateKmerCounts(before.kMerCount2, KmerCounts(sequence, 2)),
                            KmerCounts(sequence, 3)),
            kMerCount4 := SequenceUtils.UpdateKmerCounts(before.kMerCount4, KmerCounts(sequence, 4)),
            kMerCount5 := SequenceUtils.UpdateKmerCounts(before.kMerCount5, KmerCounts(sequence, 5)))
  }

  /** One round of the aggregation loop, on the fields: add the counts, merge
      the k-mer tables, append the record with id `index`. */
  function Absorb(before: Summary, index: int, sequence: string): Summary {
    var merged := MergeTables(AddCounts(before, SequenceUtils.CountNucleotides(sequence)), sequence);
    merged.(dnaSequences := merged.dnaSequences + [RecordOf(index, SequenceUtils.CountNucleotides(sequence), sequence)])
  }

  /** The fields after one round per sequence, in order, starting from the
      defaults, with the ids `0 .. n-1`. */
  function Aggregate(sequences: seq<string>): Summary {
    if sequences == [] then Defaults
    else Absorb(Aggregate(sequences[..|sequences| - 1]), |sequences| - 1, sequences[|sequences| - 1])
  }

  /** Aggregating one more sequence is one more round of the loop. */
  lemma AggregateStep(sequences: seq<string>, i: nat)
    requires i < |sequences|
    ensures Aggregate(sequences[..i + 1]) == Absorb(Aggregate(sequences[..i]), i, sequences[i])
  {
    assert sequences[..i + 1][..i] == sequences[..i];
  }

  /** The totals are the sums of the counts over all sequences. */
  lemma {:induction false} AggregateTotals(sequences: seq<string>)
    ensures Aggregate(sequences).adenineCount == SequenceUtils.NucleotideTotal(sequences, 'a')
    ensures Aggregate(sequences).thymineCount == SequenceUtils.NucleotideTotal(sequences, 't')
    ensures Aggregate(sequences).guanineCount == SequenceUtils.NucleotideTotal(sequences, 'g')
    ensures Aggregate(sequences).cytosineCount == SequenceUtils.NucleotideTotal(sequences, 'c')
  {
    if sequences != [] {
      AggregateTotals(sequences[..|sequences| - 1]);
    }
  }

  /** The 2-mer table merges every sequence's 2-mer table. */
  lemma {:induction false} AggregateTwoMers(sequences: seq<string>)
    ensures Aggregate(sequences).kMerCount2 == MergedKmers(sequences, 2)
  {
    if sequences != [] {
      var init, last := sequences[..|sequences| - 1], sequences[|sequences| - 1];
      AggregateTwoMers(init);
      AbsorbTables(Aggregate(init), |sequences| - 1, last);
    }
  }

  /** A round merges the sequence's 2-, 4- and 5-mers into their own tables. */
  lemma AbsorbTables(before: Summary, index: int, sequence: string)
    ensures Absorb(before, index, sequence).kMerCount2 == SequenceUtils.UpdateKmerCounts(before.kMerCount2, KmerCounts(sequence, 2))
    ensures Absorb(before, index, sequence).kMerCount4 == SequenceUtils.UpdateKmerCounts(before.kMerCount4, KmerCounts(sequence, 4))
    ensures Absorb(before, index, sequence).kMerCount5 == SequenceUtils.UpdateKmerCounts(before.kMerCount5, KmerCounts(sequence, 5))
  {
  }

  /** The 4-mer table merges every sequence's 4-mer table. */
  lemma {:induction false} AggregateFourMers(sequences: seq<string>)
    ensures Aggregate(sequences).kMerCount4 == MergedKmers(sequences, 4)
  {
    if sequences != [] {
      var init, last := sequences[..|sequences| - 1], sequences[|sequences| - 1];
      AggregateFourMers(init);
      AbsorbTables(Aggregate(init), |sequences| - 1, last);
    }
  }

  /** The 5-mer table merges every sequence's 5-mer table. */
  lemma {:induction false} AggregateFiveMers(sequences: seq<string>)
    ensures Aggregate(sequences).kMerCount5 == MergedKmers(sequences, 5)
  {
    if sequences != [] {
      var init, last := sequences[..|sequences| - 1], sequences[|sequences| - 1];
      AggregateFiveMers(init);
      AbsorbTables(Aggregate(init), |sequences| - 1, last);
    }
  }

  /** The 2-, 4- and 5-mer tables merge every sequence's table, and the 3-mer
      table is `ThreeMers`. */
  lemma AggregateKmers(sequences: seq<string>)
    ensures Aggregate(sequences).kMerCount2 == MergedKmers(sequences, 2)
    ensures Aggregate(sequences).kMerCount3 == ThreeMers(sequences)
    ensures Aggregate(sequences).kMerCount4 == MergedKmers(sequences, 4)
    ensures Aggregate(sequences).kMerCount5 == MergedKmers(sequences, 5)
  {
    AggregateTwoMers(sequences);
    AggregateFourMers(sequences);
    AggregateFiveMers(sequences);
    if sequences != [] {
      var init, last := sequences[..|sequences| - 1], sequences[|sequences| - 1];
      AggregateTwoMers(init);
      AbsorbThreeMers(Aggregate(init), |sequences| - 1, last);
    }
  }

  /** A round rebuilds the 3-mer table from the 2-mer table it has just merged. */
  lemma AbsorbThreeMers(before: Summary, index: int, sequence: string)
    ensures Absorb(before, index, sequence).kMerCount3 ==
              SequenceUtils.UpdateKmerCounts(SequenceUtils.UpdateKmerCounts(before.kMerCount2, KmerCounts(sequence, 2)),
                                             KmerCounts(sequence, 3))
  {
  }

  /** The records are `Records`: one per sequence, in input order. */
  lemma {:induction false} AggregateRecords(sequences: seq<string>)
    ensures Aggregate(sequences).dnaSequences == Records(sequences)
  {
    if sequences != [] {
      AggregateRecords(sequences[..|sequences| - 1]);
    }
  }

  /** After the aggregation the tables hold, key by key, the occurrences over
      all sequences, and the totals add up to the number of windows read. */
  lemma AggregateTables(sequences: seq<string>)
    ensures forall key :: Get(MergedKmers(sequences, 2), key) == Occurrences(sequences, 2, key)
    ensures forall key :: Get(MergedKmers(sequences, 4), key) == Occurrences(sequences, 4, key)
    ensures forall key :: Get(MergedKmers(sequences, 5), key) == Occurrences(sequences, 5, key)
    ensures SumValues(MergedKmers(sequences, 2)) == WindowTotal(sequences, 2)
    ensures SumValues(MergedKmers(sequences, 4)) == WindowTotal(sequences, 4)
    ensures SumValues(MergedKmers(sequences, 5)) == WindowTotal(sequences, 5)
  {
    MergedKmersKeywise(sequences, 2);
    MergedKmersKeywise(sequences, 4);
    MergedKmersKeywise(sequences, 5);
    MergedKmersTotal(sequences, 2);
    MergedKmersTotal(sequences, 4);
    MergedKmersTotal(sequences, 5);
  }

  /** The 3-mer table left by the aggregation counts, key by key, the 2-mers of
      all sequences plus the 3-mers of the last one. */
  lemma ThreeMersKeywise(sequences: seq<string>)
    requires sequences != []
    ensures forall key :: Get(ThreeMers(sequences), key) ==
              Occurrences(sequences, 2, key) + multiset(SequenceUtils.Windows(sequences[|sequences| - 1], 3))[key]
  {
    MergedKmersKeywise(sequences, 2);
    TallyCounts(SequenceUtils.Windows(sequences[|sequences| - 1], 3));
  }

  /** The four k-mer tables of the dataclass after one round: `counts[2]`,
      `counts[4]` and `counts[5]` merged into their own tables, and the
      3-mer table rebuilt as the new 2-mer table merged with `counts[3]`. */
  method MergeKmerTables(sequencesStats: SequenceStatistics, sequence: string)
    modifies sequencesStats
    ensures Snapshot(sequencesStats) == MergeTables(old(Snapshot(sequencesStats)), sequence)
  {
    var kMers2 := CountKmers(sequence, 2);
    var kMers3 := CountKmers(sequence, 3);
    var kMers4 := CountKmers(sequence, 4);
    var kMers5 := CountKmers(sequence, 5);
    sequencesStats.kMerCount2 := SequenceUtils.UpdateKmerCounts(sequencesStats.kMerCount2, kMers2);
    sequencesStats.kMerCount3 := SequenceUtils.UpdateKmerCounts(sequencesStats.kMerCount2, kMers3);
    sequencesStats.kMerCount4 := SequenceUtils.UpdateKmerCounts(sequencesStats.kMerCount4, kMers4);
    sequencesStats.kMerCount5 := SequenceUtils.UpdateKmerCounts(sequencesStats.kMerCount5, kMers5);
  }

  /** The body both drivers run for one sequence: count its nucleotides into
      the totals, merge its k-mer tables, append its record with id `index`. */
  method AbsorbSequence(sequencesStats: SequenceStatistics, index: int, sequence: string)
    modifies sequencesStats
    ensures Snapshot(sequencesStats) == Absorb(old(Snapshot(sequencesStats)), index, sequence)
  {
    var nucleotideCounts := SequenceUtils.CountNucleotides(sequence);
    var updated := UpdateNucleotideCounts(nucleotideCounts, sequencesStats);
    MergeKmerTables(sequencesStats, sequence);
    var dnaSequence := CreateDnaSequenceRecord(index, nucleotideCounts, sequence);
    sequencesStats.dnaSequences := sequencesStats.dnaSequences + [dnaSequence];
  }

  /** `calculate_dna_sequence_statistics` for one `(index, sequence)` pair: a
      fresh dataclass holding that sequence's nucleotide counts, its 2-, 4- and
      5-mer tables, as 3-mer table the merge of its 2-mers with its 3-mers
      (the source merges into `k_mer_count_2`), and its one record. */
  method CalculateDnaSequenceStatistics(index: int, sequence: string) returns (sequencesStats: SequenceStatistics)
    ensures fresh(sequencesStats)
    ensures Snapshot(sequencesStats) == Absorb(Defaults, index, sequence)
  {
    sequencesStats := new SequenceStatistics();
    AbsorbSequence(sequencesStats, index, sequence);
  }

  /** `calculate_dna_sequence_statistics2`: one dataclass for all sequences,
      one round per sequence in input order with ids `0 .. n-1`; the
      `Aggregate*` lemmas say what the fields then hold. */
  method CalculateDnaSequenceStatistics2(sequences: seq<string>) returns (sequencesStats: SequenceStatistics)
    ensures fresh(sequencesStats)
    ensures Snapshot(sequencesStats) == Aggregate(sequences)
  {
    sequencesStats := new SequenceStatistics();
    for index := 0 to |sequences|
      invariant fresh(sequencesStats)
      invariant Snapshot(sequencesStats) == Aggregate(sequences[..index])
    {
      AggregateStep(sequences, index);
      AbsorbSequence(sequencesStats, index, sequences[index]);
    }
    assert sequences[..|sequences|] == sequences;
  }
}
