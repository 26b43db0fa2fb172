/** The DNA sequence helpers of `src/sequence_utils.py`: validation and
    cleaning, motif scanning, reverse complements and the search for the longest
    self-reverse-complementary window, nucleotide and k-mer counting, and the
    merging of count tables. */
module SequenceUtils {
  import opened PyText
  import opened Counters
  import opened Sorting

  const GcIslandMotif: string := "CG"
  const TataBoxMotif: string := "TATA"
  const MinPalindromeLength: int := 20
  const Nucleotides: set<char> := {'A', 'T', 'G', 'C'}

  /** A count table of k-mers (a Python dict from k-mer to count). */
  type KmerTable = map<string, int>

  /** The `{"palindrome_seq": ..., "palindrome_length": ...}` dictionary. */
  datatype Palindrome = Palindrome(palindromeSeq: string, palindromeLength: int)

  const NoPalindrome: Palindrome := Palindrome("", 0)

  /** One per-sequence record (`DNASequence`). */
  datatype DnaSequence = DnaSequence(
    id: int,
    adenineCount: int,
    thymineCount: int,
    guanineCount: int,
    cytosineCount: int,
    palindrome: Palindrome,
    motifs: map<string, seq<int>>,
    kMers: map<string, KmerTable>)

  // ---------------------------------------------------------------------------
  // Validation and cleaning

  /** `all(letter in letter_list for letter in sequence)`. */
  predicate AllIn(s: string, letters: set<char>) {
    forall i :: 0 <= i < |s| ==> s[i] in letters
  }

  /** `validate_sequence`: accepts a sequence longer than `minLength` whose
      characters all lie in `letterList` (case-sensitive). The list of sequences
      already seen is created afresh on every call, so it is empty whenever it is
      consulted and never rejects a repeat. */
  function ValidateSequence(sequence: string, letterList: set<char>, minLength: int := 2): (valid: bool)
    ensures valid <==> |sequence| > minLength && AllIn(sequence, letterList)
  {
    var seenList: seq<string> := [];
    if |sequence| > minLength && AllIn(sequence, letterList) then sequence !in seenList
    else false
  }

  /** The alphabet `clean_sequence_data` checks against: A, T, G, C when no
      letter list is given, otherwise the set of the given letters. */
  function LetterSet(letterList: Option<seq<char>>): (letters: set<char>)
    ensures letterList.None? ==> letters == Nucleotides
    ensures letterList.Some? ==> forall c :: c in letters <==> c in letterList.value
  {
    match letterList
    case None => Nucleotides
    case Some(l) => set c | c in l
  }

  /** The sequences longer than `minLength` made only of `letters`, in input
      order and with repeats. */
  function Kept(sequences: seq<string>, letters: set<char>, minLength: int): (kept: seq<string>)
    ensures |kept| <= |sequences|
  {
    if sequences == [] then []
    else
      var before, last := Kept(sequences[..|sequences| - 1], letters, minLength), sequences[|sequences| - 1];
      if |last| > minLength && AllIn(last, letters) then before + [last] else before
  }

  /** `Kept` keeps exactly the long enough sequences of allowed letters. */
  lemma {:induction false} KeptMembers(sequences: seq<string>, letters: set<char>, minLength: int)
    ensures forall s :: s in Kept(sequences, letters, minLength) <==>
              s in sequences && |s| > minLength && AllIn(s, letters)
  {
    if sequences != [] {
      var init := sequences[..|sequences| - 1];
      assert sequences == init + [sequences[|sequences| - 1]];
      KeptMembers(init, letters, minLength);
    }
  }

  /** `Kept` keeps the order the sequences first appear in. */
  lemma {:induction false} KeptOrder(sequences: seq<string>, letters: set<char>, minLength: int, x: string, y: string)
    requires x in Kept(sequences, letters, minLength) && y in Kept(sequences, letters, minLength)
    requires IndexOf(Kept(sequences, letters, minLength), x) < IndexOf(Kept(sequences, letters, minLength), y)
    ensures x in sequences && y in sequences && IndexOf(sequences, x) < IndexOf(sequences, y)
  {
    KeptMembers(sequences, letters, minLength);
    var init, last := sequences[..|sequences| - 1], sequences[|sequences| - 1];
    var before, kept := Kept(init, letters, minLength), Kept(sequences, letters, minLength);
    assert sequences == init + [last];
    KeptMembers(init, letters, minLength);
    if kept == before {
      KeptOrder(init, letters, minLength, x, y);
      IndexOfAppend(init, last, x);
      IndexOfAppend(init, last, y);
    } else {
      assert kept == before + [last];
      if y in before {
        IndexOfAppend(before, last, y);
        var i := IndexOf(kept, x);
        assert before[i] == x;
        IndexOfAppend(before, last, x);
        KeptOrder(init, letters, minLength, x, y);
        IndexOfAppend(init, last, x);
        IndexOfAppend(init, last, y);
      } else {
        assert y == last && y !in init;
        assert IndexOf(sequences, y) == |init|;
        if x in before {
          IndexOfAppend(init, last, x);
        }
      }
    }
  }

  /** One more sequence is kept exactly when it passes the filter. */
  lemma KeptStep(sequences: seq<string>, letters: set<char>, minLength: int, i: nat)
    requires i < |sequences|
    ensures Kept(sequences[..i + 1], letters, minLength)
         == if |sequences[i]| > minLength && AllIn(sequences[i], letters)
            then Kept(sequences[..i], letters, minLength) + [sequences[i]]
            else Kept(sequences[..i], letters, minLength)
  {
    assert sequences[..i + 1][..i] == sequences[..i];
  }

  /** `clean_sequence_data`: keeps, in input order, the first occurrence of
      every sequence longer than `minLength` made only of allowed letters. */
  method CleanSequenceData(sequences: seq<string>, letterList: Option<seq<char>> := None, minLength: int := 2)
    returns (cleanList: seq<string>)
    ensures cleanList == Distinct(Kept(sequences, LetterSet(letterList), minLength))
    ensures forall s :: s in cleanList <==>
              s in sequences && |s| > minLength && AllIn(s, LetterSet(letterList))
    ensures forall a, b :: 0 <= a < b < |cleanList| ==> cleanList[a] != cleanList[b]
    ensures forall a, b :: 0 <= a < b < |cleanList| ==>
              IndexOf(sequences, cleanList[a]) < IndexOf(sequences, cleanList[b])
  {
    var letters := LetterSet(letterList);
    cleanList := [];
    for i := 0 to |sequences|
      invariant cleanList == Distinct(Kept(sequences[..i], letters, minLength))
    {
      var sequence := sequences[i];
      KeptStep(sequences, letters, minLength, i);
      DistinctKeys(Kept(sequences[..i], letters, minLength));
      if |sequence| > minLength && AllIn(sequence, letters) {
        if sequence !in cleanList {
          cleanList := cleanList + [sequence];
        }
      }
    }
    assert sequences[..|sequences|] == sequences;
    CleanedProperties(sequences, letters, minLength);
  }

  /** The cleaned list holds each accepted sequence once, in the order of
      first appearance. */
  lemma CleanedProperties(sequences: seq<string>, letters: set<char>, minLength: int)
    ensures forall s :: s in Distinct(Kept(sequences, letters, minLength)) <==>
              s in sequences && |s| > minLength && AllIn(s, letters)
    ensures forall a, b :: 0 <= a < b < |Distinct(Kept(sequences, letters, minLength))| ==>
              Distinct(Kept(sequences, letters, minLength))[a] != Distinct(Kept(sequences, letters, minLength))[b]
    ensures forall a, b :: 0 <= a < b < |Distinct(Kept(sequences, letters, minLength))| ==>
              IndexOf(sequences, Distinct(Kept(sequences, letters, minLength))[a])
              < IndexOf(sequences, Distinct(Kept(sequences, letters, minLength))[b])
  {
    var kept := Kept(sequences, letters, minLength);
    var cleaned := Distinct(kept);
    KeptMembers(sequences, letters, minLength);
    DistinctKeys(kept);
    DistinctOrdered(kept);
    forall a, b | 0 <= a < b < |cleaned| ensures IndexOf(sequences, cleaned[a]) < IndexOf(sequences, cleaned[b]) {
      KeptOrder(sequences, letters, minLength, cleaned[a], cleaned[b]);
    }
  }

  // ---------------------------------------------------------------------------
  // Motif scanning

  /** The motif occurs in full at position `i`. */
  predicate MatchAt(sequence: string, motif: string, i: int) {
    0 <= i && i + |motif| <= |sequence| && sequence[i..i + |motif|] == motif
  }

  /** Comparing the Python slice `sequence[i:i+len(motif)]` with the motif is
      the same as asking for a full occurrence at `i`. */
  lemma SliceMatch(sequence: string, motif: string, i: nat)
    requires i <= |sequence|
    ensures Slice(sequence, i, i + |motif|) == motif <==> MatchAt(sequence, motif, i)
  {
    if i + |motif| > |sequence| {
      assert |Slice(sequence, i, i + |motif|)| < |motif|;
    }
  }

  /** The list comprehension of `find_motif`, from position `i` on; its test
      `sequence[i:i+len(motif)] == motif` is `MatchAt` (`SliceMatch`). */
  function MotifPositionsFrom(sequence: string, motif: string, i: nat): seq<int>
    decreases |sequence| - i
  {
    if i >= |sequence| - 1 then []
    else (if MatchAt(sequence, motif, i) then [i] else []) + MotifPositionsFrom(sequence, motif, i + 1)
  }

  /** From position `i` on, the comprehension lists only starts in
      `[i, len(sequence) - 1)` of full occurrences. */
  lemma {:induction false} MotifPositionsSound(sequence: string, motif: string, i: nat, j: nat)
    requires j < |MotifPositionsFrom(sequence, motif, i)|
    ensures i <= MotifPositionsFrom(sequence, motif, i)[j] < |sequence| - 1
    ensures MatchAt(sequence, motif, MotifPositionsFrom(sequence, motif, i)[j])
    decreases |sequence| - i
  {
    var rest := MotifPositionsFrom(sequence, motif, i + 1);
    if MatchAt(sequence, motif, i) {
      if j > 0 {
        MotifPositionsSound(sequence, motif, i + 1, j - 1);
        assert MotifPositionsFrom(sequence, motif, i)[j] == rest[j - 1];
      }
    } else {
      MotifPositionsSound(sequence, motif, i + 1, j);
    }
  }

  /** The comprehension lists the starts in increasing order. */
  lemma {:induction false} MotifPositionsIncreasing(sequence: string, motif: string, i: nat, j: nat, l: nat)
    requires j < l < |MotifPositionsFrom(sequence, motif, i)|
    ensures MotifPositionsFrom(sequence, motif, i)[j] < MotifPositionsFrom(sequence, motif, i)[l]
    decreases |sequence| - i
  {
    var rest := MotifPositionsFrom(sequence, motif, i + 1);
    if MatchAt(sequence, motif, i) {
      assert MotifPositionsFrom(sequence, motif, i)[l] == rest[l - 1];
      if j > 0 {
        MotifPositionsIncreasing(sequence, motif, i + 1, j - 1, l - 1);
        assert MotifPositionsFrom(sequence, motif, i)[j] == rest[j - 1];
      } else {
        MotifPositionsSound(sequence, motif, i + 1, l - 1);
      }
    } else {
      MotifPositionsIncreasing(sequence, motif, i + 1, j, l);
    }
  }

  /** From position `i` on, every start below `len(sequence) - 1` of a full
      occurrence is listed. */
  lemma {:induction false} MotifPositionsComplete(sequence: string, motif: string, i: nat, p: int)
    requires i <= p < |sequence| - 1 && MatchAt(sequence, motif, p)
    ensures p in MotifPositionsFrom(sequence, motif, i)
    decreases |sequence| - i
  {
    if p > i {
      MotifPositionsComplete(sequence, motif, i + 1, p);
    }
  }

  /** `find_motif`: every start `i` below `len(sequence) - 1` where the motif
      occurs, overlapping occurrences included. */
  function FindMotif(sequence: string, motif: string): seq<int> {
    MotifPositionsFrom(sequence, motif, 0)
  }

  /** The positions `find_motif` returns are strictly increasing, and they
      are exactly the starts of full occurrences below `len(sequence) - 1`:
      the last start position is never tried. */
  lemma FindMotifPositions(sequence: string, motif: string)
    ensures forall j :: 0 <= j < |FindMotif(sequence, motif)| ==>
              0 <= FindMotif(sequence, motif)[j] < |sequence| - 1 && MatchAt(sequence, motif, FindMotif(sequence, motif)[j])
    ensures forall j, l :: 0 <= j < l < |FindMotif(sequence, motif)| ==> FindMotif(sequence, motif)[j] < FindMotif(sequence, motif)[l]
    ensures forall p :: 0 <= p < |sequence| - 1 && MatchAt(sequence, motif, p) ==> p in FindMotif(sequence, motif)
  {
    var positions := FindMotif(sequence, motif);
    forall j | 0 <= j < |positions|
      ensures 0 <= positions[j] < |sequence| - 1 && MatchAt(sequence, motif, positions[j])
    {
      MotifPositionsSound(sequence, motif, 0, j);
    }
    forall j, l | 0 <= j < l < |positions| ensures positions[j] < positions[l] {
      MotifPositionsIncreasing(sequence, motif, 0, j, l);
    }
    forall p | 0 <= p < |sequence| - 1 && MatchAt(sequence, motif, p) ensures p in positions {
      MotifPositionsComplete(sequence, motif, 0, p);
    }
  }

  // ---------------------------------------------------------------------------
  // Reverse complement and the self-reverse-complementary palindrome search

  /** The Watson-Crick partner of a base. */
  function Complement(base: char): (partner: char)
    requires base in Nucleotides
    ensures partner in Nucleotides && partner != base
  {
    match base
    case 'A' => 'T'
    case 'T' => 'A'
    case 'C' => 'G'
    case 'G' => 'C'
  }

  /** Complementing twice gives the base back. */
  lemma ComplementInvolution(base: char)
    requires base in Nucleotides
    ensures Complement(Complement(base)) == base
  {
  }

  /** `reverse_complement`: the complement of every base, in reverse order. */
  function ReverseComplement(s: string): (r: string)
    requires AllIn(s, Nucleotides)
    ensures |r| == |s| && AllIn(r, Nucleotides)
  {
    seq(|s|, j requires 0 <= j < |s| => Complement(s[|s| - 1 - j]))
  }

  /** Position `j` of the reverse complement holds the complement of the base mirrored at `|s| - 1 - j`. */
  lemma ReverseComplementAt(s: string, j: int)
    requires AllIn(s, Nucleotides) && 0 <= j < |s|
    ensures ReverseComplement(s)[j] == Complement(s[|s| - 1 - j])
  {
  }

  /** Taking the reverse complement twice gives the sequence back. */
  lemma ReverseComplementInvolution(s: string)
    requires AllIn(s, Nucleotides)
    ensures ReverseComplement(ReverseComplement(s)) == s
  {
    var r := ReverseComplement(s);
    var rr := ReverseComplement(r);
    forall j | 0 <= j < |s| ensures rr[j] == s[j] {
      ReverseComplementAt(r, j);
      ReverseComplementAt(s, |s| - 1 - j);
      assert |s| - 1 - (|s| - 1 - j) == j;
      ComplementInvolution(s[j]);
    }
  }

  /** `precompute_reverse_complement`: the reverse complement of the whole
      sequence, from which the search reads every window's reverse complement. */
  function PrecomputeReverseComplement(sequence: string): (revComplement: string)
    requires AllIn(sequence, Nucleotides)
    ensures AllIn(revComplement, Nucleotides) && ReverseComplement(revComplement) == sequence
  {
    ReverseComplementInvolution(sequence);
    ReverseComplement(sequence)
  }

  /** The slice of the whole reverse complement that mirrors window `[i, i+len)`
      is that window's own reverse complement. */
  lemma MirroredSlice(sequence: string, i: nat, len: nat)
    requires AllIn(sequence, Nucleotides) && i + len <= |sequence|
    ensures var n := |sequence|;
            ReverseComplement(sequence)[n - i - len..n - i] == ReverseComplement(sequence[i..i + len])
  {
    var n := |sequence|;
    var w := sequence[i..i + len];
    assert AllIn(w, Nucleotides);
    var lhs, rhs := ReverseComplement(sequence)[n - i - len..n - i], ReverseComplement(w);
    forall j | 0 <= j < len ensures lhs[j] == rhs[j] {
      assert lhs[j] == ReverseComplement(sequence)[n - i - len + j];
      ReverseComplementAt(sequence, n - i - len + j);
      ReverseComplementAt(w, j);
      assert n - 1 - (n - i - len + j) == i + len - 1 - j;
      assert w[len - 1 - j] == sequence[i + len - 1 - j];
    }
  }

  /** A window that reads the same as its own reverse complement. */
  predicate IsSelfReverseComplement(w: string) {
    AllIn(w, Nucleotides) && w == ReverseComplement(w)
  }

  /** In a self-reverse-complementary window each base is the complement of
      its mirror image, so a base and its mirror image differ. */
  lemma MirrorDiffers(w: string, k: nat)
    requires IsSelfReverseComplement(w) && k < |w|
    ensures w[k] != w[|w| - 1 - k]
  {
    ReverseComplementAt(w, k);
  }

  /** No base is its own complement, so a self-reverse-complementary window has even length. */
  lemma SelfReverseComplementIsEven(w: string)
    requires IsSelfReverseComplement(w)
    ensures |w| % 2 == 0
  {
    if |w| % 2 == 1 {
      var k := |w| / 2;
      assert |w| - 1 - k == k;
      MirrorDiffers(w, k);
    }
  }

  /** The window of length `len` starting at `start` is its own reverse complement. */
  predicate SelfReverseComplementAt(sequence: string, start: int, len: int) {
    0 <= start && 0 <= len && start + len <= |sequence|
    && IsSelfReverseComplement(sequence[start..start + len])
  }

  /** The smallest start at or after `from` of a self-reverse-complementary window of length `len`. */
  function FirstSelfReverseComplement(sequence: string, len: nat, from: nat): (start: Option<nat>)
    ensures start.Some? ==> from <= start.value && start.value + len <= |sequence|
    decreases |sequence| - from
  {
    if from + len > |sequence| then None
    else if SelfReverseComplementAt(sequence, from, len) then Some(from)
    else FirstSelfReverseComplement(sequence, len, from + 1)
  }

  /** The scan finds a start exactly when there is one, and then the smallest. */
  lemma {:induction false} FirstSelfReverseComplementSpec(sequence: string, len: nat, from: nat)
    ensures FirstSelfReverseComplement(sequence, len, from).Some? ==>
              from <= FirstSelfReverseComplement(sequence, len, from).value
              && SelfReverseComplementAt(sequence, FirstSelfReverseComplement(sequence, len, from).value, len)
              && forall j :: from <= j < FirstSelfReverseComplement(sequence, len, from).value ==>
                   !SelfReverseComplementAt(sequence, j, len)
    ensures FirstSelfReverseComplement(sequence, len, from).None? ==>
              forall j :: from <= j ==> !SelfReverseComplementAt(sequence, j, len)
    decreases |sequence| - from
  {
    if from + len <= |sequence| && !SelfReverseComplementAt(sequence, from, len) {
      FirstSelfReverseComplementSpec(sequence, len, from + 1);
    }
  }

  /** `p` is the window at `start`, it is its own reverse complement, and no
      window of the same length further left is. */
  predicate LeftmostAt(sequence: string, p: Palindrome, start: int) {
    && SelfReverseComplementAt(sequence, start, p.palindromeLength)
    && p.palindromeSeq == sequence[start..start + p.palindromeLength]
    && forall j :: 0 <= j < start ==> !SelfReverseComplementAt(sequence, j, p.palindromeLength)
  }

  /** Searching the lengths from `len` down to `lowest`: the longest
      self-reverse-complementary window, and among those the leftmost. */
  function LongestSelfReverseComplement(sequence: string, len: int, lowest: int): (p: Palindrome)
    requires lowest >= 1 && len <= |sequence|
    ensures p.palindromeLength == |p.palindromeSeq| <= Max(len, 0)
    ensures p == NoPalindrome || p.palindromeLength >= lowest
    decreases len - lowest
  {
    if len < lowest then NoPalindrome
    else match FirstSelfReverseComplement(sequence, len, 0)
      case Some(i) => Palindrome(sequence[i..i + len], len)
      case None => LongestSelfReverseComplement(sequence, len - 1, lowest)
  }

  /** What the search finds is the leftmost self-reverse-complementary
      window of its length. */
  lemma {:induction false} LongestSelfReverseComplementFound(sequence: string, len: int, lowest: int) returns (i: int)
    requires lowest >= 1 && len <= |sequence|
    requires LongestSelfReverseComplement(sequence, len, lowest) != NoPalindrome
    ensures LeftmostAt(sequence, LongestSelfReverseComplement(sequence, len, lowest), i)
    decreases len - lowest
  {
    FirstSelfReverseComplementSpec(sequence, len, 0);
    match FirstSelfReverseComplement(sequence, len, 0)
    case Some(start) =>
      i := start;
      var p := Palindrome(sequence[i..i + len], len);
      assert LongestSelfReverseComplement(sequence, len, lowest) == p;
      assert LeftmostAt(sequence, p, i);
    case None =>
      i := LongestSelfReverseComplementFound(sequence, len - 1, lowest);
  }

  /** No window longer than what the search finds, of a length between
      `lowest` and `len`, is its own reverse complement. */
  lemma {:induction false} LongestSelfReverseComplementMaximal(sequence: string, len: int, lowest: int, l: int, j: int)
    requires lowest >= 1 && len <= |sequence|
    requires LongestSelfReverseComplement(sequence, len, lowest).palindromeLength < l <= len && lowest <= l
    ensures !SelfReverseComplementAt(sequence, j, l)
    decreases len - lowest
  {
    FirstSelfReverseComplementSpec(sequence, len, 0);
    match FirstSelfReverseComplement(sequence, len, 0)
    case Some(start) =>
    case None =>
      if l < len {
        LongestSelfReverseComplementMaximal(sequence, len - 1, lowest, l, j);
      }
  }

  /** The search finds nothing exactly when no window of a length between
      `lowest` and `len` is its own reverse complement; otherwise it finds the
      leftmost such window of the greatest such length. */
  lemma LongestSelfReverseComplementProperties(sequence: string, len: int, lowest: int)
    requires lowest >= 1 && len <= |sequence|
    ensures LongestSelfReverseComplement(sequence, len, lowest) == NoPalindrome <==>
              forall l, j :: lowest <= l <= len ==> !SelfReverseComplementAt(sequence, j, l)
    ensures LongestSelfReverseComplement(sequence, len, lowest) != NoPalindrome ==>
              exists i :: LeftmostAt(sequence, LongestSelfReverseComplement(sequence, len, lowest), i)
    ensures forall l, j :: LongestSelfReverseComplement(sequence, len, lowest).palindromeLength < l <= len && lowest <= l ==>
              !SelfReverseComplementAt(sequence, j, l)
  {
    var p := LongestSelfReverseComplement(sequence, len, lowest);
    forall l, j | p.palindromeLength < l <= len && lowest <= l ensures !SelfReverseComplementAt(sequence, j, l) {
      LongestSelfReverseComplementMaximal(sequence, len, lowest, l, j);
    }
    if p != NoPalindrome {
      var i := LongestSelfReverseComplementFound(sequence, len, lowest);
    }
  }

  /** What `find_longest_dna_palindrome` returns, as a search from the longest length down. */
  function DnaPalindrome(sequence: string, minLength: int): Palindrome {
    LongestSelfReverseComplement(sequence, |sequence|, Max(minLength, 1))
  }

  /** The result of the search is `("", 0)` exactly when no window of at least
      `minLength` (and at least one) characters is its own reverse complement;
      otherwise it is the leftmost such window of the greatest length. */
  lemma DnaPalindromeProperties(sequence: string, minLength: int)
    ensures var p := DnaPalindrome(sequence, minLength);
            && p.palindromeLength == |p.palindromeSeq|
            && (p == NoPalindrome <==>
                  forall l, j :: minLength <= l && 1 <= l ==> !SelfReverseComplementAt(sequence, j, l))
            && (p != NoPalindrome ==>
                  p.palindromeLength >= minLength && exists i :: LeftmostAt(sequence, p, i))
            && (forall l, j :: p.palindromeLength < l && minLength <= l ==>
                  !SelfReverseComplementAt(sequence, j, l))
  {
    LongestSelfReverseComplementProperties(sequence, |sequence|, Max(minLength, 1));
  }

  /** The best window after the scan of length `len` has tried the starts
      below `i`: the leftmost self-reverse-complementary window of that length
      once it has been passed, otherwise the best of the shorter lengths. */
  function AfterScan(sequence: string, len: nat, i: int, lowest: int): Palindrome
    requires 1 <= lowest <= len <= |sequence|
  {
    match FirstSelfReverseComplement(sequence, len, 0)
    case Some(j) => if j < i then Palindrome(sequence[j..j + len], len)
                    else LongestSelfReverseComplement(sequence, len - 1, lowest)
    case None => LongestSelfReverseComplement(sequence, len - 1, lowest)
  }

  /** One start of the scan: the test `subseq == rev_subseq and
      len(subseq) > longest["palindrome_length"]` moves the scan from start
      `i` to start `i + 1`. */
  lemma ScanStep(sequence: string, revComplement: string, len: nat, i: nat, lowest: int)
    requires AllIn(sequence, Nucleotides) && revComplement == ReverseComplement(sequence)
    requires 1 <= lowest <= len && i + len <= |sequence|
    ensures (if Slice(sequence, i, i + len) == Slice(revComplement, |sequence| - i - len, |sequence| - i)
                && |Slice(sequence, i, i + len)| > AfterScan(sequence, len, i, lowest).palindromeLength
             then Palindrome(Slice(sequence, i, i + len), |Slice(sequence, i, i + len)|)
             else AfterScan(sequence, len, i, lowest))
            == AfterScan(sequence, len, i + 1, lowest)
  {
    var n := |sequence|;
    var w := sequence[i..i + len];
    assert Slice(sequence, i, i + len) == w;
    assert Slice(revComplement, n - i - len, n - i) == revComplement[n - i - len..n - i];
    MirroredSlice(sequence, i, len);
    assert AllIn(w, Nucleotides);
    assert w == ReverseComplement(w) <==> SelfReverseComplementAt(sequence, i, len);
    FirstSelfReverseComplementSpec(sequence, len, 0);
    match FirstSelfReverseComplement(sequence, len, 0)
    case Some(j) =>
      if j == i {
        assert |LongestSelfReverseComplement(sequence, len - 1, lowest).palindromeSeq| < len;
      }
    case None =>
  }

  /** Once every start has been tried, the scan of length `len` has found the
      best window of length at most `len`. */
  lemma ScanComplete(sequence: string, len: nat, lowest: int)
    requires 1 <= lowest <= len <= |sequence|
    ensures AfterScan(sequence, len, |sequence| - len + 1, lowest) == LongestSelfReverseComplement(sequence, len, lowest)
  {
  }

  /** A window of non-positive length in the search loop never matches a
      non-empty reverse-complement slice. */
  lemma NonPositiveLengthNeverMatches(sequence: string, revComplement: string, i: nat, len: int)
    requires |revComplement| == |sequence| && len <= 0
    ensures var n := |sequence|;
            Slice(sequence, i, i + len) == Slice(revComplement, n - i - len, n - i) ==>
              Slice(sequence, i, i + len) == []
  {
  }

  /** The inner loop of `find_longest_dna_palindrome`: every start of a
      window of length `length`, from the left. */
  method ScanStarts(sequence: string, revComplement: string, length: int, ghost lowest: int, current: Palindrome)
    returns (longest: Palindrome)
    requires AllIn(sequence, Nucleotides) && revComplement == ReverseComplement(sequence)
    requires length <= |sequence| && 1 <= lowest
    requires length <= 0 ==> current == NoPalindrome
    requires length >= 1 ==> lowest <= length && current == AfterScan(sequence, length, 0, lowest)
    ensures length <= 0 ==> longest == NoPalindrome
    ensures length >= 1 ==> longest == AfterScan(sequence, length, |sequence| - length + 1, lowest)
  {
    longest := current;
    var seqLength := |sequence|;
    var i := 0;
    while i < seqLength - length + 1
      invariant 0 <= i <= seqLength - length + 1
      invariant length <= 0 ==> longest == NoPalindrome
      invariant length >= 1 ==> longest == AfterScan(sequence, length, i, lowest)
    {
      var subseq := Slice(sequence, i, i + length);
      var revSubseq := Slice(revComplement, seqLength - i - length, seqLength - i);
      if length >= 1 {
        ScanStep(sequence, revComplement, length, i, lowest);
      } else {
        NonPositiveLengthNeverMatches(sequence, revComplement, i, length);
      }
      if subseq == revSubseq && |subseq| > longest.palindromeLength {
        longest := Palindrome(subseq, |subseq|);
      }
      i := i + 1;
    }
  }

  /** `find_longest_dna_palindrome`: tries every length from `minLength` up and
      every start from the left, keeping a window that is its own reverse
      complement when it is strictly longer than the best so far. */
  method FindLongestDnaPalindrome(sequence: string, minLength: int := 20) returns (longest: Palindrome)
    requires AllIn(sequence, Nucleotides)
    ensures longest == DnaPalindrome(sequence, minLength)
  {
    longest := Palindrome("", 0);
    var seqLength := |sequence|;
    var revComplement := PrecomputeReverseComplement(sequence);
    ReverseComplementInvolution(sequence);
    ghost var lowest := Max(minLength, 1);
    var length := minLength;
    while length < seqLength + 1
      invariant minLength <= length && (length <= seqLength + 1 || length == minLength)
      invariant longest == LongestSelfReverseComplement(sequence, if length - 1 < seqLength then length - 1 else seqLength, lowest)
    {
      longest := ScanStarts(sequence, revComplement, length, lowest, longest);
      if length >= 1 {
        ScanComplete(sequence, length, lowest);
      }
      length := length + 1;
    }
  }

  // ---------------------------------------------------------------------------
  // Nucleotide counting and the per-sequence record

  /** `sequence.lower().strip()`. */
  function Normalize(sequence: string): string {
    Strip(Lower(sequence))
  }

  /** `count_nucleotides`: a `defaultdict(int)` tally of the lower-cased,
      stripped sequence, so an absent letter reads as 0. */
  function CountNucleotides(sequence: string): map<char, int> {
    Tally(Normalize(sequence))
  }

  /** The sum over `sequences` of the count of nucleotide `c`. */
  function NucleotideTotal(sequences: seq<string>, c: char): int {
    if sequences == [] then 0
    else NucleotideTotal(sequences[..|sequences| - 1], c) + Get(CountNucleotides(sequences[|sequences| - 1]), c)
  }

  /** The counts hold exactly the letters of the stripped, lower-cased
      sequence, each with its number of occurrences. */
  lemma CountNucleotidesCounts(sequence: string)
    ensures forall c :: c in CountNucleotides(sequence) <==> c in Normalize(sequence)
    ensures forall c :: Get(CountNucleotides(sequence), c) == multiset(Normalize(sequence))[c]
  {
    TallyCounts(Normalize(sequence));
  }

  /** The nucleotide counts add up to the length of the stripped sequence. */
  lemma CountNucleotidesSum(sequence: string)
    ensures SumValues(CountNucleotides(sequence)) == |Normalize(sequence)|
  {
    SumTally(Normalize(sequence));
  }

  /** The statistics document whose `meta_data` dictionary holds the running nucleotide totals. */
  class SequenceStatistics {
    var metaData: map<string, int>

    constructor (metaData: map<string, int>)
      ensures this.metaData == metaData
    {
      this.metaData := metaData;
    }
  }

  /** The four `meta_data` totals that `update_nucleotide_counts` adds to. */
  predicate HasNucleotideTotals(metaData: map<string, int>) {
    "adenine_count" in metaData && "thymine_count" in metaData
    && "guanine_count" in metaData && "cytosine_count" in metaData
  }

  /** `update_nucleotide_counts`: adds the `a`, `t`, `g`, `c` counts (0 when
      absent) to the four totals in place and returns the same document. The
      totals must exist, since `+=` on a missing key raises. */
  method UpdateNucleotideCounts(nucleotideCounts: map<char, int>, sequenceStats: SequenceStatistics)
    returns (updated: SequenceStatistics)
    requires HasNucleotideTotals(sequenceStats.metaData)
    modifies sequenceStats
    ensures updated == sequenceStats
    ensures HasNucleotideTotals(sequenceStats.metaData)
    ensures sequenceStats.metaData.Keys == old(sequenceStats.metaData.Keys)
    ensures sequenceStats.metaData["adenine_count"] == old(sequenceStats.metaData["adenine_count"]) + Get(nucleotideCounts, 'a')
    ensures sequenceStats.metaData["thymine_count"] == old(sequenceStats.metaData["thymine_count"]) + Get(nucleotideCounts, 't')
    ensures sequenceStats.metaData["guanine_count"] == old(sequenceStats.metaData["guanine_count"]) + Get(nucleotideCounts, 'g')
    ensures sequenceStats.metaData["cytosine_count"] == old(sequenceStats.metaData["cytosine_count"]) + Get(nucleotideCounts, 'c')
    ensures forall k :: k in old(sequenceStats.metaData) && !(k in {"adenine_count", "thymine_count", "guanine_count", "cytosine_count"}) ==>
              sequenceStats.metaData[k] == old(sequenceStats.metaData[k])
  {
    var m := sequenceStats.metaData;
    m := m["adenine_count" := m["adenine_count"] + Get(nucleotideCounts, 'a')];
    m := m["thymine_count" := m["thymine_count"] + Get(nucleotideCounts, 't')];
    m := m["guanine_count" := m["guanine_count"] + Get(nucleotideCounts, 'g')];
    m := m["cytosine_count" := m["cytosine_count"] + Get(nucleotideCounts, 'c')];
    sequenceStats.metaData := m;
    updated := sequenceStats;
  }

  /** `create_dna_sequence_record`: the four counts copied (a `defaultdict`
      reads 0 for an absent letter), the longest self-reverse-complementary
      window, the CpG-island and TATA-box position lists of `find_motif`
      (increasing, one entry per occurrence start), and the k-mer tables
      passed through. */
  function CreateDnaSequenceRecord(id: int, nucleotideCounts: map<char, int>, sequence: string,
                                   minLength: int, kMers: map<string, KmerTable>): (record: DnaSequence)
    requires AllIn(sequence, Nucleotides)
    ensures record.id == id && record.kMers == kMers
    ensures record.adenineCount == Get(nucleotideCounts, 'a') && record.thymineCount == Get(nucleotideCounts, 't')
    ensures record.guanineCount == Get(nucleotideCounts, 'g') && record.cytosineCount == Get(nucleotideCounts, 'c')
    ensures record.motifs.Keys == {"cpg_islands", "tata_boxes"}
    ensures forall p :: p in record.motifs["cpg_islands"] <==> 0 <= p < |sequence| - 1 && MatchAt(sequence, GcIslandMotif, p)
    ensures forall p :: p in record.motifs["tata_boxes"] <==> 0 <= p < |sequence| - 1 && MatchAt(sequence, TataBoxMotif, p)
    ensures record.motifs["cpg_islands"] == FindMotif(sequence, GcIslandMotif)
    ensures record.motifs["tata_boxes"] == FindMotif(sequence, TataBoxMotif)
    ensures forall j, l :: 0 <= j < l < |record.motifs["cpg_islands"]| ==> record.motifs["cpg_islands"][j] < record.motifs["cpg_islands"][l]
    ensures forall j, l :: 0 <= j < l < |record.motifs["tata_boxes"]| ==> record.motifs["tata_boxes"][j] < record.motifs["tata_boxes"][l]
    ensures record.palindrome == DnaPalindrome(sequence, minLength)
  {
    var longestPalindrome := DnaPalindrome(sequence, minLength);
    var cpgIslands := FindMotif(sequence, GcIslandMotif);
    var tataBoxes := FindMotif(sequence, TataBoxMotif);
    FindMotifPositions(sequence, GcIslandMotif);
    FindMotifPositions(sequence, TataBoxMotif);
    DnaSequence(
      id,
      Get(nucleotideCounts, 'a'),
      Get(nucleotideCounts, 't'),
      Get(nucleotideCounts, 'g'),
      Get(nucleotideCounts, 'c'),
      longestPalindrome,
      map["cpg_islands" := cpgIslands, "tata_boxes" := tataBoxes],
      kMers)
  }

  // ---------------------------------------------------------------------------
  // k-mer counting and merging

  /** The keys the counting loop reads: `sequence[i:i+k]` for every index `i`
      of `sequence[:-(k-1)]`. */
  function Windows(sequence: string, k: int): (windows: seq<string>)
    ensures |windows| == |Slice(sequence, 0, 1 - k)|
  {
    seq(|Slice(sequence, 0, 1 - k)|, i => Slice(sequence, i, i + k))
  }

  /** For `k >= 2` the loop reads exactly the `len - k + 1` overlapping windows
      of length `k`; for `k == 1` the slice `sequence[:-0]` is empty and so is
      the list of windows. */
  lemma WindowsShape(sequence: string, k: int)
    ensures k >= 2 ==> |Windows(sequence, k)| == Max(0, |sequence| - k + 1)
    ensures k >= 2 ==> forall i :: 0 <= i < |Windows(sequence, k)| ==>
              Windows(sequence, k)[i] == sequence[i..i + k]
    ensures k == 1 ==> Windows(sequence, k) == []
  {
    if k >= 2 {
      forall i | 0 <= i < |Windows(sequence, k)| ensures Windows(sequence, k)[i] == sequence[i..i + k] {
        assert i + k <= |sequence|;
      }
    }
  }

  /** The (key, count) pairs of a table, in the key order given. */
  function Items(counts: map<string, int>, keys: seq<string>): (items: seq<(string, int)>)
    requires forall key :: key in keys ==> key in counts
    ensures |items| == |keys|
    ensures forall j :: 0 <= j < |keys| ==> items[j] == (keys[j], counts[keys[j]])
  {
    seq(|keys|, j requires 0 <= j < |keys| => (keys[j], counts[keys[j]]))
  }

  /** The keys of a list of pairs. */
  function PairKeys(pairs: seq<(string, int)>): (keys: seq<string>)
    ensures |keys| == |pairs| && forall j :: 0 <= j < |pairs| ==> keys[j] == pairs[j].0
  {
    seq(|pairs|, j requires 0 <= j < |pairs| => pairs[j].0)
  }

  /** `dict(pairs)`: one entry per key, a later pair overwriting an earlier one with the same key. */
  function ToDict(pairs: seq<(string, int)>): (table: map<string, int>)
    ensures |table| <= |pairs|
    ensures pairs != [] ==> pairs[|pairs| - 1].0 in table && table[pairs[|pairs| - 1].0] == pairs[|pairs| - 1].1
  {
    if pairs == [] then map[]
    else ToDict(pairs[..|pairs| - 1])[pairs[|pairs| - 1].0 := pairs[|pairs| - 1].1]
  }

  /** `dict(pairs)` holds exactly the keys of the pairs. */
  lemma {:induction false} ToDictKeys(pairs: seq<(string, int)>)
    ensures forall key :: key in ToDict(pairs) <==> key in PairKeys(pairs)
  {
    if pairs != [] {
      var init := pairs[..|pairs| - 1];
      ToDictKeys(init);
      assert PairKeys(pairs) == PairKeys(init) + [pairs[|pairs| - 1].0];
    }
  }

  /** When no key repeats, `dict(pairs)` holds every pair as given, one entry each. */
  lemma {:induction false} ToDictDistinct(pairs: seq<(string, int)>)
    requires forall a, b :: 0 <= a < b < |pairs| ==> pairs[a].0 != pairs[b].0
    ensures |ToDict(pairs)| == |pairs|
    ensures forall j :: 0 <= j < |pairs| ==> pairs[j].0 in ToDict(pairs) && ToDict(pairs)[pairs[j].0] == pairs[j].1
  {
    if pairs != [] {
      var init, last := pairs[..|pairs| - 1], pairs[|pairs| - 1];
      ToDictDistinct(init);
      ToDictKeys(init);
      assert last.0 !in PairKeys(init) by {
        forall j | 0 <= j < |init| ensures PairKeys(init)[j] != last.0 {
          assert init[j] == pairs[j];
        }
      }
      var before := ToDict(init);
      assert ToDict(pairs) == before[last.0 := last.1] && last.0 !in before;
      forall j | 0 <= j < |pairs| ensures pairs[j].0 in ToDict(pairs) && ToDict(pairs)[pairs[j].0] == pairs[j].1 {
        if j < |init| {
          assert pairs[j] == init[j] && pairs[j].0 != last.0;
        }
      }
    }
  }

  /** What `count_k_mers` returns. */
  function TopKmers(sequence: string, k: int): KmerTable {
    var s := Normalize(sequence);
    if |s| < k then map[]
    else
      ToDict(Slice(Ranked(Windows(s, k)), 0, 5))
  }

  /** The counting loop of `count_k_mers`: `counts[seq[i:i+k]] += 1` for every
      index `i` of `seq[:-(k-1)]`, into a `defaultdict(int)` whose keys keep
      their first-seen order. */
  method CountWindows(s: string, k: int) returns (oligoCounts: KmerTable, keyOrder: seq<string>)
    ensures oligoCounts == Tally(Windows(s, k)) && keyOrder == Distinct(Windows(s, k))
  {
    ghost var windows := Windows(s, k);
    oligoCounts := map[];
    keyOrder := [];
    var prefix := Slice(s, 0, -(k - 1));
    for i := 0 to |prefix|
      invariant oligoCounts == Tally(windows[..i])
      invariant keyOrder == Distinct(windows[..i])
    {
      var key := Slice(s, i, i + k);
      assert key == windows[i];
      TallyStep(windows, i);
      TallyDistinctKeys(windows[..i]);
      if key !in oligoCounts {
        keyOrder := keyOrder + [key];
      }
      oligoCounts := oligoCounts[key := Get(oligoCounts, key) + 1];
    }
    assert windows[..|windows|] == windows;
  }

  /** `count_k_mers`: counts the windows of the lower-cased, stripped sequence,
      then keeps the five with the largest counts. */
  method CountKmers(sequence: string, numberNucleotides: int) returns (table: KmerTable)
    ensures table == TopKmers(sequence, numberNucleotides)
  {
    var s := Normalize(sequence);
    var sequenceLength := |s|;
    if sequenceLength < numberNucleotides {
      return map[];
    }
    var oligoCounts, keyOrder := CountWindows(s, numberNucleotides);
    ghost var windows := Windows(s, numberNucleotides);
    TallyCounts(windows);
    DistinctKeys(windows);
    table := ToDict(Slice(SortByCountDescending(Items(oligoCounts, keyOrder)), 0, 5));
    assert table == ToDict(Slice(Ranked(windows), 0, 5));
  }

  /** The table `count_k_mers` returns is empty when the normalised sequence
      is shorter than `k`; otherwise it is the top five of the windows it
      counts: at most five k-mers, each with its true number of overlapping
      occurrences, no k-mer left out that occurs more often than a kept one,
      ties broken by first appearance. */
  lemma TopKmersProperties(sequence: string, k: int)
    ensures |Normalize(sequence)| < k ==> TopKmers(sequence, k) == map[]
    ensures |Normalize(sequence)| >= k ==> IsTopTable(Windows(Normalize(sequence), k), TopKmers(sequence, k), 5)
    ensures |TopKmers(sequence, k)| <= 5
  {
    var s := Normalize(sequence);
    if |s| >= k {
      var windows := Windows(s, k);
      RankedIsRanking(windows);
      TopOfRankingProperties(windows, Ranked(windows), 5);
    }
  }

  /** Every distinct window with its count, sorted as `count_k_mers` sorts them. */
  function Ranked(windows: seq<string>): seq<(string, int)> {
    TallyCounts(windows);
    DistinctKeys(windows);
    SortByCountDescending(Items(Tally(windows), Distinct(windows)))
  }

  /** `ranked` lists each distinct window of `windows` exactly once with its
      number of occurrences, by non-increasing count, and on equal counts in
      order of first appearance. */
  predicate IsRanking(windows: seq<string>, ranked: seq<(string, int)>) {
    && |ranked| == |Distinct(windows)|
    && (forall a, b :: 0 <= a < b < |ranked| ==> ranked[a].0 != ranked[b].0)
    && (forall i :: 0 <= i < |ranked| ==> ranked[i].0 in windows && ranked[i].1 == multiset(windows)[ranked[i].0])
    && (forall key :: key in windows ==> key in PairKeys(ranked))
    && (forall a, b :: 0 <= a < b < |ranked| ==>
          ranked[a].1 >= ranked[b].1
          && (ranked[a].1 == ranked[b].1 ==> IndexOf(windows, ranked[a].0) < IndexOf(windows, ranked[b].0)))
  }

  /** No key appears twice in the ranking. */
  lemma RankedDistinct(windows: seq<string>)
    ensures forall a, b :: 0 <= a < b < |Ranked(windows)| ==> Ranked(windows)[a].0 != Ranked(windows)[b].0
  {
    TallyCounts(windows);
    DistinctKeys(windows);
    var items := Items(Tally(windows), Distinct(windows));
    var order, ranked := Order(items), Ranked(windows);
    forall a, b | 0 <= a < b < |ranked| ensures ranked[a].0 != ranked[b].0 {
      assert Before(Counts(items), order[a], order[b]);
      assert ranked[a] == items[order[a]] && ranked[b] == items[order[b]];
    }
  }

  /** Each ranked key is a window, paired with its number of occurrences. */
  lemma RankedCounts(windows: seq<string>)
    ensures forall i :: 0 <= i < |Ranked(windows)| ==>
              Ranked(windows)[i].0 in windows && Ranked(windows)[i].1 == multiset(windows)[Ranked(windows)[i].0]
  {
    TallyCounts(windows);
    DistinctKeys(windows);
    var items := Items(Tally(windows), Distinct(windows));
    var order, ranked := Order(items), Ranked(windows);
    forall i | 0 <= i < |ranked| ensures ranked[i].0 in windows && ranked[i].1 == multiset(windows)[ranked[i].0] {
      assert ranked[i] == items[order[i]];
    }
  }

  /** Every window appears in the ranking. */
  lemma RankedComplete(windows: seq<string>)
    ensures forall key :: key in windows ==> key in PairKeys(Ranked(windows))
  {
    TallyCounts(windows);
    DistinctKeys(windows);
    var keys := Distinct(windows);
    var items := Items(Tally(windows), keys);
    var order, ranked := Order(items), Ranked(windows);
    forall key | key in windows ensures key in PairKeys(ranked) {
      assert key in keys;
      var q :| 0 <= q < |keys| && keys[q] == key;
      assert q in order;
      var m :| 0 <= m < |order| && order[m] == q;
      assert PairKeys(ranked)[m] == ranked[m].0 == items[q].0;
    }
  }

  /** Counts do not increase along the ranking, and equal counts keep the
      order in which their windows first appeared. */
  lemma RankedOrdered(windows: seq<string>)
    ensures forall a, b :: 0 <= a < b < |Ranked(windows)| ==>
              && Ranked(windows)[a].0 in windows && Ranked(windows)[b].0 in windows
              && Ranked(windows)[a].1 >= Ranked(windows)[b].1
              && (Ranked(windows)[a].1 == Ranked(windows)[b].1 ==>
                    IndexOf(windows, Ranked(windows)[a].0) < IndexOf(windows, Ranked(windows)[b].0))
  {
    TallyCounts(windows);
    DistinctKeys(windows);
    var items := Items(Tally(windows), Distinct(windows));
    var order, ranked := Order(items), Ranked(windows);
    DistinctOrdered(windows);
    forall a, b | 0 <= a < b < |ranked|
      ensures ranked[a].0 in windows && ranked[b].0 in windows
      ensures ranked[a].1 >= ranked[b].1
      ensures ranked[a].1 == ranked[b].1 ==> IndexOf(windows, ranked[a].0) < IndexOf(windows, ranked[b].0)
    {
      assert Before(Counts(items), order[a], order[b]);
      assert ranked[a] == items[order[a]] && ranked[b] == items[order[b]];
    }
  }

  /** The sort `count_k_mers` applies yields a ranking of the windows. */
  lemma RankedIsRanking(windows: seq<string>)
    ensures IsRanking(windows, Ranked(windows))
  {
    RankedDistinct(windows);
    RankedCounts(windows);
    RankedComplete(windows);
    RankedOrdered(windows);
  }

  /** `dict(ranked[:limit])` for pairs with distinct keys keeps the first
      `limit` pairs as given, one entry each. */
  lemma TopOfRanking(ranked: seq<(string, int)>, limit: nat)
    requires forall a, b :: 0 <= a < b < |ranked| ==> ranked[a].0 != ranked[b].0
    ensures |ToDict(Slice(ranked, 0, limit))| == if limit < |ranked| then limit else |ranked|
    ensures forall m :: 0 <= m < |ranked| && m < limit ==>
              ranked[m].0 in ToDict(Slice(ranked, 0, limit)) && ToDict(Slice(ranked, 0, limit))[ranked[m].0] == ranked[m].1
  {
    var take := if limit < |ranked| then limit else |ranked|;
    var top := Slice(ranked, 0, limit);
    assert top == ranked[..take];
    ToDictDistinct(top);
    forall m | 0 <= m < |ranked| && m < limit
      ensures ranked[m].0 in ToDict(top) && ToDict(top)[ranked[m].0] == ranked[m].1
    {
      assert top[m] == ranked[m];
    }
  }

  /** Each key of `dict(ranked[:limit])` comes from one of the first `limit` pairs. */
  lemma TopEntry(ranked: seq<(string, int)>, limit: nat, key: string) returns (j: nat)
    requires forall a, b :: 0 <= a < b < |ranked| ==> ranked[a].0 != ranked[b].0
    requires key in ToDict(Slice(ranked, 0, limit))
    ensures j < limit && j < |ranked| && ranked[j] == (key, ToDict(Slice(ranked, 0, limit))[key])
  {
    var take := if limit < |ranked| then limit else |ranked|;
    var top := Slice(ranked, 0, limit);
    assert top == ranked[..take];
    ToDictKeys(top);
    ToDictDistinct(top);
    j :| 0 <= j < |top| && PairKeys(top)[j] == key;
    assert top[j] == ranked[j];
  }

  /** Every key of `table` is a window, with its number of occurrences. */
  predicate KeepsCounts(windows: seq<string>, table: KmerTable) {
    forall key :: key in table ==> key in windows && table[key] == multiset(windows)[key]
  }

  /** A window left out of `table` occurs no more often than every kept one,
      and on a tie the kept one appeared first. */
  predicate KeepsMostFrequent(windows: seq<string>, table: KmerTable) {
    forall key, other :: key in table && key in windows && other in windows && other !in table ==>
      multiset(windows)[other] <= table[key]
      && (multiset(windows)[other] == table[key] ==> IndexOf(windows, key) < IndexOf(windows, other))
  }

  /** No window is left out of `table`. */
  predicate KeepsAll(windows: seq<string>, table: KmerTable) {
    forall key :: key in windows ==> key in table
  }

  /** `table` holds at most `limit` windows, each with its number of
      occurrences; a window left out occurs no more often than every kept one,
      and on a tie the kept one appeared first; when there are at most `limit`
      distinct windows none is left out, and otherwise exactly `limit` are kept. */
  predicate IsTopTable(windows: seq<string>, table: KmerTable, limit: nat) {
    && |table| <= limit
    && KeepsCounts(windows, table)
    && KeepsMostFrequent(windows, table)
    && (|Distinct(windows)| <= limit ==> KeepsAll(windows, table))
    && (|Distinct(windows)| >= limit ==> |table| == limit)
  }

  /** A window left out of the top `limit` of a ranking occurs no more often
      than a kept one, and on a tie the kept one appeared first. */
  lemma TopCutoff(windows: seq<string>, ranked: seq<(string, int)>, limit: nat, key: string, other: string)
    requires IsRanking(windows, ranked)
    requires key in ToDict(Slice(ranked, 0, limit))
    requires other in windows && other !in ToDict(Slice(ranked, 0, limit))
    ensures key in windows
    ensures multiset(windows)[other] <= ToDict(Slice(ranked, 0, limit))[key]
    ensures multiset(windows)[other] == ToDict(Slice(ranked, 0, limit))[key] ==> IndexOf(windows, key) < IndexOf(windows, other)
  {
    var j := TopEntry(ranked, limit, key);
    var m :| 0 <= m < |ranked| && PairKeys(ranked)[m] == other;
    assert ranked[m].0 == other;
    TopOfRanking(ranked, limit);
    assert j < m;
  }

  /** Each kept window carries its number of occurrences. */
  lemma TopCounts(windows: seq<string>, ranked: seq<(string, int)>, limit: nat)
    requires IsRanking(windows, ranked)
    ensures KeepsCounts(windows, ToDict(Slice(ranked, 0, limit)))
  {
    forall key | key in ToDict(Slice(ranked, 0, limit))
      ensures key in windows && ToDict(Slice(ranked, 0, limit))[key] == multiset(windows)[key]
    {
      var j := TopEntry(ranked, limit, key);
    }
  }

  /** With at most `limit` entries in the ranking, every window is kept. */
  lemma TopKeepsAll(windows: seq<string>, ranked: seq<(string, int)>, limit: nat)
    requires IsRanking(windows, ranked) && |ranked| <= limit
    ensures KeepsAll(windows, ToDict(Slice(ranked, 0, limit)))
  {
    TopOfRanking(ranked, limit);
    forall key | key in windows ensures key in ToDict(Slice(ranked, 0, limit)) {
      var m :| 0 <= m < |ranked| && PairKeys(ranked)[m] == key;
      assert ranked[m].0 == key;
    }
  }

  /** `TopCutoff` for every kept and every left-out window. */
  lemma TopCutoffAll(windows: seq<string>, ranked: seq<(string, int)>, limit: nat)
    requires IsRanking(windows, ranked)
    ensures KeepsMostFrequent(windows, ToDict(Slice(ranked, 0, limit)))
  {
    var table := ToDict(Slice(ranked, 0, limit));
    forall key, other | key in table && key in windows && other in windows && other !in table
      ensures multiset(windows)[other] <= table[key]
      ensures multiset(windows)[other] == table[key] ==> IndexOf(windows, key) < IndexOf(windows, other)
    {
      TopCutoff(windows, ranked, limit, key, other);
    }
  }

  /** The top `limit` entries of a ranking of `windows`, as `dict(ranked[:limit])` keeps them. */
  lemma TopOfRankingProperties(windows: seq<string>, ranked: seq<(string, int)>, limit: nat)
    requires IsRanking(windows, ranked)
    ensures IsTopTable(windows, ToDict(Slice(ranked, 0, limit)), limit)
  {
    TopOfRanking(ranked, limit);
    TopCounts(windows, ranked, limit);
    TopCutoffAll(windows, ranked, limit);
    if |ranked| <= limit {
      TopKeepsAll(windows, ranked, limit);
    }
  }

  /** `update_k_mer_counts`: `Counter(current).update(new)`, the key-by-key sum
      of two tables over the union of their keys. */
  function UpdateKmerCounts(currentCounts: KmerTable, newCounts: KmerTable): KmerTable {
    map key | key in currentCounts.Keys + newCounts.Keys :: Get(currentCounts, key) + Get(newCounts, key)
  }

  /** The merged table holds the keys of both tables, and each count is the
      sum of the two counts (a key missing from one table counts 0 there). */
  lemma UpdateKmerCountsMerges(currentCounts: KmerTable, newCounts: KmerTable)
    ensures UpdateKmerCounts(currentCounts, newCounts).Keys == currentCounts.Keys + newCounts.Keys
    ensures forall key :: Get(UpdateKmerCounts(currentCounts, newCounts), key) == Get(currentCounts, key) + Get(newCounts, key)
  {
  }

  /** Merging does not depend on the order of its arguments. */
  lemma UpdateKmerCountsCommutative(a: KmerTable, b: KmerTable)
    ensures UpdateKmerCounts(a, b) == UpdateKmerCounts(b, a)
  {
  }

  /** Merging several tables does not depend on how the merges are grouped. */
  lemma UpdateKmerCountsAssociative(a: KmerTable, b: KmerTable, c: KmerTable)
    ensures UpdateKmerCounts(UpdateKmerCounts(a, b), c) == UpdateKmerCounts(a, UpdateKmerCounts(b, c))
  {
    var left, right := UpdateKmerCounts(UpdateKmerCounts(a, b), c), UpdateKmerCounts(a, UpdateKmerCounts(b, c));
    assert left.Keys == right.Keys;
    forall key | key in left ensures left[key] == right[key] {
      assert Get(UpdateKmerCounts(a, b), key) == Get(a, key) + Get(b, key);
      assert Get(UpdateKmerCounts(b, c), key) == Get(b, key) + Get(c, key);
    }
  }

  /** Merging with the empty table changes nothing. */
  lemma UpdateKmerCountsEmpty(a: KmerTable)
    ensures UpdateKmerCounts(a, map[]) == a && UpdateKmerCounts(map[], a) == a
  {
  }

  /** Merging a table that has one more key adds its count to that key of the
      merge, and so to the total. */
  lemma MergeOneMore(a: KmerTable, b: KmerTable, key: string)
    requires key in b
    ensures SumValues(UpdateKmerCounts(a, b)) == SumValues(UpdateKmerCounts(a, b - {key})) + b[key]
  {
    var m, before := UpdateKmerCounts(a, b), UpdateKmerCounts(a, b - {key});
    var after := before[key := Get(before, key) + b[key]];
    assert m.Keys == after.Keys;
    forall x | x in m ensures m[x] == after[x] {
      assert Get(m, x) == Get(a, x) + Get(b, x);
      assert Get(before, x) == Get(a, x) + Get(b - {key}, x);
    }
    assert m == after;
    SumValuesAfterUpdate(m, before, key, Get(before, key) + b[key]);
  }

  /** The total count of a merge is the sum of the two totals. */
  lemma {:induction false} UpdateKmerCountsSum(a: KmerTable, b: KmerTable)
    ensures SumValues(UpdateKmerCounts(a, b)) == SumValues(a) + SumValues(b)
    decreases |b|
  {
    if b == map[] {
      UpdateKmerCountsEmpty(a);
      assert SumValues(b) == 0;
    } else {
      var key :| key in b;
      var rest := b - {key};
      assert |rest| < |b| by {
        assert rest.Keys == b.Keys - {key};
      }
      UpdateKmerCountsSum(a, rest);
      MergeOneMore(a, b, key);
      SumValuesRemove(b, key);
    }
  }
}
