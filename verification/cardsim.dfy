/**
 * `card_similarity`: the six stages run back to back. Card texts become sets of
 * character 3-shingles, the shingles found in at least 4 cards become the
 * vocabulary, each card becomes a bit column over it, the columns are MinHashed,
 * the signatures are banded into votes, and the connected components of the
 * symmetrised vote graph are the groups of similar cards.
 */
module CardSim {
  import opened Common
  import opened FilesimHelper
  import opened ShingleOrder
  import opened Vocabulary
  import opened Characteristic
  import opened MinHash
  import opened Banding
  import opened Components

  /** `kshingles(words, k=3)`: shingles are windows of three characters. */
  const ShingleSize: nat := 3

  /** `imp_shins(..., minVal=4)`: a shingle joins the vocabulary once four cards contain it. */
  const MinSupport: int := 4

  /** Each card's oracle text as its set of 3-character windows. */
  function CardShingles(texts: seq<string>): (cards: seq<set<Shingle>>)
    ensures |cards| == |texts|
    ensures forall i :: 0 <= i < |texts| ==> cards[i] == AllKShingles(texts[i], ShingleSize)
    ensures forall i, s :: 0 <= i < |texts| ==>
      (s in cards[i] <==> exists j: nat :: j + ShingleSize <= |texts[i]| && s == Window(texts[i], ShingleSize, j))
  {
    seq(|texts|, i requires 0 <= i < |texts| => AllKShingles(texts[i], ShingleSize))
  }

  /** Each card's shingles as `kshingles(words, k=3)` computes them: the windows at the last two start offsets are missed. */
  function CardShinglesAsWritten(texts: seq<string>): (cards: seq<set<Shingle>>)
    ensures |cards| == |texts|
    ensures forall i :: 0 <= i < |texts| ==> cards[i] == KShingles(texts[i], ShingleSize)
    ensures forall i, s :: 0 <= i < |texts| ==>
      (s in cards[i] <==> exists j: nat :: j + ShingleSize + 2 <= |texts[i]| && s == Window(texts[i], ShingleSize, j))
  {
    seq(|texts|, i requires 0 <= i < |texts| => KShingles(texts[i], ShingleSize))
  }

  /** A text without its last two characters; a text shorter than that becomes empty. */
  function DropLastTwo(text: string): (t: string)
    ensures |text| >= 2 ==> t == text[..|text| - 2]
    ensures |text| < 2 ==> t == []
  {
    if |text| >= 2 then text[..|text| - 2] else []
  }

  /**
   * The as-written shingles of the cards are the complete shingles of the cards'
   * texts cut short by two characters, so the pipeline as written is
   * `CardSimilarity` run on those shortened texts.
   */
  lemma CardShinglesAsWrittenDropLastTwo(texts: seq<string>)
    ensures CardShinglesAsWritten(texts) == CardShingles(seq(|texts|, i requires 0 <= i < |texts| => DropLastTwo(texts[i])))
  {
    var short := seq(|texts|, i requires 0 <= i < |texts| => DropLastTwo(texts[i]));
    forall i | 0 <= i < |texts|
      ensures KShingles(texts[i], ShingleSize) == AllKShingles(short[i], ShingleSize)
    {
      if |texts[i]| >= 2 {
        KShinglesDropsLastTwo(texts[i], ShingleSize);
      }
    }
    assert CardShinglesAsWritten(texts) == CardShingles(short);
  }

  /** The shingles contained in at least `minVal` cards. */
  ghost function Frequent(cards: seq<set<Shingle>>, minVal: int): set<Shingle>
  {
    set s | s in AllShingles(cards) && CardCount(cards, s) >= minVal
  }

  /** The characteristic matrix as a value: cell (j, i) says card `i` holds the shingle numbered `j`. */
  ghost function CharMatrix(vocab: map<Shingle, nat>, cards: seq<set<Shingle>>): (mat: seq<seq<bool>>)
    ensures IsMatrix(mat, |vocab|, |cards|)
  {
    seq(|vocab|, j requires 0 <= j < |vocab| =>
      seq(|cards|, i requires 0 <= i < |cards| => Present(vocab, cards[i], j)))
  }

  /** The run gets past every check: the conditions under which no stage aborts. */
  ghost predicate Runs(nCards: nat, nShingles: nat, numMinhashes: nat, blocks: nat, rowsPerBlock: nat, maxRows: nat)
  {
    && !(nCards > 0 && nShingles == 0)
    && !(numMinhashes > 0 && (maxRows == 0 || nShingles <= 2))
    && blocks * rowsPerBlock == numMinhashes
  }

  /** The first check that fails, in pipeline order. */
  ghost function Abort(nCards: nat, nShingles: nat, numMinhashes: nat, maxRows: nat): Error
  {
    if nCards > 0 && nShingles == 0 then EmptyVocabulary
    else if numMinhashes > 0 && maxRows == 0 then NegativeScanDepth
    else if numMinhashes > 0 && nShingles <= 2 then NoHashPrimes
    else BandingMismatch
  }

  /** The symmetrised vote graph of a run that gets past every check. */
  ghost function SimilarityGraph(vocab: map<Shingle, nat>, cards: seq<set<Shingle>>, numMinhashes: nat,
                                 votes: int, blocks: nat, rowsPerBlock: nat, maxRows: nat,
                                 hashes: seq<HashParams>): (g: seq<seq<nat>>)
    requires |hashes| == numMinhashes
    requires Runs(|cards|, |vocab|, numMinhashes, blocks, rowsPerBlock, maxRows)
    ensures IsSquare(g) && |g| == |cards|
  {
    var sig := MinHashMatrix(CharMatrix(vocab, cards), |cards|, numMinhashes, maxRows, hashes).value;
    MakeUndir(VoteMatrix(sig, |cards|, votes, blocks, rowsPerBlock))
  }

  /** The vocabulary `imp_shins` builds over `cards` is the set of frequent shingles. */
  lemma ImpShinsKeys(cards: seq<set<Shingle>>, minVal: int, vocab: map<Shingle, nat>)
    requires forall s :: s in vocab ==> s in AllShingles(cards) && CardCount(cards, s) >= minVal
    requires forall s :: s in AllShingles(cards) && CardCount(cards, s) >= minVal ==> s in vocab
    ensures vocab.Keys == Frequent(cards, minVal)
    ensures |vocab| == |Frequent(cards, minVal)|
  {
    assert vocab.Keys == Frequent(cards, minVal);
  }

  /** The matrix `generate_shingle_bin_matrix` built is `CharMatrix`. */
  lemma BuiltMatrix(vocab: map<Shingle, nat>, cards: seq<set<Shingle>>, mat: seq<seq<bool>>)
    requires IsMatrix(mat, |vocab|, |cards|)
    requires forall j, i :: 0 <= j < |vocab| && 0 <= i < |cards| ==> (mat[j][i] <==> Present(vocab, cards[i], j))
    ensures mat == CharMatrix(vocab, cards)
  {
    var expected := CharMatrix(vocab, cards);
    forall j | 0 <= j < |vocab|
      ensures mat[j] == expected[j]
    {
    }
  }

  /**
   * `card_similarity(cards, num_minhashes, blocks, rows_per_block, votes, max_rows)`,
   * with the MinHash draws passed in as `hashes`. It aborts with the first failing
   * check; otherwise the groups are the components of the symmetrised vote graph,
   * keyed 0 .. c-1. The ghost `vocab` is the vocabulary the run built.
   */
  method CardSimilarity(texts: seq<string>, numMinhashes: nat, blocks: nat, rowsPerBlock: nat, votes: int,
                        maxRows: nat, hashes: seq<HashParams>)
    returns (r: Result<map<nat, seq<nat>>>, ghost vocab: map<Shingle, nat>)
    requires |hashes| == numMinhashes
    ensures vocab.Keys == Frequent(CardShingles(texts), MinSupport)
    ensures DenseIndex(vocab)
    ensures forall s, t :: s in vocab && t in vocab && Less(s, t) ==> vocab[s] < vocab[t]
    ensures r.Success? <==>
      Runs(|texts|, |Frequent(CardShingles(texts), MinSupport)|, numMinhashes, blocks, rowsPerBlock, maxRows)
    ensures r.Failure? ==> r.error == Abort(|texts|, |Frequent(CardShingles(texts), MinSupport)|, numMinhashes, maxRows)
    ensures r.Success? ==> forall c: nat :: c in r.value <==> c < |r.value|
    ensures r.Success? ==> ComponentLists(
      SimilarityGraph(vocab, CardShingles(texts), numMinhashes, votes, blocks, rowsPerBlock, maxRows, hashes),
      DictLists(r.value))
  {
    var cards := CardShingles(texts);
    var shins := ImpShins(cards, MinSupport);
    vocab := shins;
    ImpShinsKeys(cards, MinSupport, shins);
    var mat := GenerateShingleBinMatrix(shins, cards);
    if mat.Failure? {
      return Failure(mat.error), vocab;
    }
    BuiltMatrix(shins, cards, mat.value);
    var sig := MinHashMatrix(mat.value, |cards|, numMinhashes, maxRows, hashes);
    if sig.Failure? {
      return Failure(sig.error), vocab;
    }
    var adj := SimVote(sig.value, |cards|, votes, blocks, rowsPerBlock);
    if adj.Failure? {
      return Failure(adj.error), vocab;
    }
    var comps := ConnectedComponents(adj.value);
    return Success(comps), vocab;
  }

  /**
   * Fewer cards than `MinSupport` leave the vocabulary empty: `imp_shins` counts each
   * shingle once per card, so no count reaches 4.
   */
  lemma FewCardsEmptyVocabulary(texts: seq<string>)
    requires |texts| < MinSupport
    ensures Frequent(CardShingles(texts), MinSupport) == {}
  {
    var cards := CardShingles(texts);
    forall s | s in AllShingles(cards)
      ensures CardCount(cards, s) < MinSupport
    {
      assert CardCount(cards, s) <= |cards|;
    }
  }

  /**
   * With one, two or three cards `card_similarity` always aborts on the empty
   * vocabulary, whatever the other arguments.
   */
  lemma FewCardsAbort(texts: seq<string>, numMinhashes: nat, blocks: nat, rowsPerBlock: nat, maxRows: nat)
    requires 0 < |texts| < MinSupport
    ensures !Runs(|texts|, |Frequent(CardShingles(texts), MinSupport)|, numMinhashes, blocks, rowsPerBlock, maxRows)
    ensures Abort(|texts|, |Frequent(CardShingles(texts), MinSupport)|, numMinhashes, maxRows) == EmptyVocabulary
  {
    FewCardsEmptyVocabulary(texts);
  }

  /** With `votes <= 0` every pair passes the threshold, so all cards form one group. */
  lemma NoThresholdOneGroup(vocab: map<Shingle, nat>, cards: seq<set<Shingle>>, numMinhashes: nat,
                            votes: int, blocks: nat, rowsPerBlock: nat, maxRows: nat, hashes: seq<HashParams>,
                            comps: seq<seq<nat>>)
    requires |cards| > 0 && votes <= 0
    requires |hashes| == numMinhashes
    requires Runs(|cards|, |vocab|, numMinhashes, blocks, rowsPerBlock, maxRows)
    requires ComponentLists(SimilarityGraph(vocab, cards, numMinhashes, votes, blocks, rowsPerBlock, maxRows, hashes), comps)
    ensures |comps| == 1
    ensures forall v :: 0 <= v < |cards| ==> v in comps[0]
  {
    var sig := MinHashMatrix(CharMatrix(vocab, cards), |cards|, numMinhashes, maxRows, hashes).value;
    NonPositiveThresholdIsComplete(sig, |cards|, votes, blocks, rowsPerBlock);
    var g := SimilarityGraph(vocab, cards, numMinhashes, votes, blocks, rowsPerBlock, maxRows, hashes);
    CompleteGraphOneComponent(g, comps);
  }

  /**
   * Raising `votes` only splits groups: two cards grouped together under the higher
   * threshold are also grouped together under the lower one.
   */
  lemma RaisingVotesSplitsGroups(vocab: map<Shingle, nat>, cards: seq<set<Shingle>>, numMinhashes: nat,
                                 low: int, high: int, blocks: nat, rowsPerBlock: nat, maxRows: nat,
                                 hashes: seq<HashParams>, compsHigh: seq<seq<nat>>, compsLow: seq<seq<nat>>,
                                 c: nat, u: nat, v: nat)
    requires low <= high
    requires |hashes| == numMinhashes
    requires Runs(|cards|, |vocab|, numMinhashes, blocks, rowsPerBlock, maxRows)
    requires ComponentLists(SimilarityGraph(vocab, cards, numMinhashes, high, blocks, rowsPerBlock, maxRows, hashes), compsHigh)
    requires ComponentLists(SimilarityGraph(vocab, cards, numMinhashes, low, blocks, rowsPerBlock, maxRows, hashes), compsLow)
    requires c < |compsHigh| && u in compsHigh[c] && v in compsHigh[c]
    ensures exists d :: 0 <= d < |compsLow| && u in compsLow[d] && v in compsLow[d]
  {
    var sig := MinHashMatrix(CharMatrix(vocab, cards), |cards|, numMinhashes, maxRows, hashes).value;
    var adjHigh := VoteMatrix(sig, |cards|, high, blocks, rowsPerBlock);
    var adjLow := VoteMatrix(sig, |cards|, low, blocks, rowsPerBlock);
    RaisingVotesNeverAddsEdges(sig, |cards|, low, high, blocks, rowsPerBlock);
    MakeUndirMonotone(adjHigh, adjLow);
    MakeUndirSymmetric(adjHigh);
    MakeUndirSymmetric(adjLow);
    SubgraphRefinesComponents(MakeUndir(adjHigh), MakeUndir(adjLow), compsHigh, compsLow, c, u, v);
  }
}
