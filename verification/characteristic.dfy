/**
 * The characteristic matrix: one 0/1 column per card over the vocabulary's rows,
 * built by `generate_shingle_bin` and `generate_shingle_bin_matrix`.
 */
module Characteristic {
  import opened Common

  /** Some shingle of `shins` is in the vocabulary under index `j`. */
  ghost predicate Present(vocab: map<Shingle, nat>, shins: set<Shingle>, j: nat)
  {
    exists s :: s in shins && s in vocab && vocab[s] == j
  }

  /**
   * `generate_shingle_bin`: abort on an empty vocabulary; otherwise set bit `vocab[s]`
   * for every shingle `s` of the card that the vocabulary knows, ignoring the rest.
   */
  method GenerateShingleBin(vocab: map<Shingle, nat>, shins: set<Shingle>) returns (r: Result<seq<bool>>)
    requires IndicesInRange(vocab)
    ensures r.Failure? <==> |vocab| == 0
    ensures r.Failure? ==> r.error == EmptyVocabulary
    ensures r.Success? ==> |r.value| == |vocab|
    ensures r.Success? ==> forall j :: 0 <= j < |vocab| ==> (r.value[j] <==> Present(vocab, shins, j))
  {
    if |vocab| == 0 {
      return Failure(EmptyVocabulary);
    }
    var bin := seq(|vocab|, _ => false);
    var rest := shins;
    while rest != {}
      invariant rest <= shins
      invariant |bin| == |vocab|
      invariant forall j :: 0 <= j < |vocab| ==> (bin[j] <==> Present(vocab, shins - rest, j))
      decreases rest
    {
      var s :| s in rest;
      if s in vocab {
        bin := bin[vocab[s] := true];
      }
      rest := rest - {s};
    }
    assert shins - rest == shins;
    return Success(bin);
  }

  /**
   * `generate_shingle_bin_matrix`: a |vocab| by |cards| matrix whose column `i` is the
   * bit vector of card `i`. The empty-vocabulary abort only fires if some card is processed.
   */
  method GenerateShingleBinMatrix(vocab: map<Shingle, nat>, cards: seq<set<Shingle>>)
    returns (r: Result<seq<seq<bool>>>)
    requires IndicesInRange(vocab)
    ensures r.Failure? <==> |vocab| == 0 && |cards| > 0
    ensures r.Failure? ==> r.error == EmptyVocabulary
    ensures r.Success? ==> IsMatrix(r.value, |vocab|, |cards|)
    ensures r.Success? ==> forall j, i :: 0 <= j < |vocab| && 0 <= i < |cards| ==>
      (r.value[j][i] <==> Present(vocab, cards[i], j))
  {
    var n := |vocab|;
    var mat := seq(n, _ => seq(|cards|, _ => false));
    for i := 0 to |cards|
      invariant IsMatrix(mat, n, |cards|)
      invariant n == 0 ==> i == 0
      invariant forall j, c :: 0 <= j < n && 0 <= c < i ==> (mat[j][c] <==> Present(vocab, cards[c], j))
    {
      var bin := GenerateShingleBin(vocab, cards[i]);
      if bin.Failure? {
        return Failure(bin.error);
      }
      var col := bin.value;
      mat := seq(n, j requires 0 <= j < n => mat[j][i := col[j]]);
    }
    return Success(mat);
  }
}
