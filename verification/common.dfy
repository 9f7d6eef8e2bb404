/**
 * Shared vocabulary of the similarity pipeline: the failure-carrying result type,
 * the pipeline's error taxonomy, the shingle type and rectangular matrices.
 */
module Common {

  /** A stage either produces a value or aborts with an error (the `sys.exit` calls of `generate_shingle_bin` and `sim_vote`, and the errors `minhash` raises). */
  datatype Result<+T> = Success(value: T) | Failure(error: Error)

  /** Why a run aborts. */
  datatype Error =
    | EmptyVocabulary      // no shingle reached the minimum support
    | NegativeScanDepth    // max_rows - 1 < 0: numpy refuses a negative array dimension
    | NoHashPrimes         // no prime in [2, n_shingles) to draw the hash multiplier from
    | BandingMismatch      // blocks * rows_per_block differs from the number of signature rows

  /** A shingle of card text: a window of consecutive characters. */
  type Shingle = seq<char>

  /** `m` has `h` rows, each of width `w`. */
  predicate IsMatrix<T>(m: seq<seq<T>>, h: nat, w: nat)
  {
    |m| == h && forall r :: 0 <= r < |m| ==> |m[r]| == w
  }

  /** An `n` by `n` matrix. */
  predicate IsSquare<T>(m: seq<seq<T>>)
  {
    IsMatrix(m, |m|, |m|)
  }

  /** Every index a vocabulary hands out addresses a row of a `|vocab|`-row matrix. */
  predicate IndicesInRange(vocab: map<Shingle, nat>)
  {
    forall s :: s in vocab ==> vocab[s] < |vocab|
  }

  /**
   * A dense vocabulary: its indices are exactly 0 .. |vocab|-1, each used by one shingle.
   */
  ghost predicate DenseIndex(vocab: map<Shingle, nat>)
  {
    && IndicesInRange(vocab)
    && (forall s, t :: s in vocab && t in vocab && s != t ==> vocab[s] != vocab[t])
    && (forall i :: 0 <= i < |vocab| ==> i in vocab.Values)
  }

  /** The items of `xs` as a set have at most |xs| elements; exactly |xs| when they are distinct. */
  lemma {:induction false} SetOfSeqCard<T>(xs: seq<T>)
    ensures |set x | x in xs| <= |xs|
    ensures (forall i, j :: 0 <= i < j < |xs| ==> xs[i] != xs[j]) ==> |set x | x in xs| == |xs|
  {
    if |xs| > 0 {
      var init := xs[..|xs| - 1];
      SetOfSeqCard(init);
      assert (set x | x in xs) == (set x | x in init) + {xs[|xs| - 1]};
      if forall i, j :: 0 <= i < j < |xs| ==> xs[i] != xs[j] {
        assert xs[|xs| - 1] !in (set x | x in init);
      }
    } else {
      assert (set x | x in xs) == {};
    }
  }
}
