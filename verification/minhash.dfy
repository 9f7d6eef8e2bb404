/**
 * The MinHash engine. For every signature row `k` a hash maps scan offset `i` to row
 * `h(i) = (a*i + b) mod n`, a permutation only when gcd(a, n) = 1 and max_rows - 1 <= n
 * (see `HashCanRepeatRows`); the rows h(0), h(1), ..., h(max_rows-2) of the characteristic
 * matrix are stacked under a synthetic zero row, and `argmax` down each column gives
 * the signature: 1 + the first offset whose row has a 1, or 0 when none does.
 */
module MinHash {
  import opened Common

  /** The draw `(choice(oddprimes), randrange(n_shingles))` for one signature row. */
  datatype HashParams = HashParams(a: nat, b: nat)

  /** `randfun(a, b, n)`: the hash always lands on a row of an `n`-row matrix. */
  function Hash(h: HashParams, n: nat, x: nat): (r: nat)
    requires n > 0
    ensures r < n
  {
    (h.a * x + h.b) % n
  }

  /**
   * The hash need not be one-to-one: `primerange(2, n_shingles)` holds 2 once
   * `n_shingles > 2`, and with a = 2, n = 4 offsets 0 and 2 probe the same row. With
   * a = 3, n = 5 the offsets 0 and 5 (reached when max_rows - 1 > 5) probe the same row.
   */
  lemma HashCanRepeatRows()
    ensures Hash(HashParams(2, 0), 4, 0) == Hash(HashParams(2, 0), 4, 2) == 0
    ensures Hash(HashParams(3, 1), 5, 0) == Hash(HashParams(3, 1), 5, 5) == 1
  {
  }

  /** numpy `argmax`: the first index holding the largest value. */
  function ArgMax(xs: seq<nat>): (r: nat)
    requires |xs| > 0
    ensures r < |xs|
    ensures forall i :: 0 <= i < |xs| ==> xs[i] <= xs[r]
    ensures forall i :: 0 <= i < r ==> xs[i] < xs[r]
  {
    ArgMaxFrom(xs, 1, 0)
  }

  /** Left-to-right scan from `i`, `best` being the first maximum of `xs[..i]`; ties keep the earlier index. */
  function ArgMaxFrom(xs: seq<nat>, i: nat, best: nat): (r: nat)
    requires best < i <= |xs|
    requires forall p :: 0 <= p < i ==> xs[p] <= xs[best]
    requires forall p :: 0 <= p < best ==> xs[p] < xs[best]
    ensures r < |xs|
    ensures forall p :: 0 <= p < |xs| ==> xs[p] <= xs[r]
    ensures forall p :: 0 <= p < r ==> xs[p] < xs[r]
    decreases |xs| - i
  {
    if i == |xs| then best
    else if xs[i] > xs[best] then ArgMaxFrom(xs, i + 1, i)
    else ArgMaxFrom(xs, i + 1, best)
  }

  /** The row `mat` reads at scan offset `i` of signature row `h`. */
  function Probe(mat: seq<seq<bool>>, h: HashParams, i: nat, c: nat): (hit: bool)
    requires |mat| > 0
    requires c < |mat[Hash(h, |mat|, i)]|
  {
    mat[Hash(h, |mat|, i)][c]
  }

  /** Column `c` of `vstack((zeros, arr))`: the synthetic zero row, then the probed bits. */
  function ScanColumn(mat: seq<seq<bool>>, w: nat, h: HashParams, maxRows: nat, c: nat): (col: seq<nat>)
    requires |mat| > 0 && IsMatrix(mat, |mat|, w) && c < w
    requires maxRows >= 1
    ensures |col| == maxRows
  {
    [0] + seq(maxRows - 1, i requires 0 <= i < maxRows - 1 => if Probe(mat, h, i, c) then 1 else 0)
  }

  /**
   * `v` is the signature entry of column `c` under `h`: 0 when no probed row among
   * offsets 0 .. maxRows-2 has a 1, otherwise 1 + the first offset that does.
   */
  ghost predicate IsFirstHit(mat: seq<seq<bool>>, w: nat, h: HashParams, maxRows: nat, c: nat, v: nat)
    requires |mat| > 0 && IsMatrix(mat, |mat|, w) && c < w
  {
    if v == 0 then
      forall i :: 0 <= i < maxRows - 1 ==> !Probe(mat, h, i, c)
    else
      && v <= maxRows - 1
      && Probe(mat, h, v - 1, c)
      && forall i :: 0 <= i < v - 1 ==> !Probe(mat, h, i, c)
  }

  /** `argmax` over the stacked column finds the first hit. */
  lemma ArgMaxIsFirstHit(mat: seq<seq<bool>>, w: nat, h: HashParams, maxRows: nat, c: nat)
    requires |mat| > 0 && IsMatrix(mat, |mat|, w) && c < w
    requires maxRows >= 1
    ensures IsFirstHit(mat, w, h, maxRows, c, ArgMax(ScanColumn(mat, w, h, maxRows, c)))
  {
    var col := ScanColumn(mat, w, h, maxRows, c);
    var r := ArgMax(col);
    assert forall i :: 0 <= i < maxRows - 1 ==> col[i + 1] == if Probe(mat, h, i, c) then 1 else 0;
    if r == 0 {
      forall i | 0 <= i < maxRows - 1
        ensures !Probe(mat, h, i, c)
      {
        assert col[i + 1] <= col[0];
      }
    } else {
      assert col[r] == 1 by {
        assert col[0] < col[r];
      }
      forall i | 0 <= i < r - 1
        ensures !Probe(mat, h, i, c)
      {
        assert col[i + 1] < col[r];
      }
    }
  }

  /** The first hit is unique: the signature entry is a function of the column. */
  lemma FirstHitUnique(mat: seq<seq<bool>>, w: nat, h: HashParams, maxRows: nat, c: nat, v1: nat, v2: nat)
    requires |mat| > 0 && IsMatrix(mat, |mat|, w) && c < w
    requires IsFirstHit(mat, w, h, maxRows, c, v1)
    requires IsFirstHit(mat, w, h, maxRows, c, v2)
    ensures v1 == v2
  {
  }

  /**
   * `minhash(mat, num_minhashes, max_rows)` with the random draws passed in as `hashes`.
   * It aborts, for a non-empty signature, when `max_rows - 1` is negative (numpy
   * refuses the array) or when there is no prime in [2, n_shingles) to draw.
   */
  function MinHashMatrix(mat: seq<seq<bool>>, nFiles: nat, numMinhashes: nat, maxRows: nat,
                   hashes: seq<HashParams>): (r: Result<seq<seq<nat>>>)
    requires IsMatrix(mat, |mat|, nFiles)
    requires |hashes| == numMinhashes
    ensures r.Failure? <==> numMinhashes > 0 && (maxRows == 0 || |mat| <= 2)
    ensures r.Failure? ==> r.error == if maxRows == 0 then NegativeScanDepth else NoHashPrimes
    ensures r.Success? ==> IsMatrix(r.value, numMinhashes, nFiles)
    ensures r.Success? ==> forall k, c :: 0 <= k < numMinhashes && 0 <= c < nFiles ==>
      r.value[k][c] <= maxRows - 1 && IsFirstHit(mat, nFiles, hashes[k], maxRows, c, r.value[k][c])
  {
    if numMinhashes == 0 then Success([])
    else if maxRows == 0 then Failure(NegativeScanDepth)
    else if |mat| <= 2 then Failure(NoHashPrimes)
    else
      var sig := seq(numMinhashes, k requires 0 <= k < numMinhashes =>
                   seq(nFiles, c requires 0 <= c < nFiles => ArgMax(ScanColumn(mat, nFiles, hashes[k], maxRows, c))));
      assert forall k, c :: 0 <= k < numMinhashes && 0 <= c < nFiles ==>
               IsFirstHit(mat, nFiles, hashes[k], maxRows, c, sig[k][c]) by {
        forall k, c | 0 <= k < numMinhashes && 0 <= c < nFiles
          ensures IsFirstHit(mat, nFiles, hashes[k], maxRows, c, sig[k][c])
        {
          ArgMaxIsFirstHit(mat, nFiles, hashes[k], maxRows, c);
        }
      }
      Success(sig)
  }

  /** Two columns with the same bits have the same first hit. */
  lemma SameColumnSameHit(mat: seq<seq<bool>>, w: nat, h: HashParams, maxRows: nat, c1: nat, c2: nat, v: nat)
    requires |mat| > 0 && IsMatrix(mat, |mat|, w) && c1 < w && c2 < w
    requires forall j :: 0 <= j < |mat| ==> mat[j][c1] == mat[j][c2]
    requires IsFirstHit(mat, w, h, maxRows, c1, v)
    ensures IsFirstHit(mat, w, h, maxRows, c2, v)
  {
    forall i: nat
      ensures Probe(mat, h, i, c1) == Probe(mat, h, i, c2)
    {
      var j := Hash(h, |mat|, i);
      assert mat[j][c1] == mat[j][c2];
    }
  }

  /** Cards whose columns of the characteristic matrix agree get the same signature. */
  lemma EqualColumnsEqualSignatures(mat: seq<seq<bool>>, nFiles: nat, numMinhashes: nat, maxRows: nat,
                                    hashes: seq<HashParams>, c1: nat, c2: nat)
    requires IsMatrix(mat, |mat|, nFiles)
    requires |hashes| == numMinhashes
    requires c1 < nFiles && c2 < nFiles
    requires forall j :: 0 <= j < |mat| ==> mat[j][c1] == mat[j][c2]
    requires MinHashMatrix(mat, nFiles, numMinhashes, maxRows, hashes).Success?
    ensures forall k :: 0 <= k < numMinhashes ==>
      MinHashMatrix(mat, nFiles, numMinhashes, maxRows, hashes).value[k][c1] ==
      MinHashMatrix(mat, nFiles, numMinhashes, maxRows, hashes).value[k][c2]
  {
    var sig := MinHashMatrix(mat, nFiles, numMinhashes, maxRows, hashes).value;
    forall k | 0 <= k < numMinhashes
      ensures sig[k][c1] == sig[k][c2]
    {
      SameColumnSameHit(mat, nFiles, hashes[k], maxRows, c1, c2, sig[k][c1]);
      FirstHitUnique(mat, nFiles, hashes[k], maxRows, c2, sig[k][c1], sig[k][c2]);
    }
  }
}
