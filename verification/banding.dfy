/**
 * LSH banding and voting (`sim_vote`). The signature rows are cut into `blocks`
 * bands of `rowsPerBlock` rows; within a band, a column whose band values contain
 * no 0 votes for an edge from every earlier column with the same band values. A
 * pair becomes an edge when its votes reach `reqVotes`.
 */
module Banding {
  import opened Common

  /** `tuple(hashmat[b, :, col])` after the reshape to (blocks, rowsPerBlock, nFiles). */
  function BandKey(sig: seq<seq<nat>>, nFiles: nat, rowsPerBlock: nat, b: nat, col: nat): (key: seq<nat>)
    requires IsMatrix(sig, |sig|, nFiles)
    requires b * rowsPerBlock + rowsPerBlock <= |sig|
    requires col < nFiles
    ensures |key| == rowsPerBlock
  {
    seq(rowsPerBlock, r requires 0 <= r < rowsPerBlock => sig[b * rowsPerBlock + r][col])
  }

  /** The matrix read row after row, as numpy lays out a C-ordered array. */
  function Flatten(m: seq<seq<nat>>): (flat: seq<nat>)
  {
    if |m| == 0 then [] else m[0] + Flatten(m[1..])
  }

  lemma {:induction false} FlattenLength(m: seq<seq<nat>>, w: nat)
    requires IsMatrix(m, |m|, w)
    ensures |Flatten(m)| == |m| * w
  {
    if |m| > 0 {
      FlattenLength(m[1..], w);
      assert |m| * w == w + (|m| - 1) * w;
    }
  }

  /** Row `i`, column `c` sits at offset `i * w + c` of the flattened matrix. */
  lemma {:induction false} FlattenIndex(m: seq<seq<nat>>, w: nat, i: nat, c: nat)
    requires IsMatrix(m, |m|, w)
    requires i < |m| && c < w
    ensures i * w + c < |Flatten(m)| && Flatten(m)[i * w + c] == m[i][c]
  {
    FlattenLength(m, w);
    if i > 0 {
      FlattenIndex(m[1..], w, i - 1, c);
      assert i * w + c == w + ((i - 1) * w + c);
    }
  }

  /**
   * `BandKey` is what `np.reshape(hashmat, (blocks, rows_per_block, n_files))` followed
   * by `hashmat[b, r, col]` reads: the item at row-major offset
   * `b * (rowsPerBlock * nFiles) + r * nFiles + col` of the signature laid out flat.
   */
  lemma BandKeyIsReshape(sig: seq<seq<nat>>, nFiles: nat, rowsPerBlock: nat, b: nat, col: nat, r: nat)
    requires IsMatrix(sig, |sig|, nFiles)
    requires b * rowsPerBlock + rowsPerBlock <= |sig|
    requires col < nFiles && r < rowsPerBlock
    ensures b * (rowsPerBlock * nFiles) + r * nFiles + col < |Flatten(sig)|
    ensures BandKey(sig, nFiles, rowsPerBlock, b, col)[r] == Flatten(sig)[b * (rowsPerBlock * nFiles) + r * nFiles + col]
  {
    var row := b * rowsPerBlock + r;
    RowMajorOffset(b, rowsPerBlock, r, nFiles);
    FlattenIndex(sig, nFiles, row, col);
  }

  lemma RowMajorOffset(b: nat, rows: nat, r: nat, w: nat)
    ensures (b * rows + r) * w == b * (rows * w) + r * w
  {
    calc {
      (b * rows + r) * w;
      (b * rows) * w + r * w;
      b * (rows * w) + r * w;
    }
  }

  /** Band `b` gives `x` one vote towards the later column `y`. */
  predicate Agree(sig: seq<seq<nat>>, nFiles: nat, rowsPerBlock: nat, b: nat, x: nat, y: nat)
    requires IsMatrix(sig, |sig|, nFiles)
    requires b * rowsPerBlock + rowsPerBlock <= |sig|
    requires x < nFiles && y < nFiles
  {
    && x < y
    && BandKey(sig, nFiles, rowsPerBlock, b, x) == BandKey(sig, nFiles, rowsPerBlock, b, y)
    && 0 !in BandKey(sig, nFiles, rowsPerBlock, b, y)
  }

  /** Votes cast for the pair (x, y) by the first `blocks` bands. */
  function VoteCount(sig: seq<seq<nat>>, nFiles: nat, rowsPerBlock: nat, blocks: nat, x: nat, y: nat): (votes: nat)
    requires IsMatrix(sig, |sig|, nFiles)
    requires blocks * rowsPerBlock <= |sig|
    requires x < nFiles && y < nFiles
  {
    if blocks == 0 then 0
    else VoteCount(sig, nFiles, rowsPerBlock, blocks - 1, x, y)
         + (if Agree(sig, nFiles, rowsPerBlock, blocks - 1, x, y) then 1 else 0)
  }

  /** The 0/1 adjacency `sim_vote` returns: `adjmat >= reqVotes`. */
  function VoteMatrix(sig: seq<seq<nat>>, nFiles: nat, reqVotes: int, blocks: nat, rowsPerBlock: nat): (adj: seq<seq<nat>>)
    requires IsMatrix(sig, |sig|, nFiles)
    requires blocks * rowsPerBlock == |sig|
    ensures IsSquare(adj) && |adj| == nFiles
  {
    seq(nFiles, x requires 0 <= x < nFiles =>
      seq(nFiles, y requires 0 <= y < nFiles =>
        if VoteCount(sig, nFiles, rowsPerBlock, blocks, x, y) >= reqVotes then 1 else 0))
  }

  /** The bands among the first `blocks` in which x votes for y. */
  function AgreeingBands(sig: seq<seq<nat>>, nFiles: nat, rowsPerBlock: nat, blocks: nat, x: nat, y: nat): (bands: set<nat>)
    requires IsMatrix(sig, |sig|, nFiles)
    requires blocks * rowsPerBlock <= |sig|
    requires x < nFiles && y < nFiles
  {
    set b: nat | b < blocks && b * rowsPerBlock + rowsPerBlock <= |sig| && Agree(sig, nFiles, rowsPerBlock, b, x, y)
  }

  /** The vote count is the number of bands in which the two columns agree with no 0. */
  lemma {:induction false} VoteCountIsAgreeingBands(sig: seq<seq<nat>>, nFiles: nat, rowsPerBlock: nat, blocks: nat, x: nat, y: nat)
    requires IsMatrix(sig, |sig|, nFiles)
    requires blocks * rowsPerBlock <= |sig|
    requires x < nFiles && y < nFiles
    ensures VoteCount(sig, nFiles, rowsPerBlock, blocks, x, y) == |AgreeingBands(sig, nFiles, rowsPerBlock, blocks, x, y)|
  {
    if blocks == 0 {
      assert AgreeingBands(sig, nFiles, rowsPerBlock, blocks, x, y) == {};
    } else {
      assert (blocks - 1) * rowsPerBlock <= blocks * rowsPerBlock;
      VoteCountIsAgreeingBands(sig, nFiles, rowsPerBlock, blocks - 1, x, y);
      var prev := AgreeingBands(sig, nFiles, rowsPerBlock, blocks - 1, x, y);
      var cur := AgreeingBands(sig, nFiles, rowsPerBlock, blocks, x, y);
      assert (blocks - 1) * rowsPerBlock + rowsPerBlock == blocks * rowsPerBlock;
      if Agree(sig, nFiles, rowsPerBlock, blocks - 1, x, y) {
        assert cur == prev + {blocks - 1};
      } else {
        assert cur == prev;
      }
    }
  }

  /** Only later columns receive votes: nothing on or below the diagonal. */
  lemma {:induction false} NoVotesBackwards(sig: seq<seq<nat>>, nFiles: nat, rowsPerBlock: nat, blocks: nat, x: nat, y: nat)
    requires IsMatrix(sig, |sig|, nFiles)
    requires blocks * rowsPerBlock <= |sig|
    requires x < nFiles && y < nFiles
    requires y <= x
    ensures VoteCount(sig, nFiles, rowsPerBlock, blocks, x, y) == 0
  {
    if blocks > 0 {
      assert (blocks - 1) * rowsPerBlock <= blocks * rowsPerBlock;
      NoVotesBackwards(sig, nFiles, rowsPerBlock, blocks - 1, x, y);
    }
  }

  /**
   * With a positive threshold, (x, y) is an edge exactly when x < y and the two
   * columns agree, with no 0, in at least `reqVotes` bands.
   */
  lemma VoteMatrixEdges(sig: seq<seq<nat>>, nFiles: nat, reqVotes: int, blocks: nat, rowsPerBlock: nat, x: nat, y: nat)
    requires IsMatrix(sig, |sig|, nFiles)
    requires blocks * rowsPerBlock == |sig|
    requires reqVotes >= 1
    requires x < nFiles && y < nFiles
    ensures VoteMatrix(sig, nFiles, reqVotes, blocks, rowsPerBlock)[x][y] == 1 <==>
      x < y && |AgreeingBands(sig, nFiles, rowsPerBlock, blocks, x, y)| >= reqVotes
  {
    VoteCountIsAgreeingBands(sig, nFiles, rowsPerBlock, blocks, x, y);
    if y <= x {
      NoVotesBackwards(sig, nFiles, rowsPerBlock, blocks, x, y);
    }
  }

  /** Raising the threshold never adds an edge. */
  lemma RaisingVotesNeverAddsEdges(sig: seq<seq<nat>>, nFiles: nat, low: int, high: int, blocks: nat, rowsPerBlock: nat)
    requires IsMatrix(sig, |sig|, nFiles)
    requires blocks * rowsPerBlock == |sig|
    requires low <= high
    ensures forall x, y :: 0 <= x < nFiles && 0 <= y < nFiles ==>
      VoteMatrix(sig, nFiles, high, blocks, rowsPerBlock)[x][y] <= VoteMatrix(sig, nFiles, low, blocks, rowsPerBlock)[x][y]
  {
  }

  /**
   * A threshold of 0 or below is met by every vote count, so every cell is an edge,
   * the diagonal and the lower triangle included.
   */
  lemma NonPositiveThresholdIsComplete(sig: seq<seq<nat>>, nFiles: nat, reqVotes: int, blocks: nat, rowsPerBlock: nat)
    requires IsMatrix(sig, |sig|, nFiles)
    requires blocks * rowsPerBlock == |sig|
    requires reqVotes <= 0
    ensures forall x, y :: 0 <= x < nFiles && 0 <= y < nFiles ==> VoteMatrix(sig, nFiles, reqVotes, blocks, rowsPerBlock)[x][y] == 1
  {
  }

  /**
   * `sim_vote(hashmat, reqVotes, blocks, rows_per_block)`: abort unless the bands tile
   * the signature rows exactly; otherwise run the per-band dictionary of band values
   * and return the thresholded vote matrix.
   */
  method SimVote(sig: seq<seq<nat>>, nFiles: nat, reqVotes: int, blocks: nat, rowsPerBlock: nat)
    returns (r: Result<seq<seq<nat>>>)
    requires IsMatrix(sig, |sig|, nFiles)
    ensures r.Failure? <==> blocks * rowsPerBlock != |sig|
    ensures r.Failure? ==> r.error == BandingMismatch
    ensures r.Success? ==> r.value == VoteMatrix(sig, nFiles, reqVotes, blocks, rowsPerBlock)
  {
    if blocks * rowsPerBlock != |sig| {
      return Failure(BandingMismatch);
    }
    var adj := seq(nFiles, _ => seq(nFiles, _ => 0));
    for b := 0 to blocks
      invariant IsSquare(adj) && |adj| == nFiles
      invariant forall x, y :: 0 <= x < nFiles && 0 <= y < nFiles ==>
        adj[x][y] == VoteCount(sig, nFiles, rowsPerBlock, b, x, y)
    {
      BandFits(b, blocks, rowsPerBlock);
      adj := VoteBand(sig, nFiles, rowsPerBlock, b, adj);
    }
    var out := seq(nFiles, x requires 0 <= x < nFiles =>
      seq(nFiles, y requires 0 <= y < nFiles => if adj[x][y] >= reqVotes then 1 else 0));
    ghost var expected := VoteMatrix(sig, nFiles, reqVotes, blocks, rowsPerBlock);
    forall x | 0 <= x < nFiles
      ensures out[x] == expected[x]
    {
    }
    return Success(out);
  }

  /** Band `b` of `blocks` bands lies inside the signature rows. */
  lemma BandFits(b: nat, blocks: nat, rowsPerBlock: nat)
    requires b < blocks
    ensures b * rowsPerBlock + rowsPerBlock <= blocks * rowsPerBlock
  {
    assert b * rowsPerBlock + rowsPerBlock == (b + 1) * rowsPerBlock;
    assert (b + 1) * rowsPerBlock <= blocks * rowsPerBlock by {
      var d := blocks - (b + 1);
      assert blocks * rowsPerBlock == (b + 1) * rowsPerBlock + d * rowsPerBlock;
    }
  }

  /** `adj` with one more vote on cell (x, y). */
  function Bump(adj: seq<seq<nat>>, x: nat, y: nat): (r: seq<seq<nat>>)
    requires IsSquare(adj) && x < |adj| && y < |adj|
    ensures IsSquare(r) && |r| == |adj|
    ensures forall i, j :: 0 <= i < |adj| && 0 <= j < |adj| ==>
      r[i][j] == adj[i][j] + (if i == x && j == y then 1 else 0)
  {
    adj[x := adj[x][y := adj[x][y] + 1]]
  }

  /**
   * One iteration of the band loop: scan the columns in order, keeping in `seen` the
   * earlier columns under each zero-free band key, and vote from each of them.
   */
  method VoteBand(sig: seq<seq<nat>>, nFiles: nat, rowsPerBlock: nat, b: nat, adj0: seq<seq<nat>>)
    returns (adj: seq<seq<nat>>)
    requires IsMatrix(sig, |sig|, nFiles)
    requires b * rowsPerBlock + rowsPerBlock <= |sig|
    requires IsSquare(adj0) && |adj0| == nFiles
    ensures IsSquare(adj) && |adj| == nFiles
    ensures forall x, y :: 0 <= x < nFiles && 0 <= y < nFiles ==>
      adj[x][y] == adj0[x][y] + (if Agree(sig, nFiles, rowsPerBlock, b, x, y) then 1 else 0)
  {
    adj := adj0;
    var seen: map<seq<nat>, seq<nat>> := map[];
    for col := 0 to nFiles
      invariant IsSquare(adj) && |adj| == nFiles
      invariant forall x, y :: 0 <= x < nFiles && 0 <= y < nFiles ==>
        adj[x][y] == adj0[x][y] + (if y < col && Agree(sig, nFiles, rowsPerBlock, b, x, y) then 1 else 0)
      invariant forall key :: key in seen ==> 0 !in key
      invariant forall key :: key in seen ==> Listed(sig, nFiles, rowsPerBlock, b, col, key, seen[key])
      invariant forall c :: 0 <= c < col && 0 !in BandKey(sig, nFiles, rowsPerBlock, b, c) ==>
        BandKey(sig, nFiles, rowsPerBlock, b, c) in seen
    {
      var key := BandKey(sig, nFiles, rowsPerBlock, b, col);
      if 0 in key {
        continue;
      }
      if key in seen {
        var xs := seen[key];
        ghost var before := adj;
        for t := 0 to |xs|
          invariant IsSquare(adj) && |adj| == nFiles
          invariant forall x, y :: 0 <= x < nFiles && 0 <= y < nFiles ==>
            adj[x][y] == before[x][y] + (if y == col && x in xs[..t] then 1 else 0)
        {
          assert xs[..t + 1] == xs[..t] + [xs[t]];
          adj := Bump(adj, xs[t], col);
        }
        assert xs[..|xs|] == xs;
        seen := seen[key := xs + [col]];
      } else {
        seen := seen[key := [col]];
      }
    }
  }

  /**
   * `xs` lists, in increasing order, exactly the columns before `col` whose band-`b`
   * values are `key`.
   */
  ghost predicate Listed(sig: seq<seq<nat>>, nFiles: nat, rowsPerBlock: nat, b: nat, col: nat,
                         key: seq<nat>, xs: seq<nat>)
    requires IsMatrix(sig, |sig|, nFiles)
    requires b * rowsPerBlock + rowsPerBlock <= |sig|
  {
    && (forall t :: 0 <= t < |xs| ==> xs[t] < col && xs[t] < nFiles)
    && (forall t, u :: 0 <= t < u < |xs| ==> xs[t] < xs[u])
    && (forall x :: 0 <= x < col && x < nFiles ==> (x in xs <==> BandKey(sig, nFiles, rowsPerBlock, b, x) == key))
  }
}
