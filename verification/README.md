# MTG-Similarity in Dafny

A model of the card-similarity pipeline of MTG-Similarity and proofs about it. The pipeline groups Magic cards whose oracle texts look alike. It runs six pure stages:

1. **Shingling** (`kshingles`). A card's oracle text becomes a set of character 3-windows. As written, `kshingles` misses the windows at the last two start offsets, which is all windows when the text has at most 4 characters (see Findings). The pipeline is modelled with the complete window set, and the as-written set is related to it exactly.
2. **Frequency counting** (`add_to_dict`). Each shingle is counted once per card that contains it.
3. **Vocabulary** (`imp_shins`). The shingles found in at least 4 cards are numbered 0, 1, 2, … in ascending order.
4. **Characteristic matrix** (`generate_shingle_bin`, `generate_shingle_bin_matrix`). Each card becomes a 0/1 column over the vocabulary.
5. **MinHash** (`randfun`, `minhash`). For each signature row a hash maps scan offset `i` to row `(a*i + b) mod n` of the matrix. This is a permutation only when gcd(a, n) = 1 and `max_rows - 1 <= n`; otherwise rows can repeat. The entry of a card is 1 + the first scanned offset where the card has a 1, or 0 when there is none.
6. **Banding and clustering** (`sim_vote`, `make_undir`, `strongly_connected`). Signature rows are cut into bands. Two cards get a vote for each band in which their values agree and contain no 0. Pairs with enough votes become edges. The symmetrised graph is split into connected components by a breadth-first scan.

`card_similarity` composes the stages. `concom.py` holds a copy of the component routine (`concom2`, with its own `make_undir`) and two sample digraphs `A` and `B`, whose results it prints.

Modules:
- `Common`: the result type, the pipeline's errors, matrices, and the size of a sequence's set of items.
- `FilesimHelper`: `kshingles` and `add_to_dict`.
- `ShingleOrder`: the tuple order `sorted` uses.
- `Vocabulary`: `imp_shins`.
- `Characteristic`: the bit vectors and the matrix.
- `MinHash`: the hash functions and `minhash`.
- `Banding`: `sim_vote`.
- `Components`: `make_undir` and the breadth-first scan.
- `Concom`: the samples.
- `CardSim`: the composition.

Each `sys.exit` path becomes a `Failure` result. The random draws of `minhash` are passed in as parameters.

## Model

| member | source | states |
|---|---|---|
| FilesimHelper.KShingles | filesim_helper.py:2-4 | The code as written. Every shingle is the k-window at some start `i` with `i + k + 2 <= len`, and every such window is in the set. The set is empty when the data has at most k + 1 items. |
| FilesimHelper.KShinglesDropsLastTwo | filesim_helper.py:3 | `kshingles(data, k)` equals the complete window set of `data` with its last two items removed. |
| FilesimHelper.KShinglesMissesFinalWindows | filesim_helper.py:3 | On "abcd" with k = 3, `kshingles` yields nothing. The complete window set is {"abc", "bcd"}. |
| FilesimHelper.AllKShingles | filesim_helper.py:3 | The corrected shingling. Its elements are exactly the k-windows at every start `0 .. len - k`. |
| FilesimHelper.KShinglesCard | filesim_helper.py:3 | The result is a set. Repeated windows collapse, so there are at most `len - k - 1` shingles. |
| FilesimHelper.AddToDict | filesim_helper.py:8-12 | An absent key gets `on_creation`. A present key goes up by exactly 1. No other key changes, and no key is lost. |
| FilesimHelper.AddRepeatedlyCounts | filesim_helper.py:8-12 | With the default `on_creation = 1`, m calls on an absent key leave it at m. The other keys are untouched. |
| ShingleOrder.LessIsStrictTotalOrder | cardsim.py:186 | The lexicographic tuple order used by `sorted` is irreflexive, transitive and total. |
| ShingleOrder.SortedKeys | cardsim.py:186 | `sorted(shin_freq.keys())` lists exactly the keys, in strictly ascending order. |
| Vocabulary.CardCountPositive | cardsim.py:179-182 | A shingle has a nonzero card count exactly when some card contains it. |
| Vocabulary.ShingleFrequencies | cardsim.py:177-182 | The counting loop's dictionary has exactly the shingles of all cards as keys. Each value is the number of cards containing that shingle, not its number of occurrences. |
| Vocabulary.NumberFrequent | cardsim.py:184-189 | The numbering loop keeps exactly the shingles whose count reaches `minVal`. It numbers them 0 .. m-1 with no gap or repeat, in ascending shingle order. |
| Vocabulary.ImpShins | cardsim.py:176-192 | `imp_shins` returns exactly the shingles found in at least `minVal` cards, densely numbered, with `s < t` implying `idx(s) < idx(t)`. |
| Characteristic.GenerateShingleBin | cardsim.py:36-61 | Fails exactly on an empty vocabulary. Otherwise bit `j` is set iff the card holds the shingle numbered `j`. Shingles outside the vocabulary are ignored. |
| Characteristic.GenerateShingleBinMatrix | cardsim.py:64-73 | The result is a \|vocab\| by \|cards\| matrix whose column `i` is the bit vector of card `i`. It fails only when the vocabulary is empty and there is at least one card. |
| MinHash.Hash | cardsim.py:76-77 | `(a*x + b) mod n` always lands on a row of an n-row matrix. |
| MinHash.HashCanRepeatRows | cardsim.py:76-77 | The hash is not always one-to-one. With a = 2 and n = 4, offsets 0 and 2 both probe row 0. With a = 3 and n = 5, offsets 0 and 5 both probe row 1. |
| MinHash.ArgMax | cardsim.py:99 | numpy `argmax` returns the first index holding the largest value. |
| MinHash.ArgMaxIsFirstHit | cardsim.py:89-99 | `argmax` over the column with a leading zero row gives 0 when no probed row has a 1. Otherwise it gives 1 + the first probed offset with a 1. |
| MinHash.FirstHitUnique | cardsim.py:89-99 | The first-hit characterisation determines the signature entry uniquely. |
| MinHash.MinHashMatrix | cardsim.py:80-101 | Fails exactly when signatures are wanted and either `max_rows - 1` is negative or there is no prime below `n_shingles`. Otherwise every entry is in `[0, max_rows-1]` and is the column's first hit under that row's hash. |
| MinHash.SameColumnSameHit | cardsim.py:92-99 | Two columns with the same bits have the same first hit under any hash. |
| MinHash.EqualColumnsEqualSignatures | cardsim.py:92-99 | Cards whose characteristic columns are equal get equal signatures. |
| Banding.VoteCountIsAgreeingBands | cardsim.py:115-133 | The vote count of (x, y) is the number of bands in which x < y and the two band keys are equal and free of 0. |
| Banding.NoVotesBackwards | cardsim.py:126-129 | Votes only go from an earlier column to a later one. The diagonal and the lower triangle get none. |
| Banding.BandKeyIsReshape | cardsim.py:115-122 | The band key of column `col` in band `b` holds, at position `r`, the item at row-major offset `b * (rows_per_block * n_files) + r * n_files + col` of the flattened signature. That offset is what `np.reshape` to (blocks, rows_per_block, n_files) and `hashmat[b_ind, :, col]` read. |
| Banding.VoteBand | cardsim.py:118-133 | One pass of the per-band dictionary loop adds exactly one vote to each pair that agrees in that band, and nothing else. |
| Banding.SimVote | cardsim.py:105-137 | Fails exactly when `blocks * rows_per_block` differs from the number of signature rows. Otherwise it returns the thresholded vote matrix. |
| Banding.VoteMatrixEdges | cardsim.py:113-137 | For `reqVotes >= 1`, cell (x, y) is 1 iff x < y and at least `reqVotes` bands agree. |
| Banding.RaisingVotesNeverAddsEdges | cardsim.py:136-137 | A higher threshold never adds an edge. |
| Banding.NonPositiveThresholdIsComplete | cardsim.py:136-137 | With `reqVotes <= 0` every cell is 1, the diagonal included. |
| Components.MakeUndir | cardsim.py:140-146 | The result is a square 0/1 matrix of the same size. Cell (i, j) is 1 iff `adj[i][j]` or `adj[j][i]` is nonzero. `concom.py:22-27` is the same code. |
| Components.MakeUndirSymmetric | concom.py:22-27 | The symmetrised matrix is symmetric, and symmetrising it again changes nothing. |
| Components.ConnectedIffWeaklyConnected | concom.py:22-27 | A path in the symmetrised graph is exactly a path of the digraph with edges taken in either direction. |
| Components.Expand | cardsim.py:165-171 | Expanding the dequeued vertex keeps the list so far as a prefix. After it come only neighbours of that vertex that were unvisited, in ascending order, and every such neighbour is among them. The component invariants (new members visited and recorded) and the breadth-first order are kept, and the count of unvisited vertices plus queued ones drops. |
| Components.Explore | cardsim.py:156-171 | Each new root grows a component that starts with the root, contains no duplicate, is closed under edges, is connected to the root, and is in breadth-first order. |
| Components.Scan | cardsim.py:151-172 | The scan over all vertices returns component lists. The lists partition 0 .. n-1 without duplicates. Each starts with its smallest vertex. They are ordered by that vertex. Each is closed under edges, connected to its first vertex and in breadth-first discovery order. |
| Components.ToDict | cardsim.py:157-161 | The lists are keyed 0 .. c-1 in discovery order. |
| Components.ConnectedComponents | cardsim.py:149-172 | `strongly_connected` / `concom2` returns components keyed 0 .. c-1 that satisfy all of `Scan`'s guarantees for the symmetrised graph. |
| Components.SameComponentIffConnected | cardsim.py:149-172 | Two vertices share a component iff a path joins them in the symmetrised graph. |
| Components.SameComponentIffWeaklyConnected | concom.py:29-52 | The components are the weakly connected components of the directed input. |
| Components.SubgraphRefinesComponents | cardsim.py:149-172 | With fewer edges, components can only split: vertices that share a list in the subgraph share one in the graph. |
| Components.SingleVertexComponents | cardsim.py:155-163 | A one-vertex graph yields the single component [0]. |
| Components.CompleteGraphOneComponent | cardsim.py:164-171 | When every cell is an edge, all vertices land in one component. |
| Concom.SamplesSymmetrise | concom.py:66-79 | Samples A and B both symmetrise to the triangle {0, 1, 2} plus the edge 3 - 4. |
| Concom.TriangleComponents | concom.py:29-52 | On that graph, the breadth-first guarantees leave only one possible result: [[0, 1, 2], [3, 4]]. |
| Concom.Samples | concom.py:85-86 | `concom2(A)` and `concom2(B)` both return {0: [0, 1, 2], 1: [3, 4]}. |
| CardSim.CardShingles | cardsim.py:51 | The pipeline's shingling of each card (`fsh.kshingles(words, k=3)`, also at cardsim.py:181), with the corrected window set. A shingle is in card i's set iff it is `text_i[j..j+3]` for some start `j` with `j + 3 <= len(text_i)`. |
| CardSim.CardShinglesAsWritten | cardsim.py:181 | The same calls with `kshingles` as written. A shingle is in card i's set iff it is `text_i[j..j+3]` for some start `j` with `j + 5 <= len(text_i)`. |
| CardSim.CardShinglesAsWrittenDropLastTwo | cardsim.py:51 | The as-written card shingles equal the corrected ones of the texts with their last two characters removed (empty when a text is shorter than 2). |
| CardSim.CardSimilarity | cardsim.py:25-33 | The run aborts exactly when a stage check fails, with the first failing check's error. The vocabulary is the densely, order-preservingly numbered set of shingles found in at least 4 cards. On success the groups are keyed 0 .. c-1 and are the components of the symmetrised vote graph, with all of `Scan`'s guarantees. |
| CardSim.FewCardsEmptyVocabulary | cardsim.py:176-190 | With fewer than 4 cards no shingle is counted 4 times, so the vocabulary is empty. |
| CardSim.FewCardsAbort | cardsim.py:25-27 | With 1 to 3 cards the run never gets past the checks, and the first failing one is the empty vocabulary (cardsim.py:40-42). |
| CardSim.NoThresholdOneGroup | cardsim.py:29-32 | With `votes <= 0` all cards form one group. |
| CardSim.RaisingVotesSplitsGroups | cardsim.py:29-32 | Raising `votes` only splits groups: cards grouped together under the higher threshold are grouped together under the lower one. |

## Left out

- I/O is not modelled. This covers `get_card_list` (cardsim.py:18-22), the JSON corpus, the `print` and `sys.exit` messages, the argv parsing and statistics of the main block (cardsim.py:196-265), and the script lines of concom.py. Only the failures are kept, as `Failure` results.
- `concom.DFS` (concom.py:9-19) is left out: it only prints a traversal.
- Randomness is replaced by parameters. `choice(oddprimes)` and `randrange(n_shingles)` (cardsim.py:92) become one `HashParams(a, b)` per signature row. The contracts hold for every `a` and `b`, so the hash multiplier is not required to be one of `primerange(2, n_shingles)`. Only the emptiness of that range matters, and it is modelled.
- The key-type check at cardsim.py:44-47 is left out. It is a Python dynamic-typing guard, and in this model the shingles have a fixed type.
- Integer widths are left out. The model uses unbounded naturals where the code uses numpy `uint8` and `uint32` arrays. In particular, `make_undir` is modelled on nonnegative entries, so the wrap-around of `adj + adj.T` in `uint8` does not arise.
- `num_minhashes`, `blocks`, `rows_per_block` and `max_rows` are naturals. Negative command-line values are not modelled.
- CardSim.CardSimilarity: `card_similarity` passes the global `all_cards` rather than its `cards` parameter to `imp_shins` (cardsim.py:26). The model builds the vocabulary from the cards it is given, which matches the only call site (cardsim.py:235).
- CardSim.CardSimilarity: the pipeline shingles with the corrected `AllKShingles`, not with the as-written `KShingles`. The difference is exactly the windows at the last two start offsets, or all windows when a text has at most 4 characters (`KShinglesDropsLastTwo`). By `CardShinglesAsWrittenDropLastTwo`, the pipeline as written is `CardSimilarity` on the texts cut short by two characters.
- CardSim.CardSimilarity: the errors are reported in the order the code meets them. The `blocks * rows_per_block` check runs inside `sim_vote` (cardsim.py:107-111), after the vocabulary, matrix and MinHash stages. An empty vocabulary aborts only when at least one card is processed (cardsim.py:40-42, 70-71).

## Findings

| source | as written | input that shows it | evidently intended | confidence | as-written member | corrected member |
|---|---|---|---|---|---|---|
| filesim_helper.py:3 | `range(len(data)-k-1)` gives window starts 0 .. len-k-2 only | `kshingles("abcd", 3)` is the empty set, although "abc" and "bcd" are both windows | `range(len(data)-k+1)`: every window, starts 0 .. len-k | not executed | FilesimHelper.KShinglesMissesFinalWindows | FilesimHelper.AllKShingles |
