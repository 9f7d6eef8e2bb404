/**
 * The vocabulary builder `imp_shins`: count in how many cards each shingle occurs,
 * keep the shingles with at least `minVal` cards, and number the survivors
 * 0, 1, 2, ... in ascending shingle order.
 */
module Vocabulary {
  import opened Common
  import opened FilesimHelper
  import opened ShingleOrder

  /** Every shingle some card contains. */
  function AllShingles(cards: seq<set<Shingle>>): (r: set<Shingle>)
    ensures forall c :: 0 <= c < |cards| ==> cards[c] <= r
  {
    if |cards| == 0 then {} else AllShingles(cards[..|cards| - 1]) + cards[|cards| - 1]
  }

  /** The number of cards whose shingle set contains `s` (each card counts once). */
  function CardCount(cards: seq<set<Shingle>>, s: Shingle): (n: nat)
    ensures n <= |cards|
  {
    if |cards| == 0 then 0
    else CardCount(cards[..|cards| - 1], s) + (if s in cards[|cards| - 1] then 1 else 0)
  }

  /** A shingle is counted at least once exactly when some card contains it. */
  lemma {:induction false} CardCountPositive(cards: seq<set<Shingle>>, s: Shingle)
    ensures CardCount(cards, s) > 0 <==> s in AllShingles(cards)
  {
    if |cards| > 0 {
      CardCountPositive(cards[..|cards| - 1], s);
    }
  }

  /**
   * The first loop of `imp_shins`: `add_to_dict` every shingle of every card into an
   * initially empty dictionary.
   */
  method ShingleFrequencies(cards: seq<set<Shingle>>) returns (freq: map<Shingle, nat>)
    ensures freq.Keys == AllShingles(cards)
    ensures forall s :: s in freq ==> freq[s] == CardCount(cards, s)
  {
    freq := map[];
    for i := 0 to |cards|
      invariant freq.Keys == AllShingles(cards[..i])
      invariant forall s :: s in freq ==> freq[s] == CardCount(cards[..i], s)
    {
      assert cards[..i + 1][..i] == cards[..i];
      var rest := cards[i];
      while rest != {}
        invariant rest <= cards[i]
        invariant freq.Keys == AllShingles(cards[..i]) + (cards[i] - rest)
        invariant forall s :: s in freq ==>
          freq[s] == CardCount(cards[..i], s) + (if s in cards[i] - rest then 1 else 0)
        decreases rest
      {
        var s :| s in rest;
        CardCountPositive(cards[..i], s);
        freq := AddToDict(s, freq, 1);
        rest := rest - {s};
      }
    }
    assert cards[..|cards|] == cards;
  }

  /**
   * What the numbering loop has built after visiting `ks[..j]`: `kept` lists, in
   * order, the frequent shingles seen so far, and `vocab` maps `kept[m]` to `m`.
   */
  ghost predicate Numbered(ks: seq<Shingle>, freq: map<Shingle, nat>, minVal: int, j: nat,
                           vocab: map<Shingle, nat>, kept: seq<Shingle>)
    requires j <= |ks|
    requires forall q :: 0 <= q < |ks| ==> ks[q] in freq
  {
    && |kept| == |vocab|
    && (forall s :: s in vocab <==> s in kept)
    && (forall m :: 0 <= m < |kept| ==> vocab[kept[m]] == m)
    && (forall m :: 0 <= m < |kept| ==> kept[m] in ks && freq[kept[m]] >= minVal)
    && (forall q :: 0 <= q < j && freq[ks[q]] >= minVal ==> ks[q] in vocab)
    && (forall m, q :: 0 <= m < |kept| && j <= q < |ks| ==> Less(kept[m], ks[q]))
    && StrictlySorted(kept)
  }

  /** Appending a shingle larger than every remaining one keeps `kept` sorted below the rest. */
  lemma NumberedTakeOrder(ks: seq<Shingle>, j: nat, kept: seq<Shingle>)
    requires j < |ks|
    requires StrictlySorted(ks)
    requires forall m, q :: 0 <= m < |kept| && j <= q < |ks| ==> Less(kept[m], ks[q])
    requires StrictlySorted(kept)
    ensures forall m, q :: 0 <= m < |kept + [ks[j]]| && j + 1 <= q < |ks| ==> Less((kept + [ks[j]])[m], ks[q])
    ensures StrictlySorted(kept + [ks[j]])
  {
    var kept' := kept + [ks[j]];
    forall m, q | 0 <= m < |kept'| && j + 1 <= q < |ks|
      ensures Less(kept'[m], ks[q])
    {
      if m < |kept| {
        assert kept'[m] == kept[m];
      }
    }
    forall a, b | 0 <= a < b < |kept'|
      ensures Less(kept'[a], kept'[b])
    {
      assert kept'[a] == kept[a];
      if b < |kept| {
        assert kept'[b] == kept[b];
      }
    }
  }

  /** One frequent shingle gets the next index. */
  lemma NumberedTake(ks: seq<Shingle>, freq: map<Shingle, nat>, minVal: int, j: nat,
                     vocab: map<Shingle, nat>, kept: seq<Shingle>)
    requires j < |ks|
    requires forall q :: 0 <= q < |ks| ==> ks[q] in freq
    requires StrictlySorted(ks)
    requires Numbered(ks, freq, minVal, j, vocab, kept)
    requires freq[ks[j]] >= minVal
    ensures ks[j] !in vocab
    ensures Numbered(ks, freq, minVal, j + 1, AddToDict(ks[j], vocab, |kept|), kept + [ks[j]])
  {
    var k := ks[j];
    assert k !in vocab by {
      if k in vocab {
        var m :| 0 <= m < |kept| && kept[m] == k;
        LessIrreflexive(k);
      }
    }
    var vocab' := AddToDict(k, vocab, |kept|);
    var kept' := kept + [k];
    NumberedTakeOrder(ks, j, kept);
    forall m | 0 <= m < |kept'|
      ensures vocab'[kept'[m]] == m
      ensures kept'[m] in ks && freq[kept'[m]] >= minVal
    {
      if m < |kept| {
        assert kept'[m] == kept[m];
      }
    }
    forall q | 0 <= q < j + 1 && freq[ks[q]] >= minVal
      ensures ks[q] in vocab'
    {
      if q < j {
        assert ks[q] in vocab;
      }
    }
  }

  /** A rare shingle is passed over. */
  lemma NumberedSkip(ks: seq<Shingle>, freq: map<Shingle, nat>, minVal: int, j: nat,
                     vocab: map<Shingle, nat>, kept: seq<Shingle>)
    requires j < |ks|
    requires forall q :: 0 <= q < |ks| ==> ks[q] in freq
    requires Numbered(ks, freq, minVal, j, vocab, kept)
    requires freq[ks[j]] < minVal
    ensures Numbered(ks, freq, minVal, j + 1, vocab, kept)
  {
  }

  /** Once every shingle is visited the numbering is dense and order-preserving. */
  lemma NumberedDone(ks: seq<Shingle>, freq: map<Shingle, nat>, minVal: int,
                     vocab: map<Shingle, nat>, kept: seq<Shingle>)
    requires forall q :: 0 <= q < |ks| ==> ks[q] in freq
    requires Numbered(ks, freq, minVal, |ks|, vocab, kept)
    ensures forall s :: s in vocab <==> s in ks && freq[s] >= minVal
    ensures DenseIndex(vocab)
    ensures forall s, t :: s in vocab && t in vocab && Less(s, t) ==> vocab[s] < vocab[t]
  {
    forall s, t | s in vocab && t in vocab
      ensures vocab[s] < |vocab|
      ensures s != t ==> vocab[s] != vocab[t]
      ensures Less(s, t) ==> vocab[s] < vocab[t]
    {
      var a :| 0 <= a < |kept| && kept[a] == s;
      var b :| 0 <= b < |kept| && kept[b] == t;
      if Less(s, t) && b <= a {
        if b < a { LessAsymmetric(t, s); } else { LessIrreflexive(s); }
      }
    }
    forall m | 0 <= m < |vocab|
      ensures m in vocab.Values
    {
      assert vocab[kept[m]] == m;
    }
    forall s | s in ks && freq[s] >= minVal
      ensures s in vocab
    {
      var q :| 0 <= q < |ks| && ks[q] == s;
    }
  }

  /**
   * The second loop of `imp_shins`: walk the shingles in ascending order and give each
   * one whose count reaches `minVal` the next free index via `add_to_dict(k, ordered, i)`.
   */
  method NumberFrequent(ks: seq<Shingle>, freq: map<Shingle, nat>, minVal: int) returns (vocab: map<Shingle, nat>)
    requires StrictlySorted(ks)
    requires forall j :: 0 <= j < |ks| ==> ks[j] in freq
    ensures forall s :: s in vocab <==> s in ks && freq[s] >= minVal
    ensures DenseIndex(vocab)
    ensures forall s, t :: s in vocab && t in vocab && Less(s, t) ==> vocab[s] < vocab[t]
  {
    vocab := map[];
    var i: nat := 0;
    ghost var kept: seq<Shingle> := [];
    for j := 0 to |ks|
      invariant i == |kept|
      invariant Numbered(ks, freq, minVal, j, vocab, kept)
    {
      var k := ks[j];
      if freq[k] >= minVal {
        NumberedTake(ks, freq, minVal, j, vocab, kept);
        vocab := AddToDict(k, vocab, i);
        kept := kept + [k];
        i := i + 1;
      } else {
        NumberedSkip(ks, freq, minVal, j, vocab, kept);
      }
    }
    NumberedDone(ks, freq, minVal, vocab, kept);
  }

  /**
   * `imp_shins(cards, minVal)`: the shingles found in at least `minVal` cards, each
   * mapped to its position among them in ascending order.
   */
  method ImpShins(cards: seq<set<Shingle>>, minVal: int) returns (vocab: map<Shingle, nat>)
    ensures forall s :: s in vocab ==> s in AllShingles(cards) && CardCount(cards, s) >= minVal
    ensures forall s :: s in AllShingles(cards) && CardCount(cards, s) >= minVal ==> s in vocab
    ensures DenseIndex(vocab)
    ensures forall s, t :: s in vocab && t in vocab && Less(s, t) ==> vocab[s] < vocab[t]
  {
    var freq := ShingleFrequencies(cards);
    var ks := SortedKeys(freq.Keys);
    vocab := NumberFrequent(ks, freq, minVal);
  }
}
