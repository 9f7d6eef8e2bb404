/**
 * The two helpers the pipeline relies on: character shingling and the
 * insert-or-increment update of a frequency dictionary.
 */
module FilesimHelper {
  import opened Common

  /** The `k` consecutive items of `data` starting at offset `i`. */
  function Window<T>(data: seq<T>, k: nat, i: nat): (w: seq<T>)
    requires i + k <= |data|
    ensures |w| == k
  {
    data[i..i+k]
  }

  /**
   * `kshingles(data, k)` as written: the windows starting at the offsets
   * `range(len(data) - k - 1)`, that is 0 .. |data|-k-2, collected into a set.
   */
  function KShingles<T(==)>(data: seq<T>, k: nat): (r: set<seq<T>>)
    ensures forall s :: s in r ==> |s| == k
    ensures forall i: nat :: i + k + 2 <= |data| ==> Window(data, k, i) in r
    ensures forall s :: s in r ==> exists i: nat :: i + k + 2 <= |data| && s == Window(data, k, i)
    ensures |data| <= k + 1 ==> r == {}
  {
    set i: nat | i + k + 2 <= |data| :: Window(data, k, i)
  }

  /**
   * The shingles `kshingles` evidently intends: every window of `k` consecutive items,
   * starting at any offset 0 .. |data|-k.
   */
  function AllKShingles<T(==)>(data: seq<T>, k: nat): (r: set<seq<T>>)
    ensures forall s :: s in r ==> |s| == k
    ensures forall i: nat :: i + k <= |data| ==> Window(data, k, i) in r
    ensures forall s :: s in r ==> exists i: nat :: i + k <= |data| && s == Window(data, k, i)
  {
    set i: nat | i + k <= |data| :: Window(data, k, i)
  }

  /** `kshingles` as written is the complete shingler applied to the data minus its last two items. */
  lemma KShinglesDropsLastTwo<T>(data: seq<T>, k: nat)
    requires |data| >= 2
    ensures KShingles(data, k) == AllKShingles(data[..|data| - 2], k)
  {
    var short := data[..|data| - 2];
    forall s | s in KShingles(data, k)
      ensures s in AllKShingles(short, k)
    {
      var i: nat :| i + k + 2 <= |data| && s == Window(data, k, i);
      WindowOfPrefix(data, |data| - 2, k, i);
    }
    forall s | s in AllKShingles(short, k)
      ensures s in KShingles(data, k)
    {
      var i: nat :| i + k <= |short| && s == Window(short, k, i);
      WindowOfPrefix(data, |data| - 2, k, i);
    }
  }

  /** A window that fits in a prefix reads the same in the prefix and in the whole. */
  lemma WindowOfPrefix<T>(data: seq<T>, m: nat, k: nat, i: nat)
    requires i + k <= m <= |data|
    ensures Window(data[..m], k, i) == Window(data, k, i)
  {
    assert forall t :: 0 <= t < k ==> Window(data[..m], k, i)[t] == data[i + t] == Window(data, k, i)[t];
  }

  /**
   * The two final windows are lost: on "abcd" with k = 3 `kshingles` yields no shingle,
   * although "abc" and "bcd" are windows of the text.
   */
  lemma KShinglesMissesFinalWindows()
    ensures KShingles("abcd", 3) == {}
    ensures AllKShingles("abcd", 3) == {"abc", "bcd"}
  {
    var all := AllKShingles("abcd", 3);
    var w0 := Window("abcd", 3, 0);
    var w1 := Window("abcd", 3, 1);
    assert w0[0] == 'a' && w0[1] == 'b' && w0[2] == 'c';
    assert w1[0] == 'b' && w1[1] == 'c' && w1[2] == 'd';
    assert w0 == "abc" && w1 == "bcd";
    forall s | s in all
      ensures s == "abc" || s == "bcd"
    {
      var i: nat :| i + 3 <= 4 && s == Window("abcd", 3, i);
      assert i == 0 || i == 1;
    }
  }

  /** A window that occurs at several offsets is one shingle: at most one shingle per offset. */
  lemma KShinglesCard<T>(data: seq<T>, k: nat)
    ensures |KShingles(data, k)| <= if |data| >= k + 1 then |data| - k - 1 else 0
  {
    var n := if |data| >= k + 1 then |data| - k - 1 else 0;
    var windows := seq(n, i requires 0 <= i < n => Window(data, k, i));
    assert KShingles(data, k) == set x | x in windows by {
      forall s | s in KShingles(data, k)
        ensures s in windows
      {
        var i: nat :| i + k + 2 <= |data| && s == Window(data, k, i);
        assert windows[i] == s;
      }
    }
    SetOfSeqCard(windows);
  }

  /**
   * `add_to_dict`: a missing key is created with `onCreation`, a present one goes up by
   * exactly one, and every other entry is left alone.
   */
  function AddToDict<K>(key: K, dictionary: map<K, nat>, onCreation: nat): (r: map<K, nat>)
    ensures r.Keys == dictionary.Keys + {key}
    ensures r[key] == if key in dictionary then dictionary[key] + 1 else onCreation
    ensures forall other :: other in dictionary && other != key ==> r[other] == dictionary[other]
  {
    if key !in dictionary then dictionary[key := onCreation]
    else dictionary[key := dictionary[key] + 1]
  }

  /** `m` successive `add_to_dict(key, d)` calls with the default `on_creation = 1`. */
  function AddRepeatedly<K>(key: K, dictionary: map<K, nat>, m: nat): (r: map<K, nat>)
  {
    if m == 0 then dictionary else AddToDict(key, AddRepeatedly(key, dictionary, m - 1), 1)
  }

  /** Starting from a dictionary without the key, m calls leave the value m and touch nothing else. */
  lemma {:induction false} AddRepeatedlyCounts<K>(key: K, dictionary: map<K, nat>, m: nat)
    requires key !in dictionary
    requires m >= 1
    ensures AddRepeatedly(key, dictionary, m).Keys == dictionary.Keys + {key}
    ensures AddRepeatedly(key, dictionary, m)[key] == m
    ensures forall other :: other in dictionary ==> AddRepeatedly(key, dictionary, m)[other] == dictionary[other]
  {
    if m > 1 {
      AddRepeatedlyCounts(key, dictionary, m - 1);
    } else {
      assert AddRepeatedly(key, dictionary, 0) == dictionary;
    }
  }
}
