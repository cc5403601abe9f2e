/** The helpers that the `wordle_buddy` and `wordle_solver` word-bank
    managers define identically: letter grouping (`_find_duplicates`) and the
    gray and green filters. */
module BankFilters {
  import opened Seqs
  import opened Words

  /** `_find_duplicates`: the non-negative codes of `word` with their numbers
      of occurrences, in increasing code order (`np.bincount`). */
  function FindDuplicates(word: seq<int>): (r: seq<(int, nat)>)
    ensures forall j :: 0 <= j < |r| ==> r[j].0 >= 0 && r[j].0 in word && r[j].1 == Count(word, r[j].0) && r[j].1 > 0
    ensures forall c :: c in word && c >= 0 ==> exists j :: 0 <= j < |r| && r[j].0 == c
    ensures forall j, k :: 0 <= j < k < |r| ==> r[j].0 < r[k].0
  {
    // one past the largest non-negative code, the length `np.bincount` gives
    var n := if word == [] then 0 else Max(MaxOfWord(word) + 1, 0);
    var r := Bincount(word, n);
    forall j | 0 <= j < |r| ensures r[j].0 in word {
      CountPositive(word, r[j].0);
    }
    forall c | c in word && c >= 0 ensures exists j :: 0 <= j < |r| && r[j].0 == c {
      CountPositive(word, c);
      BincountCovers(word, n, c);
    }
    r
  }

  /** The codes below `n` that occur in `word`, with their counts. */
  function Bincount(word: seq<int>, n: nat): (r: seq<(int, nat)>)
    ensures forall j :: 0 <= j < |r| ==> 0 <= r[j].0 < n && r[j].1 == Count(word, r[j].0) && r[j].1 > 0
    ensures forall j, k :: 0 <= j < k < |r| ==> r[j].0 < r[k].0
  {
    if n == 0 then []
    else Bincount(word, n - 1) + (if Count(word, n - 1) > 0 then [(n - 1, Count(word, n - 1))] else [])
  }

  lemma {:induction false} BincountCovers(word: seq<int>, n: nat, c: int)
    requires 0 <= c < n && Count(word, c) > 0
    ensures exists j :: 0 <= j < |Bincount(word, n)| && Bincount(word, n)[j].0 == c
  {
    var prev := Bincount(word, n - 1);
    var r := Bincount(word, n);
    if c == n - 1 {
      assert r[|prev|].0 == c;
    } else {
      BincountCovers(word, n - 1, c);
      var j :| 0 <= j < |prev| && prev[j].0 == c;
      assert r[j].0 == c;
    }
  }

  /** `_remove_gray` keeps the words without the letter. */
  predicate GrayKeeps(w: Word, incorrect: int)
  {
    incorrect !in w
  }

  /** `_remove_green` keeps the words with the letter at `index`. */
  predicate GreenKeeps(w: Word, index: nat, letter: int)
  {
    index < WordLength && w[index] == letter
  }
}
