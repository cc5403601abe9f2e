/** The two heaps of `GuessHelper.find_optimal_guesses` (guessing.py): a heap
    is modelled by the multiset of its entries, held in a sequence whose order
    is not the heap layout; `heap[0]` is the least entry. */
module HeapSelection {
  import opened Ordering
  import opened Outcomes
  import Seqs

  /** `heap[0]`: the least entry of a non-empty heap. */
  function MinOf(h: seq<Entry>): (r: Entry)
    requires h != []
    ensures r in h
    ensures forall x :: x in h ==> EntryLe(r, x)
  {
    if |h| == 1 then h[0]
    else
      var m := MinOf(h[1..]);
      assert h == [h[0]] + h[1..];
      EntryLeTotal(h[0], m);
      if EntryLe(h[0], m) then
        assert forall x :: x in h[1..] ==> EntryLe(h[0], x) by {
          forall x | x in h[1..] ensures EntryLe(h[0], x) {
            EntryLeTransitive(h[0], m, x);
          }
        }
        h[0]
      else m
  }

  /** The heap with one copy of `x` taken out. */
  function Remove(h: seq<Entry>, x: Entry): (r: seq<Entry>)
    requires x in h
    ensures |r| == |h| - 1
    ensures multiset(r) == multiset(h) - multiset{x}
  {
    assert h == [h[0]] + h[1..];
    if h[0] == x then h[1..] else [h[0]] + Remove(h[1..], x)
  }

  /** `heapq.heappushpop`: the least entry gives way to a strictly greater
      newcomer; otherwise, and on an empty heap, the newcomer is turned away. */
  function PushPop(h: seq<Entry>, x: Entry): (r: seq<Entry>)
    ensures |r| == |h|
    ensures multiset(r) <= multiset(h) + multiset{x}
    ensures x in r <==> x in h || (h != [] && EntryLt(MinOf(h), x))
  {
    if h != [] && EntryLt(MinOf(h), x) then Remove(h, MinOf(h)) + [x] else h
  }

  /** `heapq.heapreplace`: the least entry is popped (IndexError on an empty
      heap) and the newcomer pushed, whatever its value. */
  function Replace(h: seq<Entry>, x: Entry): (r: Result<seq<Entry>>)
    ensures r.Ok? <==> h != []
    ensures r.Ok? ==> |r.value| == |h| && x in r.value
    ensures r.Ok? ==> multiset(r.value) == multiset(h) - multiset{MinOf(h)} + multiset{x}
  {
    if h == [] then Err(IndexError) else Ok(Remove(h, MinOf(h)) + [x])
  }

  /** One step of the best heap: `heappush` while it holds fewer than `k`
      entries, `heappushpop` after. */
  function BestStep(h: seq<Entry>, x: Entry, k: int): (r: seq<Entry>)
    ensures |h| < k ==> r == h + [x]
    ensures |h| >= k ==> r == PushPop(h, x)
  {
    if |h| < k then h + [x] else PushPop(h, x)
  }

  /** One step of the worst heap: `heappush` while it holds fewer than `k`
      entries, `heapreplace` after. */
  function WorstStep(h: seq<Entry>, x: Entry, k: int): (r: Result<seq<Entry>>)
    ensures |h| < k ==> r == Ok(h + [x])
    ensures |h| >= k ==> r == Replace(h, x)
    ensures r.Ok? <==> |h| < k || h != []
    ensures r.Ok? ==> x in r.value
  {
    if |h| < k then Ok(h + [x]) else Replace(h, x)
  }

  /** The best heap after the entries of `items`, in order. */
  function BestFold(items: seq<Entry>, k: int): seq<Entry>
  {
    if items == [] then []
    else BestStep(BestFold(items[..|items| - 1], k), items[|items| - 1], k)
  }

  /** The worst heap after the entries of `items`, or the first error. */
  function WorstFold(items: seq<Entry>, k: int): Result<seq<Entry>>
  {
    if items == [] then Ok([])
    else
      match WorstFold(items[..|items| - 1], k)
      case Err(e) => Err(e)
      case Ok(h) => WorstStep(h, items[|items| - 1], k)
  }

  /** While at most `k` entries have arrived, the best heap holds them all. */
  lemma {:induction false} BestFoldShort(items: seq<Entry>, k: int)
    requires |items| <= k
    ensures BestFold(items, k) == items
  {
    if items != [] {
      BestFoldShort(items[..|items| - 1], k);
      assert items == items[..|items| - 1] + [items[|items| - 1]];
    }
  }

  /** `h` holds entries of `items`, and no entry of `items` left out of `h`
      is greater than an entry of `h`. */
  predicate KeepsLargest(items: seq<Entry>, h: seq<Entry>)
  {
    multiset(h) <= multiset(items)
    && forall x, y :: x in multiset(items) - multiset(h) && y in h ==> EntryLe(x, y)
  }

  /** The best heap holds `min(k, n)` of the `n` entries (none when `k <= 0`). */
  lemma {:induction false} BestFoldSize(items: seq<Entry>, k: int)
    ensures |BestFold(items, k)| == Seqs.Min(Seqs.Max(k, 0), |items|)
  {
    if items != [] {
      BestFoldSize(items[..|items| - 1], k);
    }
  }

  /** The best heap holds the largest entries seen: no entry left out is
      greater than an entry kept. */
  lemma {:induction false} BestFoldIsTopK(items: seq<Entry>, k: int)
    ensures KeepsLargest(items, BestFold(items, k))
  {
    if items != [] {
      var n := |items| - 1;
      assert items == items[..n] + [items[n]];
      BestFoldIsTopK(items[..n], k);
      if n < k {
        BestFoldShort(items, k);
      } else {
        BestFoldSize(items[..n], k);
        BestStepKeepsLargest(items[..n], BestFold(items[..n], k), items[n], k);
      }
    }
  }

  /** A `heappushpop` step on a full heap keeps the largest entries seen. */
  lemma BestStepKeepsLargest(init: seq<Entry>, h: seq<Entry>, x: Entry, k: int)
    requires KeepsLargest(init, h) && |h| >= k
    ensures KeepsLargest(init + [x], BestStep(h, x, k))
  {
    if h != [] && EntryLt(MinOf(h), x) {
      EvictMinKeepsLargest(init, h, x);
    } else if h != [] {
      EntryLeTotal(MinOf(h), x);
      RejectKeepsLargest(init, h, x);
    } else {
      assert multiset(init + [x]) == multiset(init) + multiset{x};
    }
  }

  /** The least entry gives way to a greater newcomer. */
  lemma EvictMinKeepsLargest(init: seq<Entry>, h: seq<Entry>, x: Entry)
    requires KeepsLargest(init, h) && h != [] && EntryLt(MinOf(h), x)
    ensures KeepsLargest(init + [x], Remove(h, MinOf(h)) + [x])
  {
    var m := MinOf(h);
    var rest := Remove(h, m);
    var items := init + [x];
    var h' := rest + [x];
    assert multiset(items) == multiset(init) + multiset{x};
    assert multiset(h') == multiset(h) - multiset{m} + multiset{x};
    forall d, y | d in multiset(items) - multiset(h') && y in h' ensures EntryLe(d, y) {
      assert y == x || y in multiset(rest);
      if d != m {
        assert multiset(items)[d] == multiset(init)[d] + (if d == x then 1 else 0);
        assert multiset(h')[d] == multiset(h)[d] + (if d == x then 1 else 0);
        assert d in multiset(init) - multiset(h);
        EntryLeTransitive(d, m, x);
      }
    }
  }

  /** A newcomer no greater than the least entry is turned away. */
  lemma RejectKeepsLargest(init: seq<Entry>, h: seq<Entry>, x: Entry)
    requires KeepsLargest(init, h) && h != [] && EntryLe(x, MinOf(h))
    ensures KeepsLargest(init + [x], h)
  {
    var m := MinOf(h);
    var items := init + [x];
    assert multiset(items) == multiset(init) + multiset{x};
    forall d, y | d in multiset(items) - multiset(h) && y in h ensures EntryLe(d, y) {
      if d == x {
        EntryLeTransitive(x, m, y);
      } else {
        assert d in multiset(init) - multiset(h);
      }
    }
  }

  /** With `k >= 1` the worst heap never fails: it holds `min(k, n)` entries,
      taken from the `n` entries, and always the last one. */
  lemma {:induction false} WorstFoldShape(items: seq<Entry>, k: int)
    requires k >= 1
    ensures WorstFold(items, k).Ok?
    ensures |WorstFold(items, k).value| == Seqs.Min(k, |items|)
    ensures multiset(WorstFold(items, k).value) <= multiset(items)
    ensures items != [] ==> items[|items| - 1] in WorstFold(items, k).value
  {
    if items != [] {
      var n := |items| - 1;
      var pre, x := items[..n], items[n];
      assert items == pre + [x];
      WorstFoldShape(pre, k);
      WorstStepShape(pre, WorstFold(pre, k).value, x, k);
    }
  }

  /** One step of the worst heap with `k >= 1` keeps its shape. */
  lemma WorstStepShape(pre: seq<Entry>, h: seq<Entry>, x: Entry, k: int)
    requires k >= 1 && |h| == Seqs.Min(k, |pre|) && multiset(h) <= multiset(pre)
    ensures WorstStep(h, x, k).Ok?
    ensures |WorstStep(h, x, k).value| == Seqs.Min(k, |pre| + 1)
    ensures multiset(WorstStep(h, x, k).value) <= multiset(pre + [x])
    ensures x in WorstStep(h, x, k).value
  {
    assert multiset(pre + [x]) == multiset(pre) + multiset{x};
    if |h| < k {
      assert multiset(h + [x]) == multiset(h) + multiset{x};
    }
  }

  /** With `k <= 0` the first entry meets an empty heap and `heapreplace`
      raises IndexError; with no entries nothing fails. */
  lemma {:induction false} WorstFoldFails(items: seq<Entry>, k: int)
    requires k <= 0
    ensures WorstFold(items, k) == if items == [] then Ok([]) else Err(IndexError)
  {
    if |items| > 1 {
      WorstFoldFails(items[..|items| - 1], k);
    }
  }

  /** While at most `k` entries have arrived, the worst heap holds them all. */
  lemma {:induction false} WorstFoldShort(items: seq<Entry>, k: int)
    requires |items| <= k
    ensures WorstFold(items, k) == Ok(items)
  {
    if items != [] {
      WorstFoldShort(items[..|items| - 1], k);
      assert items == items[..|items| - 1] + [items[|items| - 1]];
    }
  }

  /** What the worst heap does keep, with `k >= 1`: the last entry, and
      beside it the largest of the earlier entries. Over `(-score, word)`
      entries that is the last word seen plus the `k - 1` lowest scores
      among the words before it. */
  lemma {:induction false} WorstFoldKeepsLastAndLargest(items: seq<Entry>, k: int)
    requires k >= 1 && items != []
    ensures WorstFold(items, k).Ok?
    ensures items[|items| - 1] in WorstFold(items, k).value
    ensures KeepsLargest(items[..|items| - 1], Remove(WorstFold(items, k).value, items[|items| - 1]))
  {
    var n := |items| - 1;
    var pre, x := items[..n], items[n];
    assert items == pre + [x];
    if n < k {
      WorstFoldShort(items, k);
      KeepsAllButLast(pre, x);
    } else {
      WorstFoldShape(pre, k);
      WorstFoldKeepsLastAndLargest(pre, k);
      assert pre[..n - 1] + [pre[n - 1]] == pre;
      WorstStepKeepsLastAndLargest(pre[..n - 1], pre[n - 1], WorstFold(pre, k).value, x, k);
    }
  }

  /** A heap holding every entry keeps the largest of those before the last. */
  lemma KeepsAllButLast(pre: seq<Entry>, x: Entry)
    ensures KeepsLargest(pre, Remove(pre + [x], x))
  {
    assert multiset(pre + [x]) == multiset(pre) + multiset{x};
    assert multiset(Remove(pre + [x], x)) == multiset(pre);
  }

  /** A `heapreplace` step on a full heap that holds a last entry `y` and the
      largest of the entries before it: the newcomer `x` comes in, and the
      rest is the largest of the entries up to `y`. */
  lemma WorstStepKeepsLastAndLargest(init: seq<Entry>, y: Entry, h: seq<Entry>, x: Entry, k: int)
    requires k >= 1 && |h| >= k && y in h && KeepsLargest(init, Remove(h, y))
    ensures WorstStep(h, x, k).Ok?
    ensures KeepsLargest(init + [y], Remove(WorstStep(h, x, k).value, x))
  {
    DropMinAfterLast(init, Remove(h, y), y, h);
    var r := WorstStep(h, x, k).value;
    assert multiset(Remove(r, x)) == multiset(Remove(h, MinOf(h)));
    KeepsLargestOfSameMultiset(init + [y], Remove(h, MinOf(h)), Remove(r, x));
  }

  /** A heap holding the largest of `init` plus one later entry `y` keeps the
      largest of `init + [y]` once its least entry is dropped. */
  lemma DropMinAfterLast(init: seq<Entry>, t: seq<Entry>, y: Entry, h: seq<Entry>)
    requires KeepsLargest(init, t) && multiset(h) == multiset(t) + multiset{y}
    ensures h != [] && KeepsLargest(init + [y], Remove(h, MinOf(h)))
  {
    assert y in multiset(h);
    var m := MinOf(h);
    var rest := Remove(h, m);
    assert multiset(init + [y]) == multiset(init) + multiset{y};
    forall d, z | d in multiset(init + [y]) - multiset(rest) && z in rest ensures EntryLe(d, z) {
      assert z in multiset(rest);
      DropMinPair(init, t, y, h, m, multiset(rest), d, z);
    }
  }

  /** One pair of `DropMinAfterLast`: an entry left out is no greater than
      an entry kept. */
  lemma DropMinPair(init: seq<Entry>, t: seq<Entry>, y: Entry, h: seq<Entry>, m: Entry,
                    rest: multiset<Entry>, d: Entry, z: Entry)
    requires KeepsLargest(init, t) && multiset(h) == multiset(t) + multiset{y}
    requires h != [] && m == MinOf(h) && rest == multiset(h) - multiset{m}
    requires d in multiset(init) + multiset{y} - rest && z in rest
    ensures EntryLe(d, z)
  {
    assert z in multiset(h);
    if d != m {
      assert d in multiset(init) - multiset(t);
      if z !in multiset(t) {
        assert m in multiset(t);
        EntryLeTransitive(d, m, z);
      }
    }
  }

  /** Whether a heap keeps the largest depends only on its entries. */
  lemma KeepsLargestOfSameMultiset(items: seq<Entry>, a: seq<Entry>, b: seq<Entry>)
    requires KeepsLargest(items, a) && multiset(a) == multiset(b)
    ensures KeepsLargest(items, b)
  {
    forall d, y | d in multiset(items) - multiset(b) && y in b ensures EntryLe(d, y) {
      assert y in multiset(b);
      assert y in a;
    }
  }

  /** The worst heap is not the `k` least scores: with one slot and the
      scores 1.0 ("a") then 2.0 ("b") it keeps "b", the higher score. */
  lemma WorstHeapIsNotBottomK()
    ensures WorstFold([(-1.0, "a"), (-2.0, "b")], 1) == Ok([(-2.0, "b")])
  {
    var a: Entry, b: Entry := (-1.0, "a"), (-2.0, "b");
    var none: seq<Entry> := [];
    assert [a, b][..1] == [a] && [a][..0] == none;
    assert none + [a] == [a];
    assert WorstFold([a], 1) == WorstStep(none, a, 1) == Ok([a]);
    assert MinOf([a]) == a;
    assert Remove([a], a) == none;
    assert Remove([a], a) + [b] == [b];
    assert WorstStep([a], b, 1) == Ok([b]);
  }

  /** The worst heap as the comment of `find_optimal_guesses` intends it, the
      `num_worst` lowest scores: over the `(-score, word)` entries, a
      `heappushpop` step once the heap is full instead of `heapreplace`. It
      keeps the largest negated entries, so no word left out scores lower
      than a word kept, and it never fails. */
  function IntendedWorstFold(items: seq<Entry>, k: int): (r: seq<Entry>)
    ensures |r| == Seqs.Min(Seqs.Max(k, 0), |items|)
    ensures KeepsLargest(items, r)
  {
    BestFoldSize(items, k);
    BestFoldIsTopK(items, k);
    BestFold(items, k)
  }
}
