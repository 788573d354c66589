/** The draw order of renderable objects: every static and mobile entity
    becomes a (layer, index, y) entry, and the entries are sorted by y with
    a first-element-pivot quicksort so that objects further up the screen
    are drawn first. */
module DrawOrder {

  /** One renderable: its layer (0 for statics, 1 for mobiles), its index
      in that layer's list, and the y coordinate it is ordered by. */
  datatype Entry = Entry(layer: nat, index: nat, key: real)

  /** The keys never decrease along `s`. */
  ghost predicate Sorted(s: seq<Entry>)
  {
    forall i, j :: 0 <= i < j < |s| ==> s[i].key <= s[j].key
  }

  /** The keys of `s`, in order. */
  function Keys(s: seq<Entry>): seq<real>
  {
    seq(|s|, i requires 0 <= i < |s| => s[i].key)
  }

  /** The entries `order_sort` collects before sorting: the statics with
      layer 0, then the mobiles with layer 1, each numbered from 0 and
      carrying its entity's y. */
  function Tagged(staticYs: seq<real>, mobileYs: seq<real>): (list: seq<Entry>)
    ensures |list| == |staticYs| + |mobileYs|
  {
    seq(|staticYs|, i requires 0 <= i < |staticYs| => Entry(0, i, staticYs[i]))
      + seq(|mobileYs|, i requires 0 <= i < |mobileYs| => Entry(1, i, mobileYs[i]))
  }

  /** An entry is collected exactly when it names a static or a mobile by
      its index and carries that entity's y. */
  lemma TaggedEntries(staticYs: seq<real>, mobileYs: seq<real>, e: Entry)
    ensures e in Tagged(staticYs, mobileYs) <==>
      || (e.layer == 0 && e.index < |staticYs| && e.key == staticYs[e.index])
      || (e.layer == 1 && e.index < |mobileYs| && e.key == mobileYs[e.index])
  {
    var list := Tagged(staticYs, mobileYs);
    if e.layer == 0 && e.index < |staticYs| && e.key == staticYs[e.index] {
      assert list[e.index] == e;
    } else if e.layer == 1 && e.index < |mobileYs| && e.key == mobileYs[e.index] {
      assert list[|staticYs| + e.index] == e;
    }
  }

  /** Entries are never collected twice: each (layer, index) pair occurs
      once. */
  lemma TaggedDistinct(staticYs: seq<real>, mobileYs: seq<real>)
    ensures var list := Tagged(staticYs, mobileYs);
      forall i, j :: 0 <= i < j < |list| ==> (list[i].layer, list[i].index) != (list[j].layer, list[j].index)
  {
  }

  /** The two-cursor partition of `sort`, with the first element as pivot.
      Afterwards the pivot sits at `m`, no key before it is larger and no
      key after it is smaller. The cursors are `nat`s, as `indx2` is a
      `usize` that the loop never takes below 0. */
  method Partition(a: array<Entry>) returns (m: nat)
    requires a.Length >= 2
    modifies a
    ensures m < a.Length && a[m] == old(a[0])
    ensures forall k :: 0 <= k < m ==> a[k].key <= a[m].key
    ensures forall k :: m < k < a.Length ==> a[m].key <= a[k].key
    ensures multiset(a[..]) == multiset(old(a[..]))
  {
    var indx1: nat := 1;
    var indx2: nat := a.Length - 1;
    var pivot := 0;
    while indx2 >= indx1
      invariant 1 <= indx1 <= indx2 + 1 <= a.Length
      invariant a[pivot] == old(a[0])
      invariant forall k :: 1 <= k < indx1 ==> a[k].key <= a[pivot].key
      invariant forall k :: indx2 < k < a.Length ==> a[pivot].key <= a[k].key
      invariant multiset(a[..]) == multiset(old(a[..]))
      decreases indx2 + 1 - indx1, if indx1 < a.Length && a[indx1].key > a[pivot].key then 1 else 0
    {
      ghost var start1, start2 := indx1, indx2;
      while indx1 <= indx2 && a[indx1].key <= a[pivot].key
        invariant start1 <= indx1 <= indx2 + 1
        invariant forall k :: 1 <= k < indx1 ==> a[k].key <= a[pivot].key
      {
        indx1 := indx1 + 1;
      }
      while indx2 >= indx1 && a[indx2].key >= a[pivot].key
        invariant 1 <= indx1 <= indx2 + 1 && indx2 <= start2
        invariant forall k :: indx2 < k < a.Length ==> a[pivot].key <= a[k].key
      {
        indx2 := indx2 - 1;
      }
      if indx2 > indx1 {
        Swap(a, indx1, indx2);
      }
    }
    Swap(a, pivot, indx2);
    m := indx2;
  }

  /** `swap` on the list: exchanges two positions, which keeps the same
      entries. */
  method Swap(a: array<Entry>, i: nat, j: nat)
    requires i < a.Length && j < a.Length
    modifies a
    ensures a[i] == old(a[j]) && a[j] == old(a[i])
    ensures forall k :: 0 <= k < a.Length && k != i && k != j ==> a[k] == old(a[k])
    ensures multiset(a[..]) == multiset(old(a[..]))
  {
    a[i], a[j] := a[j], a[i];
  }

  /** `sort`: a list of at most one entry is left alone; otherwise the
      list is partitioned, the copies of both sides are sorted
      recursively, and the list is rebuilt as left side, pivot, right
      side. The result is sorted by key and a permutation of the input. */
  method Sort(a: array<Entry>)
    modifies a
    ensures Sorted(a[..])
    ensures multiset(a[..]) == multiset(old(a[..]))
    ensures a.Length <= 1 ==> a[..] == old(a[..])
    decreases a.Length
  {
    if !(a.Length <= 1) {
      var m := Partition(a);
      ghost var parts := a[..];
      var left := CopyRange(a, 0, m);
      assert left[..] == parts[..m];
      Sort(left);
      var right := CopyRange(a, m + 1, a.Length);
      assert right[..] == parts[m + 1..];
      Sort(right);
      SortedPieces(parts, m, left[..], right[..]);
      Overwrite(a, left[..] + [a[m]] + right[..]);
    }
  }

  /** `list[lo..hi].to_vec()`: a fresh copy of a slice. */
  method CopyRange(a: array<Entry>, lo: nat, hi: nat) returns (b: array<Entry>)
    requires lo <= hi <= a.Length
    ensures fresh(b) && b[..] == a[lo..hi]
  {
    b := new Entry[hi - lo];
    forall i | 0 <= i < hi - lo {
      b[i] := a[lo + i];
    }
  }

  /** `list.clear()` followed by `list.extend_from_slice(s)`. */
  method Overwrite(a: array<Entry>, s: seq<Entry>)
    requires |s| == a.Length
    modifies a
    ensures a[..] == s
  {
    forall i | 0 <= i < a.Length {
      a[i] := s[i];
    }
  }

  /** Joining sorted permutations of the two sides of a partition around
      its pivot gives a sorted permutation of the partitioned list. */
  lemma SortedPieces(parts: seq<Entry>, m: nat, l: seq<Entry>, r: seq<Entry>)
    requires m < |parts|
    requires forall k :: 0 <= k < m ==> parts[k].key <= parts[m].key
    requires forall k :: m < k < |parts| ==> parts[m].key <= parts[k].key
    requires Sorted(l) && multiset(l) == multiset(parts[..m])
    requires Sorted(r) && multiset(r) == multiset(parts[m + 1..])
    ensures Sorted(l + [parts[m]] + r)
    ensures multiset(l + [parts[m]] + r) == multiset(parts)
  {
    assert parts == parts[..m] + [parts[m]] + parts[m + 1..];
    BoundsCarry(l, parts[..m], parts[m].key, true);
    BoundsCarry(r, parts[m + 1..], parts[m].key, false);
    SortedJoin(l, parts[m], r);
  }

  /** Reordering keeps a bound on the keys: if every key of `t` is at most
      (`below`) or at least (not `below`) `k`, so is every key of a
      permutation `s` of `t`. */
  lemma BoundsCarry(s: seq<Entry>, t: seq<Entry>, k: real, below: bool)
    requires multiset(s) == multiset(t)
    requires forall i :: 0 <= i < |t| ==> if below then t[i].key <= k else k <= t[i].key
    ensures forall i :: 0 <= i < |s| ==> if below then s[i].key <= k else k <= s[i].key
  {
    forall i | 0 <= i < |s|
      ensures if below then s[i].key <= k else k <= s[i].key
    {
      assert s[i] in multiset(t);
      var j :| 0 <= j < |t| && t[j] == s[i];
    }
  }

  /** A sorted left side, the pivot and a sorted right side make a sorted
      list when no left key exceeds the pivot's and no right key is below
      it. */
  lemma SortedJoin(l: seq<Entry>, p: Entry, r: seq<Entry>)
    requires Sorted(l) && Sorted(r)
    requires forall i :: 0 <= i < |l| ==> l[i].key <= p.key
    requires forall i :: 0 <= i < |r| ==> p.key <= r[i].key
    ensures Sorted(l + [p] + r)
  {
    var s := l + [p] + r;
    forall i, j | 0 <= i < j < |s|
      ensures s[i].key <= s[j].key
    {
      if j < |l| {
        assert s[i] == l[i] && s[j] == l[j];
      } else if i > |l| {
        assert s[i] == r[i - |l| - 1] && s[j] == r[j - |l| - 1];
      }
    }
  }

  /** `order_sort`: collects the statics' and the mobiles' entries, in that
      order, and sorts them by y. The result holds each collected entry
      once and its keys never decrease. */
  method OrderSort(staticYs: seq<real>, mobileYs: seq<real>) returns (list: seq<Entry>)
    ensures Sorted(list)
    ensures multiset(list) == multiset(Tagged(staticYs, mobileYs))
  {
    list := [];
    var iter: nat := 0;
    while iter < |staticYs|
      invariant iter <= |staticYs|
      invariant list == Tagged(staticYs[..iter], [])
    {
      list := list + [Entry(0, iter, staticYs[iter])];
      iter := iter + 1;
    }
    assert staticYs[..iter] == staticYs;
    iter := 0;
    while iter < |mobileYs|
      invariant iter <= |mobileYs|
      invariant list == Tagged(staticYs, mobileYs[..iter])
    {
      list := list + [Entry(1, iter, mobileYs[iter])];
      iter := iter + 1;
    }
    assert mobileYs[..iter] == mobileYs;
    var a := new Entry[|list|](i requires 0 <= i < |list| => list[i]);
    assert a[..] == list;
    Sort(a);
    list := a[..];
  }

  /** The draw order is determined up to entries with equal keys: two
      sorted permutations of the same entries have the same key sequence,
      so whichever pivots the sort meets, the keys come out the same. */
  lemma {:induction false} SortedKeysUnique(s: seq<Entry>, t: seq<Entry>)
    requires Sorted(s) && Sorted(t) && multiset(s) == multiset(t)
    ensures Keys(s) == Keys(t)
  {
    KeysMultiset(s, t);
    SortedRealsUnique(Keys(s), Keys(t));
  }

  /** Permutations of entries have permuted keys. */
  lemma {:induction false} KeysMultiset(s: seq<Entry>, t: seq<Entry>)
    requires multiset(s) == multiset(t)
    ensures multiset(Keys(s)) == multiset(Keys(t))
    decreases |s|
  {
    if s != [] {
      assert s[0] in multiset(t);
      var j :| 0 <= j < |t| && t[j] == s[0];
      var t' := t[..j] + t[j + 1..];
      RemoveAt(t, j);
      RemoveAt(s, 0);
      assert s[..0] + s[1..] == s[1..];
      KeysMultiset(s[1..], t');
      KeysRemoveAt(t, j);
      KeysRemoveAt(s, 0);
    }
  }

  /** Removing the element at `j` removes one copy of it. */
  lemma RemoveAt<T>(t: seq<T>, j: nat)
    requires j < |t|
    ensures multiset(t[..j] + t[j + 1..]) == multiset(t) - multiset{t[j]}
  {
    assert t == t[..j] + [t[j]] + t[j + 1..];
  }

  /** Removing the entry at `j` removes one copy of its key. */
  lemma KeysRemoveAt(t: seq<Entry>, j: nat)
    requires j < |t|
    ensures multiset(Keys(t)) == multiset(Keys(t[..j] + t[j + 1..])) + multiset{t[j].key}
  {
    var before, after := Keys(t[..j]), Keys(t[j + 1..]);
    assert Keys(t) == before + [t[j].key] + after;
    assert Keys(t[..j] + t[j + 1..]) == before + after;
  }

  /** Two non-decreasing sequences of reals with the same elements are
      equal. */
  lemma {:induction false} SortedRealsUnique(r: seq<real>, q: seq<real>)
    requires forall i, j :: 0 <= i < j < |r| ==> r[i] <= r[j]
    requires forall i, j :: 0 <= i < j < |q| ==> q[i] <= q[j]
    requires multiset(r) == multiset(q)
    ensures r == q
    decreases |r|
  {
    assert |q| == |multiset(q)| == |multiset(r)| == |r|;
    if r != [] {
      SameLeast(r, q);
      SameTails(r, q);
      SortedRealsUnique(r[1..], q[1..]);
    }
  }

  /** Sequences with the same elements and the same first element have
      the same remaining elements. */
  lemma SameTails<T>(r: seq<T>, q: seq<T>)
    requires |r| > 0 && |q| > 0 && r[0] == q[0] && multiset(r) == multiset(q)
    ensures multiset(r[1..]) == multiset(q[1..])
  {
    assert r == [r[0]] + r[1..];
    assert q == [q[0]] + q[1..];
    assert multiset(r[1..]) == multiset(r) - multiset{r[0]};
    assert multiset(q[1..]) == multiset(q) - multiset{q[0]};
  }

  /** Two non-decreasing sequences with the same elements start alike. */
  lemma SameLeast(r: seq<real>, q: seq<real>)
    requires |r| > 0 && |q| > 0
    requires forall i, j :: 0 <= i < j < |r| ==> r[i] <= r[j]
    requires forall i, j :: 0 <= i < j < |q| ==> q[i] <= q[j]
    requires multiset(r) == multiset(q)
    ensures r[0] == q[0]
  {
    assert r[0] in multiset(q) && q[0] in multiset(r);
    var j :| 0 <= j < |q| && q[j] == r[0];
    var k :| 0 <= k < |r| && r[k] == q[0];
    assert q[0] <= q[j] && r[0] <= r[k];
  }
}
