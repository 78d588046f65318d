/**
 Counting the keys of a table before it is resized.
 */
module TableCount {
  import opened Numbers
  import opened LuaValue
  import opened TableChain
  import opened TableSizes
  import opened TableMap

  /** The candidates for the array part. */
  ghost function IntKeys(keys: set<Key>): set<int> {
    set k | k in keys && InArray(k, MAXASIZE) :: k.n.i
  }

  /** The keys that an array part of size `n` leaves to the hash part. */
  ghost function Outside(keys: set<Key>, n: nat): set<Key> {
    set k | k in keys && !InArray(k, n)
  }

  /** With its optimal array part, a table of these keys would need more nodes than a
      hash part can have. */
  ghost predicate TooMany(keys: set<Key>) {
    exists n: nat :: TooManyFor(keys, n)
  }

  ghost predicate TooManyFor(keys: set<Key>, n: nat) {
    n <= MAXASIZE && Optimal(IntKeys(keys), n) && |Outside(keys, n)| > MAXASIZE
  }

  /** The sizes that a rehash gives both parts: the best array part, and as many nodes
      as the other keys need, up to the next power of two. */
  ghost predicate BestSizes(keys: set<Key>, asize: nat, hsize: nat, dummy: bool) {
    Optimal(IntKeys(keys), asize) && NodesFor(|Outside(keys, asize)|, hsize, dummy)
  }

  predicate NodesFor(count: nat, hsize: nat, dummy: bool) {
    dummy == (count == 0) && if dummy then hsize == 1 else hsize / 2 < count <= hsize
  }

  lemma {:induction false} OutsideCount(keys: set<Key>, n: nat)
    requires n <= MAXASIZE
    ensures |Outside(keys, n)| + |UpTo(IntKeys(keys), n)| == |keys|
  {
    if keys == {} {
      assert Outside(keys, n) == {} && UpTo(IntKeys(keys), n) == {};
    } else {
      var k :| k in keys;
      var rest := keys - {k};
      OutsideCount(rest, n);
      assert keys == rest + {k};
      if InArray(k, n) {
        assert Outside(keys, n) == Outside(rest, n);
        assert UpTo(IntKeys(keys), n) == UpTo(IntKeys(rest), n) + {k.n.i};
        assert k.n.i !in IntKeys(rest);
      } else {
        assert Outside(keys, n) == Outside(rest, n) + {k};
        assert UpTo(IntKeys(keys), n) == UpTo(IntKeys(rest), n);
      }
    }
  }

  /** One more key, counted in its slice. */
  lemma CountedMore(keys: set<int>, nums: seq<nat>, k: int, e: nat)
    requires Counted(keys, nums) && k !in keys && InSlice(k, e) && e <= MAXBITS
    ensures Counted(keys + {k}, nums[e := nums[e] + 1])
  {
    forall d | 0 <= d <= MAXBITS ensures nums[e := nums[e] + 1][d] == |Slice(keys + {k}, d)| {
      if d == e {
        assert Slice(keys + {k}, d) == Slice(keys, d) + {k};
      } else {
        if InSlice(k, d) {
          SliceUnique(k, d, e);
        }
        assert Slice(keys + {k}, d) == Slice(keys, d);
      }
    }
  }

  lemma SliceInRange(k: int, e: nat)
    requires InSlice(k, e) && k <= MAXASIZE
    ensures e <= MAXBITS
  {
    MaxSize();
    if e > MAXBITS {
      PowMonotone(MAXBITS, e - 1);
    }
  }

  // ---------------------------------------------------------------- the array part

  /** The indices from `lo` up to, not including, `hi` that hold a value. */
  ghost function Present<V>(arr: seq<Option<V>>, lo: int, hi: int): set<int> {
    set k: int | lo <= k < hi && HasValue(arr, k)
  }

  ghost predicate HasValue<V>(arr: seq<Option<V>>, k: int) {
    1 <= k <= |arr| && arr[k - 1].Some?
  }

  /** The slices below `e` are counted. */
  ghost predicate CountedBelow(keys: set<int>, nums: seq<nat>, e: nat) {
    |nums| == MAXBITS + 1 && forall d | 0 <= d <= MAXBITS :: nums[d] == if d < e then |Slice(keys, d)| else 0
  }

  function SliceEnd(e: nat, size: nat): nat {
    if Pow2(e) > size then size else Pow2(e)
  }

  lemma PresentMore<V>(arr: seq<Option<V>>, lo: int, i: int)
    requires lo <= i && 1 <= i <= |arr|
    ensures |Present(arr, lo, i + 1)| == |Present(arr, lo, i)| + if arr[i - 1].Some? then 1 else 0
  {
    if arr[i - 1].Some? {
      assert Present(arr, lo, i + 1) == Present(arr, lo, i) + {i};
    } else {
      assert Present(arr, lo, i + 1) == Present(arr, lo, i);
    }
  }

  lemma PresentJoin<V>(arr: seq<Option<V>>, lo: int, mid: int, hi: int)
    requires lo <= mid <= hi
    ensures |Present(arr, lo, hi)| == |Present(arr, lo, mid)| + |Present(arr, mid, hi)|
  {
    assert Present(arr, lo, hi) == Present(arr, lo, mid) + Present(arr, mid, hi);
  }

  /** The indices of one slice. */
  lemma PresentSlice<V>(arr: seq<Option<V>>, e: nat)
    ensures var lo := if e == 0 then 1 else SliceEnd(e - 1, |arr|) + 1;
            Slice(Present(arr, 1, |arr| + 1), e) == Present(arr, lo, SliceEnd(e, |arr|) + 1)
  {
  }

  lemma SlicesEnd<V>(arr: seq<Option<V>>, nums: seq<nat>, e: nat)
    requires CountedBelow(Present(arr, 1, |arr| + 1), nums, e)
    requires e > 0 ==> Pow2(e - 1) >= |arr|
    requires e == 0 ==> |arr| == 0
    ensures Counted(Present(arr, 1, |arr| + 1), nums)
  {
    var keys := Present(arr, 1, |arr| + 1);
    forall d: nat | e <= d <= MAXBITS ensures |Slice(keys, d)| == 0 {
      if e > 0 {
        PowMonotone(e - 1, d);
        PowMonotone(e - 1, if d > 0 then d - 1 else 0);
      }
      assert Slice(keys, d) == {};
    }
  }

  /** `numusearray`: how many elements have a value, each counted in its slice. */
  method NumUseArray<V>(arr: seq<Option<V>>, nums: array<nat>) returns (ause: nat)
    requires |arr| <= MAXASIZE && nums.Length == MAXBITS + 1 && forall e | 0 <= e <= MAXBITS :: nums[e] == 0
    modifies nums
    ensures Counted(Present(arr, 1, |arr| + 1), nums[..]) && ause == |Present(arr, 1, |arr| + 1)|
  {
    hide Pow2, Slice, Present, Counted;
    ghost var keys := Present(arr, 1, |arr| + 1);
    NothingPresent(arr);
    MaxSize();
    var lg, ttlg, i := 0, 1, 1;
    ause := 0;
    while lg <= MAXBITS
      invariant 0 <= lg <= MAXBITS + 1 && ttlg == Pow2(lg)
      invariant i == if lg == 0 then 1 else SliceEnd(lg - 1, |arr|) + 1
      invariant ause == |Present(arr, 1, i)| && CountedBelow(keys, nums[..], lg)
    {
      var lc := 0;
      var lim := ttlg;
      if lim > |arr| {
        lim := |arr|;
        if i > lim {
          break;
        }
      }
      ghost var lo := i;
      SliceGrows(lg, |arr|);
      NonePresent(arr, i);
      while i <= lim
        invariant lo <= i <= lim + 1 && lim <= |arr|
        invariant lc == |Present(arr, lo, i)| && CountedBelow(keys, nums[..], lg)
      {
        PresentMore(arr, lo, i);
        if arr[i - 1].Some? {
          lc := lc + 1;
        }
        i := i + 1;
      }
      PresentSlice(arr, lg);
      PresentJoin(arr, 1, lo, i);
      nums[lg] := nums[lg] + lc;
      ause := ause + lc;
      TwoTo(lg);
      lg, ttlg := lg + 1, ttlg * 2;
    }
    assert i == |arr| + 1;
    LastSlice(lg, |arr|);
    SlicesEnd(arr, nums[..], lg);
  }

  lemma TwoTo(e: nat)
    ensures Pow2(e + 1) == 2 * Pow2(e)
  {
  }

  lemma NothingPresent<V>(arr: seq<Option<V>>)
    ensures |Present(arr, 1, 1)| == 0 && Pow2(0) == 1
  {
    assert Present(arr, 1, 1) == {};
  }

  lemma NonePresent<V>(arr: seq<Option<V>>, i: int)
    ensures |Present(arr, i, i)| == 0
  {
    assert Present(arr, i, i) == {};
  }

  lemma SliceGrows(e: nat, size: nat)
    ensures e > 0 ==> SliceEnd(e - 1, size) <= SliceEnd(e, size)
  {
  }

  lemma LastSlice(e: nat, size: nat)
    requires e > 0 ==> SliceEnd(e - 1, size) == size
    ensures e > 0 ==> Pow2(e - 1) >= size
  {
  }

  lemma IntKeysOfArray<V>(arr: seq<Option<V>>)
    requires |arr| <= MAXASIZE
    ensures IntKeys(ArrayKeys(arr)) == Present(arr, 1, |arr| + 1)
    ensures |ArrayKeys(arr)| == |Present(arr, 1, |arr| + 1)|
  {
    var keys := ArrayKeys(arr);
    forall k | HasValue(arr, k) ensures At(k) in keys {
      assert At(k) == At(k - 1 + 1);
    }
    assert IntKeys(keys) == Present(arr, 1, |arr| + 1);
    AllInArray(keys);
  }

  lemma AllInArray(keys: set<Key>)
    requires forall k | k in keys :: InArray(k, MAXASIZE)
    ensures |keys| == |IntKeys(keys)|
  {
    OutsideCount(keys, MAXASIZE);
    assert Outside(keys, MAXASIZE) == {};
    assert UpTo(IntKeys(keys), MAXASIZE) == IntKeys(keys);
  }

  // ---------------------------------------------------------------- the hash part

  /** `arrayindex`: the key as an `int`, or -1. */
  function ArrayIndex(key: Key): int {
    if key.NumKey? && key.n.Int? && -0x8000_0000 <= key.n.i < 0x8000_0000 then key.n.i else -1
  }

  /** `countint`: one more candidate for the array part, if the key is one. */
  method CountInt(key: Key, nums: array<nat>, ghost keys: set<int>) returns (b: nat)
    requires nums.Length == MAXBITS + 1 && Counted(keys, nums[..])
    requires InArray(key, MAXASIZE) ==> key.n.i !in keys
    modifies nums
    ensures b == if InArray(key, MAXASIZE) then 1 else 0
    ensures Counted(keys + IntKeys({key}), nums[..])
  {
    hide Counted;
    var k := ArrayIndex(key);
    if 0 < k <= MAXASIZE {
      var e := CeilLog2(k);
      SliceInRange(k, e);
      CountedMore(keys, nums[..], k, e);
      ghost var before := nums[..];
      CountedLength(keys, before);
      nums[e] := nums[e] + 1;
      assert nums[..] == before[e := before[e] + 1];
      assert IntKeys({key}) == {k};
      return 1;
    } else {
      assert IntKeys({key}) == {};
      assert keys + {} == keys;
      return 0;
    }
  }

  lemma CountedLength(keys: set<int>, nums: seq<nat>)
    requires Counted(keys, nums)
    ensures |nums| == MAXBITS + 1
  {
  }

  lemma HashKeysStep<V>(nodes: seq<Node<V>>, rank: seq<real>, i: nat)
    requires |rank| == |nodes| && Keyed(nodes, rank) && i < |nodes|
    ensures var rest := HashKeys(nodes[i + 1..]);
            if nodes[i].val.Some? then
              nodes[i].key.Live? && nodes[i].key.k !in rest && HashKeys(nodes[i..]) == rest + {nodes[i].key.k}
            else HashKeys(nodes[i..]) == rest
  {
    var rest, all := HashKeys(nodes[i + 1..]), HashKeys(nodes[i..]);
    forall k | k in rest ensures k in all {
      var j :| 0 <= j < |nodes| - i - 1 && nodes[i + 1..][j].key == Live(k) && nodes[i + 1..][j].val.Some?;
      assert nodes[i..][j + 1] == nodes[i + 1..][j];
    }
    forall k | k in all ensures k in rest || (nodes[i].key == Live(k) && nodes[i].val.Some?) {
      var j :| 0 <= j < |nodes| - i && nodes[i..][j].key == Live(k) && nodes[i..][j].val.Some?;
      if j > 0 {
        assert nodes[i..][j] == nodes[i + 1..][j - 1];
      }
    }
    if nodes[i].val.Some? {
      assert nodes[i..][0] == nodes[i];
      assert all == rest + {nodes[i].key.k};
    } else {
      assert all == rest;
    }
  }

  lemma IntKeysStep(rest: set<Key>, k: Key)
    requires k !in rest
    ensures IntKeys(rest + {k}) == IntKeys(rest) + IntKeys({k})
    ensures InArray(k, MAXASIZE) ==> IntKeys({k}) == {k.n.i} && k.n.i !in IntKeys(rest)
    ensures !InArray(k, MAXASIZE) ==> IntKeys({k}) == {}
    ensures |IntKeys(rest + {k})| == |IntKeys(rest)| + if InArray(k, MAXASIZE) then 1 else 0
  {
    assert IntKeys(rest + {k}) == IntKeys(rest) + IntKeys({k});
  }

  lemma Regrouped(a: set<int>, b: set<int>, c: set<int>)
    ensures a + b + c == a + (b + c)
  {
  }

  /** `numusehash`: how many keys have a value, those for the array part counted in
      their slices. */
  method NumUseHash<V>(nodes: seq<Node<V>>, nums: array<nat>, ghost rank: seq<real>, ghost keys: set<int>)
    returns (totaluse: nat, ause: nat)
    requires |rank| == |nodes| && Keyed(nodes, rank)
    requires nums.Length == MAXBITS + 1 && Counted(keys, nums[..]) && keys !! IntKeys(HashKeys(nodes))
    modifies nums
    ensures totaluse == |HashKeys(nodes)| && ause == |IntKeys(HashKeys(nodes))|
    ensures Counted(keys + IntKeys(HashKeys(nodes)), nums[..])
  {
    hide Counted, HashKeys, IntKeys, Keyed, InArray;
    totaluse, ause := 0, 0;
    assert nodes[|nodes|..] == [];
    NoHashKeys<V>();
    assert keys + {} == keys;
    assert nodes[0..] == nodes;
    for i := |nodes| downto 0
      invariant totaluse == |HashKeys(nodes[i..])| && ause == |IntKeys(HashKeys(nodes[i..]))|
      invariant Counted(keys + IntKeys(HashKeys(nodes[i..])), nums[..])
    {
      HashKeysStep(nodes, rank, i);
      if nodes[i].val.Some? {
        ghost var rest, k := HashKeys(nodes[i + 1..]), nodes[i].key.k;
        IntKeysStep(rest, k);
        Counting(nodes, i, k, keys);
        var b := CountInt(nodes[i].key.k, nums, keys + IntKeys(rest));
        Regrouped(keys, IntKeys(rest), IntKeys({k}));
        ause := ause + b;
        totaluse := totaluse + 1;
      }
    }
  }

  lemma NoHashKeys<V>()
    ensures HashKeys<V>([]) == {} && IntKeys({}) == {}
  {
  }

  lemma Counting<V>(nodes: seq<Node<V>>, i: nat, k: Key, keys: set<int>)
    requires keys !! IntKeys(HashKeys(nodes)) && i < |nodes| && nodes[i].key == Live(k) && nodes[i].val.Some?
    ensures InArray(k, MAXASIZE) ==> k.n.i !in keys
  {
    assert k in HashKeys(nodes);
    if InArray(k, MAXASIZE) {
      assert k.n.i in IntKeys(HashKeys(nodes));
    }
  }

  /** What `rehash` passes on: all candidates, and the sizes that follow. */
  lemma AllKeys<V>(arr: seq<Option<V>>, nodes: seq<Node<V>>, rank: seq<real>, ek: Key)
    requires |arr| <= MAXASIZE && |rank| == |nodes| && Keyed(nodes, rank) && Apart(arr, nodes)
    requires ek !in MapOf(arr, nodes)
    ensures var ints, hash, all := Present(arr, 1, |arr| + 1), HashKeys(nodes), MapOf(arr, nodes).Keys + {ek};
            && ints !! IntKeys(hash)
            && (InArray(ek, MAXASIZE) ==> ek.n.i !in ints + IntKeys(hash))
            && ints + IntKeys(hash) + IntKeys({ek}) == IntKeys(all)
            && |ints| + |IntKeys(hash)| + (if InArray(ek, MAXASIZE) then 1 else 0) == |IntKeys(all)|
            && |ints| + |hash| + 1 == |all|
  {
    var keys := MapOf(arr, nodes).Keys;
    MapKeys(arr, nodes, rank);
    IntKeysOfArray(arr);
    var a, h := ArrayKeys(arr), HashKeys(nodes);
    assert IntKeys(a + h) == IntKeys(a) + IntKeys(h);
    assert IntKeys(a) !! IntKeys(h);
    IntKeysStep(keys, ek);
  }

  /** The keys of both parts and the extra key, the candidates for the array part
      also by slices. */
  method CountKeys<V>(arr: seq<Option<V>>, nodes: seq<Node<V>>, ghost rank: seq<real>, ek: Key, nums: array<nat>)
    returns (totaluse: nat, nasize: nat)
    requires |arr| <= MAXASIZE && |rank| == |nodes| && Keyed(nodes, rank) && Apart(arr, nodes)
    requires ek !in MapOf(arr, nodes)
    requires nums.Length == MAXBITS + 1 && forall e | 0 <= e <= MAXBITS :: nums[e] == 0
    modifies nums
    ensures totaluse == |MapOf(arr, nodes).Keys + {ek}| && nasize == |IntKeys(MapOf(arr, nodes).Keys + {ek})|
    ensures Counted(IntKeys(MapOf(arr, nodes).Keys + {ek}), nums[..])
  {
    hide MapOf, Present, HashKeys, IntKeys, Counted, InArray, Keyed, Apart;
    AllKeys(arr, nodes, rank, ek);
    ghost var ints, h := Present(arr, 1, |arr| + 1), HashKeys(nodes);
    nasize := NumUseArray(arr, nums);
    totaluse := nasize;
    var used, ause := NumUseHash(nodes, nums, rank, ints);
    totaluse := totaluse + used;
    nasize := nasize + ause;
    var one := CountInt(ek, nums, ints + IntKeys(h));
    nasize := nasize + one;
    totaluse := totaluse + 1;
  }
}
